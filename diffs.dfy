/**
 * `diffObjectFromOldObject` of the dirty-checking engine (dist/aj.js:1365-1406):
 * the difference between an object and an earlier copy of it, as the keys
 * added, removed and changed.
 */
module Diffs {
  import opened JsCore

  /** The keys a diff reports, each with its value: added, removed (to undefined) and changed. */
  datatype Diff = Diff(added: map<string, Value>, removed: map<string, Value>, changed: map<string, Value>)

  /** `diffIsEmpty` (dist/aj.js:1365-1369): no key in any of the three parts. */
  predicate DiffIsEmpty(d: Diff) {
    d.added == map[] && d.removed == map[] && d.changed == map[]
  }

  /**
   * What the diff reads of an object: its own enumerable properties, and its
   * `length` when it is an array.
   */
  datatype View = View(props: map<string, Value>, length: Option<nat>)

  function ViewOf(o: JsObject): View {
    View(OwnProps(o), if o.ArrayObj? then Some(|o.elems|) else None)
  }

  /** The view of an array has no own property named `length`. */
  predicate WellFormed(v: View) {
    v.length.Some? ==> "length" !in v.props
  }

  /** The properties of an array are its indices, so `length` is not among them. */
  lemma ViewOfWellFormed(o: JsObject)
    ensures WellFormed(ViewOf(o))
  {
    if o.ArrayObj? {
      assert !IsDigits("length") by {
        assert !IsDigit("length"[0]);
      }
      assert forall i: nat :: NatToString(i) != "length";
    }
  }

  /** `key in o`: an own property, or the `length` of an array. */
  predicate Has(o: View, key: string) {
    key in o.props || (o.length.Some? && key == "length")
  }

  /** `o[key]` on an own property or an array's `length`; anything else reads undefined. */
  function Get(o: View, key: string): Value {
    if o.length.Some? && key == "length" then Num(o.length.value)
    else if key in o.props then o.props[key]
    else Undefined
  }

  /** An array whose length is not `===` to the old object's `length`. */
  predicate LengthChanged(target: View, oldObject: View) {
    target.length.Some? && !StrictEquals(Num(target.length.value), Get(oldObject, "length"))
  }

  /** A key the diff reports as changed: present before and now, and not `===`; or an array's length. */
  predicate Changed(target: View, oldObject: View, key: string) {
    (key in oldObject.props && Has(target, key) && !StrictEquals(Get(target, key), oldObject.props[key]))
    || (key == "length" && LengthChanged(target, oldObject))
  }

  /** The diff of an object against its old snapshot, part by part. */
  function ObjectDiff(target: View, oldObject: View): Diff {
    Diff(map k | k in target.props && !Has(oldObject, k) :: target.props[k],
         map k | k in oldObject.props && !Has(target, k) :: Undefined,
         map k | k in oldObject.props.Keys + {"length"} && Changed(target, oldObject, k) :: Get(target, k))
  }

  /**
   * `diffObjectFromOldObject` (dist/aj.js:1371-1406): `removed` holds exactly
   * the old keys the object no longer has, each mapped to undefined; `added`
   * exactly the object's keys the old object lacked, with their values;
   * `changed` the keys present in both whose values are not `===` (so a NaN
   * is always changed), with their new values, and `length` when an array's
   * length differs.
   */
  method DiffObjectFromOldObject(target: View, oldObject: View) returns (d: Diff)
    ensures forall k :: k in d.removed <==> k in oldObject.props && !Has(target, k)
    ensures forall k :: k in d.removed ==> d.removed[k] == Undefined
    ensures forall k :: k in d.added <==> k in target.props && !Has(oldObject, k)
    ensures forall k :: k in d.added ==> d.added[k] == target.props[k]
    ensures forall k :: k in d.changed <==> Changed(target, oldObject, k)
    ensures forall k :: k in d.changed ==> d.changed[k] == Get(target, k)
    ensures d == ObjectDiff(target, oldObject)
  {
    var removed, changed := OldKeysPass(target, oldObject);
    var added := NewKeysPass(target, oldObject);
    if target.length.Some? && !StrictEquals(Num(target.length.value), Get(oldObject, "length")) {
      changed := changed["length" := Num(target.length.value)];
    }
    d := Diff(added, removed, changed);
    DiffDetermined(target, oldObject, d);
  }

  /** The first loop of `diffObjectFromOldObject`, over the old object's keys. */
  method OldKeysPass(target: View, oldObject: View) returns (removed: map<string, Value>, changed: map<string, Value>)
    ensures forall k :: k in removed <==> k in oldObject.props && !Has(target, k)
    ensures forall k :: k in removed ==> removed[k] == Undefined
    ensures forall k :: k in changed <==>
      k in oldObject.props && Has(target, k) && !StrictEquals(Get(target, k), oldObject.props[k])
    ensures forall k :: k in changed ==> changed[k] == Get(target, k)
  {
    var before := oldObject.props;
    removed, changed := map[], map[];
    var todo := before.Keys;
    while todo != {}
      invariant todo <= before.Keys
      invariant forall k :: k in removed <==> k in before && k !in todo && !Has(target, k)
      invariant forall k :: k in removed ==> removed[k] == Undefined
      invariant forall k :: k in changed <==>
        k in before && k !in todo && Has(target, k) && !StrictEquals(Get(target, k), before[k])
      invariant forall k :: k in changed ==> changed[k] == Get(target, k)
      decreases |todo|
    {
      var prop :| prop in todo;
      var newValue := Get(target, prop);
      if newValue != Undefined && StrictEquals(newValue, before[prop]) {
      } else if !Has(target, prop) {
        removed := removed[prop := Undefined];
      } else if !StrictEquals(newValue, before[prop]) {
        changed := changed[prop := newValue];
      }
      todo := todo - {prop};
    }
  }

  /** The second loop of `diffObjectFromOldObject`, over the object's keys. */
  method NewKeysPass(target: View, oldObject: View) returns (added: map<string, Value>)
    ensures forall k :: k in added <==> k in target.props && !Has(oldObject, k)
    ensures forall k :: k in added ==> added[k] == target.props[k]
  {
    var now := target.props;
    added := map[];
    var todo := now.Keys;
    while todo != {}
      invariant todo <= now.Keys
      invariant forall k :: k in added <==> k in now && k !in todo && !Has(oldObject, k)
      invariant forall k :: k in added ==> added[k] == now[k]
      decreases |todo|
    {
      var prop :| prop in todo;
      if !Has(oldObject, prop) {
        added := added[prop := now[prop]];
      }
      todo := todo - {prop};
    }
  }

  /** The three parts characterised above are those of `ObjectDiff`. */
  lemma DiffDetermined(target: View, oldObject: View, d: Diff)
    requires forall k :: k in d.removed <==> k in oldObject.props && !Has(target, k)
    requires forall k :: k in d.removed ==> d.removed[k] == Undefined
    requires forall k :: k in d.added <==> k in target.props && !Has(oldObject, k)
    requires forall k :: k in d.added ==> d.added[k] == target.props[k]
    requires forall k :: k in d.changed <==> Changed(target, oldObject, k)
    requires forall k :: k in d.changed ==> d.changed[k] == Get(target, k)
    ensures d == ObjectDiff(target, oldObject)
  {
    var e := ObjectDiff(target, oldObject);
    assert d.added == e.added;
    assert d.removed == e.removed;
    assert d.changed == e.changed;
  }

  /** An own property of the object holds NaN. */
  predicate HoldsNaN(o: View) {
    exists k :: k in o.props && o.props[k] == NaN
  }

  /**
   * Against a fresh copy of itself an object shows no difference exactly
   * when none of its properties holds NaN: a NaN property is reported as
   * changed on every check.
   */
  lemma SnapshotDiffEmptyIffNoNaN(o: View)
    requires WellFormed(o)
    ensures DiffIsEmpty(ObjectDiff(o, o)) <==> !HoldsNaN(o)
  {
    var d := ObjectDiff(o, o);
    if HoldsNaN(o) {
      var k :| k in o.props && o.props[k] == NaN;
      assert Changed(o, o, k);
      assert k in d.changed;
    } else {
      assert !LengthChanged(o, o);
      assert d.changed == map[];
      assert d.added == map[];
    }
  }
}
