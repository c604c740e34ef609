/**
 * The value monitor's read and write helpers (src/value-monitor.js): the
 * spawning write `setValueWithSpawn`, the value references handed out by
 * `getValueRef` and `getCompoundValueRef`, and the virtual-scope monitors
 * that `getMonitro` keeps one per virtual root.
 *
 * The scope is a value of the object graph (`Heap`); paths come from the
 * process-wide `PathCache`, which is passed in.
 */
module ValueMonitors {
  import opened JsCore
  import opened PathParser
  import opened Paths
  import opened PathText
  import opened Resources

  // ---------------------------------------------------------------------------
  // setValueWithSpawn (src/value-monitor.js:140-157)
  // ---------------------------------------------------------------------------

  /**
   * The object graph after a spawning write, the next free object id, and
   * whether the write threw (objects spawned before the throw stay).
   */
  datatype SpawnState = SpawnState(objs: map<ObjId, JsObject>, next: ObjId, thrown: bool)

  /** The strict-mode TypeError on reading or writing a property of a primitive, `undefined` or `null`. */
  const PrimitiveWrite: string := "TypeError: Cannot create property on a primitive"

  /** A new `{}` allocated at `next` and hung under `key` of object `id`. */
  function Grow(objs: map<ObjId, JsObject>, next: ObjId, id: ObjId, key: string): map<ObjId, JsObject> {
    SetProperty(objs[next := Plain(map[])], id, key, Obj(next))
  }

  /**
   * The spawning write along the keys still to walk from `ref`: the last key
   * is written; before it, a falsy property is replaced by a new `{}` and the
   * walk goes on into the property. Walking into anything but an object
   * throws. No keys left writes nothing (the source never returns then; see
   * `SpawnAsWritten`).
   */
  function Spawn(objs: map<ObjId, JsObject>, next: ObjId, ref: Value, rest: seq<string>, value: Value): SpawnState
    decreases |rest|
  {
    if |rest| == 0 then SpawnState(objs, next, false)
    else if !ref.Obj? then SpawnState(objs, next, true)
    else if |rest| == 1 then SpawnState(SetProperty(objs, ref.id, rest[0], value), next, false)
    else
      var child := Property(objs, ref, rest[0]);
      if Truthy(child) then Spawn(objs, next, child, rest[1..], value)
      else Spawn(Grow(objs, next, ref.id, rest[0]), next + 1, Obj(next), rest[1..], value)
  }

  /** What the call returns for a spawning write: normally, or the TypeError. */
  function Outcome(st: SpawnState): Result<()> {
    if st.thrown then Throw(PrimitiveWrite) else Ok(())
  }

  /**
   * `setValueWithSpawn(ref, path, value, index)`: walks `keys` from `index`,
   * allocating `{}` for every falsy property before the last key.
   */
  method SetValueWithSpawn(h: Heap, ref: Value, keys: seq<string>, value: Value, index: nat) returns (r: Result<()>)
    requires index < |keys| || index == 0
    modifies h
    ensures var st := Spawn(old(h.objs), old(h.next), ref, keys[index..], value);
      r == Outcome(st) && h.objs == st.objs && h.next == st.next
    decreases |keys| - index, 2
  {
    if |keys| == 0 {
      return Ok(());
    }
    if !ref.Obj? {
      return Throw(PrimitiveWrite);
    }
    if index == |keys| - 1 {
      h.objs := SetProperty(h.objs, ref.id, keys[index], value);
      return Ok(());
    }
    r := SpawnInto(h, ref, keys, value, index);
  }

  /** One step of `setValueWithSpawn` before the last key: into the property, or into a new `{}` put there. */
  method SpawnInto(h: Heap, ref: Value, keys: seq<string>, value: Value, index: nat) returns (r: Result<()>)
    requires ref.Obj? && index < |keys| - 1
    modifies h
    ensures var st := Spawn(old(h.objs), old(h.next), ref, keys[index..], value);
      r == Outcome(st) && h.objs == st.objs && h.next == st.next
    decreases |keys| - index, 1
  {
    var child := Property(h.objs, ref, keys[index]);
    if Truthy(child) {
      SpawnDescendsAt(h.objs, h.next, ref, keys, index, value);
      r := SetValueWithSpawn(h, child, keys, value, index + 1);
    } else {
      SpawnGrowsAt(h.objs, h.next, ref.id, keys, index, value);
      r := SpawnFresh(h, ref.id, keys, value, index);
    }
  }

  /** A new `{}` under the key at `index` of object `id`, and the walk goes on into it. */
  method SpawnFresh(h: Heap, id: ObjId, keys: seq<string>, value: Value, index: nat) returns (r: Result<()>)
    requires index < |keys| - 1
    modifies h
    ensures var st := Spawn(Grow(old(h.objs), old(h.next), id, keys[index]), old(h.next) + 1, Obj(old(h.next)), keys[index + 1..], value);
      r == Outcome(st) && h.objs == st.objs && h.next == st.next
    decreases |keys| - index, 0
  {
    var n := h.next;
    h.objs, h.next := Grow(h.objs, n, id, keys[index]), n + 1;
    r := SetValueWithSpawn(h, Obj(n), keys, value, index + 1);
  }

  /** `SpawnDescends` on the keys from `index`. */
  lemma SpawnDescendsAt(objs: map<ObjId, JsObject>, next: ObjId, ref: Value, keys: seq<string>, index: nat, value: Value)
    requires ref.Obj? && index < |keys| - 1 && Truthy(Property(objs, ref, keys[index]))
    ensures Spawn(objs, next, ref, keys[index..], value) == Spawn(objs, next, Property(objs, ref, keys[index]), keys[index + 1..], value)
  {
    var rest := keys[index..];
    assert rest[0] == keys[index] && rest[1..] == keys[index + 1..];
    SpawnDescends(objs, next, ref, rest, value);
  }

  /** `SpawnGrows` on the keys from `index`. */
  lemma SpawnGrowsAt(objs: map<ObjId, JsObject>, next: ObjId, id: ObjId, keys: seq<string>, index: nat, value: Value)
    requires index < |keys| - 1 && !Truthy(Property(objs, Obj(id), keys[index]))
    ensures Spawn(objs, next, Obj(id), keys[index..], value) ==
      Spawn(Grow(objs, next, id, keys[index]), next + 1, Obj(next), keys[index + 1..], value)
  {
    var rest := keys[index..];
    assert rest[0] == keys[index] && rest[1..] == keys[index + 1..];
    SpawnGrows(objs, next, id, rest, value);
  }

  /** The spawning write from an object whose first key holds a truthy value, before the last key: the walk goes on into it. */
  lemma SpawnDescends(objs: map<ObjId, JsObject>, next: ObjId, ref: Value, rest: seq<string>, value: Value)
    requires ref.Obj? && |rest| > 1 && Truthy(Property(objs, ref, rest[0]))
    ensures Spawn(objs, next, ref, rest, value) == Spawn(objs, next, Property(objs, ref, rest[0]), rest[1..], value)
  {
  }

  /**
   * Where `setValueFrom` would succeed, the spawning write is the same write:
   * every value on the way is an object, hence truthy, and nothing is spawned.
   */
  lemma {:induction false} SpawnAgreesWithSetValueFrom(objs: map<ObjId, JsObject>, next: ObjId, v: Value, keys: seq<string>, value: Value)
    requires |keys| > 0 && SetTarget(objs, v, keys).Some?
    ensures Spawn(objs, next, v, keys, value) ==
      SpawnState(SetProperty(objs, SetTarget(objs, v, keys).value, keys[|keys| - 1], value), next, false)
    decreases |keys|
  {
    if |keys| > 1 {
      var child := Property(objs, v, keys[0]);
      assert SetTarget(objs, child, keys[1..]).Some?;
      SpawnAgreesWithSetValueFrom(objs, next, child, keys[1..], value);
      assert keys[1..][|keys[1..]| - 1] == keys[|keys| - 1];
    }
  }

  /**
   * A spawning write from a plain object whose first key is missing (or
   * falsy) does not throw, hangs the new chain of objects (or the value)
   * under the first key, and leaves every other object allocated before as
   * it was.
   */
  lemma {:induction false} SpawnFrame(objs: map<ObjId, JsObject>, next: ObjId, id: ObjId, rest: seq<string>, value: Value)
    requires |rest| > 0 && id < next && ObjectAt(objs, id).Plain?
    requires |rest| > 1 ==> !Truthy(Property(objs, Obj(id), rest[0]))
    ensures !Spawn(objs, next, Obj(id), rest, value).thrown
    ensures ObjectAt(Spawn(objs, next, Obj(id), rest, value).objs, id) ==
      Plain(ObjectAt(objs, id).props[rest[0] := if |rest| == 1 then value else Obj(next)])
    ensures forall j: ObjId :: j < next && j != id ==>
      ObjectAt(Spawn(objs, next, Obj(id), rest, value).objs, j) == ObjectAt(objs, j)
    decreases |rest|
  {
    if |rest| == 1 {
      assert Spawn(objs, next, Obj(id), rest, value) == SpawnState(SetProperty(objs, id, rest[0], value), next, false);
    } else {
      var objs1 := Grow(objs, next, id, rest[0]);
      GrowFacts(objs, next, id, rest[0]);
      SpawnGrows(objs, next, id, rest, value);
      SpawnFrame(objs1, next + 1, next, rest[1..], value);
      var st1 := Spawn(objs1, next + 1, Obj(next), rest[1..], value);
      assert Spawn(objs, next, Obj(id), rest, value) == st1;
      assert !st1.thrown && ObjectAt(st1.objs, id) == ObjectAt(objs1, id);
      forall j: ObjId | j < next && j != id
        ensures ObjectAt(st1.objs, j) == ObjectAt(objs, j)
      {
        assert ObjectAt(st1.objs, j) == ObjectAt(objs1, j);
      }
    }
  }

  /**
   * A spawning write from a plain object whose first key is missing (or
   * falsy) reads back: the value is found along the keys afterwards.
   */
  lemma {:induction false} SpawnReadBack(objs: map<ObjId, JsObject>, next: ObjId, id: ObjId, rest: seq<string>, value: Value)
    requires |rest| > 0 && id < next && ObjectAt(objs, id).Plain?
    requires |rest| > 1 ==> !Truthy(Property(objs, Obj(id), rest[0]))
    ensures ValueAt(Spawn(objs, next, Obj(id), rest, value).objs, Obj(id), rest) == value
    decreases |rest|
  {
    SpawnFrame(objs, next, id, rest, value);
    var objs2 := Spawn(objs, next, Obj(id), rest, value).objs;
    if |rest| == 1 {
      SetPropertyReadBack(objs, id, rest[0], value, rest[0]);
    } else {
      var objs1 := Grow(objs, next, id, rest[0]);
      GrowFacts(objs, next, id, rest[0]);
      SpawnGrows(objs, next, id, rest, value);
      SpawnReadBack(objs1, next + 1, next, rest[1..], value);
    }
    assert Property(objs2, Obj(id), rest[0]) == if |rest| == 1 then value else Obj(next);
    ValueAtStep(objs2, Obj(id), rest);
  }

  /** Reading along keys from a non-null value is reading the first key, then the rest. */
  lemma ValueAtStep(objs: map<ObjId, JsObject>, v: Value, keys: seq<string>)
    requires |keys| > 0 && !IsNullish(v)
    ensures ValueAt(objs, v, keys) == ValueAt(objs, Property(objs, v, keys[0]), keys[1..])
  {
  }

  /** What growing a `{}` under `key` of object `id` does to the objects. */
  lemma GrowFacts(objs: map<ObjId, JsObject>, next: ObjId, id: ObjId, key: string)
    requires id < next && ObjectAt(objs, id).Plain?
    ensures ObjectAt(Grow(objs, next, id, key), next) == Plain(map[])
    ensures ObjectAt(Grow(objs, next, id, key), id) == Plain(ObjectAt(objs, id).props[key := Obj(next)])
    ensures forall j: ObjId :: j != id && j != next ==> ObjectAt(Grow(objs, next, id, key), j) == ObjectAt(objs, j)
  {
  }

  /** The spawning write from a plain object whose first key is falsy, before the last key. */
  lemma SpawnGrows(objs: map<ObjId, JsObject>, next: ObjId, id: ObjId, rest: seq<string>, value: Value)
    requires |rest| > 1 && !Truthy(Property(objs, Obj(id), rest[0]))
    ensures Spawn(objs, next, Obj(id), rest, value) == Spawn(Grow(objs, next, id, rest[0]), next + 1, Obj(next), rest[1..], value)
  {
  }

  // ---------------------------------------------------------------------------
  // setValueWithSpawn as written
  // ---------------------------------------------------------------------------

  /**
   * `setValueWithSpawn` exactly as written, run for at most `fuel` calls:
   * the recursion stops only at `index == path.length - 1`, and past the end
   * of the path `path[index]` is `undefined`, which names the property
   * "undefined". `None` when the calls run out before the write.
   */
  function SpawnAsWritten(objs: map<ObjId, JsObject>, next: ObjId, ref: Value, keys: seq<string>, value: Value,
                          index: nat, fuel: nat): Option<SpawnState>
    decreases fuel
  {
    if fuel == 0 then None
    else if !ref.Obj? then Some(SpawnState(objs, next, true))
    else
      var key := if index < |keys| then keys[index] else "undefined";
      if index == |keys| - 1 then Some(SpawnState(SetProperty(objs, ref.id, key, value), next, false))
      else
        var child := Property(objs, ref, key);
        if Truthy(child) then SpawnAsWritten(objs, next, child, keys, value, index + 1, fuel - 1)
        else SpawnAsWritten(SetProperty(objs[next := Plain(map[])], ref.id, key, Obj(next)), next + 1, Obj(next), keys, value, index + 1, fuel - 1)
  }

  /** One call of the code as written before the end of a non-empty path, where the property is there. */
  lemma AsWrittenDescend(objs: map<ObjId, JsObject>, next: ObjId, ref: Value, keys: seq<string>, value: Value,
                         index: nat, fuel: nat)
    requires ref.Obj? && index < |keys| - 1 && fuel > 0 && Truthy(Property(objs, ref, keys[index]))
    ensures SpawnAsWritten(objs, next, ref, keys, value, index, fuel) ==
      SpawnAsWritten(objs, next, Property(objs, ref, keys[index]), keys, value, index + 1, fuel - 1)
    ensures Spawn(objs, next, ref, keys[index..], value) ==
      Spawn(objs, next, Property(objs, ref, keys[index]), keys[index + 1..], value)
  {
    var rest := keys[index..];
    assert rest[0] == keys[index] && rest[1..] == keys[index + 1..];
  }

  /** One call of the code as written before the end of a non-empty path, where the property is spawned. */
  lemma AsWrittenGrow(objs: map<ObjId, JsObject>, next: ObjId, ref: Value, keys: seq<string>, value: Value,
                      index: nat, fuel: nat)
    requires ref.Obj? && index < |keys| - 1 && fuel > 0 && !Truthy(Property(objs, ref, keys[index]))
    ensures SpawnAsWritten(objs, next, ref, keys, value, index, fuel) ==
      SpawnAsWritten(Grow(objs, next, ref.id, keys[index]), next + 1, Obj(next), keys, value, index + 1, fuel - 1)
    ensures Spawn(objs, next, ref, keys[index..], value) ==
      Spawn(Grow(objs, next, ref.id, keys[index]), next + 1, Obj(next), keys[index + 1..], value)
  {
    var rest := keys[index..];
    assert rest[0] == keys[index] && rest[1..] == keys[index + 1..];
  }

  /** The last call of the code as written, or one on a primitive, agrees with `Spawn`. */
  lemma AsWrittenLast(objs: map<ObjId, JsObject>, next: ObjId, ref: Value, keys: seq<string>, value: Value,
                      index: nat, fuel: nat)
    requires index < |keys| && fuel > 0 && (!ref.Obj? || index == |keys| - 1)
    ensures SpawnAsWritten(objs, next, ref, keys, value, index, fuel) == Some(Spawn(objs, next, ref, keys[index..], value))
  {
    assert keys[index..][0] == keys[index];
  }

  /** On a non-empty path, the code as written does what `Spawn` says, within one call per key. */
  lemma {:induction false} AsWrittenAgrees(objs: map<ObjId, JsObject>, next: ObjId, ref: Value, keys: seq<string>, value: Value,
                                           index: nat, fuel: nat)
    requires index < |keys| && fuel >= |keys| - index
    ensures SpawnAsWritten(objs, next, ref, keys, value, index, fuel) == Some(Spawn(objs, next, ref, keys[index..], value))
    decreases fuel, 1
  {
    if !ref.Obj? || index == |keys| - 1 {
      AsWrittenLast(objs, next, ref, keys, value, index, fuel);
    } else if Truthy(Property(objs, ref, keys[index])) {
      AgreesDescending(objs, next, ref, keys, value, index, fuel);
    } else {
      AgreesGrowing(objs, next, ref, keys, value, index, fuel);
    }
  }

  lemma {:induction false} AgreesDescending(objs: map<ObjId, JsObject>, next: ObjId, ref: Value, keys: seq<string>, value: Value,
                                            index: nat, fuel: nat)
    requires ref.Obj? && index < |keys| - 1 && fuel >= |keys| - index && Truthy(Property(objs, ref, keys[index]))
    ensures SpawnAsWritten(objs, next, ref, keys, value, index, fuel) == Some(Spawn(objs, next, ref, keys[index..], value))
    decreases fuel, 0
  {
    AsWrittenDescend(objs, next, ref, keys, value, index, fuel);
    AsWrittenAgrees(objs, next, Property(objs, ref, keys[index]), keys, value, index + 1, fuel - 1);
  }

  lemma {:induction false} AgreesGrowing(objs: map<ObjId, JsObject>, next: ObjId, ref: Value, keys: seq<string>, value: Value,
                                         index: nat, fuel: nat)
    requires ref.Obj? && index < |keys| - 1 && fuel >= |keys| - index && !Truthy(Property(objs, ref, keys[index]))
    ensures SpawnAsWritten(objs, next, ref, keys, value, index, fuel) == Some(Spawn(objs, next, ref, keys[index..], value))
    decreases fuel, 0
  {
    AsWrittenGrow(objs, next, ref, keys, value, index, fuel);
    AsWrittenAgrees(Grow(objs, next, ref.id, keys[index]), next + 1, Obj(next), keys, value, index + 1, fuel - 1);
  }

  /** From an empty object, the empty path as written only ever spawns: it never gets to the write. */
  lemma {:induction false} AsWrittenLoopsFromEmpty(objs: map<ObjId, JsObject>, next: ObjId, id: ObjId, value: Value, index: nat, fuel: nat)
    requires ObjectAt(objs, id) == Plain(map[]) && id < next
    ensures SpawnAsWritten(objs, next, Obj(id), [], value, index, fuel) == None
    decreases fuel
  {
    if fuel > 0 {
      var objs1 := SetProperty(objs[next := Plain(map[])], id, "undefined", Obj(next));
      assert ObjectAt(objs1, next) == Plain(map[]);
      AsWrittenLoopsFromEmpty(objs1, next + 1, next, value, index + 1, fuel - 1);
    }
  }

  /**
   * The empty path (the `invalidPath` sentinel, or the path of the text "")
   * as written: from a scope without a truthy "undefined" property the
   * recursion never reaches the write, however many calls it is given; it
   * keeps hanging new `{}` objects under "undefined" until the stack runs
   * out. `Spawn` writes nothing instead.
   */
  lemma EmptyPathNeverWrites(objs: map<ObjId, JsObject>, next: ObjId, id: ObjId, value: Value, fuel: nat)
    requires id < next && !Truthy(Property(objs, Obj(id), "undefined"))
    ensures SpawnAsWritten(objs, next, Obj(id), [], value, 0, fuel) == None
    ensures Spawn(objs, next, Obj(id), [], value) == SpawnState(objs, next, false)
  {
    if fuel > 0 {
      var objs1 := SetProperty(objs[next := Plain(map[])], id, "undefined", Obj(next));
      assert ObjectAt(objs1, next) == Plain(map[]);
      assert SpawnAsWritten(objs, next, Obj(id), [], value, 0, fuel) ==
        SpawnAsWritten(objs1, next + 1, Obj(next), [], value, 1, fuel - 1);
      AsWrittenLoopsFromEmpty(objs1, next + 1, next, value, 1, fuel - 1);
    }
  }

  // ---------------------------------------------------------------------------
  // Value references (src/value-monitor.js:159-182)
  // ---------------------------------------------------------------------------

  /** A transform's `_set_value` and `_get_value`. */
  datatype Transform = Transform(toStored: Value -> Value, fromStored: Value -> Value)

  /** The value written for `v`. */
  function Stored(t: Option<Transform>, v: Value): Value {
    if t.Some? then t.value.toStored(v) else v
  }

  /** The value shown for a stored `v`. */
  function Shown(t: Option<Transform>, v: Value): Value {
    if t.Some? then t.value.fromStored(v) else v
  }

  /** `setValueFrom` succeeds: the path is valid, not empty, and reaches an object before its last key. */
  predicate Reaches(objs: map<ObjId, JsObject>, v: Value, p: Path) {
    p.valid && |p.keys| > 0 && SetTarget(objs, v, p.keys).Some?
  }

  /** The graph `setValueFrom` leaves: the write where the path reaches, nothing elsewhere. */
  function WriteOne(objs: map<ObjId, JsObject>, v: Value, p: Path, x: Value): map<ObjId, JsObject> {
    if Reaches(objs, v, p) then SetProperty(objs, SetTarget(objs, v, p.keys).value, p.keys[|p.keys| - 1], x)
    else objs
  }

  /** What `getValueFrom` returns. */
  function ReadOne(objs: map<ObjId, JsObject>, v: Value, p: Path): Value {
    if p.valid then ValueAt(objs, v, p.keys) else Undefined
  }

  /** A write that reaches a plain object through other objects reads back. */
  lemma ReadAfterWrite(objs: map<ObjId, JsObject>, v: Value, p: Path, x: Value)
    requires Reaches(objs, v, p) && ObjectAt(objs, SetTarget(objs, v, p.keys).value).Plain?
    requires forall i :: 0 <= i < |p.keys| - 1 ==> ValueAt(objs, v, p.keys[..i]) != Obj(SetTarget(objs, v, p.keys).value)
    ensures ReadOne(WriteOne(objs, v, p, x), v, p) == x
  {
    SetThenGet(objs, v, p.keys, x);
  }

  /** `p` is what `Path.get` gives for `text`: its parsed keys, or the invalid sentinel when it does not parse. */
  predicate PathFor(p: Path, text: string) {
    && (p.valid ==> Parse(text) == Some(p.keys))
    && (!p.valid ==> Parse(text).None? && p.keys == [])
  }

  /** Looking a text up in a valid cache gives its path. */
  method GetTextPath(cache: PathCache, text: string) returns (p: Path)
    requires cache.Valid()
    modifies cache
    ensures cache.Valid() && PathFor(p, text)
    ensures fresh(p) || p == cache.invalid || p in old(cache.cache).Values
  {
    p := cache.GetPath(Text(text));
  }

  /** The object `getValueRef` returns: the path, the scope and the transform its closures hold. */
  class ValueRef {
    const path: Path
    const scope: Value
    const transform: Option<Transform>

    constructor (path: Path, scope: Value, transform: Option<Transform>)
      ensures this.path == path && this.scope == scope && this.transform == transform
    {
      this.path := path;
      this.scope := scope;
      this.transform := transform;
    }

    /**
     * `setValue(v, spawnUnreachablePath)`: writes the stored form of `v`
     * along the path; where the path does not reach, it spawns the missing
     * objects unless spawning is switched off (`None` is `undefined`, which
     * means on).
     */
    method SetValue(h: Heap, v: Value, spawnUnreachablePath: Option<bool>) returns (r: Result<()>)
      modifies h
      ensures Reaches(old(h.objs), scope, path) ==>
        r == Ok(()) && h.objs == WriteOne(old(h.objs), scope, path, Stored(transform, v)) && h.next == old(h.next)
      ensures !Reaches(old(h.objs), scope, path) && spawnUnreachablePath == Some(false) ==>
        r == Ok(()) && h.objs == old(h.objs) && h.next == old(h.next)
      ensures !Reaches(old(h.objs), scope, path) && spawnUnreachablePath != Some(false) ==>
        var st := Spawn(old(h.objs), old(h.next), scope, path.keys, Stored(transform, v));
        r == Outcome(st) && h.objs == st.objs && h.next == st.next
    {
      var tv := Stored(transform, v);
      var success := path.SetValueFrom(h, scope, tv);
      r := Ok(());
      if !success {
        var spawn := if spawnUnreachablePath.None? then true else spawnUnreachablePath.value;
        if spawn {
          assert path.keys[0..] == path.keys;
          r := SetValueWithSpawn(h, scope, path.keys, tv, 0);
        }
      }
    }

    /** `getValue()`: the value along the path, shown through the transform. */
    method GetValue(objs: map<ObjId, JsObject>) returns (r: Value)
      ensures r == Shown(transform, ReadOne(objs, scope, path))
    {
      var v := path.GetValueFrom(objs, scope);
      r := Shown(transform, v);
    }
  }

  // ---------------------------------------------------------------------------
  // Compound value references (src/value-monitor.js:209-238)
  // ---------------------------------------------------------------------------

  const LengthMismatch: string := "length not equal for compound value set"

  /**
   * A compound path: `@:` marks a path from the scope root, anything else
   * is converted below the monitor's root. With a sub-path given,
   * converting can only fail on the empty path, as the scope root.
   */
  function CompoundText(root: Option<string>, p: string): (r: Result<string>)
    ensures r.Throw? ==> r == Throw(RootError)
    ensures r.Throw? <==> !StartsWith(p, "@:") && !Given(root) && p == ""
  {
    RootErrorExactly(root, Some(p));
    if StartsWith(p, "@:") then Ok(p[2..]) else ObservePath(root, Some(p))
  }

  /** The writes of `setValues`, one path after the other. */
  function WriteAll(objs: map<ObjId, JsObject>, v: Value, ps: seq<Path>, xs: seq<Value>): map<ObjId, JsObject>
    requires |ps| == |xs|
    decreases |ps|
  {
    if |ps| == 0 then objs
    else WriteOne(WriteAll(objs, v, ps[..|ps| - 1], xs[..|xs| - 1]), v, ps[|ps| - 1], xs[|xs| - 1])
  }

  /** Writing two groups of paths is writing the first group, then the second. */
  lemma {:induction false} WriteAllAppend(objs: map<ObjId, JsObject>, v: Value, ps1: seq<Path>, xs1: seq<Value>, ps2: seq<Path>, xs2: seq<Value>)
    requires |ps1| == |xs1| && |ps2| == |xs2|
    ensures WriteAll(objs, v, ps1 + ps2, xs1 + xs2) == WriteAll(WriteAll(objs, v, ps1, xs1), v, ps2, xs2)
    decreases |ps2|
  {
    if |ps2| == 0 {
      assert ps1 + ps2 == ps1 && xs1 + xs2 == xs1;
    } else {
      var n := |ps2| - 1;
      assert (ps1 + ps2)[..|ps1 + ps2| - 1] == ps1 + ps2[..n];
      assert (xs1 + xs2)[..|xs1 + xs2| - 1] == xs1 + xs2[..n];
      WriteAllAppend(objs, v, ps1, xs1, ps2[..n], xs2[..n]);
    }
  }

  /** A single path written as part of a compound set is the plain `setValueFrom`, without spawning. */
  lemma WriteAllSingle(objs: map<ObjId, JsObject>, v: Value, p: Path, x: Value)
    ensures WriteAll(objs, v, [p], [x]) == WriteOne(objs, v, p, x)
    ensures !Reaches(objs, v, p) ==> WriteAll(objs, v, [p], [x]) == objs
  {
    assert [p][..0] == [] && [x][..0] == [];
  }

  /** One path of `getCompoundValueRef`: its text, looked up in the path cache. */
  method CompoundPath(cache: PathCache, root: Option<string>, p: string) returns (r: Result<Path>)
    requires cache.Valid()
    modifies cache
    ensures cache.Valid()
    ensures r.Ok? <==> CompoundText(root, p).Ok?
    ensures r.Throw? ==> r.message == RootError
    ensures r.Ok? ==> PathFor(r.value, CompoundText(root, p).value)
  {
    var text: string;
    if StartsWith(p, "@:") {
      text := p[2..];
    } else {
      var converted := ConvertObservePath(root, Some(p));
      if converted.Throw? {
        return Throw(converted.message);
      }
      text := converted.value;
    }
    var path := GetTextPath(cache, text);
    r := Ok(path);
  }

  /** Each path is the one `Path.get` gives for its compound text, which converts. */
  predicate PathsFor(ps: seq<Path>, root: Option<string>, texts: seq<string>) {
    |ps| == |texts| &&
    forall k :: 0 <= k < |texts| ==> CompoundText(root, texts[k]).Ok? && PathFor(ps[k], CompoundText(root, texts[k]).value)
  }

  lemma PathsForSnoc(ps: seq<Path>, root: Option<string>, texts: seq<string>, p: Path, t: string)
    requires PathsFor(ps, root, texts) && CompoundText(root, t).Ok? && PathFor(p, CompoundText(root, t).value)
    ensures PathsFor(ps + [p], root, texts + [t])
  {
  }

  /** The object `getCompoundValueRef` returns. */
  class CompoundValueRef {
    const paths: seq<Path>
    const scope: Value

    constructor (paths: seq<Path>, scope: Value)
      ensures this.paths == paths && this.scope == scope
    {
      this.paths := paths;
      this.scope := scope;
    }

    /** `setValues(values)`: one value per path, in order, without spawning; a count mismatch throws and writes nothing. */
    method SetValues(h: Heap, values: seq<Value>) returns (r: Result<()>)
      modifies h
      ensures |values| != |paths| ==> r == Throw(LengthMismatch) && h.objs == old(h.objs)
      ensures |values| == |paths| ==> r == Ok(()) && h.objs == WriteAll(old(h.objs), scope, paths, values)
      ensures h.next == old(h.next)
    {
      if |values| != |paths| {
        return Throw(LengthMismatch);
      }
      var i := 0;
      while i < |values|
        invariant 0 <= i <= |values|
        invariant h.objs == WriteAll(old(h.objs), scope, paths[..i], values[..i])
        invariant h.next == old(h.next)
      {
        var _ := paths[i].SetValueFrom(h, scope, values[i]);
        assert paths[..i + 1][..i] == paths[..i] && values[..i + 1][..i] == values[..i];
        i := i + 1;
      }
      assert paths[..i] == paths && values[..i] == values;
      r := Ok(());
    }

    /** `getValues()`: the value along each path, by position. */
    method GetValues(objs: map<ObjId, JsObject>) returns (values: seq<Value>)
      ensures |values| == |paths|
      ensures forall i :: 0 <= i < |paths| ==> values[i] == ReadOne(objs, scope, paths[i])
    {
      values := [];
      var i := 0;
      while i < |paths|
        invariant 0 <= i <= |paths| && |values| == i
        invariant forall k :: 0 <= k < i ==> values[k] == ReadOne(objs, scope, paths[k])
      {
        var v := paths[i].GetValueFrom(objs, scope);
        values := values + [v];
        i := i + 1;
      }
    }
  }

  // ---------------------------------------------------------------------------
  // The value monitor (src/value-monitor.js:64-69)
  // ---------------------------------------------------------------------------

  /** A monitor over `scope`, with the root every path given to it is taken relative to. */
  class ValueMonitor {
    const scope: Value
    const varRefRoot: Option<string>

    constructor (scope: Value, varRefRoot: Option<string>)
      ensures this.scope == scope && this.varRefRoot == varRefRoot
    {
      this.scope := scope;
      this.varRefRoot := varRefRoot;
    }

    /**
     * `getValueRef(subPath, transform)` (src/value-monitor.js:159-182): the
     * path converted below the root, fetched from the path cache, and the
     * scope; converting the empty path throws.
     */
    method GetValueRef(cache: PathCache, subPath: Option<string>, transform: Option<Transform>) returns (r: Result<ValueRef>)
      requires cache.Valid()
      modifies cache
      ensures cache.Valid()
      ensures ObservePath(varRefRoot, subPath).Throw? ==>
        r == Throw(ObservePath(varRefRoot, subPath).message) && cache.cache == old(cache.cache)
      ensures ObservePath(varRefRoot, subPath).Ok? ==>
        && r.Ok? && fresh(r.value) && r.value.scope == scope && r.value.transform == transform
        && PathFor(r.value.path, ObservePath(varRefRoot, subPath).value)
    {
      var observePath := ConvertObservePath(varRefRoot, subPath);
      if observePath.Throw? {
        return Throw(observePath.message);
      }
      var path := GetTextPath(cache, observePath.value);
      var ref := new ValueRef(path, scope, transform);
      r := Ok(ref);
    }

    /**
     * `getCompoundValueRef(pathes)` (src/value-monitor.js:209-238): one
     * path per text, `@:` texts taken from the scope root as they are, the
     * others converted below the monitor's root.
     */
    method GetCompoundValueRef(cache: PathCache, pathes: seq<string>) returns (r: Result<CompoundValueRef>)
      requires cache.Valid()
      modifies cache
      ensures cache.Valid()
      ensures r.Ok? <==> forall i :: 0 <= i < |pathes| ==> CompoundText(varRefRoot, pathes[i]).Ok?
      ensures r.Throw? ==> r.message == RootError
      ensures r.Ok? ==> fresh(r.value) && r.value.scope == scope && PathsFor(r.value.paths, varRefRoot, pathes)
    {
      var ps: seq<Path> := [];
      var i := 0;
      while i < |pathes|
        invariant 0 <= i <= |pathes| && |ps| == i
        invariant cache.Valid()
        invariant PathsFor(ps, varRefRoot, pathes[..i])
      {
        var path := CompoundPath(cache, varRefRoot, pathes[i]);
        if path.Throw? {
          assert !CompoundText(varRefRoot, pathes[i]).Ok?;
          return Throw(path.message);
        }
        PathsForSnoc(ps, varRefRoot, pathes[..i], path.value, pathes[i]);
        assert pathes[..i] + [pathes[i]] == pathes[..i + 1];
        ps := ps + [path.value];
        i := i + 1;
      }
      assert pathes[..i] == pathes;
      var ref := new CompoundValueRef(ps, scope);
      r := Ok(ref);
    }
  }

  // ---------------------------------------------------------------------------
  // Virtual-scope monitors (src/value-monitor.js:31-51)
  // ---------------------------------------------------------------------------

  const VirtualRoot: string := "__vr__"

  /** The category the monitors are kept under. */
  const MonitorCategory: string := "vm"

  /**
   * The key of a virtual root: `__vr__` for none, else `__vr__.` and the
   * root made safe. It is `__vr__` exactly when no root, or the empty one,
   * is given.
   */
  function MonitorKey(root: Option<string>, ids: seq<UtilId>): (r: string)
    requires |ids| == |SafeChars|
    ensures r == VirtualRoot <==> root.None? || root == Some("")
  {
    var p := if root.Some? then root.value else "";
    TransferredEmpty(p, ids, 0);
    var t := Transferred(p, ids, 0);
    if t == "" then VirtualRoot
    else
      assert |VirtualRoot + "." + t| > |VirtualRoot|;
      VirtualRoot + "." + t
  }

  /** Replacing a character by a non-empty token empties nothing and makes nothing out of nothing. */
  lemma ReplaceFirstEmpty(s: string, c: char, t: string)
    requires t != ""
    ensures ReplaceFirst(s, [c], t) == "" <==> s == ""
  {
    ReplaceFirstMultiset(s, c, t);
    if s != "" && c !in s {
      assert s[0] in multiset(s);
    }
    if s != "" && c in s {
      assert t[0] in multiset(ReplaceFirst(s, [c], t));
    }
  }

  /** Making a path safe empties only the empty path. */
  lemma {:induction false} TransferredEmpty(p: string, ids: seq<UtilId>, k: nat)
    requires |ids| == |SafeChars| && k <= |SafeChars|
    ensures Transferred(p, ids, k) == "" <==> p == ""
    decreases |SafeChars| - k
  {
    if k < |SafeChars| {
      assert SafeToken(k, ids[k]) != "" by { assert |SafeStems[k]| > 0; }
      ReplaceFirstEmpty(p, SafeChars[k], SafeToken(k, ids[k]));
      TransferredEmpty(ReplaceFirst(p, [SafeChars[k]], SafeToken(k, ids[k])), ids, k + 1);
    }
  }

  /**
   * A root with at most one of each of `.`, `[`, `]`, `"` and `'` becomes a
   * single property under `__vr__`: observing the monitor's own root is
   * `['__vr__']['<safe root>']`.
   */
  lemma VirtualRootIsOneProperty(root: string, ids: seq<UtilId>)
    requires |ids| == |SafeChars| && root != ""
    requires forall k :: 0 <= k < |SafeChars| ==> Count(root, SafeChars[k]) <= 1
    ensures ObservePath(Some(MonitorKey(Some(root), ids)), Some("")) ==
      Ok(Quoted(VirtualRoot) + Quoted(Transferred(root, ids, 0)))
  {
    var t := Transferred(root, ids, 0);
    SafeRootSegment(root, ids);
    assert MonitorKey(Some(root), ids) == VirtualRoot + "." + t;
    OneSegmentUnderRoot(t);
  }

  /** Such a root made safe is one non-empty segment without dots or brackets. */
  lemma SafeRootSegment(root: string, ids: seq<UtilId>)
    requires |ids| == |SafeChars| && root != ""
    requires forall k :: 0 <= k < |SafeChars| ==> Count(root, SafeChars[k]) <= 1
    ensures Transferred(root, ids, 0) != ""
    ensures '.' !in Transferred(root, ids, 0) && '[' !in Transferred(root, ids, 0)
  {
    TransferredEmpty(root, ids, 0);
    TransferredIsSafe(root, ids);
    assert SafeChars[0] == '.' && SafeChars[1] == '[';
  }

  /** A plain segment under `__vr__` converts to the two quoted names. */
  lemma OneSegmentUnderRoot(t: string)
    requires t != "" && '.' !in t && '[' !in t
    ensures ObservePath(Some(VirtualRoot + "." + t), Some("")) == Ok(Quoted(VirtualRoot) + Quoted(t))
  {
    var segs := [VirtualRoot, t];
    assert '.' !in VirtualRoot && '[' !in VirtualRoot;
    ConvertDottedPath(segs);
    assert Join(segs, '.') == VirtualRoot + "." + t by {
      assert segs[1..] == [t];
    }
    assert QuotedAll(segs) == Quoted(VirtualRoot) + Quoted(t) by {
      assert segs[..1] == [VirtualRoot];
      assert QuotedAll([VirtualRoot]) == "" + Quoted(VirtualRoot);
    }
  }

  /**
   * `VirtualScopeMonitorWrapper`: a private scope `{}` and the monitors made
   * for it, kept in a resource map under the category "vm" by their key;
   * each monitor is a resource with a `discard` hook, numbered in `monitors`.
   */
  class VirtualScopeMonitorWrapper {
    const scope: Value
    const monitorMap: ResourceMap
    var monitors: map<nat, ValueMonitor>
    var made: nat

    ghost predicate Valid()
      reads this, monitorMap, monitorMap.owner.Keys
    {
      && monitorMap.Valid()
      && (forall e :: e in monitorMap.EntriesIn(MonitorCategory) ==> e.resource.id in monitors)
      && (forall n :: n in monitors ==> n < made)
    }

    constructor (h: Heap)
      requires h.Valid()
      modifies h
      ensures Valid() && monitors == map[] && monitorMap.entries == map[]
      ensures h.Valid() && scope == Obj(old(h.next)) && h.objs == old(h.objs)[old(h.next) := Plain(map[])]
    {
      var id := h.Alloc(Plain(map[]));
      scope := Obj(id);
      monitorMap := new ResourceMap();
      monitors := map[];
      made := 0;
    }

    /** The monitor registered under `key`, if any. */
    ghost function Registered(key: string): Option<Discardable>
      reads this, monitorMap
    {
      FirstMatch(monitorMap.EntriesIn(MonitorCategory), Str(key))
    }

    /**
     * `getMonitro(virtualRootPath)`: the monitor kept under the root's key,
     * made over the private scope and registered on first use. `ids` are the
     * ids drawn for the safe-path tokens when the module was loaded.
     */
    method GetMonitro(root: Option<string>, ids: seq<UtilId>) returns (monitor: ValueMonitor)
      requires Valid() && |ids| == |SafeChars|
      modifies this`monitors, this`made, monitorMap, monitorMap.owner.Keys
      ensures Valid() && monitorMap.hooks == old(monitorMap.hooks)
      ensures Registered(MonitorKey(root, ids)).Some? && Registered(MonitorKey(root, ids)).value.id in monitors
      ensures monitor == monitors[Registered(MonitorKey(root, ids)).value.id]
      ensures old(Registered(MonitorKey(root, ids))).Some? ==>
        monitors == old(monitors) && Registered(MonitorKey(root, ids)) == old(Registered(MonitorKey(root, ids)))
      ensures old(Registered(MonitorKey(root, ids))).None? ==>
        && fresh(monitor) && monitor.scope == scope && monitor.varRefRoot == Some(MonitorKey(root, ids))
        && monitors == old(monitors)[old(made) := monitor]
      ensures forall l :: l in monitorMap.owner ==> l in old(monitorMap.owner) || fresh(l)
    {
      var key := MonitorKey(root, ids);
      var found := monitorMap.Get(MonitorCategory, Str(key));
      if found.Some? {
        FirstMatchIsFirst(monitorMap.EntriesIn(MonitorCategory), Str(key));
        return monitors[found.value.id];
      }
      monitor := Register(key);
    }

    /** A new monitor for `key`, registered under it. */
    method Register(key: string) returns (monitor: ValueMonitor)
      requires Valid() && Registered(key).None?
      modifies this`monitors, this`made, monitorMap, monitorMap.owner.Keys
      ensures Valid() && monitorMap.hooks == old(monitorMap.hooks)
      ensures Registered(key) == Some(Discardable(old(made), false, true, false))
      ensures fresh(monitor) && monitor.scope == scope && monitor.varRefRoot == Some(key)
      ensures monitors == old(monitors)[old(made) := monitor]
      ensures forall l :: l in monitorMap.owner ==> l in old(monitorMap.owner) || fresh(l)
    {
      var d := Discardable(made, false, true, false);
      ghost var before := monitorMap.EntriesIn(MonitorCategory);
      Enlist(key, d);
      ReAddedOnce(before, Str(key), d);
      monitor := new ValueMonitor(scope, Some(key));
      IdsKept(before, Str(key), d, monitors[made := monitor]);
      Record(monitor);
    }

    /** The new monitor is numbered `made`, and the count moves on. */
    method Record(monitor: ValueMonitor)
      requires monitorMap.Valid() && (forall n :: n in monitors ==> n < made)
      requires forall e :: e in monitorMap.EntriesIn(MonitorCategory) ==> e.resource.id in monitors[made := monitor]
      modifies this`monitors, this`made
      ensures Valid() && monitors == old(monitors)[old(made) := monitor]
    {
      monitors, made := monitors[made := monitor], made + 1;
    }

    /** `monitorMap.add("vm", key, d)` for a key not registered yet: its entry goes last and no hook runs. */
    method Enlist(key: string, d: Discardable)
      requires monitorMap.Valid() && Registered(key).None?
      modifies monitorMap, monitorMap.owner.Keys
      ensures monitorMap.Valid() && monitorMap.hooks == old(monitorMap.hooks)
      ensures monitorMap.EntriesIn(MonitorCategory) == Without(old(monitorMap.EntriesIn(MonitorCategory)), Str(key)) + [Entry(Str(key), d)]
      ensures forall l :: l in monitorMap.owner ==> l in old(monitorMap.owner) || fresh(l)
    {
      ghost var before := monitorMap.EntriesIn(MonitorCategory);
      FirstMatchIsFirst(before, Str(key));
      NoneMatching(before, Str(key));
      monitorMap.Add(MonitorCategory, Str(key), d);
      assert DiscardAll(Matching(before, Str(key))) == [];
    }
  }

  /** Re-adding an identifier keeps every entry's resource among the known monitors. */
  lemma IdsKept(es: seq<Entry>, identifier: Value, d: Discardable, ms: map<nat, ValueMonitor>)
    requires forall e :: e in es ==> e.resource.id in ms
    requires d.id in ms
    ensures forall e :: e in Without(es, identifier) + [Entry(identifier, d)] ==> e.resource.id in ms
  {
    WithoutMatchingSplit(es, identifier);
  }

  /** Asking twice for the same virtual root gives the same monitor. */
  method GetMonitroTwice(w: VirtualScopeMonitorWrapper, root: Option<string>, ids: seq<UtilId>)
    returns (first: ValueMonitor, second: ValueMonitor)
    requires w.Valid() && |ids| == |SafeChars|
    modifies w, w.monitorMap, w.monitorMap.owner.Keys
    ensures w.Valid() && first == second
  {
    first := w.GetMonitro(root, ids);
    second := w.GetMonitro(root, ids);
  }
}
