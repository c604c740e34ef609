/**
 * `Path` objects and the process-wide cache behind `Path.get`
 * (dist/aj.js:1212-1344): a path is a fixed sequence of property keys; it
 * reads a value through an object graph (`getValueFrom`), writes one
 * (`setValueFrom`) and prints itself back as text (`toString`).
 */
module Paths {
  import opened JsCore
  import opened PathParser

  // ---------------------------------------------------------------------------
  // Reading and writing through a path, as functions of the heap
  // ---------------------------------------------------------------------------

  /**
   * The value `getValueFrom` reaches from `v` along `keys`: undefined as
   * soon as a value before the last key is null or undefined.
   */
  function ValueAt(objs: map<ObjId, JsObject>, v: Value, keys: seq<string>): Value
    decreases |keys|
  {
    if |keys| == 0 then v
    else if IsNullish(v) then Undefined
    else ValueAt(objs, Property(objs, v, keys[0]), keys[1..])
  }

  /** Reading along `k1 + k2` is reading along `k1`, then along `k2`. */
  lemma {:induction false} ValueAtConcat(objs: map<ObjId, JsObject>, v: Value, k1: seq<string>, k2: seq<string>)
    ensures ValueAt(objs, v, k1 + k2) == ValueAt(objs, ValueAt(objs, v, k1), k2)
    decreases |k1|
  {
    if |k1| == 0 {
      assert k1 + k2 == k2;
    } else if IsNullish(v) {
      NullishReadsUndefined(objs, v, k2);
    } else {
      assert (k1 + k2)[1..] == k1[1..] + k2;
      ValueAtConcat(objs, Property(objs, v, k1[0]), k1[1..], k2);
    }
  }

  /** From undefined or null, any non-empty path reads undefined. */
  lemma NullishReadsUndefined(objs: map<ObjId, JsObject>, v: Value, keys: seq<string>)
    requires IsNullish(v)
    ensures ValueAt(objs, v, keys) == if |keys| == 0 then v else Undefined
  {
  }

  /**
   * `getValueFrom` gives undefined once a value before the last key is null or
   * undefined, whatever the keys after it.
   */
  lemma NullishStopsRead(objs: map<ObjId, JsObject>, v: Value, keys: seq<string>, i: nat)
    requires i < |keys| && IsNullish(ValueAt(objs, v, keys[..i]))
    ensures ValueAt(objs, v, keys) == Undefined
  {
    assert keys == keys[..i] + keys[i..];
    ValueAtConcat(objs, v, keys[..i], keys[i..]);
    NullishReadsUndefined(objs, ValueAt(objs, v, keys[..i]), keys[i..]);
  }

  /**
   * The object `setValueFrom` writes into: the value before the last key,
   * provided the root and every value before it is an object; `None` when one
   * of them is not.
   */
  function SetTarget(objs: map<ObjId, JsObject>, v: Value, keys: seq<string>): Option<ObjId>
    requires |keys| > 0
    decreases |keys|
  {
    if !v.Obj? then None
    else if |keys| == 1 then Some(v.id)
    else SetTarget(objs, Property(objs, v, keys[0]), keys[1..])
  }

  /**
   * `setValueFrom` finds the object `id` exactly when every value read before
   * the last key is an object and the last of them is `id`.
   */
  lemma {:induction false} SetTargetIsRead(objs: map<ObjId, JsObject>, v: Value, keys: seq<string>, id: ObjId)
    requires |keys| > 0
    ensures SetTarget(objs, v, keys) == Some(id)
        <==> (forall i :: 0 <= i < |keys| ==> ValueAt(objs, v, keys[..i]).Obj?)
             && ValueAt(objs, v, keys[..|keys| - 1]) == Obj(id)
    decreases |keys|
  {
    var allObj := forall i :: 0 <= i < |keys| ==> ValueAt(objs, v, keys[..i]).Obj?;
    assert ValueAt(objs, v, keys[..0]) == v by {
      assert keys[..0] == [];
    }
    if !v.Obj? {
      assert !allObj;
    } else if |keys| == 1 {
      assert keys[..|keys| - 1] == keys[..0];
    } else {
      var w := Property(objs, v, keys[0]);
      var rest := keys[1..];
      SetTargetIsRead(objs, w, rest, id);
      forall i | 1 <= i <= |keys|
        ensures ValueAt(objs, v, keys[..i]) == ValueAt(objs, w, rest[..i - 1])
      {
        assert keys[..i][1..] == rest[..i - 1];
      }
      if allObj {
        forall j | 0 <= j < |rest|
          ensures ValueAt(objs, w, rest[..j]).Obj?
        {
          assert ValueAt(objs, v, keys[..j + 1]).Obj?;
        }
      }
      if forall j :: 0 <= j < |rest| ==> ValueAt(objs, w, rest[..j]).Obj? {
        forall i | 0 <= i < |keys|
          ensures ValueAt(objs, v, keys[..i]).Obj?
        {
          if i > 0 {
            assert ValueAt(objs, w, rest[..i - 1]).Obj?;
          }
        }
      }
      assert ValueAt(objs, v, keys[..|keys| - 1]) == ValueAt(objs, w, rest[..|rest| - 1]);
    }
  }

  /** The write of `setValueFrom` leaves every other object as it was. */
  lemma SetPropertyOtherObject(objs: map<ObjId, JsObject>, id: ObjId, key: string, x: Value, o: ObjId, k: string)
    requires o != id
    ensures Property(SetProperty(objs, id, key, x), Obj(o), k) == Property(objs, Obj(o), k)
  {
    assert ObjectAt(SetProperty(objs, id, key, x), o) == ObjectAt(objs, o);
  }

  /**
   * After `setValueFrom` writes `x` into a plain object that the walk does not
   * pass through before its last key, `getValueFrom` along the same path
   * reads `x` back.
   */
  lemma {:induction false} SetThenGet(objs: map<ObjId, JsObject>, v: Value, keys: seq<string>, x: Value)
    requires |keys| > 0 && SetTarget(objs, v, keys).Some?
    requires ObjectAt(objs, SetTarget(objs, v, keys).value).Plain?
    requires forall i :: 0 <= i < |keys| - 1 ==> ValueAt(objs, v, keys[..i]) != Obj(SetTarget(objs, v, keys).value)
    ensures ValueAt(SetProperty(objs, SetTarget(objs, v, keys).value, keys[|keys| - 1], x), v, keys) == x
    decreases |keys|
  {
    var id := SetTarget(objs, v, keys).value;
    var objs' := SetProperty(objs, id, keys[|keys| - 1], x);
    if |keys| == 1 {
      SetPropertyReadBack(objs, id, keys[0], x, keys[0]);
    } else {
      assert ValueAt(objs, v, keys[..0]) == v by {
        assert keys[..0] == [];
      }
      var w := Property(objs, v, keys[0]);
      var rest := keys[1..];
      SetPropertyOtherObject(objs, id, keys[|keys| - 1], x, v.id, keys[0]);
      forall i | 0 <= i < |rest| - 1
        ensures ValueAt(objs, w, rest[..i]) != Obj(id)
      {
        assert keys[..i + 1][1..] == rest[..i];
        assert ValueAt(objs, v, keys[..i + 1]) != Obj(id);
      }
      SetThenGet(objs, w, rest, x);
    }
  }

  // ---------------------------------------------------------------------------
  // Path objects
  // ---------------------------------------------------------------------------

  /**
   * A `Path` (dist/aj.js:1212-1223): its keys, fixed at construction, and
   * whether it is a real path or the `invalidPath` sentinel, whose reads and
   * writes do nothing.
   */
  class Path {
    const keys: seq<string>
    const valid: bool

    constructor (keys: seq<string>, valid: bool)
      ensures this.keys == keys && this.valid == valid
    {
      this.keys := keys;
      this.valid := valid;
    }

    /**
     * `toString` (dist/aj.js:1271-1283): each key in turn, as `.key` (bare
     * for the first) when it is an identifier and as an accessor otherwise.
     */
    method ToString() returns (s: string)
      ensures s == PathString(keys)
    {
      s := "";
      var i := 0;
      while i < |keys|
        invariant 0 <= i <= |keys|
        invariant s == PathString(keys[..i])
      {
        var key := keys[i];
        PathStringNext(keys, i);
        if IsIdent(key) {
          s := s + (if i != 0 then "." + key else key);
        } else {
          s := s + FormatAccessor(key);
        }
        i := i + 1;
      }
      assert keys[..i] == keys;
    }

    /**
     * `getValueFrom` (dist/aj.js:1285-1292): follows the keys from `obj`,
     * stopping with undefined at a null or undefined value; the sentinel
     * returns undefined.
     */
    method GetValueFrom(objs: map<ObjId, JsObject>, obj: Value) returns (r: Value)
      ensures valid ==> r == ValueAt(objs, obj, keys)
      ensures !valid ==> r == Undefined
    {
      if !valid {
        return Undefined;
      }
      var o := obj;
      var i := 0;
      while i < |keys|
        invariant 0 <= i <= |keys|
        invariant ValueAt(objs, o, keys[i..]) == ValueAt(objs, obj, keys)
      {
        if IsNullish(o) {
          NullishReadsUndefined(objs, o, keys[i..]);
          return Undefined;
        }
        assert keys[i..][1..] == keys[i + 1..];
        o := Property(objs, o, keys[i]);
        i := i + 1;
      }
      return o;
    }

    /**
     * `setValueFrom` (dist/aj.js:1324-1339, 1342-1344): false for the empty path and when
     * the root or a value before the last key is not an object; otherwise the
     * last key is written in the object reached and the result is true. The
     * sentinel writes nothing.
     */
    method SetValueFrom(h: Heap, obj: Value, value: Value) returns (ok: bool)
      modifies h
      ensures ok <==> valid && |keys| > 0 && SetTarget(old(h.objs), obj, keys).Some?
      ensures ok ==> h.objs == SetProperty(old(h.objs), SetTarget(old(h.objs), obj, keys).value, keys[|keys| - 1], value)
      ensures !ok ==> h.objs == old(h.objs)
      ensures h.next == old(h.next)
    {
      if !valid || |keys| == 0 {
        return false;
      }
      var o := obj;
      var i := 0;
      while i < |keys| - 1
        invariant 0 <= i <= |keys| - 1
        invariant SetTarget(h.objs, o, keys[i..]) == SetTarget(h.objs, obj, keys)
      {
        if !o.Obj? {
          return false;
        }
        assert keys[i..][1..] == keys[i + 1..];
        o := Property(h.objs, o, keys[i]);
        i := i + 1;
      }
      if !o.Obj? {
        return false;
      }
      h.objs := SetProperty(h.objs, o.id, keys[i], value);
      return true;
    }
  }

  /** The empty text is a valid path with no keys. */
  lemma EmptyTextIsEmptyPath()
    ensures Parse("") == Some([])
  {
  }

  /** The empty path reads its root back and refuses every write. */
  lemma EmptyPathReadsRoot(objs: map<ObjId, JsObject>, v: Value)
    ensures ValueAt(objs, v, []) == v
  {
  }

  // ---------------------------------------------------------------------------
  // The path cache
  // ---------------------------------------------------------------------------

  /** What `Path.get` is handed. */
  datatype PathArg =
    | AsPath(path: Path)        // already a `Path`
    | Nullish                   // `null` or `undefined`
    | Text(text: string)        // a string
    | KeyList(parts: seq<string>) // an array of keys, already parsed

  /** The text `getPath` looks up for an argument that is not a path or a non-empty key list. */
  function LookupText(arg: PathArg): string
    requires !arg.AsPath? && !(arg.KeyList? && |arg.parts| > 0)
  {
    match arg
    case Nullish => ""
    case Text(s) => s
    case KeyList(_) => ""
  }

  /**
   * The process-wide path cache with its `invalidPath` sentinel
   * (dist/aj.js:1226-1257). Every cached path is valid and holds
   * the keys its text parses to.
   */
  class PathCache {
    var cache: map<string, Path>
    const invalid: Path

    ghost predicate Valid()
      reads this
    {
      && !invalid.valid && invalid.keys == []
      && forall s :: s in cache ==> cache[s].valid && Parse(s) == Some(cache[s].keys)
    }

    constructor ()
      ensures Valid() && cache == map[]
    {
      cache := map[];
      invalid := new Path([], false);
    }

    /**
     * `getPath`: a path is returned as it is; a non-empty key list becomes a
     * new, uncached path; otherwise the text (empty for null, undefined and an
     * empty list) is looked up in the cache, and on a miss it is parsed: a
     * parse error yields the sentinel, which is not cached, and a parse gives
     * a new path that is cached under the text.
     */
    method GetPath(arg: PathArg) returns (p: Path)
      requires Valid()
      modifies this
      ensures Valid()
      ensures arg.AsPath? ==> p == arg.path && cache == old(cache)
      ensures arg.KeyList? && |arg.parts| > 0 ==> fresh(p) && p.valid && p.keys == arg.parts && cache == old(cache)
      ensures !arg.AsPath? && !(arg.KeyList? && |arg.parts| > 0) ==>
        var s := LookupText(arg);
        && (s in old(cache) ==> p == old(cache)[s] && cache == old(cache))
        && (s !in old(cache) && Parse(s).None? ==> p == invalid && cache == old(cache))
        && (s !in old(cache) && Parse(s).Some? ==>
              fresh(p) && p.valid && p.keys == Parse(s).value && cache == old(cache)[s := p])
    {
      if arg.AsPath? {
        return arg.path;
      }
      if arg.KeyList? && |arg.parts| > 0 {
        p := new Path(arg.parts, true);
        return;
      }
      var s := LookupText(arg);
      if s in cache {
        return cache[s];
      }
      var parts := ParsePath(s);
      if parts.None? {
        return invalid;
      }
      p := new Path(parts.value, true);
      cache := cache[s := p];
    }
  }

  // ---------------------------------------------------------------------------
  // The cache lookup as written
  // ---------------------------------------------------------------------------

  /**
   * Names every object inherits from `Object.prototype`; the value behind each
   * is a function or an object, so it is truthy.
   */
  const InheritedNames: set<string> := {
    "constructor", "hasOwnProperty", "isPrototypeOf", "propertyIsEnumerable",
    "toLocaleString", "toString", "valueOf", "__proto__",
    "__defineGetter__", "__defineSetter__", "__lookupGetter__", "__lookupSetter__"
  }

  /** What `pathCache[pathString]` yields. */
  datatype CacheHit = Miss | Cached(path: Path) | Inherited(name: string)

  /**
   * `pathCache[pathString]` as dist/aj.js:1244-1246 writes it: the cache is
   * the plain object `{}`, so a name it inherits is found as well, and
   * `if (path) return path;` hands back the inherited value.
   */
  function CacheLookupAsWritten(cache: map<string, Path>, s: string): (r: CacheHit)
    ensures r.Cached? <==> s in cache
    ensures r.Inherited? <==> s !in cache && s in InheritedNames
  {
    if s in cache then Cached(cache[s])
    else if s in InheritedNames then Inherited(s)
    else Miss
  }

  /**
   * `Path.get('toString')` as written returns the inherited
   * `Object.prototype.toString` rather than a path, although the text parses
   * to the single key `toString`; `PathCache.GetPath`, which looks up only
   * the cache's own entries, returns that path.
   */
  lemma InheritedNameShadowsPath(cache: map<string, Path>)
    requires "toString" !in cache
    ensures CacheLookupAsWritten(cache, "toString") == Inherited("toString")
    ensures Parse("toString") == Some(["toString"])
  {
    var segs := ["toString"];
    assert IsIdent(segs[0]);
    DottedPathRoundTrip(segs);
    assert JoinDots(segs) == "toString";
  }
}
