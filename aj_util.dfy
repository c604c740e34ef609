/**
 * Small helpers of the binding layer in src/aj.js: the `?` placeholder
 * filling of observer paths (`__replaceIndexesInPath`), the unique id
 * counter (`Aj.util.createUID`), the ordered and cached table of meta
 * rewriters (`__getOrderedMetaRewritter`) and the creation of a sub-meta
 * reference (`__createAndRetrieveSubMetaRef`). `regulateArray` and
 * `arraySwap` are the same code as `arrayUtil` and are modelled once, in
 * module ArrayUtil.
 */
module AjUtil {
  import opened JsCore

  // ---------------------------------------------------------------------------
  // __replaceIndexesInPath
  // ---------------------------------------------------------------------------

  /** The indexes substituted in turn, each for the first `?` still left. */
  function Fill(path: string, indexes: seq<nat>): string
    decreases |indexes|
  {
    if |indexes| == 0 then path
    else Fill(ReplaceFirst(path, "?", NatToString(indexes[0])), indexes[1..])
  }

  /**
   * `__replaceIndexesInPath` (src/aj.js:811-818): with no index list the
   * path is returned unchanged; otherwise each index in turn replaces the
   * first `?` that is left.
   */
  method ReplaceIndexesInPath(path: string, replaceIndexes: Option<seq<nat>>) returns (r: string)
    ensures replaceIndexes.None? ==> r == path
    ensures replaceIndexes.Some? ==> r == Fill(path, replaceIndexes.value)
  {
    r := path;
    if replaceIndexes.Some? {
      var indexes := replaceIndexes.value;
      var i := 0;
      while i < |indexes|
        invariant 0 <= i <= |indexes|
        invariant Fill(r, indexes[i..]) == Fill(path, indexes)
      {
        assert indexes[i..][1..] == indexes[i + 1..];
        r := ReplaceFirst(r, "?", NatToString(indexes[i]));
        i := i + 1;
      }
    }
  }

  /** A path without a `?` is left as it is, whatever the indexes. */
  lemma {:induction false} FillWithoutMarks(path: string, indexes: seq<nat>)
    requires '?' !in path
    ensures Fill(path, indexes) == path
    decreases |indexes|
  {
    if |indexes| > 0 {
      ReplaceFirstAbsent(path, '?', NatToString(indexes[0]));
      FillWithoutMarks(path, indexes[1..]);
    }
  }

  /** Filling leaves a prefix without a `?` in front untouched. */
  lemma {:induction false} FillSkips(a: string, b: string, indexes: seq<nat>)
    requires '?' !in a
    ensures Fill(a + b, indexes) == a + Fill(b, indexes)
    decreases |indexes|
  {
    if |indexes| > 0 {
      SkipsChar(a, b, '?');
      ReplaceFirstSkips(a, b, "?", NatToString(indexes[0]));
      FillSkips(a, ReplaceFirst(b, "?", NatToString(indexes[0])), indexes[1..]);
    }
  }

  /**
   * The first index goes to the first `?`, and the rest of the indexes are
   * used on what follows it: the digits put in never hold a `?` themselves,
   * so the placeholders are filled strictly left to right.
   */
  lemma FillFirstMark(a: string, b: string, i: nat, rest: seq<nat>)
    requires '?' !in a
    ensures Fill(a + "?" + b, [i] + rest) == a + NatToString(i) + Fill(b, rest)
  {
    var digits := NatToString(i);
    assert ([i] + rest)[1..] == rest;
    ReplaceFirstChar(a, b, '?', digits);
    assert a + "?" + b == a + ['?'] + b;
    NoMarkInDigits(digits);
    FillSkips(a + digits, b, rest);
  }

  lemma NoMarkInDigits(digits: string)
    requires IsDigits(digits)
    ensures '?' !in digits
  {
    forall k | 0 <= k < |digits|
      ensures digits[k] != '?'
    {
      assert IsDigit(digits[k]);
    }
  }

  // ---------------------------------------------------------------------------
  // Aj.util.createUID
  // ---------------------------------------------------------------------------

  /** The id `createUID` gives on its `n`th call. */
  function Uid(n: nat): string {
    "AJUID-" + NatToString(n)
  }

  /** Different counts spell different ids. */
  lemma UidInjective(m: nat, n: nat)
    ensures Uid(m) == Uid(n) ==> m == n
  {
    if Uid(m) == Uid(n) {
      assert Uid(m)[6..] == NatToString(m);
      assert Uid(n)[6..] == NatToString(n);
      NatToStringInjective(m, n);
    }
  }

  /** The module-level counter `__uidSeq` and the ids handed out so far. */
  class UidSource {
    var uidSeq: nat
    ghost var issued: seq<string>

    ghost predicate Valid()
      reads this
    {
      |issued| == uidSeq && forall k :: 0 <= k < |issued| ==> issued[k] == Uid(k + 1)
    }

    constructor ()
      ensures Valid() && uidSeq == 0 && issued == []
    {
      uidSeq := 0;
      issued := [];
    }

    /**
     * `createUID` (src/aj.js:485-490): the counter goes up by one and the
     * id spells its new value, so no id is ever handed out twice.
     */
    method CreateUID() returns (uid: string)
      requires Valid()
      modifies this
      ensures Valid() && uidSeq == old(uidSeq) + 1 && uid == Uid(uidSeq)
      ensures uid !in old(issued) && issued == old(issued) + [uid]
    {
      forall k | 0 <= k < |issued|
        ensures issued[k] != Uid(uidSeq + 1)
      {
        UidInjective(k + 1, uidSeq + 1);
      }
      uidSeq := uidSeq + 1;
      uid := Uid(uidSeq);
      issued := issued + [uid];
    }
  }

  // ---------------------------------------------------------------------------
  // __getOrderedMetaRewritter
  // ---------------------------------------------------------------------------

  /** A rewriter function, by identity. */
  type FnId = nat

  /**
   * One value of `Aj.config.metaRewritter`: an object with optional
   * `priority`, `fn` and `key` (an absent or falsy one is `None`, and a
   * falsy priority `Some(0)`), a function, or a value of another kind
   * (with its `typeof` name and its JSON text).
   */
  datatype RewriterDef =
    | DefObject(priority: Option<int>, fn: Option<FnId>, key: Option<string>)
    | DefFunction(f: FnId)
    | DefOther(kind: string, json: string)

  /** A `for (var k in ...)` entry of the configuration, in enumeration order. */
  datatype ConfigEntry = ConfigEntry(name: string, def: RewriterDef)

  /** One element of the ordered table. */
  datatype MetaRewriter = MetaRewriter(key: string, fn: FnId, priority: int)

  const DefaultPriority: int := 100
  const EmptyFnError: string := "fn of meta rewritter cannot be empty"

  /**
   * The checks and defaults of one configuration entry (src/aj.js:439-472):
   * anything but an object or a function is refused, an absent `fn` is
   * refused, an absent or zero priority becomes 100 and an absent or
   * empty key becomes the entry's name.
   */
  function Normalize(e: ConfigEntry): (r: Result<MetaRewriter>)
    ensures r.Ok? <==> (e.def.DefObject? && e.def.fn.Some?) || e.def.DefFunction?
    ensures r.Ok? ==> r.value.priority != 0
  {
    match e.def
    case DefOther(kind, json) =>
      Throw("Object or function expected but got:" + kind + "\n" + json)
    case DefFunction(f) =>
      Ok(MetaRewriter(e.name, f, DefaultPriority))
    case DefObject(p, f, k) =>
      var priority := if p.None? || p.value == 0 then DefaultPriority else p.value;
      if f.None? then Throw(EmptyFnError)
      else Ok(MetaRewriter(if k.None? || k.value == "" then e.name else k.value, f.value, priority))
  }

  /** An entry written out from a table element normalises back to that element. */
  lemma NormalizeIdempotent(name: string, m: MetaRewriter)
    requires m.priority != 0 && m.key != ""
    ensures Normalize(ConfigEntry(name, DefObject(Some(m.priority), Some(m.fn), Some(m.key)))) == Ok(m)
  {
  }

  /** The entries normalised in order; the first refused entry's error is thrown. */
  function Collected(config: seq<ConfigEntry>): Result<seq<MetaRewriter>>
  {
    if |config| == 0 then Ok([])
    else
      match Collected(config[..|config| - 1])
      case Throw(m) => Throw(m)
      case Ok(rs) =>
        match Normalize(config[|config| - 1])
        case Throw(m) => Throw(m)
        case Ok(r) => Ok(rs + [r])
  }

  /** The table is collected exactly when every entry is accepted, one element per entry, in order. */
  lemma {:induction false} CollectedSpec(config: seq<ConfigEntry>)
    ensures Collected(config).Ok? <==> forall i :: 0 <= i < |config| ==> Normalize(config[i]).Ok?
    ensures Collected(config).Ok? ==>
      |Collected(config).value| == |config| &&
      forall i :: 0 <= i < |config| ==> Collected(config).value[i] == Normalize(config[i]).value
  {
    if |config| > 0 {
      var init := config[..|config| - 1];
      CollectedSpec(init);
      assert forall i :: 0 <= i < |init| ==> init[i] == config[i];
    }
  }

  /** A refused entry decides the error, whatever follows it. */
  lemma {:induction false} CollectedKeepsError(config: seq<ConfigEntry>, j: nat)
    requires j <= |config| && Collected(config[..j]).Throw?
    ensures Collected(config) == Collected(config[..j])
    decreases |config| - j
  {
    if j < |config| {
      assert config[..j + 1][..j] == config[..j];
      CollectedKeepsError(config, j + 1);
    } else {
      assert config[..j] == config;
    }
  }

  /** `a.key.localeCompare(b.key) <= 0`, taken as code-unit order. */
  predicate KeyLeq(a: string, b: string)
    decreases |a|
  {
    |a| == 0 || (|b| > 0 && (a[0] < b[0] || (a[0] == b[0] && KeyLeq(a[1..], b[1..]))))
  }

  lemma {:induction false} KeyLeqTotal(a: string, b: string)
    ensures KeyLeq(a, b) || KeyLeq(b, a)
    decreases |a|
  {
    if |a| > 0 && |b| > 0 && a[0] == b[0] {
      KeyLeqTotal(a[1..], b[1..]);
    }
  }

  lemma {:induction false} KeyLeqTrans(a: string, b: string, c: string)
    requires KeyLeq(a, b) && KeyLeq(b, c)
    ensures KeyLeq(a, c)
    decreases |a|
  {
    if |a| > 0 && a[0] == b[0] && b[0] == c[0] {
      KeyLeqTrans(a[1..], b[1..], c[1..]);
    }
  }

  /** The sort comparator of src/aj.js:474-480 says `x` may come first. */
  predicate Precedes(x: MetaRewriter, y: MetaRewriter) {
    x.priority < y.priority || (x.priority == y.priority && KeyLeq(x.key, y.key))
  }

  lemma PrecedesTotal(x: MetaRewriter, y: MetaRewriter)
    ensures Precedes(x, y) || Precedes(y, x)
  {
    KeyLeqTotal(x.key, y.key);
  }

  lemma PrecedesTrans(x: MetaRewriter, y: MetaRewriter, z: MetaRewriter)
    requires Precedes(x, y) && Precedes(y, z)
    ensures Precedes(x, z)
  {
    if x.priority == y.priority == z.priority {
      KeyLeqTrans(x.key, y.key, z.key);
    }
  }

  predicate Ordered(s: seq<MetaRewriter>) {
    forall i, j :: 0 <= i < j < |s| ==> Precedes(s[i], s[j])
  }

  /** One element put into an ordered table in its place. */
  function Insert(x: MetaRewriter, s: seq<MetaRewriter>): (r: seq<MetaRewriter>)
    requires Ordered(s)
    ensures Ordered(r) && multiset(r) == multiset(s) + multiset{x}
  {
    if |s| == 0 then [x]
    else if Precedes(x, s[0]) then
      InsertFront(x, s);
      [x] + s
    else
      var tail := Insert(x, s[1..]);
      PrecedesTotal(x, s[0]);
      assert s == [s[0]] + s[1..];
      HeadPrecedes(s, x, tail);
      [s[0]] + tail
  }

  lemma InsertFront(x: MetaRewriter, s: seq<MetaRewriter>)
    requires Ordered(s) && |s| > 0 && Precedes(x, s[0])
    ensures Ordered([x] + s)
  {
    forall j | 0 < j < |s| ensures Precedes(x, s[j]) {
      PrecedesTrans(x, s[0], s[j]);
    }
  }

  lemma HeadPrecedes(s: seq<MetaRewriter>, x: MetaRewriter, tail: seq<MetaRewriter>)
    requires Ordered(s) && |s| > 0 && Precedes(s[0], x)
    requires multiset(tail) == multiset(s[1..]) + multiset{x}
    ensures forall j :: 0 <= j < |tail| ==> Precedes(s[0], tail[j])
  {
    forall j | 0 <= j < |tail| ensures Precedes(s[0], tail[j]) {
      assert tail[j] in multiset(tail);
      if tail[j] != x {
        assert tail[j] in multiset(s[1..]);
        var k :| 0 <= k < |s[1..]| && s[1..][k] == tail[j];
        assert s[k + 1] == tail[j];
      }
    }
  }

  /** `array.sort(...)` with the comparator of src/aj.js:474-480. */
  function Sort(s: seq<MetaRewriter>): (r: seq<MetaRewriter>)
    ensures Ordered(r) && multiset(r) == multiset(s)
  {
    if |s| == 0 then []
    else
      assert s == s[..|s| - 1] + [s[|s| - 1]];
      Insert(s[|s| - 1], Sort(s[..|s| - 1]))
  }

  /** What `__getOrderedMetaRewritter` returns for a configuration. */
  function OrderedTable(config: seq<ConfigEntry>): Result<seq<MetaRewriter>> {
    match Collected(config)
    case Throw(m) => Throw(m)
    case Ok(rs) => Ok(Sort(rs))
  }

  /**
   * The table holds one element per configuration entry, ordered by
   * ascending priority with ties broken by key, and it is built exactly
   * when every entry is accepted.
   */
  lemma OrderedTableSpec(config: seq<ConfigEntry>)
    ensures OrderedTable(config).Ok? <==> forall i :: 0 <= i < |config| ==> Normalize(config[i]).Ok?
    ensures OrderedTable(config).Ok? ==>
      Ordered(OrderedTable(config).value) &&
      multiset(OrderedTable(config).value) == multiset(seq(|config|, i requires 0 <= i < |config| => Normalize(config[i]).value))
  {
    CollectedSpec(config);
    if Collected(config).Ok? {
      var rs := Collected(config).value;
      assert rs == seq(|config|, i requires 0 <= i < |config| => Normalize(config[i]).value);
    }
  }

  /** The configuration and the module-level cache `__ordered_metaRewritter`. */
  class RewriterTable {
    const config: seq<ConfigEntry>
    var cache: Option<seq<MetaRewriter>>

    ghost predicate Valid()
      reads this
    {
      cache.Some? ==> OrderedTable(config) == Ok(cache.value)
    }

    constructor (config: seq<ConfigEntry>)
      ensures Valid() && this.config == config && cache == None
    {
      this.config := config;
      cache := None;
    }

    /**
     * `__getOrderedMetaRewritter` (src/aj.js:433-483): a cached table is
     * returned as it is; otherwise the entries are checked in turn, the
     * first refused one throwing and leaving nothing cached, and the sorted
     * table is cached and returned.
     */
    method GetOrdered() returns (r: Result<seq<MetaRewriter>>)
      requires Valid()
      modifies this
      ensures Valid() && r == OrderedTable(config)
      ensures old(cache).Some? ==> cache == old(cache)
      ensures r.Ok? ==> cache == Some(r.value)
      ensures r.Throw? ==> cache == old(cache)
    {
      if cache.Some? {
        return Ok(cache.value);
      }
      var table: seq<MetaRewriter> := [];
      var i := 0;
      while i < |config|
        invariant 0 <= i <= |config|
        invariant Collected(config[..i]) == Ok(table)
      {
        var e := Normalize(config[i]);
        assert config[..i + 1][..i] == config[..i];
        if e.Throw? {
          CollectedKeepsError(config, i + 1);
          return Throw(e.message);
        }
        table := table + [e.value];
        i := i + 1;
      }
      assert config[..i] == config;
      cache := Some(Sort(table));
      r := Ok(Sort(table));
    }
  }

  // ---------------------------------------------------------------------------
  // __createAndRetrieveSubMetaRef
  // ---------------------------------------------------------------------------

  /** `meta[subType]` of a plain object. */
  function SubOf(objs: map<ObjId, JsObject>, meta: ObjId, subType: string): Value {
    Property(objs, Obj(meta), subType)
  }

  /**
   * `__createAndRetrieveSubMetaRef` (src/aj.js:564-588): afterwards
   * `meta[subType]` is an array holding the returned reference. An array
   * already there gets a new `{}` pushed; an object there is wrapped in a
   * new array and returned itself; another truthy value is kept as the
   * first element of a new array, followed by a new `{}`; a falsy value is
   * replaced by a new array holding a new `{}`.
   */
  method CreateAndRetrieveSubMetaRef(h: Heap, meta: ObjId, subType: string) returns (ref: Value)
    requires h.Valid() && meta in h.objs && h.objs[meta].Plain?
    modifies h
    ensures h.Valid() && meta in h.objs && h.objs[meta].Plain?
    ensures IsArray(h.objs, SubOf(h.objs, meta, subType)) && ref in ElemsOf(h.objs, SubOf(h.objs, meta, subType))
    ensures ref.Obj?
    ensures forall k :: k in old(h.objs[meta].props) && k != subType ==> k in h.objs[meta].props && h.objs[meta].props[k] == old(h.objs[meta].props[k])
    ensures var sub0, sub := SubOf(old(h.objs), meta, subType), SubOf(h.objs, meta, subType);
      if IsArray(old(h.objs), sub0) then
        sub == sub0 && ElemsOf(h.objs, sub) == ElemsOf(old(h.objs), sub0) + [ref] &&
        ref.id !in old(h.objs) && ref.id in h.objs && h.objs[ref.id] == Plain(map[])
      else if Truthy(sub0) && IsObject(sub0) then
        ref == sub0 && sub.id !in old(h.objs) && ElemsOf(h.objs, sub) == [sub0]
      else if Truthy(sub0) then
        sub.id !in old(h.objs) && ref.id !in old(h.objs) && ref.id in h.objs && h.objs[ref.id] == Plain(map[]) &&
        ElemsOf(h.objs, sub) == [sub0, ref]
      else
        sub.id !in old(h.objs) && ref.id !in old(h.objs) && ref.id in h.objs && h.objs[ref.id] == Plain(map[]) &&
        ElemsOf(h.objs, sub) == [ref]
    ensures forall id :: id in old(h.objs) && id != meta && !(IsArray(old(h.objs), SubOf(old(h.objs), meta, subType)) && id == SubOf(old(h.objs), meta, subType).id) ==>
      id in h.objs && h.objs[id] == old(h.objs[id])
  {
    var sub := SubOf(h.objs, meta, subType);
    if IsArray(h.objs, sub) {
      var id := h.Alloc(Plain(map[]));
      ref := Obj(id);
      h.objs := h.objs[sub.id := ArrayObj(ElemsOf(h.objs, sub) + [ref])];
    } else if Truthy(sub) {
      if IsObject(sub) {
        var arr := h.Alloc(ArrayObj([sub]));
        h.objs := h.objs[meta := Plain(h.objs[meta].props[subType := Obj(arr)])];
        ref := sub;
      } else {
        var id := h.Alloc(Plain(map[]));
        ref := Obj(id);
        var arr := h.Alloc(ArrayObj([sub, ref]));
        h.objs := h.objs[meta := Plain(h.objs[meta].props[subType := Obj(arr)])];
      }
    } else {
      var id := h.Alloc(Plain(map[]));
      ref := Obj(id);
      var arr := h.Alloc(ArrayObj([ref]));
      h.objs := h.objs[meta := Plain(h.objs[meta].props[subType := Obj(arr)])];
    }
  }
}
