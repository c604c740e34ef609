/**
 * The path-string builders of src/value-monitor.js: joining a monitor's
 * root path with a sub-path (`concatPath`), turning the result into the
 * bracketed form the observers parse (`convertObservePath`), and masking
 * the path punctuation in a virtual root name
 * (`transferToSafePropertyPath`).
 */
module PathText {
  import opened JsCore

  // ---------------------------------------------------------------------------
  // concatPath
  // ---------------------------------------------------------------------------

  /** A string argument that is truthy: present and not empty. */
  predicate Given(p: Option<string>) {
    p.Some? && p.value != ""
  }

  /** The join of src/value-monitor.js:72-77; `None` when the result is undefined. */
  function JoinedPath(p1: Option<string>, p2: Option<string>): Option<string> {
    if Given(p1) then Some(if Given(p2) then p1.value + "." + p2.value else p1.value)
    else p2
  }

  const ReplaceOfUndefined: string := "TypeError: Cannot read property 'replace' of undefined"

  /**
   * `concatPath` (src/value-monitor.js:71-81): the parts are joined with a
   * dot only when both are given, and the first `.[` becomes `[`; with no
   * root and no sub-path the call fails on `undefined.replace`.
   */
  function ConcatPath(p1: Option<string>, p2: Option<string>): (r: Result<string>)
    ensures r.Throw? <==> !Given(p1) && p2.None?
  {
    match JoinedPath(p1, p2)
    case None => Throw(ReplaceOfUndefined)
    case Some(j) => Ok(ReplaceFirst(j, ".[", "["))
  }

  /** No dot right before a bracket: nothing to fix. */
  lemma NoDotBracket(s: string, t: string)
    requires forall i :: 0 <= i < |s| - 1 ==> !(s[i] == '.' && s[i + 1] == '[')
    ensures ReplaceFirst(s, ".[", t) == s
  {
    forall i | 0 <= i < |s|
      ensures !StartsWith((s + [])[i..], ".[")
    {
      assert s + [] == s;
      if i + 1 < |s| {
        assert s[i..][..2] == [s[i], s[i + 1]];
      }
    }
    ReplaceFirstSkips(s, [], ".[", t);
    assert s + [] == s;
  }

  /** Without a `[` there is no `.[` to fix. */
  lemma NoBracketNoFix(s: string, t: string)
    requires '[' !in s
    ensures ReplaceFirst(s, ".[", t) == s
  {
    forall j | 0 <= j < |s|
      ensures s[j] != '['
    {
      assert s[j] in s;
    }
    NoDotBracket(s, t);
  }

  /** Two plain parts are joined by a dot. */
  lemma ConcatPathJoins(p1: string, p2: string)
    requires p1 != "" && p2 != "" && '[' !in p1 && '[' !in p2
    ensures ConcatPath(Some(p1), Some(p2)) == Ok(p1 + "." + p2)
  {
    assert '[' !in p1 + "." + p2;
    NoBracketNoFix(p1 + "." + p2, "[");
  }

  /** A sub-path that starts with an index is appended without a dot. */
  lemma ConcatPathIndex(p1: string, p2: string)
    requires p1 != "" && '[' !in p1 && |p2| > 0 && p2[0] == '['
    ensures ConcatPath(Some(p1), Some(p2)) == Ok(p1 + p2)
  {
    var rest := p2[1..];
    var s := p1 + "." + p2;
    assert s == p1 + (".[" + rest);
    forall i | 0 <= i < |p1|
      ensures !StartsWith((p1 + (".[" + rest))[i..], ".[")
    {
      assert s[i..][..2][1] == s[i + 1];
      if i + 1 < |p1| {
        assert s[i + 1] == p1[i + 1];
      } else {
        assert s[i + 1] == '.';
      }
    }
    ReplaceFirstSkips(p1, ".[" + rest, ".[", "[");
    assert StartsWith(".[" + rest, ".[");
    assert ("[" + rest) == p2;
  }

  // ---------------------------------------------------------------------------
  // Splitting at dots
  // ---------------------------------------------------------------------------

  /** `s.split(sep)`: the pieces between separators, at least one. */
  function Split(s: string, sep: char): (r: seq<string>)
    ensures |r| >= 1
    decreases |s|
  {
    if |s| == 0 then [""]
    else
      var rest := Split(s[1..], sep);
      if s[0] == sep then [""] + rest else [[s[0]] + rest[0]] + rest[1..]
  }

  /** `segs.join(sep)`. */
  function Join(segs: seq<string>, sep: char): string
    decreases |segs|
  {
    if |segs| == 0 then ""
    else if |segs| == 1 then segs[0]
    else segs[0] + [sep] + Join(segs[1..], sep)
  }

  /** Joining the pieces gives the text back. */
  lemma {:induction false} JoinSplit(s: string, sep: char)
    ensures Join(Split(s, sep), sep) == s
    decreases |s|
  {
    if |s| > 0 {
      var rest := Split(s[1..], sep);
      JoinSplit(s[1..], sep);
      if s[0] == sep {
        assert ([""] + rest)[1..] == rest;
      } else {
        var r := [[s[0]] + rest[0]] + rest[1..];
        assert r[1..] == rest[1..];
        if |rest| > 1 {
          assert rest == [rest[0]] + rest[1..];
          assert Join(rest, sep) == rest[0] + [sep] + Join(rest[1..], sep);
        }
      }
    }
  }

  /** Text without the separator in front stays in the first piece. */
  lemma {:induction false} SplitPrefix(a: string, b: string, sep: char)
    requires sep !in a
    ensures Split(a + b, sep) == [a + Split(b, sep)[0]] + Split(b, sep)[1..]
    decreases |a|
  {
    if |a| > 0 {
      assert a[0] in a;
      assert (a + b)[1..] == a[1..] + b;
      SplitPrefix(a[1..], b, sep);
      assert [a[0]] + (a[1..] + Split(b, sep)[0]) == a + Split(b, sep)[0];
    } else {
      assert a + b == b && a + Split(b, sep)[0] == Split(b, sep)[0];
      assert Split(b, sep) == [Split(b, sep)[0]] + Split(b, sep)[1..];
    }
  }

  /** Pieces without the separator come back from the joined text. */
  lemma {:induction false} SplitJoin(segs: seq<string>, sep: char)
    requires |segs| >= 1 && forall k :: 0 <= k < |segs| ==> sep !in segs[k]
    ensures Split(Join(segs, sep), sep) == segs
    decreases |segs|
  {
    if |segs| == 1 {
      SplitPrefix(segs[0], "", sep);
      assert segs[0] + "" == segs[0];
    } else {
      var rest := segs[1..];
      SplitJoin(rest, sep);
      assert segs[0] + [sep] + Join(rest, sep) == segs[0] + ([sep] + Join(rest, sep));
      SplitPrefix(segs[0], [sep] + Join(rest, sep), sep);
      assert ([sep] + Join(rest, sep))[1..] == Join(rest, sep);
      assert segs[0] + "" == segs[0];
      assert segs == [segs[0]] + rest;
    }
  }

  // ---------------------------------------------------------------------------
  // The index run /(\[[0-9]+\])+/
  // ---------------------------------------------------------------------------

  /** The number of digits in a row from `i`. */
  function DigitsFrom(s: string, i: nat): (n: nat)
    ensures i + n <= |s| || n == 0
    decreases |s| - i
  {
    if i < |s| && IsDigit(s[i]) then 1 + DigitsFrom(s, i + 1) else 0
  }

  /** The length of a group `[digits]` starting at `i`, 0 when none does. */
  function GroupAt(s: string, i: nat): (n: nat)
    ensures n > 0 ==> i + n <= |s| && n >= 3
  {
    var d := DigitsFrom(s, i + 1);
    if i < |s| && s[i] == '[' && d > 0 && i + 1 + d < |s| && s[i + 1 + d] == ']' then d + 2 else 0
  }

  /** The length of the longest run of groups from `i` (greedy `+`). */
  function RunAt(s: string, i: nat): (n: nat)
    ensures i + n <= |s| || n == 0
    decreases |s| - i
  {
    var g := GroupAt(s, i);
    if g == 0 then 0 else g + RunAt(s, i + g)
  }

  /** Where `exec` finds the pattern: the leftmost position from `i` where a group starts. */
  function FirstGroup(s: string, i: nat): (r: Option<nat>)
    ensures r.Some? ==> i <= r.value < |s| && GroupAt(s, r.value) > 0
    ensures r.Some? ==> forall j :: i <= j < r.value ==> GroupAt(s, j) == 0
    ensures r.None? ==> forall j :: i <= j < |s| ==> GroupAt(s, j) == 0
    decreases |s| - i
  {
    if i >= |s| then None
    else if GroupAt(s, i) > 0 then Some(i)
    else FirstGroup(s, i + 1)
  }

  /** A group needs a `[`. */
  lemma NoGroupWithoutBracket(s: string)
    requires '[' !in s
    ensures FirstGroup(s, 0) == None
  {
    forall j | 0 <= j < |s|
      ensures GroupAt(s, j) == 0
    {
      assert s[j] in s;
    }
  }

  /** `['name']`, or nothing for an empty name. */
  function Quoted(p: string): string {
    if p == "" then "" else "['" + p + "']"
  }

  /**
   * One dot segment (src/value-monitor.js:97-109): the text before the
   * first index run quoted, then the run itself; what follows the run is
   * dropped. A segment without a run is quoted whole.
   */
  function ConvertPart(p: string): string {
    match FirstGroup(p, 0)
    case None => Quoted(p)
    case Some(i) => Quoted(p[..i]) + p[i..i + RunAt(p, i)]
  }

  /** The converted segments, in order. */
  function Converted(parts: seq<string>): string
    decreases |parts|
  {
    if |parts| == 0 then "" else Converted(parts[..|parts| - 1]) + ConvertPart(parts[|parts| - 1])
  }

  /** Every segment quoted, in order. */
  function QuotedAll(segs: seq<string>): string
    decreases |segs|
  {
    if |segs| == 0 then "" else QuotedAll(segs[..|segs| - 1]) + Quoted(segs[|segs| - 1])
  }

  // ---------------------------------------------------------------------------
  // convertObservePath
  // ---------------------------------------------------------------------------

  const RootError: string := "The scope root cannot be observed"

  /** What `convertObservePath` returns or throws. */
  function ObservePath(root: Option<string>, sub: Option<string>): Result<string> {
    match ConcatPath(root, sub)
    case Throw(m) => Throw(m)
    case Ok(c) =>
      if c == "" then Throw(RootError)
      else Ok(Converted(Split(ReplaceFirst(c, ".[", "["), '.')))
  }

  /**
   * `convertObservePath` (src/value-monitor.js:83-113): the joined path
   * must not be empty; after a second `.[` fix it is split at dots and each
   * segment converted in turn.
   */
  method ConvertObservePath(root: Option<string>, sub: Option<string>) returns (r: Result<string>)
    ensures r == ObservePath(root, sub)
  {
    var joined := ConcatPath(root, sub);
    if joined.Throw? {
      return Throw(joined.message);
    }
    if joined.value == "" {
      return Throw(RootError);
    }
    var observePath := ReplaceFirst(joined.value, ".[", "[");
    var safePath := ConvertParts(Split(observePath, '.'));
    r := Ok(safePath);
  }

  /** The loop of src/value-monitor.js:96-110 over the dot segments. */
  method ConvertParts(parts: seq<string>) returns (safePath: string)
    ensures safePath == Converted(parts)
  {
    safePath := "";
    var i := 0;
    while i < |parts|
      invariant 0 <= i <= |parts|
      invariant safePath == Converted(parts[..i])
    {
      assert parts[..i + 1][..i] == parts[..i];
      safePath := safePath + ConvertPart(parts[i]);
      i := i + 1;
    }
    assert parts[..i] == parts;
  }

  /** Only an empty root with an empty sub-path is refused as the scope root. */
  lemma RootErrorExactly(root: Option<string>, sub: Option<string>)
    ensures ObservePath(root, sub) == Throw(RootError) <==> !Given(root) && sub == Some("")
  {
    if Given(root) {
      assert |root.value| > 0;
      assert JoinedPath(root, sub).value != "";
    }
  }

  /** Segments without brackets are each quoted. */
  lemma {:induction false} ConvertedPlain(segs: seq<string>)
    requires forall k :: 0 <= k < |segs| ==> '[' !in segs[k]
    ensures Converted(segs) == QuotedAll(segs)
    decreases |segs|
  {
    if |segs| > 0 {
      ConvertedPlain(segs[..|segs| - 1]);
      NoGroupWithoutBracket(segs[|segs| - 1]);
    }
  }

  /**
   * A dotted path of plain names, as the root with an empty sub-path,
   * becomes one quoted accessor per name: `a.b` gives `['a']['b']`.
   */
  lemma ConvertDottedPath(segs: seq<string>)
    requires |segs| >= 1
    requires forall k :: 0 <= k < |segs| ==> segs[k] != "" && '.' !in segs[k] && '[' !in segs[k]
    ensures ObservePath(Some(Join(segs, '.')), Some("")) == Ok(QuotedAll(segs))
  {
    var j := Join(segs, '.');
    NoBracketInJoin(segs);
    assert segs[0] != "";
    JoinNotEmpty(segs);
    NoBracketNoFix(j, "[");
    SplitJoin(segs, '.');
    ConvertedPlain(segs);
  }

  lemma {:induction false} NoBracketInJoin(segs: seq<string>)
    requires forall k :: 0 <= k < |segs| ==> '[' !in segs[k]
    ensures '[' !in Join(segs, '.')
    decreases |segs|
  {
    if |segs| > 1 {
      NoBracketInJoin(segs[1..]);
    }
  }

  lemma JoinNotEmpty(segs: seq<string>)
    requires |segs| >= 1 && segs[0] != ""
    ensures Join(segs, '.') != ""
  {
    if |segs| > 1 {
      assert |Join(segs, '.')| >= |segs[0]|;
    }
  }

  /** An index run `[d0][d1]...` built from digit strings. */
  function Groups(ds: seq<string>): string
    decreases |ds|
  {
    if |ds| == 0 then "" else "[" + ds[0] + "]" + Groups(ds[1..])
  }

  predicate AllDigits(ds: seq<string>) {
    forall k :: 0 <= k < |ds| ==> ds[k] != "" && IsDigits(ds[k])
  }

  /** An index run holds no dot. */
  lemma {:induction false} NoDotInGroups(ds: seq<string>)
    requires AllDigits(ds)
    ensures '.' !in Groups(ds)
    decreases |ds|
  {
    if |ds| > 0 {
      NoDotInGroups(ds[1..]);
      var d := ds[0];
      forall j | 0 <= j < |d| ensures d[j] != '.' {
        assert IsDigit(d[j]);
      }
    }
  }

  /** The digits counted from `i` are exactly `d` when `]` follows it. */
  lemma {:induction false} DigitsFromRun(s: string, i: nat, d: string)
    requires IsDigits(d) && i + |d| < |s| && s[i..i + |d|] == d && s[i + |d|] == ']'
    ensures DigitsFrom(s, i) == |d|
    decreases |d|
  {
    if |d| > 0 {
      assert s[i] == d[0];
      assert s[i + 1..i + 1 + |d[1..]|] == d[1..];
      DigitsFromRun(s, i + 1, d[1..]);
    } else {
      assert !IsDigit(s[i]);
    }
  }

  /** At `|pre|` the run `Groups(ds)` is found whole. */
  lemma {:induction false} RunAtGroups(pre: string, ds: seq<string>)
    requires AllDigits(ds)
    ensures RunAt(pre + Groups(ds), |pre|) == |Groups(ds)|
    decreases |ds|
  {
    var s := pre + Groups(ds);
    if |ds| == 0 {
      assert GroupAt(s, |pre|) == 0;
    } else {
      var d := ds[0];
      var pre' := pre + "[" + d + "]";
      assert s == pre' + Groups(ds[1..]);
      assert s[|pre|] == '[';
      assert s[|pre| + 1..|pre| + 1 + |d|] == d;
      assert s[|pre| + 1 + |d|] == ']';
      DigitsFromRun(s, |pre| + 1, d);
      assert GroupAt(s, |pre|) == |d| + 2;
      RunAtGroups(pre', ds[1..]);
    }
  }

  /** The leftmost group, found from `j`. */
  lemma {:induction false} FirstGroupFrom(s: string, j: nat, i: nat)
    requires j <= i < |s| && GroupAt(s, i) > 0
    requires forall m :: j <= m < i ==> GroupAt(s, m) == 0
    ensures FirstGroup(s, j) == Some(i)
    decreases i - j
  {
    if j < i {
      FirstGroupFrom(s, j + 1, i);
    }
  }

  /** A segment made of a name without brackets and an index run is the quoted name, then the run. */
  lemma ConvertPartIndexed(q: string, ds: seq<string>)
    requires '[' !in q && |ds| > 0 && AllDigits(ds)
    ensures ConvertPart(q + Groups(ds)) == Quoted(q) + Groups(ds)
  {
    FirstGroupIndexed(q, ds);
    RunAtGroups(q, ds);
    ConvertPartOf(q, Groups(ds));
  }

  /** The run is found right after the name. */
  lemma FirstGroupIndexed(q: string, ds: seq<string>)
    requires '[' !in q && |ds| > 0 && AllDigits(ds)
    ensures FirstGroup(q + Groups(ds), 0) == Some(|q|)
  {
    var g := Groups(ds);
    var s := q + g;
    RunAtGroups(q, ds);
    assert GroupAt(s, |q|) > 0 by {
      assert g[0] == '[';
    }
    forall m | 0 <= m < |q|
      ensures GroupAt(s, m) == 0
    {
      assert s[m] == q[m] && q[m] in q;
    }
    FirstGroupFrom(s, 0, |q|);
  }

  /** A segment whose run starts after the name and reaches its end. */
  lemma ConvertPartOf(q: string, g: string)
    requires FirstGroup(q + g, 0) == Some(|q|) && RunAt(q + g, |q|) == |g|
    ensures ConvertPart(q + g) == Quoted(q) + g
  {
    var s := q + g;
    assert s[..|q|] == q && s[|q|..|q| + |g|] == g;
  }

  /**
   * A root name and a sub-path of a name followed by an index run, such as
   * `a` and `b[0][1]`, become `['a']['b'][0][1]`.
   */
  lemma ConvertIndexedPath(a: string, b: string, ds: seq<string>)
    requires a != "" && b != "" && '.' !in a && '[' !in a && '.' !in b && '[' !in b
    requires |ds| > 0 && AllDigits(ds)
    ensures ObservePath(Some(a), Some(b + Groups(ds))) == Ok(Quoted(a) + Quoted(b) + Groups(ds))
  {
    NoDotInGroups(ds);
    ConvertPartIndexed(b, ds);
    ConvertIndexedOf(a, b, Groups(ds));
  }

  /** The same for any tail `g` without dots that the segment conversion keeps whole. */
  lemma ConvertIndexedOf(a: string, b: string, g: string)
    requires a != "" && b != "" && '.' !in a && '[' !in a && '.' !in b && '[' !in b && '.' !in g
    requires ConvertPart(b + g) == Quoted(b) + g
    ensures ObservePath(Some(a), Some(b + g)) == Ok(Quoted(a) + Quoted(b) + g)
  {
    PlainJoin(a, b, g);
    ObserveTwo(a, b + g);
    NoGroupWithoutBracket(a);
    assert ConvertPart(a) == Quoted(a);
    assert Quoted(a) + (Quoted(b) + g) == Quoted(a) + Quoted(b) + g;
  }

  /** A plain name, a dot and a sub-path whose dots and brackets come after a plain name: no `.[` to fix. */
  lemma PlainJoin(a: string, b: string, g: string)
    requires a != "" && b != "" && '.' !in a && '[' !in a && '.' !in b && '[' !in b && '.' !in g
    ensures ConcatPath(Some(a), Some(b + g)) == Ok(a + "." + (b + g))
    ensures ReplaceFirst(a + "." + (b + g), ".[", "[") == a + "." + (b + g)
  {
    var sub := b + g;
    var s := a + "." + sub;
    assert '.' !in sub;
    forall i | 0 <= i < |s| - 1
      ensures !(s[i] == '.' && s[i + 1] == '[')
    {
      if i < |a| {
        assert s[i] == a[i] && a[i] in a;
      } else if i == |a| {
        assert s[i + 1] == b[0] && b[0] in b;
      } else {
        assert s[i] == sub[i - |a| - 1] && sub[i - |a| - 1] in sub;
      }
    }
    NoDotBracket(s, "[");
  }

  /** Two dot segments with nothing to fix convert one after the other. */
  lemma ObserveTwo(a: string, sub: string)
    requires a != "" && '.' !in a && '.' !in sub
    requires ConcatPath(Some(a), Some(sub)) == Ok(a + "." + sub)
    requires ReplaceFirst(a + "." + sub, ".[", "[") == a + "." + sub
    ensures ObservePath(Some(a), Some(sub)) == Ok(ConvertPart(a) + ConvertPart(sub))
  {
    var s := a + "." + sub;
    assert s == Join([a, sub], '.');
    SplitJoin([a, sub], '.');
    ConvertedTwo(a, sub);
    ObservePathOk(Some(a), Some(sub), s);
  }

  /** `convertObservePath` once the join is known and not empty. */
  lemma ObservePathOk(root: Option<string>, sub: Option<string>, c: string)
    requires ConcatPath(root, sub) == Ok(c) && c != ""
    ensures ObservePath(root, sub) == Ok(Converted(Split(ReplaceFirst(c, ".[", "["), '.')))
  {
  }

  lemma ConvertedTwo(x: string, y: string)
    ensures Converted([x, y]) == ConvertPart(x) + ConvertPart(y)
  {
    assert [x, y][..1] == [x] && [x][..0] == [];
    assert Converted([x]) == "" + ConvertPart(x) == ConvertPart(x);
  }

  // ---------------------------------------------------------------------------
  // transferToSafePropertyPath
  // ---------------------------------------------------------------------------

  /** The characters masked, in the order of src/value-monitor.js:9-15. */
  const SafeChars: seq<char> := ['.', '[', ']', '"', '\'']
  /** The stem of each character's token. */
  const SafeStems: seq<string> := ["_dot_", "_lb_", "_rb_", "_dq_", "_sg_"]

  /** An id of `util.createUID`, `aj_<count>_<timestamp>`. */
  datatype UtilId = UtilId(count: nat, stamp: nat)

  function UtilIdText(u: UtilId): string {
    "aj_" + NatToString(u.count) + "_" + NatToString(u.stamp)
  }

  /** The token of character `k`: its stem, `_` and the id drawn for it at load time (src/value-monitor.js:17-19). */
  function SafeToken(k: nat, u: UtilId): string
    requires k < |SafeStems|
  {
    SafeStems[k] + "_" + UtilIdText(u)
  }

  /** The replacements still to apply from `k` on. */
  function Transferred(p: string, ids: seq<UtilId>, k: nat): string
    requires |ids| == |SafeChars| && k <= |SafeChars|
    decreases |SafeChars| - k
  {
    if k == |SafeChars| then p
    else Transferred(ReplaceFirst(p, [SafeChars[k]], SafeToken(k, ids[k])), ids, k + 1)
  }

  /**
   * `transferToSafePropertyPath` (src/value-monitor.js:21-29): the first
   * occurrence of each of `.`, `[`, `]`, `"` and `'`, in that order, is
   * replaced by its token.
   */
  method TransferToSafePropertyPath(path: string, ids: seq<UtilId>) returns (p: string)
    requires |ids| == |SafeChars|
    ensures p == Transferred(path, ids, 0)
  {
    p := path;
    var i := 0;
    while i < |SafeChars|
      invariant 0 <= i <= |SafeChars|
      invariant Transferred(p, ids, i) == Transferred(path, ids, 0)
    {
      p := ReplaceFirst(p, [SafeChars[i]], SafeToken(i, ids[i]));
      i := i + 1;
    }
  }

  /** The tokens hold none of the masked characters. */
  lemma TokenIsSafe(k: nat, u: UtilId, c: char)
    requires k < |SafeStems| && c in SafeChars
    ensures c !in SafeToken(k, u)
  {
    var n1, n2 := NatToString(u.count), NatToString(u.stamp);
    forall j | 0 <= j < |n1| ensures n1[j] != c { assert IsDigit(n1[j]); }
    forall j | 0 <= j < |n2| ensures n2[j] != c { assert IsDigit(n2[j]); }
    assert SafeToken(k, u) == SafeStems[k] + "_" + "aj_" + n1 + "_" + n2;
  }

  /** How many times `c` occurs in `s`. */
  function Count(s: string, c: char): nat {
    multiset(s)[c]
  }

  /** One replacement by a token without `c`: `c` loses an occurrence exactly when it is the character replaced and present. */
  lemma CountStep(p: string, d: char, t: string, c: char)
    requires c !in t
    ensures Count(ReplaceFirst(p, [d], t), c) == if c == d && d in p then Count(p, c) - 1 else Count(p, c)
  {
    ReplaceFirstMultiset(p, d, t);
    assert multiset(t)[c] == 0;
    if c == d && d in p {
      assert multiset(p)[c] > 0;
    }
  }

  /** The position of a character in the table, 5 for one not masked. */
  function SafeIndex(c: char): (k: nat)
    ensures k <= |SafeChars| && (k < |SafeChars| <==> c in SafeChars)
    ensures k < |SafeChars| ==> SafeChars[k] == c
  {
    if c == '.' then 0 else if c == '[' then 1 else if c == ']' then 2
    else if c == '"' then 3 else if c == '\'' then 4 else 5
  }

  lemma SafeIndexOf(k: nat)
    requires k < |SafeChars|
    ensures SafeIndex(SafeChars[k]) == k
  {
    if k == 0 {
    } else if k == 1 {
    } else if k == 2 {
    } else if k == 3 {
    } else {
    }
  }

  /**
   * Each masked character loses exactly one occurrence when it has one: a
   * path holding each of them at most once comes out free of them, and a
   * second occurrence stays.
   */
  lemma {:induction false} TransferredCounts(p: string, ids: seq<UtilId>, k: nat, c: char)
    requires |ids| == |SafeChars| && k <= |SafeChars| && c in SafeChars
    ensures Count(Transferred(p, ids, k), c) ==
      if k <= SafeIndex(c) && Count(p, c) > 0 then Count(p, c) - 1 else Count(p, c)
    decreases |SafeChars| - k
  {
    if k < |SafeChars| {
      var d := SafeChars[k];
      var t := SafeToken(k, ids[k]);
      var q := ReplaceFirst(p, [d], t);
      TokenIsSafe(k, ids[k], c);
      CountStep(p, d, t, c);
      TransferredCounts(q, ids, k + 1, c);
      SafeIndexOf(k);
      if c == d {
        assert d in p <==> Count(p, d) > 0;
        assert Count(Transferred(q, ids, k + 1), c) == Count(q, c);
      } else {
        assert Count(q, c) == Count(p, c);
        assert SafeIndex(c) != k;
      }
    }
  }

  /** A path holding each masked character at most once comes out without any of them. */
  lemma TransferredIsSafe(p: string, ids: seq<UtilId>)
    requires |ids| == |SafeChars|
    requires forall k :: 0 <= k < |SafeChars| ==> Count(p, SafeChars[k]) <= 1
    ensures forall k :: 0 <= k < |SafeChars| ==> SafeChars[k] !in Transferred(p, ids, 0)
  {
    forall k | 0 <= k < |SafeChars|
      ensures SafeChars[k] !in Transferred(p, ids, 0)
    {
      TransferredCounts(p, ids, 0, SafeChars[k]);
      assert Count(Transferred(p, ids, 0), SafeChars[k]) == 0;
    }
  }
}
