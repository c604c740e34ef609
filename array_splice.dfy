/**
 * The splice calculator of the change-detection engine (`ArraySplice`,
 * dist/aj.js:2193-2444) and `ArrayObserver.applySplices`
 * (dist/aj.js:1870-1881).
 *
 * `calcSplices` trims the prefix and suffix the two arrays share, takes a
 * fast path when what is left is a pure insertion or a pure deletion, and
 * otherwise fills an edit-distance matrix (insertions and deletions only),
 * walks it back from the far corner to a sequence of edits, and folds runs
 * of edits into splice records `{index, removed, addedCount}`. Elements are
 * compared with `===`.
 */
module ArraySplice {
  import opened JsCore

  /** `EDIT_LEAVE`, `EDIT_UPDATE`, `EDIT_ADD`, `EDIT_DELETE`. */
  datatype Edit = Leave | Update | Add | Delete

  /** A splice record: at `index`, `removed` was taken out and `addedCount` elements put in. */
  datatype Splice = Splice(index: nat, removed: seq<Value>, addedCount: nat)

  function Min(a: int, b: int): int {
    if a < b then a else b
  }

  /** `arr[i]`, which is undefined past the end. */
  function ElemOr(arr: seq<Value>, i: int): Value {
    if 0 <= i < |arr| then arr[i] else Undefined
  }

  // ---------------------------------------------------------------------------
  // The edit-distance matrix
  // ---------------------------------------------------------------------------

  /**
   * Cell `(i, j)` of the matrix for `prev[oS..]` (rows) against `cur[cS..]`
   * (columns): the number of insertions and deletions that turn the first `i`
   * prev elements into the first `j` current ones, an update counting as two.
   */
  function Dist(cur: seq<Value>, cS: nat, prev: seq<Value>, oS: nat, i: nat, j: nat): nat
    requires oS + i <= |prev| && cS + j <= |cur|
    decreases i + j, 1
  {
    if i == 0 then j
    else if j == 0 then i
    else InnerDist(cur, cS, prev, oS, i, j)
  }

  /** A cell off row 0 and column 0, from its neighbours above and to the left. */
  function InnerDist(cur: seq<Value>, cS: nat, prev: seq<Value>, oS: nat, i: nat, j: nat): nat
    requires oS + i <= |prev| && cS + j <= |cur| && i > 0 && j > 0
    decreases i + j, 0
  {
    if StrictEquals(cur[cS + j - 1], prev[oS + i - 1]) then Dist(cur, cS, prev, oS, i - 1, j - 1)
    else 1 + Min(Dist(cur, cS, prev, oS, i - 1, j), Dist(cur, cS, prev, oS, i, j - 1))
  }

  /**
   * `calcEditDistances` (dist/aj.js:2221-2251): the matrix, row by row; row 0
   * and column 0 count insertions and deletions alone.
   */
  method CalcEditDistances(cur: seq<Value>, cS: nat, cE: nat, prev: seq<Value>, oS: nat, oE: nat)
    returns (d: array2<nat>)
    requires cS <= cE <= |cur| && oS <= oE <= |prev|
    ensures fresh(d) && d.Length0 == oE - oS + 1 && d.Length1 == cE - cS + 1
    ensures forall i, j :: 0 <= i < d.Length0 && 0 <= j < d.Length1 ==> d[i, j] == Dist(cur, cS, prev, oS, i, j)
  {
    var rowCount := oE - oS + 1;
    var columnCount := cE - cS + 1;
    d := new nat[rowCount, columnCount];
    for i := 0 to rowCount
      invariant forall r :: 0 <= r < i ==> d[r, 0] == r
    {
      d[i, 0] := i;
    }
    for j := 0 to columnCount
      invariant forall r :: 0 <= r < rowCount ==> d[r, 0] == r
      invariant forall c :: 0 <= c < j ==> d[0, c] == Dist(cur, cS, prev, oS, 0, c)
    {
      d[0, j] := j;
    }
    for i := 1 to rowCount
      invariant forall r, c :: 0 <= r < i && 0 <= c < columnCount ==> d[r, c] == Dist(cur, cS, prev, oS, r, c)
      invariant forall r :: i <= r < rowCount ==> d[r, 0] == r
    {
      FillRow(d, cur, cS, prev, oS, i);
    }
  }

  /** One inner row of `calcEditDistances`, from the rows above it. */
  method FillRow(d: array2<nat>, cur: seq<Value>, cS: nat, prev: seq<Value>, oS: nat, i: nat)
    requires 0 < i < d.Length0 && 0 < d.Length1
    requires oS + d.Length0 - 1 <= |prev| && cS + d.Length1 - 1 <= |cur|
    requires d[i, 0] == i
    requires forall r, c :: 0 <= r < i && 0 <= c < d.Length1 ==> d[r, c] == Dist(cur, cS, prev, oS, r, c)
    modifies d
    ensures forall c :: 0 <= c < d.Length1 ==> d[i, c] == Dist(cur, cS, prev, oS, i, c)
    ensures forall r, c :: 0 <= r < d.Length0 && r != i && 0 <= c < d.Length1 ==> d[r, c] == old(d[r, c])
  {
    for j := 1 to d.Length1
      invariant forall c :: 0 <= c < j ==> d[i, c] == Dist(cur, cS, prev, oS, i, c)
      invariant forall r, c :: 0 <= r < d.Length0 && r != i && 0 <= c < d.Length1 ==> d[r, c] == old(d[r, c])
    {
      assert d[i - 1, j - 1] == old(d[i - 1, j - 1]) == Dist(cur, cS, prev, oS, i - 1, j - 1);
      assert d[i - 1, j] == old(d[i - 1, j]) == Dist(cur, cS, prev, oS, i - 1, j);
      var cell;
      if StrictEquals(cur[cS + j - 1], prev[oS + i - 1]) {
        cell := d[i - 1, j - 1];
      } else {
        var north := d[i - 1, j] + 1;
        var west := d[i, j - 1] + 1;
        cell := if north < west then north else west;
      }
      d[i, j] := cell;
    }
  }

  // ---------------------------------------------------------------------------
  // Walking the matrix back to edits
  // ---------------------------------------------------------------------------

  /** One step of the walk back: the edit it records and the cell it moves to. */
  datatype Move = Move(edit: Edit, row: nat, column: nat)

  /**
   * The step the walk back takes from cell `(i, j)`. On row 0 only additions
   * are left, on column 0 only deletions. From an inner cell it moves to the
   * smallest of the three cells above and to the left, preferring the
   * diagonal, then the cell above (a deletion), then the cell to the left (an
   * addition); a diagonal move is a leave when the distance does not change
   * and an update otherwise.
   */
  function Step(cur: seq<Value>, cS: nat, prev: seq<Value>, oS: nat, i: nat, j: nat): (m: Move)
    requires oS + i <= |prev| && cS + j <= |cur| && (i > 0 || j > 0)
    ensures m.row <= i && m.column <= j && m.row + m.column < i + j
  {
    if i == 0 then Move(Add, i, j - 1)
    else if j == 0 then Move(Delete, i - 1, j)
    else InnerStep(cur, cS, prev, oS, i, j)
  }

  /** The step from a cell off row 0 and column 0. */
  function InnerStep(cur: seq<Value>, cS: nat, prev: seq<Value>, oS: nat, i: nat, j: nat): (m: Move)
    requires oS + i <= |prev| && cS + j <= |cur| && i > 0 && j > 0
    ensures m.row <= i && m.column <= j && m.row + m.column < i + j
  {
    var northWest := Dist(cur, cS, prev, oS, i - 1, j - 1);
    var west := Dist(cur, cS, prev, oS, i - 1, j);
    var north := Dist(cur, cS, prev, oS, i, j - 1);
    var min := if west < north then Min(west, northWest) else Min(north, northWest);
    if min == northWest then
      Move(if northWest == Dist(cur, cS, prev, oS, i, j) then Leave else Update, i - 1, j - 1)
    else if min == west then Move(Delete, i - 1, j)
    else Move(Add, i, j - 1)
  }

  /** The edits the walk back from cell `(i, j)` records, in forward order. */
  function Trace(cur: seq<Value>, cS: nat, prev: seq<Value>, oS: nat, i: nat, j: nat): seq<Edit>
    requires oS + i <= |prev| && cS + j <= |cur|
    decreases i + j, 1
  {
    if i == 0 && j == 0 then [] else TraceFrom(cur, cS, prev, oS, i, j)
  }

  /** The walk back from a cell other than `(0, 0)`: the walk from where its step leads, then the step's edit. */
  function TraceFrom(cur: seq<Value>, cS: nat, prev: seq<Value>, oS: nat, i: nat, j: nat): seq<Edit>
    requires oS + i <= |prev| && cS + j <= |cur| && (i > 0 || j > 0)
    decreases i + j, 0
  {
    var m := Step(cur, cS, prev, oS, i, j);
    Trace(cur, cS, prev, oS, m.row, m.column) + [m.edit]
  }

  /** The elements of `s` in the opposite order (`Array.prototype.reverse`). */
  function Reversed<T>(s: seq<T>): (r: seq<T>)
    ensures |r| == |s|
  {
    if |s| == 0 then [] else [s[|s| - 1]] + Reversed(s[..|s| - 1])
  }

  lemma ReversedSnoc<T>(s: seq<T>, x: T)
    ensures Reversed(s + [x]) == [x] + Reversed(s)
  {
    assert (s + [x])[..|s|] == s;
  }

  /**
   * `spliceOperationsFromEditDistances` (dist/aj.js:2256-2304): the walk back
   * over the matrix `calcEditDistances` built, pushing one edit per step,
   * then reversing the list.
   */
  method SpliceOperationsFromEditDistances(d: array2<nat>, ghost cur: seq<Value>, ghost cS: nat, ghost prev: seq<Value>, ghost oS: nat)
    returns (edits: seq<Edit>)
    requires d.Length0 > 0 && d.Length1 > 0
    requires oS + d.Length0 - 1 <= |prev| && cS + d.Length1 - 1 <= |cur|
    requires forall i, j :: 0 <= i < d.Length0 && 0 <= j < d.Length1 ==> d[i, j] == Dist(cur, cS, prev, oS, i, j)
    ensures edits == Trace(cur, cS, prev, oS, d.Length0 - 1, d.Length1 - 1)
  {
    var i := d.Length0 - 1;
    var j := d.Length1 - 1;
    var current := d[i, j];
    edits := [];
    ghost var trace := Trace(cur, cS, prev, oS, i, j);
    ghost var done: seq<Edit> := [];
    while i > 0 || j > 0
      invariant 0 <= i < d.Length0 && 0 <= j < d.Length1
      invariant i > 0 && j > 0 ==> current == d[i, j]
      invariant done == Reversed(edits)
      invariant trace == Trace(cur, cS, prev, oS, i, j) + done
      decreases i + j
    {
      var edit, ni, nj;
      edit, ni, nj, current := WalkBackStep(d, i, j, current, cur, cS, prev, oS);
      TraceSnoc(cur, cS, prev, oS, i, j, Trace(cur, cS, prev, oS, ni, nj), edit, done);
      ReversedSnoc(edits, edit);
      edits := edits + [edit];
      done := [edit] + done;
      i, j := ni, nj;
    }
    assert trace == done;
    edits := Reversed(edits);
  }

  lemma TraceSnoc(cur: seq<Value>, cS: nat, prev: seq<Value>, oS: nat, i: nat, j: nat, rest: seq<Edit>, edit: Edit, done: seq<Edit>)
    requires oS + i <= |prev| && cS + j <= |cur| && (i > 0 || j > 0)
    requires Step(cur, cS, prev, oS, i, j).edit == edit
    requires rest == Trace(cur, cS, prev, oS, Step(cur, cS, prev, oS, i, j).row, Step(cur, cS, prev, oS, i, j).column)
    ensures Trace(cur, cS, prev, oS, i, j) + done == rest + ([edit] + done)
  {
  }

  /** The body of the walk-back loop: one step from cell `(i, j)`. */
  method WalkBackStep(d: array2<nat>, i: nat, j: nat, current: nat, ghost cur: seq<Value>, ghost cS: nat, ghost prev: seq<Value>, ghost oS: nat)
    returns (edit: Edit, ni: nat, nj: nat, next: nat)
    requires i < d.Length0 && j < d.Length1 && (i > 0 || j > 0)
    requires oS + d.Length0 - 1 <= |prev| && cS + d.Length1 - 1 <= |cur|
    requires forall i, j :: 0 <= i < d.Length0 && 0 <= j < d.Length1 ==> d[i, j] == Dist(cur, cS, prev, oS, i, j)
    requires i > 0 && j > 0 ==> current == d[i, j]
    ensures Move(edit, ni, nj) == Step(cur, cS, prev, oS, i, j)
    ensures ni > 0 && nj > 0 ==> next == d[ni, nj]
  {
    next := current;
    if i == 0 {
      edit, ni, nj := Add, i, j - 1;
      return;
    }
    if j == 0 {
      edit, ni, nj := Delete, i - 1, j;
      return;
    }
    var northWest := d[i - 1, j - 1];
    var west := d[i - 1, j];
    var north := d[i, j - 1];
    var min;
    if west < north {
      min := if west < northWest then west else northWest;
    } else {
      min := if north < northWest then north else northWest;
    }
    if min == northWest {
      if northWest == current {
        edit := Leave;
      } else {
        edit := Update;
        next := northWest;
      }
      ni, nj := i - 1, j - 1;
    } else if min == west {
      edit, ni, nj := Delete, i - 1, j;
      next := west;
    } else {
      edit, ni, nj := Add, i, j - 1;
      next := north;
    }
  }

  // ---------------------------------------------------------------------------
  // What a sequence of edits says about the two arrays
  // ---------------------------------------------------------------------------

  /** How far an edit advances in the current array. */
  function CurStep(e: Edit): nat {
    if e == Delete then 0 else 1
  }

  /** How far an edit advances in the previous array. */
  function OldStep(e: Edit): nat {
    if e == Add then 0 else 1
  }

  /**
   * Edit `e` applies at position `index` of `cur` and `oldIndex` of `prev`:
   * the elements it consumes exist, and a leave joins two `===`-equal ones.
   */
  predicate StepFits(cur: seq<Value>, prev: seq<Value>, e: Edit, index: nat, oldIndex: nat) {
    match e
    case Leave => index < |cur| && oldIndex < |prev| && StrictEquals(cur[index], prev[oldIndex])
    case Update => index < |cur| && oldIndex < |prev|
    case Add => index < |cur|
    case Delete => oldIndex < |prev|
  }

  /**
   * `ops`, applied from `(index, oldIndex)`, consumes `cur` up to `cEnd` and
   * `prev` up to `oEnd`, each edit fitting where it applies.
   */
  predicate Walk(cur: seq<Value>, prev: seq<Value>, ops: seq<Edit>, index: nat, oldIndex: nat, cEnd: nat, oEnd: nat)
    decreases |ops|
  {
    if |ops| == 0 then index == cEnd && oldIndex == oEnd
    else
      StepFits(cur, prev, ops[0], index, oldIndex)
      && Walk(cur, prev, ops[1..], index + CurStep(ops[0]), oldIndex + OldStep(ops[0]), cEnd, oEnd)
  }

  /** A walk extended by one fitting edit at its end is a walk. */
  lemma {:induction false} WalkSnoc(cur: seq<Value>, prev: seq<Value>, ops: seq<Edit>, e: Edit, index: nat, oldIndex: nat, cMid: nat, oMid: nat)
    requires Walk(cur, prev, ops, index, oldIndex, cMid, oMid)
    requires StepFits(cur, prev, e, cMid, oMid)
    ensures Walk(cur, prev, ops + [e], index, oldIndex, cMid + CurStep(e), oMid + OldStep(e))
    decreases |ops|
  {
    if |ops| > 0 {
      assert (ops + [e])[1..] == ops[1..] + [e];
      WalkSnoc(cur, prev, ops[1..], e, index + CurStep(ops[0]), oldIndex + OldStep(ops[0]), cMid, oMid);
    }
  }

  /**
   * The walk back from cell `(i, j)` is a walk from `(cS, oS)` over exactly
   * `j` current and `i` previous elements, and it leaves only elements that
   * are equal under `===`.
   */
  lemma {:induction false} TraceWalks(cur: seq<Value>, cS: nat, prev: seq<Value>, oS: nat, i: nat, j: nat)
    requires oS + i <= |prev| && cS + j <= |cur|
    ensures Walk(cur, prev, Trace(cur, cS, prev, oS, i, j), cS, oS, cS + j, oS + i)
    decreases i + j
  {
    if i > 0 || j > 0 {
      var m := Step(cur, cS, prev, oS, i, j);
      assert Trace(cur, cS, prev, oS, i, j) == Trace(cur, cS, prev, oS, m.row, m.column) + [m.edit];
      TraceWalks(cur, cS, prev, oS, m.row, m.column);
      if m.edit == Leave {
        LeaveKeepsEqual(cur, cS, prev, oS, i, j);
      }
      WalkSnoc(cur, prev, Trace(cur, cS, prev, oS, m.row, m.column), m.edit, cS, oS, cS + m.column, oS + m.row);
    }
  }

  /** The walk back leaves an element only where the two arrays agree under `===`. */
  lemma LeaveKeepsEqual(cur: seq<Value>, cS: nat, prev: seq<Value>, oS: nat, i: nat, j: nat)
    requires oS + i <= |prev| && cS + j <= |cur| && (i > 0 || j > 0)
    requires Step(cur, cS, prev, oS, i, j).edit == Leave
    ensures i > 0 && j > 0 && StrictEquals(cur[cS + j - 1], prev[oS + i - 1])
  {
    assert i > 0 && j > 0;
    assert Dist(cur, cS, prev, oS, i, j) == InnerDist(cur, cS, prev, oS, i, j);
  }

  // ---------------------------------------------------------------------------
  // Shared prefix and suffix
  // ---------------------------------------------------------------------------

  /** The `k`-th elements of `cur` and `prev` agree under `===`. */
  predicate SameAt(cur: seq<Value>, prev: seq<Value>, k: nat) {
    k < |cur| && k < |prev| && StrictEquals(cur[k], prev[k])
  }

  /** How many leading elements of `cur` and `prev`, at most `n`, agree under `===`. */
  function CommonPrefix(cur: seq<Value>, prev: seq<Value>, n: nat): (r: nat)
    requires n <= |cur| && n <= |prev|
    ensures r <= n
    ensures forall k :: 0 <= k < r ==> SameAt(cur, prev, k)
    ensures r < n ==> !SameAt(cur, prev, r)
  {
    if n == 0 then 0
    else
      var r := CommonPrefix(cur, prev, n - 1);
      if r < n - 1 then r
      else if StrictEquals(cur[n - 1], prev[n - 1]) then n
      else n - 1
  }

  /** The `k`-th elements from the end of `cur` and `prev` agree under `===`. */
  predicate SameFromEnd(cur: seq<Value>, prev: seq<Value>, k: nat) {
    k < |cur| && k < |prev| && StrictEquals(cur[|cur| - 1 - k], prev[|prev| - 1 - k])
  }

  /** How many trailing elements of `cur` and `prev`, at most `n`, agree under `===`. */
  function CommonSuffix(cur: seq<Value>, prev: seq<Value>, n: nat): (r: nat)
    requires n <= |cur| && n <= |prev|
    ensures r <= n
    ensures forall k :: 0 <= k < r ==> SameFromEnd(cur, prev, k)
    ensures r < n ==> !SameFromEnd(cur, prev, r)
  {
    if n == 0 then 0
    else
      var r := CommonSuffix(cur, prev, n - 1);
      if r < n - 1 then r
      else if StrictEquals(cur[|cur| - n], prev[|prev| - n]) then n
      else n - 1
  }

  /** `sharedPrefix` (dist/aj.js:2411-2416). */
  method SharedPrefix(cur: seq<Value>, prev: seq<Value>, searchLength: nat) returns (count: nat)
    requires searchLength <= |cur| && searchLength <= |prev|
    ensures count == CommonPrefix(cur, prev, searchLength)
  {
    for i := 0 to searchLength
      invariant forall k :: 0 <= k < i ==> SameAt(cur, prev, k)
    {
      if !StrictEquals(cur[i], prev[i]) {
        assert !SameAt(cur, prev, i);
        return i;
      }
    }
    return searchLength;
  }

  /** `sharedSuffix` (dist/aj.js:2418-2426): both cursors step back before each comparison. */
  method SharedSuffix(cur: seq<Value>, prev: seq<Value>, searchLength: nat) returns (count: nat)
    requires searchLength <= |cur| && searchLength <= |prev|
    ensures count == CommonSuffix(cur, prev, searchLength)
  {
    var index1 := |cur|;
    var index2 := |prev|;
    count := 0;
    while count < searchLength
      invariant count <= searchLength
      invariant index1 == |cur| - count && index2 == |prev| - count
      invariant forall k :: 0 <= k < count ==> SameFromEnd(cur, prev, k)
    {
      index1 := index1 - 1;
      index2 := index2 - 1;
      if !StrictEquals(cur[index1], prev[index2]) {
        assert !SameFromEnd(cur, prev, count);
        break;
      }
      count := count + 1;
    }
  }

  // ---------------------------------------------------------------------------
  // Folding edits into splices
  // ---------------------------------------------------------------------------

  /** The state of the loop over the edits in `calcSplices`. */
  datatype FoldState = FoldState(pending: Option<Splice>, splices: seq<Splice>, index: nat, oldIndex: nat)

  /** The splices so far, with the open one pushed. */
  function Flushed(st: FoldState): seq<Splice> {
    if st.pending.Some? then st.splices + [st.pending.value] else st.splices
  }

  /** The open splice, or a new empty one at the current index. */
  function Opened(st: FoldState): Splice {
    if st.pending.Some? then st.pending.value else Splice(st.index, [], 0)
  }

  /**
   * One pass of the loop: a leave closes the open splice; the other edits
   * open one if needed and grow it, an update and a deletion recording the
   * previous element they drop (undefined when past the end).
   */
  function FoldStep(prev: seq<Value>, st: FoldState, e: Edit): FoldState {
    match e
    case Leave => FoldState(None, Flushed(st), st.index + 1, st.oldIndex + 1)
    case Update =>
      var sp := Opened(st);
      FoldState(Some(Splice(sp.index, sp.removed + [ElemOr(prev, st.oldIndex)], sp.addedCount + 1)), st.splices, st.index + 1, st.oldIndex + 1)
    case Add =>
      var sp := Opened(st);
      FoldState(Some(Splice(sp.index, sp.removed, sp.addedCount + 1)), st.splices, st.index + 1, st.oldIndex)
    case Delete =>
      var sp := Opened(st);
      FoldState(Some(Splice(sp.index, sp.removed + [ElemOr(prev, st.oldIndex)], sp.addedCount)), st.splices, st.index, st.oldIndex + 1)
  }

  function FoldEdits(prev: seq<Value>, st: FoldState, ops: seq<Edit>): FoldState
    decreases |ops|, 1
  {
    if |ops| == 0 then st else FoldEditsFrom(prev, st, ops)
  }

  /** The loop over a non-empty list of edits: the first pass, then the rest. */
  function FoldEditsFrom(prev: seq<Value>, st: FoldState, ops: seq<Edit>): FoldState
    requires |ops| > 0
    decreases |ops|, 0
  {
    FoldEdits(prev, FoldStep(prev, st, ops[0]), ops[1..])
  }

  /** The edit loop of `calcSplices` (dist/aj.js:2363-2408). */
  method FoldSplices(prev: seq<Value>, index0: nat, oldIndex0: nat, ops: seq<Edit>) returns (splices: seq<Splice>)
    ensures splices == Flushed(FoldEdits(prev, FoldState(None, [], index0, oldIndex0), ops))
  {
    var splice: Option<Splice> := None;
    splices := [];
    var index := index0;
    var oldIndex := oldIndex0;
    for i := 0 to |ops|
      invariant FoldEdits(prev, FoldState(splice, splices, index, oldIndex), ops[i..])
             == FoldEdits(prev, FoldState(None, [], index0, oldIndex0), ops)
    {
      assert ops[i..][1..] == ops[i + 1..];
      match ops[i]
      case Leave =>
        if splice.Some? {
          splices := splices + [splice.value];
          splice := None;
        }
        index := index + 1;
        oldIndex := oldIndex + 1;
      case Update =>
        var sp := if splice.Some? then splice.value else Splice(index, [], 0);
        sp := sp.(addedCount := sp.addedCount + 1);
        index := index + 1;
        sp := sp.(removed := sp.removed + [ElemOr(prev, oldIndex)]);
        oldIndex := oldIndex + 1;
        splice := Some(sp);
      case Add =>
        var sp := if splice.Some? then splice.value else Splice(index, [], 0);
        sp := sp.(addedCount := sp.addedCount + 1);
        index := index + 1;
        splice := Some(sp);
      case Delete =>
        var sp := if splice.Some? then splice.value else Splice(index, [], 0);
        sp := sp.(removed := sp.removed + [ElemOr(prev, oldIndex)]);
        oldIndex := oldIndex + 1;
        splice := Some(sp);
    }
    if splice.Some? {
      splices := splices + [splice.value];
    }
  }

  // ---------------------------------------------------------------------------
  // calcSplices
  // ---------------------------------------------------------------------------

  /**
   * What `calcSplices` returns for `cur[cS..cE]` against `prev[oS..oE]`. The
   * shared prefix is trimmed only when both ranges start at 0 and the shared
   * suffix only when both run to the end of their arrays; what is left is
   * nothing, a pure deletion, a pure insertion, or the edits of the walk back
   * folded into splices.
   */
  function CalcSplicesSpec(cur: seq<Value>, cS: nat, cE: nat, prev: seq<Value>, oS: nat, oE: nat): seq<Splice>
    requires cS <= cE <= |cur| && oS <= oE <= |prev|
  {
    TrimmedSplices(cur, prev, Trimmed(cur, cS, cE, prev, oS, oE))
  }

  /** A range `[cS, cE)` of the current array and a range `[oS, oE)` of the previous one. */
  datatype Window = Window(cS: nat, cE: nat, oS: nat, oE: nat)

  predicate WindowIn(w: Window, cur: seq<Value>, prev: seq<Value>) {
    w.cS <= w.cE <= |cur| && w.oS <= w.oE <= |prev|
  }

  /** The shorter of the two ranges' lengths. */
  function MinLength(cS: nat, cE: nat, oS: nat, oE: nat): nat
    requires cS <= cE && oS <= oE
  {
    if cE - cS < oE - oS then cE - cS else oE - oS
  }

  /** The shared prefix `calcSplices` trims: none unless both ranges start at 0. */
  function PrefixCount(cur: seq<Value>, cS: nat, cE: nat, prev: seq<Value>, oS: nat, oE: nat): (r: nat)
    requires cS <= cE <= |cur| && oS <= oE <= |prev|
    ensures r <= MinLength(cS, cE, oS, oE)
  {
    if cS == 0 && oS == 0 then CommonPrefix(cur, prev, MinLength(cS, cE, oS, oE)) else 0
  }

  /**
   * The shared suffix `calcSplices` trims: none unless both ranges run to the
   * end, and never overlapping the prefix.
   */
  function SuffixCount(cur: seq<Value>, cS: nat, cE: nat, prev: seq<Value>, oS: nat, oE: nat): (r: nat)
    requires cS <= cE <= |cur| && oS <= oE <= |prev|
    ensures r <= MinLength(cS, cE, oS, oE) - PrefixCount(cur, cS, cE, prev, oS, oE)
  {
    if cE == |cur| && oE == |prev| then
      CommonSuffix(cur, prev, MinLength(cS, cE, oS, oE) - PrefixCount(cur, cS, cE, prev, oS, oE))
    else 0
  }

  /** The two ranges with their shared prefix and suffix cut off. */
  function Trimmed(cur: seq<Value>, cS: nat, cE: nat, prev: seq<Value>, oS: nat, oE: nat): (w: Window)
    requires cS <= cE <= |cur| && oS <= oE <= |prev|
    ensures WindowIn(w, cur, prev)
  {
    var prefixCount := PrefixCount(cur, cS, cE, prev, oS, oE);
    var suffixCount := SuffixCount(cur, cS, cE, prev, oS, oE);
    Window(cS + prefixCount, cE - suffixCount, oS + prefixCount, oE - suffixCount)
  }

  function TrimmedSplices(cur: seq<Value>, prev: seq<Value>, w: Window): seq<Splice>
    requires WindowIn(w, cur, prev)
  {
    RangeSplices(cur, w.cS, w.cE, prev, w.oS, w.oE)
  }

  /** The splices for ranges whose shared prefix and suffix are already trimmed. */
  function RangeSplices(cur: seq<Value>, cS: nat, cE: nat, prev: seq<Value>, oS: nat, oE: nat): seq<Splice>
    requires cS <= cE <= |cur| && oS <= oE <= |prev|
  {
    if cE - cS == 0 && oE - oS == 0 then []
    else if cS == cE then [Splice(cS, prev[oS..oE], 0)]
    else if oS == oE then [Splice(cS, [], cE - cS)]
    else EditSplices(cur, cS, cE, prev, oS, oE)
  }

  /** The splices for two non-empty ranges: the walk back's edits, folded. */
  function EditSplices(cur: seq<Value>, cS: nat, cE: nat, prev: seq<Value>, oS: nat, oE: nat): seq<Splice>
    requires cS < cE <= |cur| && oS < oE <= |prev|
  {
    Flushed(FoldEdits(prev, FoldState(None, [], cS, oS), Trace(cur, cS, prev, oS, oE - oS, cE - cS)))
  }

  /** `calcSplices` (dist/aj.js:2330-2409). */
  method CalcSplices(cur: seq<Value>, currentStart: nat, currentEnd: nat, prev: seq<Value>, oldStart: nat, oldEnd: nat)
    returns (splices: seq<Splice>)
    requires currentStart <= currentEnd <= |cur| && oldStart <= oldEnd <= |prev|
    ensures splices == CalcSplicesSpec(cur, currentStart, currentEnd, prev, oldStart, oldEnd)
  {
    var window := TrimWindow(cur, currentStart, currentEnd, prev, oldStart, oldEnd);
    WindowSplices(cur, currentStart, currentEnd, prev, oldStart, oldEnd, window);
    splices := SplicesOfTrimmed(cur, window.cS, window.cE, prev, window.oS, window.oE);
  }

  /** The first part of `calcSplices`: cutting off the shared prefix and suffix. */
  method TrimWindow(cur: seq<Value>, currentStart: nat, currentEnd: nat, prev: seq<Value>, oldStart: nat, oldEnd: nat)
    returns (window: Window)
    requires currentStart <= currentEnd <= |cur| && oldStart <= oldEnd <= |prev|
    ensures window == Trimmed(cur, currentStart, currentEnd, prev, oldStart, oldEnd)
  {
    var prefixCount: nat := 0;
    var suffixCount: nat := 0;
    var minLength := MinLength(currentStart, currentEnd, oldStart, oldEnd);
    if currentStart == 0 && oldStart == 0 {
      prefixCount := SharedPrefix(cur, prev, minLength);
    }
    assert prefixCount == PrefixCount(cur, currentStart, currentEnd, prev, oldStart, oldEnd);
    if currentEnd == |cur| && oldEnd == |prev| {
      suffixCount := SharedSuffix(cur, prev, minLength - prefixCount);
    }
    assert suffixCount == SuffixCount(cur, currentStart, currentEnd, prev, oldStart, oldEnd);
    window := Window(currentStart + prefixCount, currentEnd - suffixCount, oldStart + prefixCount, oldEnd - suffixCount);
  }

  lemma WindowSplices(cur: seq<Value>, cS: nat, cE: nat, prev: seq<Value>, oS: nat, oE: nat, w: Window)
    requires cS <= cE <= |cur| && oS <= oE <= |prev| && w == Trimmed(cur, cS, cE, prev, oS, oE)
    ensures WindowIn(w, cur, prev)
    ensures CalcSplicesSpec(cur, cS, cE, prev, oS, oE) == RangeSplices(cur, w.cS, w.cE, prev, w.oS, w.oE)
  {
  }

  lemma SameTrace(cur: seq<Value>, cS: nat, prev: seq<Value>, oS: nat, i: nat, j: nat, i': nat, j': nat)
    requires oS + i <= |prev| && cS + j <= |cur| && i == i' && j == j'
    ensures Trace(cur, cS, prev, oS, i, j) == Trace(cur, cS, prev, oS, i', j')
  {
  }

  /** The part of `calcSplices` after the shared prefix and suffix are trimmed (dist/aj.js:2347-2408). */
  method SplicesOfTrimmed(cur: seq<Value>, cS: nat, cE: nat, prev: seq<Value>, oS: nat, oE: nat) returns (splices: seq<Splice>)
    requires cS <= cE <= |cur| && oS <= oE <= |prev|
    ensures splices == RangeSplices(cur, cS, cE, prev, oS, oE)
  {
    if cE - cS == 0 && oE - oS == 0 {
      return [];
    }
    if cS == cE {
      var removed := [];
      var o := oS;
      while o < oE
        invariant oS <= o <= oE && removed == prev[oS..o]
      {
        assert prev[oS..o + 1] == prev[oS..o] + [prev[o]];
        removed := removed + [prev[o]];
        o := o + 1;
      }
      return [Splice(cS, removed, 0)];
    } else if oS == oE {
      return [Splice(cS, [], cE - cS)];
    }
    var distances := CalcEditDistances(cur, cS, cE, prev, oS, oE);
    var ops := SpliceOperationsFromEditDistances(distances, cur, cS, prev, oS);
    SameTrace(cur, cS, prev, oS, distances.Length0 - 1, distances.Length1 - 1, oE - oS, cE - cS);
    assert ops == Trace(cur, cS, prev, oS, oE - oS, cE - cS);
    assert EditSplices(cur, cS, cE, prev, oS, oE) == Flushed(FoldEdits(prev, FoldState(None, [], cS, oS), ops));
    splices := FoldSplices(prev, cS, oS, ops);
  }

  /** `calculateSplices` (dist/aj.js:2428-2431) and the comparison `ArrayObserver.check_` makes: the whole of both arrays. */
  function Splices(cur: seq<Value>, prev: seq<Value>): seq<Splice> {
    CalcSplicesSpec(cur, 0, |cur|, prev, 0, |prev|)
  }

  method CalculateSplices(cur: seq<Value>, prev: seq<Value>) returns (splices: seq<Splice>)
    ensures splices == Splices(cur, prev)
  {
    splices := CalcSplices(cur, 0, |cur|, prev, 0, |prev|);
  }

  // ---------------------------------------------------------------------------
  // Applying splices
  // ---------------------------------------------------------------------------

  /**
   * `Array.prototype.splice(start, deleteCount, ...items)` on `arr`, for
   * non-negative arguments: both are clamped to the array, the deleted
   * stretch is replaced by `items`.
   */
  function JsSplice(arr: seq<Value>, start: nat, deleteCount: nat, items: seq<Value>): (r: seq<Value>)
    ensures start + deleteCount <= |arr| ==> r == arr[..start] + items + arr[start + deleteCount..]
  {
    var s := if start < |arr| then start else |arr|;
    var e := if deleteCount < |arr| - s then s + deleteCount else |arr|;
    arr[..s] + items + arr[e..]
  }

  /** `current[index]`, ..., `current[index + count - 1]`, undefined past the end. */
  function AddedItems(current: seq<Value>, index: nat, count: nat): (items: seq<Value>)
    ensures |items| == count
    ensures index + count <= |current| ==> items == current[index..index + count]
  {
    var items := seq(count, k => ElemOr(current, index + k));
    assert index + count <= |current| ==> items == current[index..index + count] by {
      if index + count <= |current| {
        forall k | 0 <= k < count
          ensures items[k] == current[index..index + count][k]
        {
          assert items[k] == ElemOr(current, index + k);
        }
      }
    }
    items
  }

  /** One splice applied to `arr`, its added elements taken from `current`. */
  function ApplyOne(arr: seq<Value>, current: seq<Value>, splice: Splice): seq<Value> {
    JsSplice(arr, splice.index, |splice.removed|, AddedItems(current, splice.index, splice.addedCount))
  }

  /** The splices applied to `arr` one after another, first to last. */
  function ApplyAll(arr: seq<Value>, current: seq<Value>, splices: seq<Splice>): seq<Value>
    decreases |splices|, 1
  {
    if |splices| == 0 then arr else ApplyLast(arr, current, splices)
  }

  function ApplyLast(arr: seq<Value>, current: seq<Value>, splices: seq<Splice>): seq<Value>
    requires |splices| > 0
    decreases |splices|, 0
  {
    ApplyOne(ApplyAll(arr, current, splices[..|splices| - 1]), current, splices[|splices| - 1])
  }

  /**
   * `ArrayObserver.applySplices` (dist/aj.js:1870-1881): each splice in turn
   * becomes a call of `splice` on the previous array, in place, its added
   * elements read from `current`.
   */
  method ApplySplices(h: Heap, previous: ObjId, current: seq<Value>, splices: seq<Splice>)
    requires previous in h.objs && h.objs[previous].ArrayObj?
    modifies h
    ensures h.objs == old(h.objs)[previous := ArrayObj(ApplyAll(old(h.objs)[previous].elems, current, splices))]
    ensures h.next == old(h.next)
  {
    ghost var start := h.objs[previous].elems;
    for i := 0 to |splices|
      invariant h.objs == old(h.objs)[previous := ArrayObj(ApplyAll(start, current, splices[..i]))]
      invariant h.next == old(h.next)
    {
      var splice := splices[i];
      var items := [];
      var addIndex := splice.index;
      while addIndex < splice.index + splice.addedCount
        invariant splice.index <= addIndex <= splice.index + splice.addedCount
        invariant items == AddedItems(current, splice.index, addIndex - splice.index)
      {
        items := items + [ElemOr(current, addIndex)];
        addIndex := addIndex + 1;
      }
      var arr := h.objs[previous].elems;
      assert splices[..i + 1][..i] == splices[..i];
      h.objs := h.objs[previous := ArrayObj(JsSplice(arr, splice.index, |splice.removed|, items))];
    }
    assert splices[..|splices|] == splices;
  }

  lemma ApplyAllSnoc(arr: seq<Value>, current: seq<Value>, splices: seq<Splice>, splice: Splice)
    ensures ApplyAll(arr, current, splices + [splice]) == ApplyOne(ApplyAll(arr, current, splices), current, splice)
  {
    assert (splices + [splice])[..|splices|] == splices;
  }

  // ---------------------------------------------------------------------------
  // Applying the calculated splices rebuilds the current array
  // ---------------------------------------------------------------------------

  /** The first `n` elements of `arr` match those of `cur`: equal under `===`, or identical. */
  predicate MatchesUpTo(arr: seq<Value>, cur: seq<Value>, n: nat) {
    n <= |arr| && n <= |cur| && forall k :: 0 <= k < n ==> Matches(arr[k], cur[k])
  }

  /** `arr` matches `cur` before `index`, and from there on it is `prev` from `oldIndex` on. */
  predicate Settled(arr: seq<Value>, cur: seq<Value>, prev: seq<Value>, index: nat, oldIndex: nat) {
    oldIndex <= |prev| && MatchesUpTo(arr, cur, index) && arr[index..] == prev[oldIndex..]
  }

  /**
   * What holds of the edit loop's state: the splices pushed so far turn
   * `prev` into an array that is settled up to the open splice, and the open
   * splice covers the current elements up to `index` and has removed the
   * previous elements just before `oldIndex`.
   */
  predicate FoldInv(cur: seq<Value>, prev: seq<Value>, st: FoldState) {
    forall arr {:trigger StateInv(cur, prev, arr, st)} :: arr == ApplyAll(prev, cur, st.splices) ==> StateInv(cur, prev, arr, st)
  }

  /** `FoldInv`, with the array the pushed splices produce given as `arr`. */
  predicate StateInv(cur: seq<Value>, prev: seq<Value>, arr: seq<Value>, st: FoldState) {
    st.index <= |cur| && st.oldIndex <= |prev|
    && match st.pending
       case None => Settled(arr, cur, prev, st.index, st.oldIndex)
       case Some(sp) =>
         sp.index + sp.addedCount == st.index && |sp.removed| <= st.oldIndex
         && sp.removed == prev[st.oldIndex - |sp.removed|..st.oldIndex]
         && Settled(arr, cur, prev, sp.index, st.oldIndex - |sp.removed|)
  }

  lemma SuffixShift(a: seq<Value>, b: seq<Value>, i: nat, j: nat, r: nat)
    requires i <= |a| && j <= |b| && a[i..] == b[j..] && i + r <= |a|
    ensures j + r <= |b| && a[i + r..] == b[j + r..]
  {
    assert a[i + r..] == a[i..][r..];
    assert b[j + r..] == b[j..][r..];
  }

  /** Pushing the open splice settles the array up to the loop's position. */
  lemma FlushSettles(cur: seq<Value>, prev: seq<Value>, st: FoldState)
    requires FoldInv(cur, prev, st)
    ensures Settled(ApplyAll(prev, cur, Flushed(st)), cur, prev, st.index, st.oldIndex)
  {
    assert StateInv(cur, prev, ApplyAll(prev, cur, st.splices), st);
    if st.pending.Some? {
      ApplyAllSnoc(prev, cur, st.splices, st.pending.value);
      ApplyOneSettles(cur, prev, ApplyAll(prev, cur, st.splices), st);
    }
  }

  /** Applying an open splice that satisfies the invariant settles the array up to its end. */
  lemma ApplyOneSettles(cur: seq<Value>, prev: seq<Value>, arr: seq<Value>, st: FoldState)
    requires StateInv(cur, prev, arr, st) && st.pending.Some?
    ensures Settled(ApplyOne(arr, cur, st.pending.value), cur, prev, st.index, st.oldIndex)
  {
    var sp := st.pending.value;
    var o0 := st.oldIndex - |sp.removed|;
    SuffixShift(arr, prev, sp.index, o0, |sp.removed|);
    var items := AddedItems(cur, sp.index, sp.addedCount);
    var r := arr[..sp.index] + items + arr[sp.index + |sp.removed|..];
    assert ApplyOne(arr, cur, sp) == r;
    assert r[st.index..] == prev[st.oldIndex..] by {
      assert r[st.index..] == arr[sp.index + |sp.removed|..];
    }
    forall k | 0 <= k < st.index
      ensures Matches(r[k], cur[k])
    {
      if k >= sp.index {
        assert r[k] == items[k - sp.index] == cur[k];
      }
    }
  }

  /** A leave of an element equal under `===` extends the settled part by one. */
  lemma SettledAdvance(arr: seq<Value>, cur: seq<Value>, prev: seq<Value>, index: nat, oldIndex: nat)
    requires Settled(arr, cur, prev, index, oldIndex)
    requires index < |cur| && oldIndex < |prev| && StrictEquals(cur[index], prev[oldIndex])
    ensures Settled(arr, cur, prev, index + 1, oldIndex + 1)
  {
    SuffixShift(arr, prev, index, oldIndex, 1);
    assert arr[index] == arr[index..][0] == prev[oldIndex];
  }

  /** One pass of the edit loop keeps its invariant, for an edit that fits. */
  lemma FoldStepKeeps(cur: seq<Value>, prev: seq<Value>, st: FoldState, e: Edit)
    requires FoldInv(cur, prev, st) && StepFits(cur, prev, e, st.index, st.oldIndex)
    ensures FoldInv(cur, prev, FoldStep(prev, st, e))
  {
    if e == Leave {
      FlushSettles(cur, prev, st);
      SettledAdvance(ApplyAll(prev, cur, Flushed(st)), cur, prev, st.index, st.oldIndex);
    } else {
      OpenedKeeps(cur, prev, st, e);
    }
  }

  /** Growing the open splice by an update, addition or deletion keeps the invariant. */
  lemma OpenedKeeps(cur: seq<Value>, prev: seq<Value>, st: FoldState, e: Edit)
    requires FoldInv(cur, prev, st) && StepFits(cur, prev, e, st.index, st.oldIndex) && e != Leave
    ensures FoldInv(cur, prev, FoldStep(prev, st, e))
  {
    assert StateInv(cur, prev, ApplyAll(prev, cur, st.splices), st);
    OpenedKeepsAt(cur, prev, ApplyAll(prev, cur, st.splices), st, e);
  }

  lemma OpenedKeepsAt(cur: seq<Value>, prev: seq<Value>, arr: seq<Value>, st: FoldState, e: Edit)
    requires StateInv(cur, prev, arr, st) && StepFits(cur, prev, e, st.index, st.oldIndex) && e != Leave
    ensures StateInv(cur, prev, arr, FoldStep(prev, st, e))
  {
    var sp := Opened(st);
    var open := FoldState(Some(sp), st.splices, st.index, st.oldIndex);
    assert StateInv(cur, prev, arr, open);
    assert FoldStep(prev, st, e) == FoldStep(prev, open, e);
    GrowKeeps(cur, prev, arr, open, e);
  }

  lemma GrowKeeps(cur: seq<Value>, prev: seq<Value>, arr: seq<Value>, st: FoldState, e: Edit)
    requires StateInv(cur, prev, arr, st) && st.pending.Some?
    requires StepFits(cur, prev, e, st.index, st.oldIndex) && e != Leave
    ensures StateInv(cur, prev, arr, FoldStep(prev, st, e))
  {
    var sp := st.pending.value;
    var o0 := st.oldIndex - |sp.removed|;
    if e != Add {
      assert prev[o0..st.oldIndex] + [ElemOr(prev, st.oldIndex)] == prev[o0..st.oldIndex + 1];
    }
  }

  /** One pass of the edit loop advances the two indices as the edit consumes elements. */
  lemma FoldStepMoves(prev: seq<Value>, st: FoldState, e: Edit)
    ensures FoldStep(prev, st, e).index == st.index + CurStep(e)
    ensures FoldStep(prev, st, e).oldIndex == st.oldIndex + OldStep(e)
  {
  }

  /** The edit loop over a fitting walk keeps its invariant and ends where the walk ends. */
  lemma {:induction false} FoldWalk(cur: seq<Value>, prev: seq<Value>, st: FoldState, ops: seq<Edit>, cEnd: nat, oEnd: nat)
    requires FoldInv(cur, prev, st) && Walk(cur, prev, ops, st.index, st.oldIndex, cEnd, oEnd)
    ensures FoldInv(cur, prev, FoldEdits(prev, st, ops))
    ensures FoldEdits(prev, st, ops).index == cEnd && FoldEdits(prev, st, ops).oldIndex == oEnd
    decreases |ops|
  {
    if |ops| > 0 {
      var next := FoldStep(prev, st, ops[0]);
      FoldStepKeeps(cur, prev, st, ops[0]);
      FoldStepMoves(prev, st, ops[0]);
      assert Walk(cur, prev, ops[1..], next.index, next.oldIndex, cEnd, oEnd);
      FoldWalk(cur, prev, next, ops[1..], cEnd, oEnd);
    }
  }

  /**
   * The splices for trimmed ranges, applied to `prev` when it already matches
   * `cur` before the ranges, settle everything up to the ranges' ends.
   */
  lemma RangeSettles(cur: seq<Value>, prev: seq<Value>, cS: nat, cE: nat, oS: nat, oE: nat)
    requires cS <= cE <= |cur| && oS <= oE <= |prev| && Settled(prev, cur, prev, cS, oS)
    ensures Settled(ApplyAll(prev, cur, RangeSplices(cur, cS, cE, prev, oS, oE)), cur, prev, cE, oE)
  {
    if cE - cS == 0 && oE - oS == 0 {
    } else if cS == cE {
      RemovalSettles(cur, prev, cS, oS, oE);
    } else if oS == oE {
      AdditionSettles(cur, prev, cS, cE, oS);
    } else {
      EditSettles(cur, prev, cS, cE, oS, oE);
    }
  }

  lemma RemovalSettles(cur: seq<Value>, prev: seq<Value>, cS: nat, oS: nat, oE: nat)
    requires cS <= |cur| && oS <= oE <= |prev| && Settled(prev, cur, prev, cS, oS)
    ensures Settled(ApplyAll(prev, cur, [Splice(cS, prev[oS..oE], 0)]), cur, prev, cS, oE)
  {
    var sp := Splice(cS, prev[oS..oE], 0);
    var st := FoldState(Some(sp), [], cS, oE);
    assert StateInv(cur, prev, prev, st) && ApplyAll(prev, cur, []) == prev;
    assert Flushed(st) == [sp];
    FlushSettles(cur, prev, st);
  }

  lemma AdditionSettles(cur: seq<Value>, prev: seq<Value>, cS: nat, cE: nat, oS: nat)
    requires cS <= cE <= |cur| && oS <= |prev| && Settled(prev, cur, prev, cS, oS)
    ensures Settled(ApplyAll(prev, cur, [Splice(cS, [], cE - cS)]), cur, prev, cE, oS)
  {
    var sp := Splice(cS, [], cE - cS);
    var st := FoldState(Some(sp), [], cE, oS);
    assert sp.removed == prev[oS..oS];
    assert StateInv(cur, prev, prev, st) && ApplyAll(prev, cur, []) == prev;
    assert Flushed(st) == [sp];
    FlushSettles(cur, prev, st);
  }

  lemma EditSettles(cur: seq<Value>, prev: seq<Value>, cS: nat, cE: nat, oS: nat, oE: nat)
    requires cS < cE <= |cur| && oS < oE <= |prev| && Settled(prev, cur, prev, cS, oS)
    ensures Settled(ApplyAll(prev, cur, EditSplices(cur, cS, cE, prev, oS, oE)), cur, prev, cE, oE)
  {
    TraceWalks(cur, cS, prev, oS, oE - oS, cE - cS);
    FoldSettles(cur, prev, cS, cE, oS, oE, Trace(cur, cS, prev, oS, oE - oS, cE - cS));
  }

  /** The edits of any fitting walk, folded into splices, settle the array up to the walk's end. */
  lemma FoldSettles(cur: seq<Value>, prev: seq<Value>, cS: nat, cE: nat, oS: nat, oE: nat, ops: seq<Edit>)
    requires cS <= |cur| && oS <= |prev| && Settled(prev, cur, prev, cS, oS)
    requires Walk(cur, prev, ops, cS, oS, cE, oE)
    ensures Settled(ApplyAll(prev, cur, Flushed(FoldEdits(prev, FoldState(None, [], cS, oS), ops))), cur, prev, cE, oE)
  {
    var st := FoldState(None, [], cS, oS);
    assert StateInv(cur, prev, prev, st) && ApplyAll(prev, cur, []) == prev;
    FoldWalk(cur, prev, st, ops, cE, oE);
    FlushSettles(cur, prev, FoldEdits(prev, st, ops));
  }

  /**
   * The promise of `calculateSplices`: applying the splices it reports to the
   * previous array (as `applySplices` does) yields an array as long as the
   * current one whose every element matches the current one's.
   */
  lemma SplicesRebuildCurrent(cur: seq<Value>, prev: seq<Value>)
    ensures |ApplyAll(prev, cur, Splices(cur, prev))| == |cur|
    ensures forall k :: 0 <= k < |cur| ==> Matches(ApplyAll(prev, cur, Splices(cur, prev))[k], cur[k])
  {
    var p := PrefixCount(cur, 0, |cur|, prev, 0, |prev|);
    var s := SuffixCount(cur, 0, |cur|, prev, 0, |prev|);
    var w := Trimmed(cur, 0, |cur|, prev, 0, |prev|);
    assert w == Window(p, |cur| - s, p, |prev| - s);
    assert forall k :: 0 <= k < s ==> SameFromEnd(cur, prev, k);
    forall k | 0 <= k < p
      ensures Matches(prev[k], cur[k])
    {
      assert SameAt(cur, prev, k);
    }
    assert Settled(prev, cur, prev, p, p);
    RangeSettles(cur, prev, p, |cur| - s, p, |prev| - s);
    SettledWithSuffix(ApplyAll(prev, cur, Splices(cur, prev)), cur, prev, s);
  }

  /** An array settled up to a shared suffix of `cur` and `prev` matches `cur` throughout. */
  lemma SettledWithSuffix(r: seq<Value>, cur: seq<Value>, prev: seq<Value>, s: nat)
    requires s <= |cur| && s <= |prev| && Settled(r, cur, prev, |cur| - s, |prev| - s)
    requires forall k :: 0 <= k < s ==> SameFromEnd(cur, prev, k)
    ensures |r| == |cur| && forall k :: 0 <= k < |cur| ==> Matches(r[k], cur[k])
  {
    forall k | |cur| - s <= k < |cur|
      ensures Matches(r[k], cur[k])
    {
      assert SameFromEnd(cur, prev, |cur| - 1 - k);
      assert r[k] == r[|cur| - s..][k - (|cur| - s)] == prev[k - |cur| + |prev|];
    }
  }

  // ---------------------------------------------------------------------------
  // When splices are reported, and how exact the rebuilt array is
  // ---------------------------------------------------------------------------

  /** The loop has an open splice or has pushed one. */
  predicate Busy(st: FoldState) {
    st.pending.Some? || |st.splices| > 0
  }

  lemma {:induction false} BusyStaysBusy(prev: seq<Value>, st: FoldState, ops: seq<Edit>)
    requires Busy(st)
    ensures Flushed(FoldEdits(prev, st, ops)) != []
    decreases |ops|
  {
    if |ops| > 0 {
      BusyStaysBusy(prev, FoldStep(prev, st, ops[0]), ops[1..]);
    assert FoldEdits(prev, st, ops) == FoldEditsFrom(prev, st, ops);
    }
  }

  /** Two non-empty ranges whose first elements differ under `===` yield at least one splice. */
  lemma EditSplicesNonEmpty(cur: seq<Value>, cS: nat, cE: nat, prev: seq<Value>, oS: nat, oE: nat)
    requires cS < cE <= |cur| && oS < oE <= |prev| && !StrictEquals(cur[cS], prev[oS])
    ensures EditSplices(cur, cS, cE, prev, oS, oE) != []
  {
    var st := FoldState(None, [], cS, oS);
    var ops := Trace(cur, cS, prev, oS, oE - oS, cE - cS);
    TraceWalks(cur, cS, prev, oS, oE - oS, cE - cS);
    assert |ops| > 0;
    assert ops[0] != Leave;
    BusyStaysBusy(prev, FoldStep(prev, st, ops[0]), ops[1..]);
    assert FoldEdits(prev, st, ops) == FoldEditsFrom(prev, st, ops);
  }

  // ---------------------------------------------------------------------------
  // The shape of the reported splices
  // ---------------------------------------------------------------------------

  /** A splice that removes or adds at least one element. */
  predicate Changes(sp: Splice) {
    |sp.removed| > 0 || sp.addedCount > 0
  }

  /** Where a splice's added elements end in the current array. */
  function SpliceEnd(sp: Splice): nat {
    sp.index + sp.addedCount
  }

  /**
   * Every splice changes something, and the splices come in ascending order
   * and apart: at least one element the two arrays share lies between one's
   * added elements and any later one's index.
   */
  predicate WellSpaced(ss: seq<Splice>) {
    (forall k :: 0 <= k < |ss| ==> Changes(ss[k]))
    && (forall j, k :: 0 <= j < k < |ss| ==> SpliceEnd(ss[j]) < ss[k].index)
  }

  /** How many elements the splices add, in all. */
  function AddedTotal(ss: seq<Splice>): nat {
    if ss == [] then 0 else AddedTotal(ss[..|ss| - 1]) + ss[|ss| - 1].addedCount
  }

  /** How many elements the splices remove, in all. */
  function RemovedTotal(ss: seq<Splice>): nat {
    if ss == [] then 0 else RemovedTotal(ss[..|ss| - 1]) + |ss[|ss| - 1].removed|
  }

  lemma TotalsSnoc(ss: seq<Splice>, sp: Splice)
    ensures AddedTotal(ss + [sp]) == AddedTotal(ss) + sp.addedCount
    ensures RemovedTotal(ss + [sp]) == RemovedTotal(ss) + |sp.removed|
  {
    assert (ss + [sp])[..|ss|] == ss;
  }

  /**
   * What the edit loop keeps, whatever the edits: the splices so far are well
   * spaced, lie between `index0` and the loop's position, the open one ends
   * at that position, and the elements added less those removed account for
   * how much further the loop has gone in `cur` than in `prev`.
   */
  predicate Tally(st: FoldState, index0: nat, oldIndex0: nat) {
    WellSpaced(Flushed(st)) && Bounded(st, index0) && OpenAfter(st) && Counted(st, index0, oldIndex0)
  }

  /** The splices so far lie between `index0` and the loop's position. */
  predicate Bounded(st: FoldState, index0: nat) {
    var ss := Flushed(st);
    index0 <= st.index && forall k :: 0 <= k < |ss| ==> index0 <= ss[k].index && SpliceEnd(ss[k]) <= st.index
  }

  /** The open splice comes after the pushed ones and ends at the loop's position. */
  predicate OpenAfter(st: FoldState) {
    (st.splices != [] ==> SpliceEnd(st.splices[|st.splices| - 1]) < Opened(st).index)
    && (st.pending.Some? ==> SpliceEnd(st.pending.value) == st.index)
  }

  /** Added less removed elements is how much further the loop has gone in `cur` than in `prev`. */
  predicate Counted(st: FoldState, index0: nat, oldIndex0: nat) {
    st.index + oldIndex0 + RemovedTotal(Flushed(st)) == index0 + st.oldIndex + AddedTotal(Flushed(st))
  }

  /** One pass of the edit loop keeps `Tally`. */
  lemma FoldStepTally(prev: seq<Value>, st: FoldState, e: Edit, index0: nat, oldIndex0: nat)
    requires Tally(st, index0, oldIndex0)
    ensures Tally(FoldStep(prev, st, e), index0, oldIndex0)
  {
    if e == Leave {
      LeaveTally(prev, st, index0, oldIndex0);
    } else {
      OpenedTally(st, index0, oldIndex0);
      GrowSpaced(prev, st, e);
      GrowBounded(prev, st, e, index0);
      GrowOpenAfter(prev, st, e);
      GrowCounted(prev, st, e, index0, oldIndex0);
    }
  }

  /** A leave closes the open splice one element before the loop's new position. */
  lemma LeaveTally(prev: seq<Value>, st: FoldState, index0: nat, oldIndex0: nat)
    requires Tally(st, index0, oldIndex0)
    ensures Tally(FoldStep(prev, st, Leave), index0, oldIndex0)
  {
    var ss := Flushed(st);
    assert FoldStep(prev, st, Leave) == FoldState(None, ss, st.index + 1, st.oldIndex + 1);
    assert ss != [] ==> SpliceEnd(ss[|ss| - 1]) <= st.index;
  }

  /** `Tally` seen through the open splice: what a growing step needs. */
  lemma OpenedTally(st: FoldState, index0: nat, oldIndex0: nat)
    requires Tally(st, index0, oldIndex0)
    ensures var ss, sp := st.splices, Opened(st);
      && WellSpaced(ss) && (ss != [] ==> SpliceEnd(ss[|ss| - 1]) < sp.index)
      && (forall k :: 0 <= k < |ss| ==> index0 <= ss[k].index && SpliceEnd(ss[k]) <= st.index)
      && index0 <= sp.index && SpliceEnd(sp) == st.index
      && st.index + oldIndex0 + RemovedTotal(ss) + |sp.removed| == index0 + st.oldIndex + AddedTotal(ss) + sp.addedCount
  {
    var ss, sp := st.splices, Opened(st);
    if st.pending.Some? {
      TotalsSnoc(ss, sp);
      assert Flushed(st) == ss + [sp];
      assert forall k :: 0 <= k < |ss| ==> Flushed(st)[k] == ss[k];
      assert Flushed(st)[|ss|] == sp;
    } else {
      assert Flushed(st) == ss;
    }
  }

  /** What an update, addition or deletion makes of the open splice. */
  lemma Grown(prev: seq<Value>, st: FoldState, e: Edit)
    requires e != Leave
    ensures var next, sp := FoldStep(prev, st, e), Opened(st);
      && next.pending.Some? && next.splices == st.splices
      && next.index == st.index + CurStep(e) && next.oldIndex == st.oldIndex + OldStep(e)
      && next.pending.value.index == sp.index && Changes(next.pending.value)
      && next.pending.value.addedCount == sp.addedCount + CurStep(e)
      && |next.pending.value.removed| == |sp.removed| + OldStep(e)
      && Flushed(next) == st.splices + [next.pending.value]
  {
  }

  lemma GrowSpaced(prev: seq<Value>, st: FoldState, e: Edit)
    requires e != Leave
    requires WellSpaced(st.splices) && (st.splices != [] ==> SpliceEnd(st.splices[|st.splices| - 1]) < Opened(st).index)
    ensures WellSpaced(Flushed(FoldStep(prev, st, e)))
  {
    Grown(prev, st, e);
    SnocSpaced(st.splices, FoldStep(prev, st, e).pending.value);
  }

  lemma GrowBounded(prev: seq<Value>, st: FoldState, e: Edit, index0: nat)
    requires e != Leave
    requires forall k :: 0 <= k < |st.splices| ==> index0 <= st.splices[k].index && SpliceEnd(st.splices[k]) <= st.index
    requires index0 <= Opened(st).index && SpliceEnd(Opened(st)) == st.index
    ensures Bounded(FoldStep(prev, st, e), index0)
  {
    Grown(prev, st, e);
    var next := FoldStep(prev, st, e);
    var fs := Flushed(next);
    forall k | 0 <= k < |fs|
      ensures index0 <= fs[k].index && SpliceEnd(fs[k]) <= next.index
    {
      if k < |st.splices| {
        assert fs[k] == st.splices[k];
      }
    }
  }

  lemma GrowOpenAfter(prev: seq<Value>, st: FoldState, e: Edit)
    requires e != Leave
    requires st.splices != [] ==> SpliceEnd(st.splices[|st.splices| - 1]) < Opened(st).index
    requires SpliceEnd(Opened(st)) == st.index
    ensures OpenAfter(FoldStep(prev, st, e))
  {
    Grown(prev, st, e);
  }

  lemma GrowCounted(prev: seq<Value>, st: FoldState, e: Edit, index0: nat, oldIndex0: nat)
    requires e != Leave
    requires st.index + oldIndex0 + RemovedTotal(st.splices) + |Opened(st).removed|
          == index0 + st.oldIndex + AddedTotal(st.splices) + Opened(st).addedCount
    ensures Counted(FoldStep(prev, st, e), index0, oldIndex0)
  {
    Grown(prev, st, e);
    TotalsSnoc(st.splices, FoldStep(prev, st, e).pending.value);
  }

  /** A splice that changes something, placed after the end of every earlier one, keeps the splices well spaced. */
  lemma SnocSpaced(ss: seq<Splice>, sp: Splice)
    requires WellSpaced(ss) && (ss != [] ==> SpliceEnd(ss[|ss| - 1]) < sp.index) && Changes(sp)
    ensures WellSpaced(ss + [sp])
  {
    var fs := ss + [sp];
    forall k | 0 <= k < |fs|
      ensures Changes(fs[k])
    {
      if k < |ss| {
        assert fs[k] == ss[k];
      }
    }
    forall j, k | 0 <= j < k < |fs|
      ensures SpliceEnd(fs[j]) < fs[k].index
    {
      assert fs[j] == ss[j];
      if k < |ss| {
        assert fs[k] == ss[k];
      } else if j < |ss| - 1 {
        assert SpliceEnd(ss[j]) < ss[|ss| - 1].index;
      }
    }
  }

  lemma {:induction false} FoldTally(prev: seq<Value>, st: FoldState, ops: seq<Edit>, index0: nat, oldIndex0: nat)
    requires Tally(st, index0, oldIndex0)
    ensures Tally(FoldEdits(prev, st, ops), index0, oldIndex0)
    decreases |ops|
  {
    if |ops| > 0 {
      FoldStepTally(prev, st, ops[0], index0, oldIndex0);
      FoldTally(prev, FoldStep(prev, st, ops[0]), ops[1..], index0, oldIndex0);
    }
  }

  /** A fitting walk, folded, ends where the walk ends. */
  lemma {:induction false} FoldEnds(cur: seq<Value>, prev: seq<Value>, st: FoldState, ops: seq<Edit>, cEnd: nat, oEnd: nat)
    requires Walk(cur, prev, ops, st.index, st.oldIndex, cEnd, oEnd)
    ensures FoldEdits(prev, st, ops).index == cEnd && FoldEdits(prev, st, ops).oldIndex == oEnd
    decreases |ops|
  {
    if |ops| > 0 {
      FoldStepMoves(prev, st, ops[0]);
      FoldEnds(cur, prev, FoldStep(prev, st, ops[0]), ops[1..], cEnd, oEnd);
    }
  }

  /**
   * The splices for ranges `cur[cS..cE]` and `prev[oS..oE]` are well spaced,
   * lie within the current range, and add as many elements more than they
   * remove as the current range is longer than the previous one.
   */
  predicate ShapedFor(ss: seq<Splice>, cS: nat, cE: nat, oS: nat, oE: nat) {
    WellSpaced(ss)
    && (forall k :: 0 <= k < |ss| ==> cS <= ss[k].index && SpliceEnd(ss[k]) <= cE)
    && cE + oS + RemovedTotal(ss) == cS + oE + AddedTotal(ss)
  }

  lemma RangeShape(cur: seq<Value>, cS: nat, cE: nat, prev: seq<Value>, oS: nat, oE: nat)
    requires cS <= cE <= |cur| && oS <= oE <= |prev|
    ensures ShapedFor(RangeSplices(cur, cS, cE, prev, oS, oE), cS, cE, oS, oE)
  {
    if cE - cS == 0 && oE - oS == 0 {
    } else if cS == cE {
      SingleShape(Splice(cS, prev[oS..oE], 0), cS, cE, oS, oE);
    } else if oS == oE {
      SingleShape(Splice(cS, [], cE - cS), cS, cE, oS, oE);
    } else {
      EditShape(cur, cS, cE, prev, oS, oE);
    }
  }

  /** A pure deletion or a pure insertion covering the ranges is shaped for them. */
  lemma SingleShape(sp: Splice, cS: nat, cE: nat, oS: nat, oE: nat)
    requires Changes(sp) && sp.index == cS && SpliceEnd(sp) == cE
    requires cE + oS + |sp.removed| == cS + oE + sp.addedCount
    ensures ShapedFor([sp], cS, cE, oS, oE)
  {
    TotalsSnoc([], sp);
    assert [] + [sp] == [sp];
  }

  lemma EditShape(cur: seq<Value>, cS: nat, cE: nat, prev: seq<Value>, oS: nat, oE: nat)
    requires cS < cE <= |cur| && oS < oE <= |prev|
    ensures ShapedFor(EditSplices(cur, cS, cE, prev, oS, oE), cS, cE, oS, oE)
  {
    var st := FoldState(None, [], cS, oS);
    var ops := Trace(cur, cS, prev, oS, oE - oS, cE - cS);
    TraceWalks(cur, cS, prev, oS, oE - oS, cE - cS);
    assert Flushed(st) == [];
    FoldTally(prev, st, ops, cS, oS);
    FoldEnds(cur, prev, st, ops, cE, oE);
    TallyShaped(FoldEdits(prev, st, ops), cS, oS);
  }

  /** At the end of the loop, `Tally` is the shape of the splices for the ranges walked. */
  lemma TallyShaped(st: FoldState, index0: nat, oldIndex0: nat)
    requires Tally(st, index0, oldIndex0)
    ensures ShapedFor(Flushed(st), index0, st.index, oldIndex0, st.oldIndex)
  {
  }

  /**
   * The splices `calculateSplices` reports are in ascending order, each
   * changes something, an unchanged element separates each from the next,
   * they fit in the current array, and the current array is as much longer
   * than the previous one as they add more elements than they remove.
   */
  lemma SplicesShape(cur: seq<Value>, prev: seq<Value>)
    ensures WellSpaced(Splices(cur, prev))
    ensures forall k :: 0 <= k < |Splices(cur, prev)| ==> SpliceEnd(Splices(cur, prev)[k]) <= |cur|
    ensures |cur| + RemovedTotal(Splices(cur, prev)) == |prev| + AddedTotal(Splices(cur, prev))
  {
    var w := Trimmed(cur, 0, |cur|, prev, 0, |prev|);
    var p := PrefixCount(cur, 0, |cur|, prev, 0, |prev|);
    var s := SuffixCount(cur, 0, |cur|, prev, 0, |prev|);
    assert w == Window(p, |cur| - s, p, |prev| - s);
    RangeShape(cur, w.cS, w.cE, prev, w.oS, w.oE);
  }

  /**
   * `calculateSplices` reports no splice exactly when the two arrays have the
   * same length and are equal position by position under `===` (so an array
   * holding NaN always reports a change against itself).
   */
  lemma NoSplicesIffStrictlyEqual(cur: seq<Value>, prev: seq<Value>)
    ensures Splices(cur, prev) == [] <==>
      |cur| == |prev| && forall k :: 0 <= k < |cur| ==> StrictEquals(cur[k], prev[k])
  {
    if |cur| == |prev| && forall k :: 0 <= k < |cur| ==> StrictEquals(cur[k], prev[k]) {
      StrictlyEqualNoSplices(cur, prev);
    }
    if Splices(cur, prev) == [] {
      NoSplicesStrictlyEqual(cur, prev);
    }
  }

  lemma StrictlyEqualNoSplices(cur: seq<Value>, prev: seq<Value>)
    requires |cur| == |prev| && forall k :: 0 <= k < |cur| ==> StrictEquals(cur[k], prev[k])
    ensures Splices(cur, prev) == []
  {
    var n := |cur|;
    var p := CommonPrefix(cur, prev, n);
    assert p < n ==> SameAt(cur, prev, p);
    SplicesOfWindow(cur, prev, Window(n, n, n, n));
  }

  lemma NoSplicesStrictlyEqual(cur: seq<Value>, prev: seq<Value>)
    requires Splices(cur, prev) == []
    ensures |cur| == |prev| && forall k :: 0 <= k < |cur| ==> StrictEquals(cur[k], prev[k])
  {
    var w := Trimmed(cur, 0, |cur|, prev, 0, |prev|);
    var p := PrefixCount(cur, 0, |cur|, prev, 0, |prev|);
    var s := SuffixCount(cur, 0, |cur|, prev, 0, |prev|);
    assert w == Window(p, |cur| - s, p, |prev| - s);
    EmptyWindowWhenNoSplices(cur, prev, w);
    // The shared suffix would cover the first mismatch, so the prefix is everything.
    assert p < |cur| ==> SameFromEnd(cur, prev, |cur| - 1 - p);
    assert p == |cur|;
    forall k | 0 <= k < |cur|
      ensures StrictEquals(cur[k], prev[k])
    {
      assert SameAt(cur, prev, k);
    }
  }

  /** Only an empty trimmed window yields no splice. */
  lemma EmptyWindowWhenNoSplices(cur: seq<Value>, prev: seq<Value>, w: Window)
    requires w == Trimmed(cur, 0, |cur|, prev, 0, |prev|)
    ensures Splices(cur, prev) == [] ==> w.cS == w.cE && w.oS == w.oE
  {
    SplicesOfWindow(cur, prev, w);
    if w.cS < w.cE && w.oS < w.oE {
      var n := MinLength(0, |cur|, 0, |prev|);
      var p := PrefixCount(cur, 0, |cur|, prev, 0, |prev|);
      assert p == w.cS && p < n && p == CommonPrefix(cur, prev, n);
      assert !SameAt(cur, prev, p);
      EditSplicesNonEmpty(cur, w.cS, w.cE, prev, w.oS, w.oE);
    }
  }

  /** Every element of the rebuilt array comes from `prev`, from `cur`, or is undefined. */
  predicate DrawnFrom(r: seq<Value>, prev: seq<Value>, cur: seq<Value>) {
    forall x :: x in r ==> x in prev || x in cur || x == Undefined
  }

  lemma {:induction false} ApplyAllDrawnFrom(prev: seq<Value>, cur: seq<Value>, splices: seq<Splice>)
    ensures DrawnFrom(ApplyAll(prev, cur, splices), prev, cur)
    decreases |splices|
  {
    if |splices| > 0 {
      var init := splices[..|splices| - 1];
      var sp := splices[|splices| - 1];
      var arr := ApplyAll(prev, cur, init);
      ApplyAllDrawnFrom(prev, cur, init);
      var s := if sp.index < |arr| then sp.index else |arr|;
      var e := if |sp.removed| < |arr| - s then s + |sp.removed| else |arr|;
      var items := AddedItems(cur, sp.index, sp.addedCount);
      assert ApplyAll(prev, cur, splices) == arr[..s] + items + arr[e..];
      forall x | x in items
        ensures x in cur || x == Undefined
      {
        var k :| 0 <= k < |items| && items[k] == x;
        assert items[k] == ElemOr(cur, sp.index + k);
      }
    }
  }

  /**
   * Without negative zeros in either array the rebuilt array is the current
   * one exactly: `===` then differs from identity only on NaN, which the
   * splices carry over from `cur`.
   */
  lemma SplicesRebuildExactly(cur: seq<Value>, prev: seq<Value>)
    requires NegZero !in cur && NegZero !in prev
    ensures ApplyAll(prev, cur, Splices(cur, prev)) == cur
  {
    var r := ApplyAll(prev, cur, Splices(cur, prev));
    SplicesRebuildCurrent(cur, prev);
    ApplyAllDrawnFrom(prev, cur, Splices(cur, prev));
    forall k | 0 <= k < |cur|
      ensures r[k] == cur[k]
    {
      assert r[k] in r;
      StrictEqualsVersusIdentity(r[k], cur[k]);
    }
  }

  /** Replacing -0 by +0 goes unreported, so the rebuilt array keeps -0. */
  lemma SignedZeroUnreported(cur: seq<Value>, prev: seq<Value>)
    requires cur == [Num(0)] && prev == [NegZero]
    ensures Splices(cur, prev) == []
    ensures ApplyAll(prev, cur, Splices(cur, prev)) != cur
  {
    SignedZeroWindow(cur, prev);
    SplicesOfWindow(cur, prev, Window(1, 1, 1, 1));
    assert prev[0] != cur[0];
  }

  lemma SignedZeroWindow(cur: seq<Value>, prev: seq<Value>)
    requires cur == [Num(0)] && prev == [NegZero]
    ensures Trimmed(cur, 0, 1, prev, 0, 1) == Window(1, 1, 1, 1)
  {
    assert CommonPrefix(cur, prev, 1) == 1;
  }

  /** The splices of two whole arrays are those of their trimmed window. */
  lemma SplicesOfWindow(cur: seq<Value>, prev: seq<Value>, w: Window)
    requires w == Trimmed(cur, 0, |cur|, prev, 0, |prev|)
    ensures WindowIn(w, cur, prev) && Splices(cur, prev) == RangeSplices(cur, w.cS, w.cE, prev, w.oS, w.oE)
  {
  }

  /** NaN is not `===` to itself, so an unchanged `[NaN]` reports a one-element replacement. */
  lemma NaNAlwaysReported(cur: seq<Value>)
    requires cur == [NaN]
    ensures Splices(cur, cur) == [Splice(0, [NaN], 1)]
  {
    NaNWindow(cur);
    SplicesOfWindow(cur, cur, Window(0, 1, 0, 1));
    NaNStep(cur);
    NaNFold(cur);
  }

  lemma NaNWindow(cur: seq<Value>)
    requires cur == [NaN]
    ensures Trimmed(cur, 0, 1, cur, 0, 1) == Window(0, 1, 0, 1)
  {
    assert CommonPrefix(cur, cur, 1) == 0;
    assert CommonSuffix(cur, cur, 1) == 0;
  }

  lemma NaNStep(cur: seq<Value>)
    requires cur == [NaN]
    ensures Step(cur, 0, cur, 0, 1, 1) == Move(Update, 0, 0)
  {
    assert Dist(cur, 0, cur, 0, 0, 0) == 0;
    assert Dist(cur, 0, cur, 0, 0, 1) == 1 && Dist(cur, 0, cur, 0, 1, 0) == 1;
    assert Dist(cur, 0, cur, 0, 1, 1) == 2;
  }

  lemma NaNFold(cur: seq<Value>)
    requires cur == [NaN] && Step(cur, 0, cur, 0, 1, 1) == Move(Update, 0, 0)
    ensures EditSplices(cur, 0, 1, cur, 0, 1) == [Splice(0, [NaN], 1)]
  {
    var ops := Trace(cur, 0, cur, 0, 1, 1);
    assert ops == [Update];
    var st := FoldState(None, [], 0, 0);
    assert Opened(st) == Splice(0, [], 0) && ElemOr(cur, 0) == NaN;
    assert Opened(st).removed + [ElemOr(cur, 0)] == [NaN];
    assert ops[0] == Update && ops[1..] == [];
    assert FoldEdits(cur, st, ops) == FoldEditsFrom(cur, st, ops);
    assert FoldEdits(cur, st, ops) == FoldEdits(cur, FoldStep(cur, st, Update), []);
  }

  /** Appending one element is reported as one addition at the old length. */
  lemma AppendReported(cur: seq<Value>, prev: seq<Value>)
    requires cur == [Num(1), Num(2), Num(3), Num(4)] && prev == [Num(1), Num(2), Num(3)]
    ensures Splices(cur, prev) == [Splice(3, [], 1)]
  {
    AppendWindow(cur, prev);
    SplicesOfWindow(cur, prev, Window(3, 4, 3, 3));
  }

  lemma AppendWindow(cur: seq<Value>, prev: seq<Value>)
    requires cur == [Num(1), Num(2), Num(3), Num(4)] && prev == [Num(1), Num(2), Num(3)]
    ensures Trimmed(cur, 0, 4, prev, 0, 3) == Window(3, 4, 3, 3)
  {
    assert CommonPrefix(cur, prev, 3) == 3 by {
      assert CommonPrefix(cur, prev, 0) == 0;
      assert CommonPrefix(cur, prev, 1) == 1;
      assert CommonPrefix(cur, prev, 2) == 2;
    }
    assert CommonSuffix(cur, prev, 0) == 0;
  }

  /** Replacing one element in the middle is reported as one replacement there. */
  lemma ReplacementReported(cur: seq<Value>, prev: seq<Value>)
    requires cur == [Num(1), Num(9), Num(3)] && prev == [Num(1), Num(2), Num(3)]
    ensures Splices(cur, prev) == [Splice(1, [Num(2)], 1)]
  {
    ReplacementWindow(cur, prev);
    SplicesOfWindow(cur, prev, Window(1, 2, 1, 2));
    ReplacementStep(cur, prev);
    ReplacementFold(cur, prev);
  }

  lemma ReplacementWindow(cur: seq<Value>, prev: seq<Value>)
    requires cur == [Num(1), Num(9), Num(3)] && prev == [Num(1), Num(2), Num(3)]
    ensures Trimmed(cur, 0, 3, prev, 0, 3) == Window(1, 2, 1, 2)
  {
    assert CommonPrefix(cur, prev, 3) == 1 by {
      assert CommonPrefix(cur, prev, 1) == 1;
      assert CommonPrefix(cur, prev, 2) == 1;
    }
    assert CommonSuffix(cur, prev, 2) == 1 by {
      assert CommonSuffix(cur, prev, 1) == 1;
    }
  }

  lemma ReplacementStep(cur: seq<Value>, prev: seq<Value>)
    requires cur == [Num(1), Num(9), Num(3)] && prev == [Num(1), Num(2), Num(3)]
    ensures Step(cur, 1, prev, 1, 1, 1) == Move(Update, 0, 0)
  {
    assert Dist(cur, 1, prev, 1, 0, 0) == 0;
    assert Dist(cur, 1, prev, 1, 0, 1) == 1 && Dist(cur, 1, prev, 1, 1, 0) == 1;
    assert Dist(cur, 1, prev, 1, 1, 1) == 2;
  }

  lemma ReplacementFold(cur: seq<Value>, prev: seq<Value>)
    requires cur == [Num(1), Num(9), Num(3)] && prev == [Num(1), Num(2), Num(3)]
    requires Step(cur, 1, prev, 1, 1, 1) == Move(Update, 0, 0)
    ensures EditSplices(cur, 1, 2, prev, 1, 2) == [Splice(1, [Num(2)], 1)]
  {
    var ops := Trace(cur, 1, prev, 1, 1, 1);
    assert ops == [Update];
    var st := FoldState(None, [], 1, 1);
    assert Opened(st) == Splice(1, [], 0) && ElemOr(prev, 1) == Num(2);
    assert Opened(st).removed + [ElemOr(prev, 1)] == [Num(2)];
    assert ops[0] == Update && ops[1..] == [];
    assert FoldEdits(prev, st, ops) == FoldEditsFrom(prev, st, ops);
    assert FoldEdits(prev, st, ops) == FoldEdits(prev, FoldStep(prev, st, Update), []);
  }
}
