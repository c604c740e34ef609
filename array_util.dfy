/**
 * The array helpers of the binding layer: `arrayUtil` (dist/aj.js:2952-2997),
 * its copies in `Aj.util` (src/aj.js:491-503, 514-518) and the `moveUp` /
 * `moveDown` of the array assistant (dist/aj.js:3581-3618). They change
 * arrays of the object heap in place.
 */
module ArrayUtil {
  import opened JsCore

  /** The elements of the array `id`. */
  function Elems(objs: map<ObjId, JsObject>, id: ObjId): seq<Value> {
    ElemsOf(objs, Obj(id))
  }

  /** `array[k]`: an element, or undefined past the end. */
  function Get(s: seq<Value>, k: nat): Value {
    if k < |s| then s[k] else Undefined
  }

  /** `array[k] = x`: an element written past the end grows the array, the gap reading as undefined. */
  function Put(s: seq<Value>, k: nat, x: Value): (r: seq<Value>)
    ensures |r| == if k < |s| then |s| else k + 1
    ensures forall j :: 0 <= j < |r| ==> r[j] == if j == k then x else Get(s, j)
  {
    if k < |s| then s[k := x] else s + seq(k - |s|, _ => Undefined) + [x]
  }

  /** One element write to the array `id` of the heap. */
  method Store(h: Heap, id: ObjId, k: nat, x: Value)
    requires IsArray(h.objs, Obj(id))
    modifies h`objs
    ensures h.objs == old(h.objs)[id := ArrayObj(Put(Elems(old(h.objs), id), k, x))]
    ensures IsArray(h.objs, Obj(id)) && Elems(h.objs, id) == Put(Elems(old(h.objs), id), k, x)
  {
    h.objs := h.objs[id := ArrayObj(Put(Elems(h.objs, id), k, x))];
  }

  // ---------------------------------------------------------------------------
  // swap
  // ---------------------------------------------------------------------------

  /**
   * `arrayUtil.swap` (dist/aj.js:2954-2958), also `Aj.util.arraySwap`
   * (src/aj.js:514-518): within the array the two elements trade places
   * and nothing else moves; an index past the end grows the array.
   */
  method Swap(h: Heap, id: ObjId, i: nat, j: nat)
    requires IsArray(h.objs, Obj(id))
    modifies h`objs
    ensures IsArray(h.objs, Obj(id)) && h.objs.Keys == old(h.objs).Keys
    ensures forall other :: other in old(h.objs) && other != id ==> h.objs[other] == old(h.objs)[other]
    ensures var s, r := Elems(old(h.objs), id), Elems(h.objs, id);
      i < |s| && j < |s| ==>
        |r| == |s| && r[i] == s[j] && r[j] == s[i] &&
        (forall k :: 0 <= k < |s| && k != i && k != j ==> r[k] == s[k]) &&
        multiset(r) == multiset(s)
    ensures var s, r := Elems(old(h.objs), id), Elems(h.objs, id);
      |r| == Max(|s|, Max(i + 1, j + 1)) && Get(r, i) == Get(s, j) && Get(r, j) == Get(s, i)
  {
    ghost var s := Elems(h.objs, id);
    var tmp := Get(Elems(h.objs, id), i);
    Store(h, id, i, Get(Elems(h.objs, id), j));
    Store(h, id, j, tmp);
    if i < |s| && j < |s| {
      SwapPermutes(s, i, j);
    }
  }

  function Max(a: nat, b: nat): nat {
    if a < b then b else a
  }

  /** Exchanging two elements of a sequence keeps its elements. */
  lemma SwapPermutes(s: seq<Value>, i: nat, j: nat)
    requires i < |s| && j < |s|
    ensures multiset(s[i := s[j]][j := s[i]]) == multiset(s)
  {
    if i != j {
      calc {
        multiset(s[i := s[j]][j := s[i]]);
        multiset(s[i := s[j]]) - multiset{s[i := s[j]][j]} + multiset{s[i]};
        multiset(s) - multiset{s[i]} + multiset{s[j]} - multiset{s[j]} + multiset{s[i]};
        multiset(s);
      }
    }
  }

  /** Swapping twice gives the array back. */
  lemma SwapTwice(s: seq<Value>, i: nat, j: nat)
    requires i < |s| && j < |s|
    ensures Put(Put(Put(Put(s, i, s[j]), j, s[i]), i, s[i]), j, s[j]) == s
  {
  }

  // ---------------------------------------------------------------------------
  // arrayLengthAdjust
  // ---------------------------------------------------------------------------

  /** One call `discardCutFn(item, index)`. */
  datatype Cut = Cut(item: Value, index: nat)

  /**
   * `arrayUtil.arrayLengthAdjust` (dist/aj.js:2960-2982): the array ends
   * with `hopeLength` elements; the kept prefix is untouched, each new
   * position `i` holds `initialNewFn(i)` (undefined without it), and when
   * the array was longer `discardCutFn` is called once per cut element, in
   * index order, before they are cut. The calls are returned in order.
   */
  method ArrayLengthAdjust(h: Heap, id: ObjId, hopeLength: nat, initialNewFn: Option<nat -> Value>, discardCutFn: bool)
    returns (cuts: seq<Cut>)
    requires IsArray(h.objs, Obj(id))
    modifies h`objs
    ensures IsArray(h.objs, Obj(id)) && h.objs.Keys == old(h.objs).Keys
    ensures forall other :: other in old(h.objs) && other != id ==> h.objs[other] == old(h.objs)[other]
    ensures var s, r := Elems(old(h.objs), id), Elems(h.objs, id);
      |r| == hopeLength &&
      (forall k :: 0 <= k < |s| && k < hopeLength ==> r[k] == s[k]) &&
      (forall k :: |s| <= k < hopeLength ==> r[k] == if initialNewFn.Some? then initialNewFn.value(k) else Undefined)
    ensures var s := Elems(old(h.objs), id);
      if discardCutFn && hopeLength < |s| then
        |cuts| == |s| - hopeLength && forall k :: 0 <= k < |cuts| ==> cuts[k] == Cut(s[hopeLength + k], hopeLength + k)
      else cuts == []
  {
    ghost var s := Elems(h.objs, id);
    var existingLength := |Elems(h.objs, id)|;
    var i := existingLength;
    while i < hopeLength
      invariant existingLength <= i <= Max(existingLength, hopeLength)
      invariant IsArray(h.objs, Obj(id)) && h.objs.Keys == old(h.objs).Keys
      invariant forall other :: other in old(h.objs) && other != id ==> h.objs[other] == old(h.objs)[other]
      invariant |Elems(h.objs, id)| == i
      invariant forall k :: 0 <= k < existingLength ==> Elems(h.objs, id)[k] == s[k]
      invariant forall k :: existingLength <= k < i ==>
        Elems(h.objs, id)[k] == if initialNewFn.Some? then initialNewFn.value(k) else Undefined
    {
      var newItem := if initialNewFn.Some? then initialNewFn.value(i) else Undefined;
      Store(h, id, i, newItem);
      i := i + 1;
    }
    cuts := [];
    if existingLength > hopeLength {
      if discardCutFn {
        var j := hopeLength;
        while j < existingLength
          invariant hopeLength <= j <= existingLength
          invariant |cuts| == j - hopeLength
          invariant forall k :: 0 <= k < |cuts| ==> cuts[k] == Cut(s[hopeLength + k], hopeLength + k)
        {
          cuts := cuts + [Cut(Elems(h.objs, id)[j], j)];
          j := j + 1;
        }
      }
      h.objs := h.objs[id := ArrayObj(Elems(h.objs, id)[..hopeLength])];
    }
  }

  // ---------------------------------------------------------------------------
  // regulateArray
  // ---------------------------------------------------------------------------

  /** The elements `regulateArray` gives a value that is not kept by reference. */
  function RegulatedElems(objs: map<ObjId, JsObject>, v: Value): seq<Value> {
    if IsArray(objs, v) then ElemsOf(objs, v) else if IsNullish(v) then [] else [v]
  }

  /**
   * `arrayUtil.regulateArray` (dist/aj.js:2985-2997), also
   * `Aj.util.regulateArray` (src/aj.js:491-503): an array is returned as it
   * is with `tryKeepRef` and copied into a new array otherwise; null and
   * undefined give a new empty array, and any other value a new array
   * holding just it.
   */
  method RegulateArray(h: Heap, v: Value, tryKeepRef: bool) returns (r: Value)
    requires h.Valid()
    modifies h
    ensures h.Valid() && IsArray(h.objs, r)
    ensures IsArray(old(h.objs), v) && tryKeepRef ==> r == v && h.objs == old(h.objs)
    ensures !(IsArray(old(h.objs), v) && tryKeepRef) ==>
      r.Obj? && r.id !in old(h.objs) && h.objs == old(h.objs)[r.id := ArrayObj(RegulatedElems(old(h.objs), v))]
    ensures ElemsOf(h.objs, r) == RegulatedElems(old(h.objs), v)
  {
    if IsArray(h.objs, v) && tryKeepRef {
      return v;
    }
    var id := h.Alloc(ArrayObj(RegulatedElems(h.objs, v)));
    r := Obj(id);
  }

  // ---------------------------------------------------------------------------
  // moveUp / moveDown
  // ---------------------------------------------------------------------------

  /** The element at `index` taken `k` places towards the front, the ones it passes shifting back by one. */
  function MovedUp(s: seq<Value>, index: nat, k: nat): seq<Value>
    requires k <= index < |s|
  {
    s[..index - k] + [s[index]] + s[index - k..index] + s[index + 1..]
  }

  /** The element at `index` taken `k` places towards the end, the ones it passes shifting forward by one. */
  function MovedDown(s: seq<Value>, index: nat, k: nat): seq<Value>
    requires index + k < |s|
  {
    s[..index] + s[index + 1..index + k + 1] + [s[index]] + s[index + k + 1..]
  }

  /** Moving an element keeps the elements: a permutation, with the element at its new place. */
  lemma MovedUpPermutes(s: seq<Value>, index: nat, k: nat)
    requires k <= index < |s|
    ensures |MovedUp(s, index, k)| == |s| && MovedUp(s, index, k)[index - k] == s[index]
    ensures multiset(MovedUp(s, index, k)) == multiset(s)
  {
    assert s == s[..index - k] + s[index - k..index] + [s[index]] + s[index + 1..];
  }

  /** Moving an element keeps the elements: a permutation, with the element at its new place. */
  lemma MovedDownPermutes(s: seq<Value>, index: nat, k: nat)
    requires index + k < |s|
    ensures |MovedDown(s, index, k)| == |s| && MovedDown(s, index, k)[index + k] == s[index]
    ensures multiset(MovedDown(s, index, k)) == multiset(s)
  {
    assert s == s[..index] + [s[index]] + s[index + 1..index + k + 1] + s[index + k + 1..];
  }

  /** `step === undefined ? 1 : step`. */
  function StepOf(step: Option<int>): int {
    if step.Some? then step.value else 1
  }

  /** How many places an element moves: the step, capped by the room there is, and none for a step of 0 or less. */
  function Steps(s: int, room: nat): (k: nat)
    ensures k <= room
    ensures s > 0 && room > 0 ==> k > 0
  {
    if s <= 0 then 0 else if s < room then s else room
  }

  /** `moveUp` part way: the elements from `i` up to `index` have each shifted back one place, `i` still holding its own. */
  function UpShifted(a: seq<Value>, i: nat, index: nat): seq<Value>
    requires i <= index < |a|
  {
    a[..i] + [a[i]] + a[i..index] + a[index + 1..]
  }

  lemma UpShiftedStep(a: seq<Value>, i: nat, index: nat)
    requires 0 < i <= index < |a|
    ensures |UpShifted(a, i, index)| == |a| && UpShifted(a, i, index)[i - 1] == a[i - 1]
    ensures Put(UpShifted(a, i, index), i, a[i - 1]) == UpShifted(a, i - 1, index)
  {
    var u, w := Put(UpShifted(a, i, index), i, a[i - 1]), UpShifted(a, i - 1, index);
    assert |u| == |w|;
    forall j | 0 <= j < |u| ensures u[j] == w[j] {
      if j < i - 1 {
      } else if j <= i {
      } else if j <= index {
        assert w[j] == a[i - 1..index][j - i];
      } else {
        assert w[j] == a[index + 1..][j - index - 1];
      }
    }
  }

  lemma UpShiftedEnds(a: seq<Value>, i: nat, index: nat)
    requires i <= index < |a|
    ensures UpShifted(a, index, index) == a
    ensures Put(UpShifted(a, i, index), i, a[index]) == MovedUp(a, index, index - i)
  {
    assert a == a[..index] + [a[index]] + a[index + 1..];
  }

  /** `moveDown` part way: the elements after `index` up to `i` have each shifted forward one place, `i` still holding its own. */
  function DownShifted(a: seq<Value>, i: nat, index: nat): seq<Value>
    requires index <= i < |a|
  {
    a[..index] + a[index + 1..i + 1] + [a[i]] + a[i + 1..]
  }

  lemma DownShiftedStep(a: seq<Value>, i: nat, index: nat)
    requires index <= i < |a| - 1
    ensures |DownShifted(a, i, index)| == |a| && DownShifted(a, i, index)[i + 1] == a[i + 1]
    ensures Put(DownShifted(a, i, index), i, a[i + 1]) == DownShifted(a, i + 1, index)
  {
    var u, w := Put(DownShifted(a, i, index), i, a[i + 1]), DownShifted(a, i + 1, index);
    assert |u| == |w|;
    forall j | 0 <= j < |u| ensures u[j] == w[j] {
      if j < index {
      } else if j < i {
        assert w[j] == a[index + 1..i + 2][j - index];
        assert u[j] == a[index + 1..i + 1][j - index];
      } else if j <= i + 1 {
      } else {
        assert w[j] == a[i + 2..][j - i - 2];
      }
    }
  }

  lemma DownShiftedEnds(a: seq<Value>, i: nat, index: nat)
    requires index <= i < |a|
    ensures DownShifted(a, index, index) == a
    ensures Put(DownShifted(a, i, index), i, a[index]) == MovedDown(a, index, i - index)
  {
    assert a == a[..index] + [a[index]] + a[index + 1..];
  }

  /** The shifting loop of `moveUp`, `step` places at most, on the array `id`. */
  method ShiftUp(h: Heap, id: ObjId, index: nat, step: int)
    requires IsArray(h.objs, Obj(id)) && index < |Elems(h.objs, id)|
    modifies h`objs
    ensures h.objs == old(h.objs)[id := ArrayObj(MovedUp(Elems(old(h.objs), id), index, Steps(step, index)))]
  {
    ghost var a := Elems(h.objs, id);
    ghost var objs0 := h.objs;
    var s := step;
    var i := index;
    UpShiftedEnds(a, index, index);
    if s > 0 && i > 0 {
      var tmp := Elems(h.objs, id)[i];
      while s > 0 && i > 0
        invariant 0 <= i <= index && s + (index - i) == step
        invariant h.objs == objs0[id := ArrayObj(UpShifted(a, i, index))]
      {
        UpShiftedStep(a, i, index);
        Store(h, id, i, Elems(h.objs, id)[i - 1]);
        s := s - 1;
        i := i - 1;
      }
      assert index - i == Steps(step, index);
      UpShiftedEnds(a, i, index);
      Store(h, id, i, tmp);
    } else {
      assert MovedUp(a, index, 0) == a;
    }
  }

  /**
   * `moveUp(step)` of the array assistant (dist/aj.js:3581-3598) on the
   * element at `index`: a value that is not an array gives false; in an
   * array the element moves `min(step, index)` places towards the front,
   * step defaulting to 1, and nothing moves when that is 0 or less.
   */
  method MoveUp(h: Heap, v: Value, index: nat, step: Option<int>) returns (r: Option<bool>)
    requires IsArray(h.objs, v) ==> index < |ElemsOf(h.objs, v)|
    modifies h`objs
    ensures !IsArray(old(h.objs), v) ==> r == Some(false) && h.objs == old(h.objs)
    ensures IsArray(old(h.objs), v) ==>
      r == None && h.objs == old(h.objs)[v.id := ArrayObj(MovedUp(ElemsOf(old(h.objs), v), index, Steps(StepOf(step), index)))]
  {
    var s := StepOf(step);
    if !IsArray(h.objs, v) {
      return Some(false);
    }
    ShiftUp(h, v.id, index, s);
    r := None;
  }

  /** The shifting loop of `moveDown`, `step` places at most, on the array `id`. */
  method ShiftDown(h: Heap, id: ObjId, index: nat, step: int)
    requires IsArray(h.objs, Obj(id)) && index < |Elems(h.objs, id)|
    modifies h`objs
    ensures var a := Elems(old(h.objs), id);
      h.objs == old(h.objs)[id := ArrayObj(MovedDown(a, index, Steps(step, |a| - 1 - index)))]
  {
    ghost var a := Elems(h.objs, id);
    ghost var objs0 := h.objs;
    var s := step;
    var maxIndex := |Elems(h.objs, id)| - 1;
    var i := index;
    DownShiftedEnds(a, index, index);
    if s > 0 && i < maxIndex {
      var tmp := Elems(h.objs, id)[i];
      while s > 0 && i < maxIndex
        invariant index <= i <= maxIndex && s + (i - index) == step
        invariant h.objs == objs0[id := ArrayObj(DownShifted(a, i, index))]
      {
        DownShiftedStep(a, i, index);
        Store(h, id, i, Elems(h.objs, id)[i + 1]);
        s := s - 1;
        i := i + 1;
      }
      assert i - index == Steps(step, maxIndex - index);
      DownShiftedEnds(a, i, index);
      Store(h, id, i, tmp);
    } else {
      assert MovedDown(a, index, 0) == a;
    }
  }

  /**
   * `moveDown(step)` of the array assistant (dist/aj.js:3600-3618) on the
   * element at `index`: a value that is not an array gives false; in an
   * array the element moves `min(step, last - index)` places towards the
   * end, step defaulting to 1, and nothing moves when that is 0 or less.
   */
  method MoveDown(h: Heap, v: Value, index: nat, step: Option<int>) returns (r: Option<bool>)
    requires IsArray(h.objs, v) ==> index < |ElemsOf(h.objs, v)|
    modifies h`objs
    ensures !IsArray(old(h.objs), v) ==> r == Some(false) && h.objs == old(h.objs)
    ensures IsArray(old(h.objs), v) ==>
      var a := ElemsOf(old(h.objs), v);
      r == None && h.objs == old(h.objs)[v.id := ArrayObj(MovedDown(a, index, Steps(StepOf(step), |a| - 1 - index)))]
  {
    var s := StepOf(step);
    if !IsArray(h.objs, v) {
      return Some(false);
    }
    ShiftDown(h, v.id, index, s);
    r := None;
  }
}
