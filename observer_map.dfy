/**
 * `ObserverMap` (src/aj.js:745-802) and the scope operations built on it
 * (src/aj.js:820-837): for each path, a circular doubly linked list of
 * items with a sentinel head. Every node (heads and items) is a number; the
 * links of all nodes live in the two maps `next` and `prev`, as the `next`
 * and `prev` properties of the node objects do.
 */
module ObserverMaps {
  import opened JsCore

  /** The identity of a head or item object. */
  type NodeId = int

  /**
   * `a == b` between an item's `extraInfo` and the one asked for: `===`
   * implies it, it is reflexive but on NaN, and it never relates
   * `null` or `undefined` to anything else.
   */
  predicate LooseEquals(a: Value, b: Value): (r: bool)
    ensures StrictEquals(a, b) ==> r
    ensures a == b && !a.NaN? ==> r
    ensures r ==> (IsNullish(a) <==> IsNullish(b))
  {
    if IsNullish(a) || IsNullish(b) then IsNullish(a) && IsNullish(b)
    else StrictEquals(a, b)
  }

  /** Whether `getObserverList(path, extraInfo)` keeps an item whose `extraInfo` is `info`. */
  predicate Matches(info: Value, extraInfo: Value) {
    !Truthy(extraInfo) || LooseEquals(info, extraInfo)
  }

  // ---------------------------------------------------------------------------
  // Rings
  // ---------------------------------------------------------------------------

  /** The node after `cyc[k]` going round. */
  function Succ(cyc: seq<NodeId>, k: nat): NodeId
    requires k < |cyc|
  {
    if k + 1 < |cyc| then cyc[k + 1] else cyc[0]
  }

  /** `next` and `prev` link the nodes of `cyc` into a ring, in that order. */
  ghost predicate Ring(cyc: seq<NodeId>, next: map<NodeId, NodeId>, prev: map<NodeId, NodeId>) {
    |cyc| >= 1 && Distinct(cyc) &&
    forall k :: 0 <= k < |cyc| ==>
      cyc[k] in next && next[cyc[k]] == Succ(cyc, k) && Succ(cyc, k) in prev && prev[Succ(cyc, k)] == cyc[k]
  }

  /** A ring whose nodes keep their links stays a ring. */
  lemma RingFrame(cyc: seq<NodeId>, next: map<NodeId, NodeId>, prev: map<NodeId, NodeId>,
                  next': map<NodeId, NodeId>, prev': map<NodeId, NodeId>)
    requires Ring(cyc, next, prev)
    requires forall n :: n in next && n in cyc ==> n in next' && next'[n] == next[n]
    requires forall n :: n in prev && n in cyc ==> n in prev' && prev'[n] == prev[n]
    ensures Ring(cyc, next', prev')
  {
    forall k | 0 <= k < |cyc|
      ensures cyc[k] in next' && next'[cyc[k]] == Succ(cyc, k) && Succ(cyc, k) in prev' && prev'[Succ(cyc, k)] == cyc[k]
    {
      assert cyc[k] in cyc && Succ(cyc, k) in cyc;
    }
  }

  /**
   * The links `add` makes (src/aj.js:775-782): the new node goes between the
   * tail, `head.prev`, and the head.
   */
  function AppendNext(next: map<NodeId, NodeId>, prev: map<NodeId, NodeId>, head: NodeId, n: NodeId): map<NodeId, NodeId>
    requires head in prev
  {
    next[prev[head] := n][n := head]
  }

  function AppendPrev(prev: map<NodeId, NodeId>, head: NodeId, n: NodeId): map<NodeId, NodeId>
    requires head in prev
  {
    prev[n := prev[head]][head := n]
  }

  /** Appending a new node to a ring gives the ring with the node at the end. */
  lemma RingAppend(cyc: seq<NodeId>, next: map<NodeId, NodeId>, prev: map<NodeId, NodeId>, n: NodeId)
    requires Ring(cyc, next, prev) && n !in cyc
    ensures cyc[0] in prev && prev[cyc[0]] == cyc[|cyc| - 1]
    ensures Ring(cyc + [n], AppendNext(next, prev, cyc[0], n), AppendPrev(prev, cyc[0], n))
  {
    assert Succ(cyc, |cyc| - 1) == cyc[0];
    var next', prev' := AppendNext(next, prev, cyc[0], n), AppendPrev(prev, cyc[0], n);
    var c := cyc + [n];
    var t := cyc[|cyc| - 1];
    forall i, j | 0 <= i < j < |c|
      ensures c[i] != c[j]
    {
      if j == |cyc| { assert cyc[i] in cyc; }
    }
    forall k | 0 <= k < |c|
      ensures c[k] in next' && next'[c[k]] == Succ(c, k) && Succ(c, k) in prev' && prev'[Succ(c, k)] == c[k]
    {
      if k < |cyc| - 1 {
        assert Succ(cyc, k) == c[k + 1];
        assert c[k] != t && c[k] != n && c[k + 1] != cyc[0] && c[k + 1] != n;
      } else if k == |cyc| - 1 {
        assert c[k] == t && Succ(c, k) == n;
      } else {
        assert c[k] == n && Succ(c, k) == cyc[0];
      }
    }
  }

  /**
   * The links an item's `close` leaves behind (src/aj.js:754-762), with the
   * item's own links cleared so that closing it again changes nothing.
   */
  function UnlinkNext(next: map<NodeId, NodeId>, prev: map<NodeId, NodeId>, x: NodeId): map<NodeId, NodeId>
    requires x in next && x in prev
  {
    next[prev[x] := next[x]] - {x}
  }

  function UnlinkPrev(next: map<NodeId, NodeId>, prev: map<NodeId, NodeId>, x: NodeId): map<NodeId, NodeId>
    requires x in next && x in prev
  {
    prev[next[x] := prev[x]] - {x}
  }

  /** Walking a ring from its first node: the next node and when the walk is back. */
  lemma RingWalk(cyc: seq<NodeId>, next: map<NodeId, NodeId>, prev: map<NodeId, NodeId>, i: nat)
    requires Ring(cyc, next, prev) && i < |cyc|
    ensures cyc[0] in next && next[cyc[0]] == Succ(cyc, 0)
    ensures Succ(cyc, i) == cyc[0] <==> i == |cyc| - 1
    ensures i + 1 < |cyc| ==> Succ(cyc, i) == cyc[i + 1] && cyc[i + 1] in next && next[cyc[i + 1]] == Succ(cyc, i + 1)
  {
    if i + 1 < |cyc| {
      assert cyc[i + 1] != cyc[0];
    }
  }

  /** Different places of a ring have different successors. */
  lemma SuccInjective(cyc: seq<NodeId>, i: nat, j: nat)
    requires Distinct(cyc) && i < |cyc| && j < |cyc| && i != j
    ensures Succ(cyc, i) != Succ(cyc, j)
  {
    if i + 1 < |cyc| && j + 1 < |cyc| {
      assert i + 1 != j + 1;
    } else if i + 1 < |cyc| {
      assert i + 1 != 0;
    } else if j + 1 < |cyc| {
      assert j + 1 != 0;
    }
  }

  /** Removing an element keeps a list without repeats. */
  lemma DistinctRemove(cyc: seq<NodeId>, k: nat)
    requires Distinct(cyc) && k < |cyc|
    ensures Distinct(cyc[..k] + cyc[k + 1..])
  {
    var c := cyc[..k] + cyc[k + 1..];
    forall i, j | 0 <= i < j < |c|
      ensures c[i] != c[j]
    {
      var i', j' := if i < k then i else i + 1, if j < k then j else j + 1;
      assert c[i] == cyc[i'] && c[j] == cyc[j'] && i' < j';
    }
  }

  /** The links of one node of the ring left by `RingUnlink`. */
  lemma UnlinkStep(cyc: seq<NodeId>, next: map<NodeId, NodeId>, prev: map<NodeId, NodeId>, k: nat, m: nat)
    requires Ring(cyc, next, prev) && 1 <= k < |cyc| && m < |cyc| - 1
    ensures var c, x := cyc[..k] + cyc[k + 1..], cyc[k];
      var next', prev' := next[cyc[k - 1] := Succ(cyc, k)] - {x}, prev[Succ(cyc, k) := cyc[k - 1]] - {x};
      c[m] in next' && next'[c[m]] == Succ(c, m) && Succ(c, m) in prev' && prev'[Succ(c, m)] == c[m]
  {
    var c, x := cyc[..k] + cyc[k + 1..], cyc[k];
    var nx := Succ(cyc, k);
    var m' := if m < k then m else m + 1;
    assert c[m] == cyc[m'];
    assert c[0] == cyc[0];
    SuccInjective(cyc, k, k - 1);
    assert Succ(cyc, k - 1) == x;
    if m == k - 1 {
      assert Succ(c, m) == nx;
    } else {
      assert Succ(c, m) == Succ(cyc, m');
      SuccInjective(cyc, m', k);
      SuccInjective(cyc, m', k - 1);
    }
  }

  /**
   * The links after an item's `close`: while the item is linked, its
   * neighbours are linked to each other and its own links are cleared.
   */
  function CloseNext(next: map<NodeId, NodeId>, prev: map<NodeId, NodeId>, x: NodeId): map<NodeId, NodeId> {
    if x in next && x in prev then UnlinkNext(next, prev, x) else next
  }

  function ClosePrev(next: map<NodeId, NodeId>, prev: map<NodeId, NodeId>, x: NodeId): map<NodeId, NodeId> {
    if x in next && x in prev then UnlinkPrev(next, prev, x) else prev
  }

  /** Unlinking an item of a ring leaves the ring without it. */
  lemma RingUnlink(cyc: seq<NodeId>, next: map<NodeId, NodeId>, prev: map<NodeId, NodeId>, k: nat)
    requires Ring(cyc, next, prev) && 1 <= k < |cyc|
    ensures cyc[k] in next && cyc[k] in prev && prev[cyc[k]] == cyc[k - 1] && next[cyc[k]] == Succ(cyc, k)
    ensures Ring(cyc[..k] + cyc[k + 1..], UnlinkNext(next, prev, cyc[k]), UnlinkPrev(next, prev, cyc[k]))
  {
    assert Succ(cyc, k - 1) == cyc[k];
    var c := cyc[..k] + cyc[k + 1..];
    DistinctRemove(cyc, k);
    forall m | 0 <= m < |c|
      ensures var next', prev' := next[cyc[k - 1] := Succ(cyc, k)] - {cyc[k]}, prev[Succ(cyc, k) := cyc[k - 1]] - {cyc[k]};
        c[m] in next' && next'[c[m]] == Succ(c, m) && Succ(c, m) in prev' && prev'[Succ(c, m)] == c[m]
    {
      UnlinkStep(cyc, next, prev, k, m);
    }
  }

  // ---------------------------------------------------------------------------
  // Lists of items
  // ---------------------------------------------------------------------------

  /** `s` without `x`. */
  function Drop(s: seq<NodeId>, x: NodeId): seq<NodeId> {
    if s == [] then []
    else (if s[0] == x then [] else [s[0]]) + Drop(s[1..], x)
  }

  /** `s` without the elements of `ys`. */
  function DropAll(s: seq<NodeId>, ys: seq<NodeId>): seq<NodeId> {
    if s == [] then []
    else (if s[0] in ys then [] else [s[0]]) + DropAll(s[1..], ys)
  }

  /** The `extraInfo` of item `n`; every item has one, so the default is never used. */
  function InfoOf(info: map<NodeId, Value>, n: NodeId): Value {
    if n in info then info[n] else Undefined
  }

  /** The items of `s` that `getObserverList(path, extraInfo)` lists, in order. */
  function Selected(s: seq<NodeId>, info: map<NodeId, Value>, extraInfo: Value): seq<NodeId> {
    if s == [] then []
    else (if Matches(InfoOf(info, s[0]), extraInfo) then [s[0]] else []) + Selected(s[1..], info, extraInfo)
  }

  /** The items of `s` that `getObserverList(path, extraInfo)` passes over. */
  function Unselected(s: seq<NodeId>, info: map<NodeId, Value>, extraInfo: Value): seq<NodeId> {
    if s == [] then []
    else (if Matches(InfoOf(info, s[0]), extraInfo) then [] else [s[0]]) + Unselected(s[1..], info, extraInfo)
  }

  /** Removing an element at a known place of a list without repeats. */
  lemma {:induction false} DropAt(s: seq<NodeId>, k: nat)
    requires Distinct(s) && k < |s|
    ensures Drop(s, s[k]) == s[..k] + s[k + 1..]
  {
    if k == 0 {
      DropAbsent(s[1..], s[0]);
      assert s[..0] + s[1..] == s[1..];
    } else {
      DropAt(s[1..], k - 1);
      assert s[1..][k - 1] == s[k];
      assert [s[0]] + (s[1..][..k - 1] + s[1..][k..]) == s[..k] + s[k + 1..];
    }
  }

  /** Removing an element that is not there changes nothing. */
  lemma {:induction false} DropAbsent(s: seq<NodeId>, x: NodeId)
    requires x !in s
    ensures Drop(s, x) == s
  {
    if s != [] {
      DropAbsent(s[1..], x);
      assert [s[0]] + s[1..] == s;
    }
  }

  /** Removing nothing. */
  lemma {:induction false} DropAllNone(s: seq<NodeId>)
    ensures DropAll(s, []) == s
  {
    if s != [] {
      DropAllNone(s[1..]);
      assert [s[0]] + s[1..] == s;
    }
  }

  /** Removing one more element. */
  lemma {:induction false} DropAllSnoc(s: seq<NodeId>, ys: seq<NodeId>, y: NodeId)
    ensures DropAll(s, ys + [y]) == Drop(DropAll(s, ys), y)
  {
    if s != [] {
      DropAllSnoc(s[1..], ys, y);
      DropConcat(if s[0] in ys then [] else [s[0]], DropAll(s[1..], ys), y);
    }
  }

  lemma {:induction false} DropConcat(a: seq<NodeId>, b: seq<NodeId>, x: NodeId)
    ensures Drop(a + b, x) == Drop(a, x) + Drop(b, x)
  {
    if a == [] {
      assert a + b == b;
    } else {
      var h := if a[0] == x then [] else [a[0]];
      DropConcat(a[1..], b, x);
      assert (a + b)[0] == a[0] && (a + b)[1..] == a[1..] + b;
      calc {
        Drop(a + b, x);
        h + Drop(a[1..] + b, x);
        h + (Drop(a[1..], x) + Drop(b, x));
        (h + Drop(a[1..], x)) + Drop(b, x);
      }
    }
  }

  /** An element is selected when it is in the list and matches. */
  lemma {:induction false} SelectedMember(s: seq<NodeId>, info: map<NodeId, Value>, extraInfo: Value, x: NodeId)
    ensures x in Selected(s, info, extraInfo) <==> x in s && Matches(InfoOf(info, x), extraInfo)
  {
    if s != [] {
      SelectedMember(s[1..], info, extraInfo, x);
    }
  }

  /** Dropping the selected items of `r` from a part `s` of it leaves its unselected items. */
  lemma {:induction false} DropSelected(s: seq<NodeId>, r: seq<NodeId>, info: map<NodeId, Value>, extraInfo: Value)
    requires forall n :: n in s ==> n in r
    ensures DropAll(s, Selected(r, info, extraInfo)) == Unselected(s, info, extraInfo)
  {
    if s != [] {
      SelectedMember(r, info, extraInfo, s[0]);
      DropSelected(s[1..], r, info, extraInfo);
    }
  }

  /** Without an `extraInfo`, every item is listed. */
  lemma {:induction false} SelectedAll(s: seq<NodeId>, info: map<NodeId, Value>, extraInfo: Value)
    requires !Truthy(extraInfo)
    ensures Selected(s, info, extraInfo) == s
  {
    if s != [] {
      SelectedAll(s[1..], info, extraInfo);
      assert [s[0]] + s[1..] == s;
    }
  }

  /** An item added last is listed last, when it matches. */
  lemma {:induction false} SelectedSnoc(s: seq<NodeId>, info: map<NodeId, Value>, extraInfo: Value, x: NodeId)
    ensures Selected(s + [x], info, extraInfo) ==
      Selected(s, info, extraInfo) + (if Matches(InfoOf(info, x), extraInfo) then [x] else [])
  {
    if s == [] {
      assert [x][1..] == [];
    } else {
      assert (s + [x])[1..] == s[1..] + [x];
      SelectedSnoc(s[1..], info, extraInfo, x);
    }
  }

  /** What is left after removing `x`. */
  lemma {:induction false} DropMember(s: seq<NodeId>, x: NodeId, n: NodeId)
    ensures n in Drop(s, x) <==> n in s && n != x
  {
    if s != [] {
      DropMember(s[1..], x, n);
      assert n in s <==> n == s[0] || n in s[1..];
    }
  }

  /** Listing one more item of `s`. */
  lemma SelectedPrefix(s: seq<NodeId>, info: map<NodeId, Value>, extraInfo: Value, i: nat)
    requires i < |s|
    ensures Selected(s[..i + 1], info, extraInfo) ==
      Selected(s[..i], info, extraInfo) + (if Matches(InfoOf(info, s[i]), extraInfo) then [s[i]] else [])
  {
    assert s[..i + 1] == s[..i] + [s[i]];
    SelectedSnoc(s[..i], info, extraInfo, s[i]);
  }

  /** A closed item is not listed any more. */
  lemma DropUnlisted(s: seq<NodeId>, info: map<NodeId, Value>, extraInfo: Value, x: NodeId)
    ensures forall n :: n in Drop(s, x) ==> n in s
    ensures x !in Selected(Drop(s, x), info, extraInfo)
  {
    forall n | n in Drop(s, x)
      ensures n in s
    {
      DropMember(s, x, n);
    }
    DropMember(s, x, x);
    SelectedMember(Drop(s, x), info, extraInfo, x);
  }

  /** None of the items left after removing the selected ones matches. */
  lemma {:induction false} UnselectedNoneMatch(s: seq<NodeId>, info: map<NodeId, Value>, extraInfo: Value)
    ensures forall n :: n in Unselected(s, info, extraInfo) ==> n in s && !Matches(InfoOf(info, n), extraInfo)
  {
    if s != [] {
      UnselectedNoneMatch(s[1..], info, extraInfo);
    }
  }

  // ---------------------------------------------------------------------------
  // The map's invariant
  // ---------------------------------------------------------------------------

  /** The head followed by the items of a path. */
  function Cyc(heads: map<string, NodeId>, rings: map<string, seq<NodeId>>, p: string): seq<NodeId>
    requires p in heads && p in rings
  {
    [heads[p]] + rings[p]
  }

  /** The ring of path `p` is well linked and owns its nodes. */
  ghost predicate PathOk(heads: map<string, NodeId>, rings: map<string, seq<NodeId>>,
                         next: map<NodeId, NodeId>, prev: map<NodeId, NodeId>,
                         pathOf: map<NodeId, string>, items: set<NodeId>, p: string)
    requires p in heads && p in rings
  {
    Ring(Cyc(heads, rings, p), next, prev) && heads[p] !in items &&
    (forall n :: n in Cyc(heads, rings, p) ==> n in pathOf && pathOf[n] == p) &&
    (forall n :: n in rings[p] ==> n in items)
  }

  /** Only ring nodes have links. */
  ghost predicate LinksOk(heads: map<string, NodeId>, rings: map<string, seq<NodeId>>,
                          next: map<NodeId, NodeId>, pathOf: map<NodeId, string>)
    requires heads.Keys == rings.Keys
  {
    forall n :: n in next ==> n in pathOf && pathOf[n] in rings && n in Cyc(heads, rings, pathOf[n])
  }

  /**
   * The state of an `ObserverMap`: a ring per path; each node belongs to one
   * path; only ring nodes have links; every item has its `extraInfo`.
   */
  ghost predicate Inv(heads: map<string, NodeId>, rings: map<string, seq<NodeId>>,
                      next: map<NodeId, NodeId>, prev: map<NodeId, NodeId>,
                      pathOf: map<NodeId, string>, items: set<NodeId>, info: map<NodeId, Value>, nextId: NodeId)
  {
    heads.Keys == rings.Keys &&
    (forall n :: n in pathOf ==> n < nextId) &&
    (forall n :: n in items ==> n in pathOf && pathOf[n] in rings && n in info) &&
    forall t {:trigger Shaped(heads, rings, next, prev, pathOf, items, t)} :: t == nextId ==> Shaped(heads, rings, next, prev, pathOf, items, t)
  }

  /**
   * The rings and links part of `Inv`, kept behind `nextId` so that it is
   * only unfolded where a proof names it.
   */
  ghost predicate Shaped(heads: map<string, NodeId>, rings: map<string, seq<NodeId>>,
                         next: map<NodeId, NodeId>, prev: map<NodeId, NodeId>,
                         pathOf: map<NodeId, string>, items: set<NodeId>, nextId: NodeId)
    requires heads.Keys == rings.Keys
  {
    (forall p :: p in rings ==> PathOk(heads, rings, next, prev, pathOf, items, p)) &&
    LinksOk(heads, rings, next, pathOf)
  }

  /** The parts of the invariant, proved one by one. */
  lemma InvIntro(heads: map<string, NodeId>, rings: map<string, seq<NodeId>>,
                 next: map<NodeId, NodeId>, prev: map<NodeId, NodeId>,
                 pathOf: map<NodeId, string>, items: set<NodeId>, info: map<NodeId, Value>, nextId: NodeId)
    requires heads.Keys == rings.Keys
    requires forall n :: n in pathOf ==> n < nextId
    requires forall n :: n in items ==> n in pathOf && pathOf[n] in rings && n in info
    requires forall p :: p in rings ==> PathOk(heads, rings, next, prev, pathOf, items, p)
    requires LinksOk(heads, rings, next, pathOf)
    ensures Inv(heads, rings, next, prev, pathOf, items, info, nextId)
  {
    assert Shaped(heads, rings, next, prev, pathOf, items, nextId);
  }

  /** The parts of the invariant. */
  lemma InvElim(heads: map<string, NodeId>, rings: map<string, seq<NodeId>>,
                next: map<NodeId, NodeId>, prev: map<NodeId, NodeId>,
                pathOf: map<NodeId, string>, items: set<NodeId>, info: map<NodeId, Value>, nextId: NodeId)
    requires Inv(heads, rings, next, prev, pathOf, items, info, nextId)
    ensures forall p :: p in rings ==> PathOk(heads, rings, next, prev, pathOf, items, p)
    ensures LinksOk(heads, rings, next, pathOf)
  {
    assert Shaped(heads, rings, next, prev, pathOf, items, nextId);
  }

  /** The empty map. */
  lemma InvEmpty()
    ensures Inv(map[], map[], map[], map[], map[], {}, map[], 0)
  {
  }

  /** A path whose ring nodes keep their links and owner stays well formed. */
  lemma PathFrame(heads: map<string, NodeId>, rings: map<string, seq<NodeId>>,
                  next: map<NodeId, NodeId>, prev: map<NodeId, NodeId>, pathOf: map<NodeId, string>, items: set<NodeId>,
                  heads': map<string, NodeId>, rings': map<string, seq<NodeId>>,
                  next': map<NodeId, NodeId>, prev': map<NodeId, NodeId>, pathOf': map<NodeId, string>, items': set<NodeId>,
                  q: string)
    requires q in heads && q in rings && q in heads' && q in rings'
    requires PathOk(heads, rings, next, prev, pathOf, items, q)
    requires heads'[q] == heads[q] && rings'[q] == rings[q]
    requires forall n :: n in next && n in Cyc(heads, rings, q) ==> n in next' && next'[n] == next[n]
    requires forall n :: n in prev && n in Cyc(heads, rings, q) ==> n in prev' && prev'[n] == prev[n]
    requires forall n :: n in pathOf && n in Cyc(heads, rings, q) ==> n in pathOf' && pathOf'[n] == pathOf[n]
    requires items <= items' && heads[q] !in items'
    ensures PathOk(heads', rings', next', prev', pathOf', items', q)
  {
    RingFrame(Cyc(heads, rings, q), next, prev, next', prev');
  }

  /** Every node of a path's ring belongs to that path. */
  lemma InvOwner(heads: map<string, NodeId>, rings: map<string, seq<NodeId>>,
                 next: map<NodeId, NodeId>, prev: map<NodeId, NodeId>,
                 pathOf: map<NodeId, string>, items: set<NodeId>, info: map<NodeId, Value>, nextId: NodeId,
                 p: string, n: NodeId)
    requires Inv(heads, rings, next, prev, pathOf, items, info, nextId)
    requires p in rings && n in rings[p]
    ensures n in pathOf && pathOf[n] == p && n in items && n in info
  {
    InvElim(heads, rings, next, prev, pathOf, items, info, nextId);
    assert PathOk(heads, rings, next, prev, pathOf, items, p);
    assert n in Cyc(heads, rings, p);
  }

  /** The other paths are untouched by a new head. */
  lemma NewHeadPaths(heads: map<string, NodeId>, rings: map<string, seq<NodeId>>,
                     next: map<NodeId, NodeId>, prev: map<NodeId, NodeId>, pathOf: map<NodeId, string>, items: set<NodeId>,
                     p: string, h: NodeId)
    requires heads.Keys == rings.Keys && p !in rings && h !in pathOf && h !in items
    requires forall q :: q in rings ==> PathOk(heads, rings, next, prev, pathOf, items, q)
    ensures forall q :: q == p || q in rings ==> PathOk(heads[p := h], rings[p := []], next[h := h], prev[h := h], pathOf[h := p], items, q)
  {
    var heads', rings', next', prev', pathOf' := heads[p := h], rings[p := []], next[h := h], prev[h := h], pathOf[h := p];
    assert Cyc(heads', rings', p) == [h];
    assert Ring([h], next', prev') by {
      assert Succ([h], 0) == h;
    }
    forall q | q in rings
      ensures PathOk(heads', rings', next', prev', pathOf', items, q)
    {
      assert h !in Cyc(heads, rings, q) by {
        assert PathOk(heads, rings, next, prev, pathOf, items, q);
      }
      PathFrame(heads, rings, next, prev, pathOf, items, heads', rings', next', prev', pathOf', items, q);
    }
  }

  /** Only ring nodes have links after a new head. */
  lemma NewHeadLinks(heads: map<string, NodeId>, rings: map<string, seq<NodeId>>,
                     next: map<NodeId, NodeId>, pathOf: map<NodeId, string>, p: string, h: NodeId)
    requires heads.Keys == rings.Keys && LinksOk(heads, rings, next, pathOf)
    requires p !in rings && h !in pathOf
    ensures LinksOk(heads[p := h], rings[p := []], next[h := h], pathOf[h := p])
  {
    var heads', rings', next', pathOf' := heads[p := h], rings[p := []], next[h := h], pathOf[h := p];
    forall n | n in next'
      ensures n in pathOf' && pathOf'[n] in rings' && n in Cyc(heads', rings', pathOf'[n])
    {
      if n != h {
        assert n in next;
        var q := pathOf[n];
        assert Cyc(heads', rings', q) == Cyc(heads, rings, q);
      } else {
        assert Cyc(heads', rings', p) == [h];
      }
    }
  }

  /** Creating the head of a new path: a node linked to itself. */
  lemma InvNewHead(heads: map<string, NodeId>, rings: map<string, seq<NodeId>>,
                   next: map<NodeId, NodeId>, prev: map<NodeId, NodeId>,
                   pathOf: map<NodeId, string>, items: set<NodeId>, info: map<NodeId, Value>, nextId: NodeId,
                   p: string)
    requires Inv(heads, rings, next, prev, pathOf, items, info, nextId)
    requires p !in rings
    ensures Inv(heads[p := nextId], rings[p := []], next[nextId := nextId], prev[nextId := nextId],
                pathOf[nextId := p], items, info, nextId + 1)
  {
    assert nextId !in pathOf;
    assert Shaped(heads, rings, next, prev, pathOf, items, nextId);
    NewHeadPaths(heads, rings, next, prev, pathOf, items, p, nextId);
    NewHeadLinks(heads, rings, next, pathOf, p, nextId);
    assert Shaped(heads[p := nextId], rings[p := []], next[nextId := nextId], prev[nextId := nextId],
                  pathOf[nextId := p], items, nextId + 1);
  }

  /** The path an item is added to: its ring gains the item at the end. */
  lemma AddPathSame(heads: map<string, NodeId>, rings: map<string, seq<NodeId>>,
                    next: map<NodeId, NodeId>, prev: map<NodeId, NodeId>, pathOf: map<NodeId, string>, items: set<NodeId>,
                    p: string, n: NodeId)
    requires p in heads && p in rings && PathOk(heads, rings, next, prev, pathOf, items, p)
    requires n !in pathOf
    ensures heads[p] in prev
    ensures PathOk(heads, rings[p := rings[p] + [n]], AppendNext(next, prev, heads[p], n), AppendPrev(prev, heads[p], n),
                   pathOf[n := p], items + {n}, p)
  {
    var c := Cyc(heads, rings, p);
    assert n !in c;
    RingAppend(c, next, prev, n);
    var rings' := rings[p := rings[p] + [n]];
    assert Cyc(heads, rings', p) == c + [n];
    assert heads[p] in c;
  }

  /** The other paths keep their rings when an item is added. */
  lemma AddPathOther(heads: map<string, NodeId>, rings: map<string, seq<NodeId>>,
                     next: map<NodeId, NodeId>, prev: map<NodeId, NodeId>, pathOf: map<NodeId, string>, items: set<NodeId>,
                     p: string, q: string, n: NodeId)
    requires p in heads && p in rings && PathOk(heads, rings, next, prev, pathOf, items, p)
    requires q in heads && q in rings && PathOk(heads, rings, next, prev, pathOf, items, q)
    requires p != q && n !in pathOf
    ensures heads[p] in prev
    ensures PathOk(heads, rings[p := rings[p] + [n]], AppendNext(next, prev, heads[p], n), AppendPrev(prev, heads[p], n),
                   pathOf[n := p], items + {n}, q)
  {
    var c, d := Cyc(heads, rings, p), Cyc(heads, rings, q);
    assert Succ(c, |c| - 1) == c[0];
    assert c[|c| - 1] in c && c[0] in c;
    assert n !in d;
    var next', prev' := AppendNext(next, prev, heads[p], n), AppendPrev(prev, heads[p], n);
    PathFrame(heads, rings, next, prev, pathOf, items,
              heads, rings[p := rings[p] + [n]], next', prev', pathOf[n := p], items + {n}, q);
  }

  /** Only ring nodes have links after an item is added. */
  lemma AddLinks(heads: map<string, NodeId>, rings: map<string, seq<NodeId>>,
                 next: map<NodeId, NodeId>, prev: map<NodeId, NodeId>, pathOf: map<NodeId, string>, items: set<NodeId>,
                 p: string, n: NodeId)
    requires heads.Keys == rings.Keys && LinksOk(heads, rings, next, pathOf)
    requires p in rings && PathOk(heads, rings, next, prev, pathOf, items, p)
    requires n !in pathOf
    ensures heads[p] in prev
    ensures LinksOk(heads, rings[p := rings[p] + [n]], AppendNext(next, prev, heads[p], n), pathOf[n := p])
  {
    var c := Cyc(heads, rings, p);
    assert Succ(c, |c| - 1) == c[0];
    var rings', pathOf' := rings[p := rings[p] + [n]], pathOf[n := p];
    var next' := AppendNext(next, prev, heads[p], n);
    assert Cyc(heads, rings', p) == c + [n];
    assert prev[heads[p]] in c;
    forall m | m in next'
      ensures m in pathOf' && pathOf'[m] in rings' && m in Cyc(heads, rings', pathOf'[m])
    {
      if m != n {
        assert m in next;
        var q := pathOf[m];
        if q != p {
          assert Cyc(heads, rings', q) == Cyc(heads, rings, q);
        }
      }
    }
  }

  /** Every path is well formed after an item is added. */
  lemma AddPaths(heads: map<string, NodeId>, rings: map<string, seq<NodeId>>,
                 next: map<NodeId, NodeId>, prev: map<NodeId, NodeId>, pathOf: map<NodeId, string>, items: set<NodeId>,
                 p: string, n: NodeId)
    requires heads.Keys == rings.Keys && p in rings && n !in pathOf
    requires forall q :: q in rings ==> PathOk(heads, rings, next, prev, pathOf, items, q)
    ensures heads[p] in prev
    ensures forall q :: q in rings ==>
      PathOk(heads, rings[p := rings[p] + [n]], AppendNext(next, prev, heads[p], n), AppendPrev(prev, heads[p], n),
             pathOf[n := p], items + {n}, q)
  {
    AddPathSame(heads, rings, next, prev, pathOf, items, p, n);
    forall q | q in rings && q != p
      ensures PathOk(heads, rings[p := rings[p] + [n]], AppendNext(next, prev, heads[p], n), AppendPrev(prev, heads[p], n),
                     pathOf[n := p], items + {n}, q)
    {
      AddPathOther(heads, rings, next, prev, pathOf, items, p, q, n);
    }
  }

  /** The new item's owner and `extraInfo` are recorded. */
  lemma AddItems(rings: map<string, seq<NodeId>>, pathOf: map<NodeId, string>, items: set<NodeId>,
                 info: map<NodeId, Value>, nextId: NodeId, p: string, v: Value)
    requires forall n :: n in items ==> n in pathOf && pathOf[n] in rings && n in info
    requires p in rings
    ensures forall n :: n in items + {nextId} ==>
      n in pathOf[nextId := p] && pathOf[nextId := p][n] in rings[p := rings[p] + [nextId]] && n in info[nextId := v]
  {
  }

  /** The rings stay well linked when an item is added. */
  lemma AddShape(heads: map<string, NodeId>, rings: map<string, seq<NodeId>>,
                 next: map<NodeId, NodeId>, prev: map<NodeId, NodeId>, pathOf: map<NodeId, string>, items: set<NodeId>,
                 p: string, n: NodeId)
    requires heads.Keys == rings.Keys && p in rings && n !in pathOf
    requires Shaped(heads, rings, next, prev, pathOf, items, n)
    ensures heads[p] in prev
    ensures Shaped(heads, rings[p := rings[p] + [n]], AppendNext(next, prev, heads[p], n), AppendPrev(prev, heads[p], n),
                   pathOf[n := p], items + {n}, n + 1)
  {
    AddPaths(heads, rings, next, prev, pathOf, items, p, n);
    AddLinks(heads, rings, next, prev, pathOf, items, p, n);
  }

  /** Linking a new item at the end of an existing path's ring. */
  lemma InvAdd(heads: map<string, NodeId>, rings: map<string, seq<NodeId>>,
               next: map<NodeId, NodeId>, prev: map<NodeId, NodeId>,
               pathOf: map<NodeId, string>, items: set<NodeId>, info: map<NodeId, Value>, nextId: NodeId,
               p: string, v: Value)
    requires Inv(heads, rings, next, prev, pathOf, items, info, nextId)
    requires p in rings
    ensures heads[p] in prev
    ensures Inv(heads, rings[p := rings[p] + [nextId]], AppendNext(next, prev, heads[p], nextId), AppendPrev(prev, heads[p], nextId),
                pathOf[nextId := p], items + {nextId}, info[nextId := v], nextId + 1)
  {
    assert nextId !in pathOf;
    assert Shaped(heads, rings, next, prev, pathOf, items, nextId);
    AddShape(heads, rings, next, prev, pathOf, items, p, nextId);
    AddItems(rings, pathOf, items, info, nextId, p, v);
  }

  /** The tail of a list without repeats has none. */
  lemma DistinctTail(h: NodeId, r: seq<NodeId>)
    requires Distinct([h] + r)
    ensures Distinct(r)
  {
    var c := [h] + r;
    forall i, j | 0 <= i < j < |r|
      ensures r[i] != r[j]
    {
      assert r[i] == c[i + 1] && r[j] == c[j + 1];
    }
  }

  /** Removing the element after position `i` of the tail. */
  lemma ConsRemove(h: NodeId, r: seq<NodeId>, i: nat)
    requires i < |r|
    ensures [h] + (r[..i] + r[i + 1..]) == ([h] + r)[..i + 1] + ([h] + r)[i + 2..]
  {
    var c := [h] + r;
    assert c[..i + 1] == [h] + r[..i];
    assert c[i + 2..] == r[i + 1..];
  }

  /** The path a closed item belonged to: its ring loses the item. */
  lemma ClosePathSame(heads: map<string, NodeId>, rings: map<string, seq<NodeId>>,
                      next: map<NodeId, NodeId>, prev: map<NodeId, NodeId>, pathOf: map<NodeId, string>, items: set<NodeId>,
                      p: string, k: nat, x: NodeId)
    requires p in heads && p in rings && PathOk(heads, rings, next, prev, pathOf, items, p)
    requires 1 <= k < |Cyc(heads, rings, p)| && x == Cyc(heads, rings, p)[k]
    ensures x in next && x in prev
    ensures PathOk(heads, rings[p := Drop(rings[p], x)], UnlinkNext(next, prev, x), UnlinkPrev(next, prev, x), pathOf, items, p)
  {
    var c := Cyc(heads, rings, p);
    RingUnlink(c, next, prev, k);
    var r := rings[p];
    assert c == [heads[p]] + r;
    DistinctTail(heads[p], r);
    assert r[k - 1] == x;
    DropAt(r, k - 1);
    var rings' := rings[p := Drop(r, x)];
    ConsRemove(heads[p], r, k - 1);
    forall m | m in Cyc(heads, rings', p)
      ensures m in pathOf && pathOf[m] == p
    {
      assert m in c;
    }
    forall m | m in rings'[p]
      ensures m in items
    {
      DropMember(r, x, m);
    }
  }

  /** The other paths keep their rings when an item is closed. */
  lemma ClosePathOther(heads: map<string, NodeId>, rings: map<string, seq<NodeId>>,
                       next: map<NodeId, NodeId>, prev: map<NodeId, NodeId>, pathOf: map<NodeId, string>, items: set<NodeId>,
                       p: string, q: string, k: nat, x: NodeId)
    requires p in heads && p in rings && PathOk(heads, rings, next, prev, pathOf, items, p)
    requires q in heads && q in rings && PathOk(heads, rings, next, prev, pathOf, items, q)
    requires p != q && 1 <= k < |Cyc(heads, rings, p)| && x == Cyc(heads, rings, p)[k]
    ensures x in next && x in prev
    ensures PathOk(heads, rings[p := Drop(rings[p], x)], UnlinkNext(next, prev, x), UnlinkPrev(next, prev, x), pathOf, items, q)
  {
    var c, d := Cyc(heads, rings, p), Cyc(heads, rings, q);
    RingUnlink(c, next, prev, k);
    assert Succ(c, k) in c && c[k - 1] in c && x in c;
    PathFrame(heads, rings, next, prev, pathOf, items,
              heads, rings[p := Drop(rings[p], x)], UnlinkNext(next, prev, x), UnlinkPrev(next, prev, x), pathOf, items, q);
  }

  /** Every path is well formed after an item is closed. */
  lemma ClosePaths(heads: map<string, NodeId>, rings: map<string, seq<NodeId>>,
                   next: map<NodeId, NodeId>, prev: map<NodeId, NodeId>, pathOf: map<NodeId, string>, items: set<NodeId>,
                   p: string, k: nat, x: NodeId)
    requires heads.Keys == rings.Keys && p in rings
    requires forall q :: q in rings ==> PathOk(heads, rings, next, prev, pathOf, items, q)
    requires 1 <= k < |Cyc(heads, rings, p)| && x == Cyc(heads, rings, p)[k]
    ensures x in next && x in prev
    ensures forall q :: q in rings ==>
        PathOk(heads, rings[p := Drop(rings[p], x)], UnlinkNext(next, prev, x), UnlinkPrev(next, prev, x), pathOf, items, q)
  {
    ClosePathSame(heads, rings, next, prev, pathOf, items, p, k, x);
    forall q | q in rings && q != p
      ensures PathOk(heads, rings[p := Drop(rings[p], x)], UnlinkNext(next, prev, x), UnlinkPrev(next, prev, x), pathOf, items, q)
    {
      ClosePathOther(heads, rings, next, prev, pathOf, items, p, q, k, x);
    }
  }

  /** Only ring nodes have links after an item is closed. */
  lemma CloseLinks(heads: map<string, NodeId>, rings: map<string, seq<NodeId>>,
                   next: map<NodeId, NodeId>, prev: map<NodeId, NodeId>, pathOf: map<NodeId, string>, items: set<NodeId>,
                   p: string, k: nat, x: NodeId)
    requires heads.Keys == rings.Keys && LinksOk(heads, rings, next, pathOf)
    requires p in rings && PathOk(heads, rings, next, prev, pathOf, items, p)
    requires 1 <= k < |Cyc(heads, rings, p)| && x == Cyc(heads, rings, p)[k]
    ensures x in next && x in prev
    ensures LinksOk(heads, rings[p := Drop(rings[p], x)], UnlinkNext(next, prev, x), pathOf)
  {
    var c := Cyc(heads, rings, p);
    RingUnlink(c, next, prev, k);
    var rings' := rings[p := Drop(rings[p], x)];
    var next' := UnlinkNext(next, prev, x);
    forall m | m in next'
      ensures m in pathOf && pathOf[m] in rings' && m in Cyc(heads, rings', pathOf[m])
    {
      var q := pathOf[m];
      if q == p {
        assert m in c && m != x;
        if m != heads[p] {
          assert m in rings[p];
          DropMember(rings[p], x, m);
        }
      } else {
        assert Cyc(heads, rings', q) == Cyc(heads, rings, q);
      }
    }
  }

  /** The rings stay well linked when an item is closed. */
  lemma CloseShape(heads: map<string, NodeId>, rings: map<string, seq<NodeId>>,
                   next: map<NodeId, NodeId>, prev: map<NodeId, NodeId>, pathOf: map<NodeId, string>, items: set<NodeId>,
                   nextId: NodeId, p: string, k: nat, x: NodeId)
    requires heads.Keys == rings.Keys && p in rings
    requires Shaped(heads, rings, next, prev, pathOf, items, nextId)
    requires 1 <= k < |Cyc(heads, rings, p)| && x == Cyc(heads, rings, p)[k]
    ensures x in next && x in prev
    ensures Shaped(heads, rings[p := Drop(rings[p], x)], UnlinkNext(next, prev, x), UnlinkPrev(next, prev, x), pathOf, items, nextId)
  {
    ClosePaths(heads, rings, next, prev, pathOf, items, p, k, x);
    CloseLinks(heads, rings, next, prev, pathOf, items, p, k, x);
  }

  /** An item is linked exactly when it is in its path's ring. */
  lemma InvLinked(heads: map<string, NodeId>, rings: map<string, seq<NodeId>>,
                  next: map<NodeId, NodeId>, prev: map<NodeId, NodeId>,
                  pathOf: map<NodeId, string>, items: set<NodeId>, info: map<NodeId, Value>, nextId: NodeId,
                  x: NodeId)
    requires Inv(heads, rings, next, prev, pathOf, items, info, nextId)
    requires x in items
    ensures x in pathOf && pathOf[x] in rings
    ensures x in next <==> x in rings[pathOf[x]]
    ensures x in next ==> exists k :: 1 <= k < |Cyc(heads, rings, pathOf[x])| && Cyc(heads, rings, pathOf[x])[k] == x
  {
    var p := pathOf[x];
    var c := Cyc(heads, rings, p);
    assert Shaped(heads, rings, next, prev, pathOf, items, nextId);
    assert PathOk(heads, rings, next, prev, pathOf, items, p);
    if x in next {
      assert x in c && x != heads[p];
      var k :| 0 <= k < |c| && c[k] == x;
      assert k != 0;
    }
    if x in rings[p] {
      assert x in c;
      var k :| 0 <= k < |c| && c[k] == x;
    }
  }

  /** Closing a linked item takes it out of its path's ring. */
  lemma InvClose(heads: map<string, NodeId>, rings: map<string, seq<NodeId>>,
                 next: map<NodeId, NodeId>, prev: map<NodeId, NodeId>,
                 pathOf: map<NodeId, string>, items: set<NodeId>, info: map<NodeId, Value>, nextId: NodeId,
                 x: NodeId)
    requires Inv(heads, rings, next, prev, pathOf, items, info, nextId)
    requires x in items && x in next
    ensures x in prev && x in pathOf && pathOf[x] in rings
    ensures Inv(heads, rings[pathOf[x] := Drop(rings[pathOf[x]], x)], UnlinkNext(next, prev, x), UnlinkPrev(next, prev, x),
                pathOf, items, info, nextId)
  {
    InvLinked(heads, rings, next, prev, pathOf, items, info, nextId, x);
    var p := pathOf[x];
    var k :| 1 <= k < |Cyc(heads, rings, p)| && Cyc(heads, rings, p)[k] == x;
    assert Shaped(heads, rings, next, prev, pathOf, items, nextId);
    CloseShape(heads, rings, next, prev, pathOf, items, nextId, p, k, x);
  }

  // ---------------------------------------------------------------------------
  // ObserverMap
  // ---------------------------------------------------------------------------

  /**
   * The loop of `getObserverList` (src/aj.js:791-800): from the node after
   * `head` round to `head`, the items kept by `extraInfo`.
   */
  method CollectItems(next: map<NodeId, NodeId>, ghost prev: map<NodeId, NodeId>, info: map<NodeId, Value>,
                      head: NodeId, ghost ring: seq<NodeId>, extraInfo: Value) returns (list: seq<NodeId>)
    requires Ring([head] + ring, next, prev)
    ensures list == Selected(ring, info, extraInfo)
  {
    ghost var c := [head] + ring;
    list := [];
    RingWalk(c, next, prev, 0);
    var item := next[head];
    ghost var i := 0;
    while item != head
      invariant 0 <= i < |c| && item == Succ(c, i)
      invariant list == Selected(ring[..i], info, extraInfo)
      decreases |c| - i
    {
      RingWalk(c, next, prev, i);
      assert item == ring[i];
      SelectedPrefix(ring, info, extraInfo, i);
      if Truthy(extraInfo) {
        if LooseEquals(InfoOf(info, item), extraInfo) {
          list := list + [item];
        }
      } else {
        list := list + [item];
      }
      item := next[item];
      i := i + 1;
    }
    RingWalk(c, next, prev, i);
    assert ring[..i] == ring;
  }

  /** What `getObserverList` throws for a path that was never added to. */
  const NoHeadError := "TypeError: Cannot read property 'next' of undefined"

  /**
   * An `ObserverMap` (src/aj.js:745-802). `heads` is its `map`; the item
   * and head objects are the nodes, with identities drawn from `nextId`.
   * Each item stands for the observer it was added with; `closed` logs the
   * items whose observer was closed, in order.
   */
  class ObserverMap {
    var heads: map<string, NodeId>
    var next: map<NodeId, NodeId>
    var prev: map<NodeId, NodeId>
    var info: map<NodeId, Value>
    var nextId: NodeId
    /** The items of each path, in list order, without the head. */
    ghost var rings: map<string, seq<NodeId>>
    ghost var pathOf: map<NodeId, string>
    ghost var items: set<NodeId>
    ghost var closed: seq<NodeId>

    ghost predicate Valid()
      reads this
    {
      Inv(heads, rings, next, prev, pathOf, items, info, nextId)
    }

    /** The items of `path`; none before the first `add`. */
    ghost function RingOf(path: string): seq<NodeId>
      reads this
    {
      if path in rings then rings[path] else []
    }

    constructor()
      ensures Valid() && rings == map[] && items == {} && closed == []
    {
      heads, next, prev, info, nextId := map[], map[], map[], map[], 0;
      rings, pathOf, items, closed := map[], map[], {}, [];
      InvEmpty();
    }

    /**
     * `add` (src/aj.js:749-785): the first `add` for a path creates its head,
     * linked to itself; the new item goes at the end of the path's list.
     */
    method Add(path: string, extraInfo: Value) returns (item: NodeId)
      requires Valid()
      modifies this
      ensures Valid()
      ensures item !in old(pathOf) && item in items && pathOf[item] == path
      ensures rings == old(rings)[path := old(RingOf(path)) + [item]]
      ensures items == old(items) + {item} && info == old(info)[item := extraInfo]
      ensures closed == old(closed)
    {
      var heads1, next1, prev1, nextId1 := heads, next, prev, nextId;
      ghost var rings1, pathOf1 := rings, pathOf;
      if path !in heads1 {
        InvNewHead(heads, rings, next, prev, pathOf, items, info, nextId, path);
        heads1, rings1, next1, prev1, pathOf1, nextId1 :=
          heads[path := nextId], rings[path := []], next[nextId := nextId], prev[nextId := nextId], pathOf[nextId := path], nextId + 1;
      }
      AddFrom(heads1, rings1, next1, prev1, pathOf1, nextId1, path, extraInfo);
      item := nextId1;
    }

    /** Links a new item for `path`, whose head exists in the given state, and installs it. */
    method AddFrom(heads1: map<string, NodeId>, ghost rings1: map<string, seq<NodeId>>,
                   next1: map<NodeId, NodeId>, prev1: map<NodeId, NodeId>, ghost pathOf1: map<NodeId, string>,
                   nextId1: NodeId, path: string, extraInfo: Value)
      requires Inv(heads1, rings1, next1, prev1, pathOf1, items, info, nextId1) && path in rings1
      modifies this`heads, this`next, this`prev, this`info, this`nextId, this`rings, this`pathOf, this`items
      ensures Valid()
      ensures heads == heads1 && rings == rings1[path := rings1[path] + [nextId1]] && nextId == nextId1 + 1
      ensures pathOf == pathOf1[nextId1 := path] && items == old(items) + {nextId1} && info == old(info)[nextId1 := extraInfo]
    {
      InvAdd(heads1, rings1, next1, prev1, pathOf1, items, info, nextId1, path, extraInfo);
      var head := heads1[path];
      heads, next, prev, rings, pathOf, items, info, nextId :=
        heads1, AppendNext(next1, prev1, head, nextId1), AppendPrev(prev1, head, nextId1), rings1[path := rings1[path] + [nextId1]],
        pathOf1[nextId1 := path], items + {nextId1}, info[nextId1 := extraInfo], nextId1 + 1;
    }

    /**
     * `getObserverList` (src/aj.js:787-802): the items of `path` from the
     * head round, all of them when `extraInfo` is falsy and otherwise those
     * whose `extraInfo` is `==` to it; a path never added to throws.
     */
    method GetObserverList(path: string, extraInfo: Value) returns (r: Result<seq<NodeId>>)
      requires Valid()
      ensures path !in rings ==> r == Throw(NoHeadError)
      ensures path in rings ==> r == Ok(Selected(rings[path], info, extraInfo))
    {
      if path !in heads {
        return Throw(NoHeadError);
      }
      InvElim(heads, rings, next, prev, pathOf, items, info, nextId);
      assert PathOk(heads, rings, next, prev, pathOf, items, path);
      var list := CollectItems(next, prev, info, heads[path], rings[path], extraInfo);
      r := Ok(list);
    }

    /**
     * An item's `close` (src/aj.js:754-762): closes the item's observer and,
     * while the item is linked, links its neighbours to each other. The
     * item's own links are then cleared, so that closing it again only
     * closes the observer again.
     */
    method Close(item: NodeId)
      requires Valid() && item in items
      modifies this
      ensures Valid()
      ensures heads == old(heads) && info == old(info) && items == old(items) && pathOf == old(pathOf) && nextId == old(nextId)
      ensures item in pathOf && pathOf[item] in old(rings)
      ensures rings == old(rings)[pathOf[item] := Drop(old(rings)[pathOf[item]], item)]
      ensures closed == old(closed) + [item]
    {
      closed := closed + [item];
      InvLinked(heads, rings, next, prev, pathOf, items, info, nextId, item);
      ghost var p := pathOf[item];
      if item in next {
        InvClose(heads, rings, next, prev, pathOf, items, info, nextId, item);
        next, prev, rings := CloseNext(next, prev, item), ClosePrev(next, prev, item), rings[p := Drop(rings[p], item)];
      } else {
        DropAbsent(rings[p], item);
        WriteSame(rings, p);
      }
    }

    /** Closes the items of `list`, all of them items of `path`, in order. */
    method CloseEach(list: seq<NodeId>, ghost path: string)
      requires Valid() && path in rings
      requires forall n :: n in rings[path] ==> n in items && n in pathOf && pathOf[n] == path
      requires forall n :: n in list ==> n in rings[path]
      modifies this
      ensures Valid()
      ensures info == old(info) && items == old(items) && pathOf == old(pathOf)
      ensures rings == old(rings)[path := DropAll(old(rings)[path], list)]
      ensures closed == old(closed) + list
    {
      ghost var ring, rings0 := rings[path], rings;
      DropAllNone(ring);
      WriteSame(rings0, path);
      var i := 0;
      while i < |list|
        invariant 0 <= i <= |list|
        invariant Valid()
        invariant info == old(info) && items == old(items) && pathOf == old(pathOf)
        invariant rings == rings0[path := DropAll(ring, list[..i])]
        invariant closed == old(closed) + list[..i]
      {
        var item := list[i];
        Close(item);
        DropAllSnoc(ring, list[..i], item);
        Overwrite(rings0, path, DropAll(ring, list[..i]), DropAll(ring, list[..i + 1]));
        assert list[..i + 1] == list[..i] + [item];
        i := i + 1;
      }
      assert list[..i] == list;
    }
  }

  /** After the matching items are removed, listing with the same `extraInfo` finds none. */
  lemma {:induction false} SelectedOfUnselected(s: seq<NodeId>, info: map<NodeId, Value>, extraInfo: Value)
    ensures Selected(Unselected(s, info, extraInfo), info, extraInfo) == []
  {
    if s != [] {
      SelectedOfUnselected(s[1..], info, extraInfo);
      var u := Unselected(s, info, extraInfo);
      if !Matches(InfoOf(info, s[0]), extraInfo) {
        assert u == [s[0]] + Unselected(s[1..], info, extraInfo);
        assert u[0] == s[0] && u[1..] == Unselected(s[1..], info, extraInfo);
      } else {
        assert u == [] + Unselected(s[1..], info, extraInfo) == Unselected(s[1..], info, extraInfo);
      }
    }
  }

  /**
   * The part of a `Scope` (src/aj.js:804-809) that holds its two observer
   * maps: one for path observers and one for array (splice) observers.
   */
  class Scope {
    const paths: ObserverMap
    const splices: ObserverMap

    ghost predicate Valid()
      reads this, paths, splices
    {
      paths != splices && paths.Valid() && splices.Valid()
    }

    constructor()
      ensures Valid() && fresh(paths) && fresh(splices)
      ensures paths.rings == map[] && splices.rings == map[] && splices.closed == []
    {
      paths := new ObserverMap();
      splices := new ObserverMap();
    }

    /**
     * `removeArrayObserver` (src/aj.js:832-837): closes every array observer
     * of `path` registered for `targetObj`, in list order; a path without
     * any array observer throws.
     */
    method RemoveArrayObserver(path: string, targetObj: Value) returns (r: Result<()>)
      requires Valid()
      modifies splices
      ensures Valid()
      ensures splices.info == old(splices.info) && splices.items == old(splices.items)
      ensures path !in old(splices.rings) ==>
        r == Throw(NoHeadError) && splices.rings == old(splices.rings) && splices.closed == old(splices.closed)
      ensures path in old(splices.rings) ==>
        r == Ok(()) &&
        splices.rings == old(splices.rings)[path := Unselected(old(splices.rings)[path], old(splices.info), targetObj)] &&
        splices.closed == old(splices.closed) + Selected(old(splices.rings)[path], old(splices.info), targetObj)
    {
      var found := splices.GetObserverList(path, targetObj);
      if found.Throw? {
        return Throw(found.message);
      }
      var list := found.value;
      ghost var ring := splices.rings[path];
      forall n | n in ring
        ensures n in splices.items && n in splices.pathOf && splices.pathOf[n] == path
      {
        InvOwner(splices.heads, splices.rings, splices.next, splices.prev, splices.pathOf, splices.items, splices.info, splices.nextId, path, n);
      }
      forall n | n in list
        ensures n in ring
      {
        SelectedMember(ring, splices.info, targetObj, n);
      }
      splices.CloseEach(list, path);
      DropSelected(ring, ring, splices.info, targetObj);
      r := Ok(());
    }
  }

  // ---------------------------------------------------------------------------
  // Closing an item twice, as written
  // ---------------------------------------------------------------------------

  /** The links an item's `close` leaves as written (src/aj.js:754-762): the item keeps its own links. */
  function CloseNextAsWritten(next: map<NodeId, NodeId>, prev: map<NodeId, NodeId>, x: NodeId): map<NodeId, NodeId>
    requires x in next && x in prev
  {
    next[prev[x] := next[x]]
  }

  function ClosePrevAsWritten(next: map<NodeId, NodeId>, prev: map<NodeId, NodeId>, x: NodeId): map<NodeId, NodeId>
    requires x in next && x in prev
  {
    prev[next[x] := prev[x]]
  }

  /** The nodes met following `next` from `item` until `head`, at most `fuel` of them. */
  function Walk(next: map<NodeId, NodeId>, head: NodeId, item: NodeId, fuel: nat): seq<NodeId>
    decreases fuel
  {
    if fuel == 0 || item == head || item !in next then [] else [item] + Walk(next, head, next[item], fuel - 1)
  }

  /**
   * Closing an item a second time, as written, relinks its stale
   * neighbours: with items 1 and 2 after head 0, closing 2, then 1, then 2
   * again leaves `head.prev` at the detached item 1, so an item 3 added
   * next is linked after 1 and the head's list stays empty.
   */
  lemma CloseTwiceAsWrittenLosesItems()
    ensures var next0, prev0 := map[0 := 1, 1 := 2, 2 := 0], map[0 := 2, 1 := 0, 2 := 1];
      var next1, prev1 := CloseNextAsWritten(next0, prev0, 2), ClosePrevAsWritten(next0, prev0, 2);
      var next2, prev2 := CloseNextAsWritten(next1, prev1, 1), ClosePrevAsWritten(next1, prev1, 1);
      var next3, prev3 := CloseNextAsWritten(next2, prev2, 2), ClosePrevAsWritten(next2, prev2, 2);
      var next4 := AppendNext(next3, prev3, 0, 3);
      Walk(next4, 0, next4[0], 4) == []
  {
    var next0, prev0 := map[0 := 1, 1 := 2, 2 := 0], map[0 := 2, 1 := 0, 2 := 1];
    var next1, prev1 := CloseNextAsWritten(next0, prev0, 2), ClosePrevAsWritten(next0, prev0, 2);
    assert next1 == map[0 := 1, 1 := 0, 2 := 0] && prev1 == map[0 := 1, 1 := 0, 2 := 1];
    var next2, prev2 := CloseNextAsWritten(next1, prev1, 1), ClosePrevAsWritten(next1, prev1, 1);
    assert next2 == map[0 := 0, 1 := 0, 2 := 0] && prev2 == map[0 := 0, 1 := 0, 2 := 1];
    var next3, prev3 := CloseNextAsWritten(next2, prev2, 2), ClosePrevAsWritten(next2, prev2, 2);
    assert next3 == map[0 := 0, 1 := 0, 2 := 0] && prev3 == map[0 := 1, 1 := 0, 2 := 1];
    var next4 := AppendNext(next3, prev3, 0, 3);
    assert next4[0] == 0;
  }

  /**
   * The same steps with `close` clearing the item's links: the second
   * close of 2 changes nothing, and item 3 is listed.
   */
  lemma CloseTwiceListsLaterItems()
    ensures var next0, prev0 := map[0 := 1, 1 := 2, 2 := 0], map[0 := 2, 1 := 0, 2 := 1];
      var next1, prev1 := CloseNext(next0, prev0, 2), ClosePrev(next0, prev0, 2);
      var next2, prev2 := CloseNext(next1, prev1, 1), ClosePrev(next1, prev1, 1);
      var next3, prev3 := CloseNext(next2, prev2, 2), ClosePrev(next2, prev2, 2);
      0 in prev3 &&
      var next4 := AppendNext(next3, prev3, 0, 3);
      Walk(next4, 0, next4[0], 4) == [3]
  {
    var next0, prev0 := map[0 := 1, 1 := 2, 2 := 0], map[0 := 2, 1 := 0, 2 := 1];
    var next1, prev1 := CloseNext(next0, prev0, 2), ClosePrev(next0, prev0, 2);
    assert next1 == map[0 := 1, 1 := 0] && prev1 == map[0 := 1, 1 := 0];
    var next2, prev2 := CloseNext(next1, prev1, 1), ClosePrev(next1, prev1, 1);
    assert next2 == map[0 := 0] && prev2 == map[0 := 0];
    var next3, prev3 := CloseNext(next2, prev2, 2), ClosePrev(next2, prev2, 2);
    assert next3 == next2 && prev3 == prev2;
    var next4 := AppendNext(next3, prev3, 0, 3);
    assert next4 == map[0 := 3, 3 := 0];
  }
}
