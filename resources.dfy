/**
 * `ResourceList` and `ResourceMap` (dist/aj.js:3283-3397): a sentinel-headed
 * doubly linked list of (identifier, resource) nodes, and a dictionary of such
 * lists by category. Removing or discarding a node calls the first discard
 * hook its resource has; the hooks called are kept in a log.
 *
 * The nodes of a list are numbered; `next`/`prev` map a node to its
 * neighbours, node 0 is the head sentinel, and the ghost `chain` lists the
 * nodes in link order, starting with the sentinel.
 */
module Resources {
  import opened JsCore

  type NodeId = nat

  /** The head sentinel `{}` every list starts with. */
  const Head: NodeId := 0

  /** A resource, identified by `id`, and which of the hooks `_discard`, `discard`, `close` it has. */
  datatype Discardable = Discardable(id: nat, hasOwnDiscard: bool, hasDiscard: bool, hasClose: bool)

  /** One discard hook called on the resource `target`. */
  datatype Hook = OwnDiscardCall(target: nat) | DiscardCall(target: nat) | CloseCall(target: nat)

  /** `discardNode` (dist/aj.js:3283-3296): the hook called, the first of `_discard`, `discard`, `close` the resource has. */
  function DiscardNode(d: Discardable): (r: seq<Hook>)
    ensures |r| <= 1 && (r == [] <==> !d.hasOwnDiscard && !d.hasDiscard && !d.hasClose)
    ensures forall k :: 0 <= k < |r| ==> r[k].target == d.id
  {
    if d.hasOwnDiscard then [OwnDiscardCall(d.id)]
    else if d.hasDiscard then [DiscardCall(d.id)]
    else if d.hasClose then [CloseCall(d.id)]
    else []
  }

  /** What a node holds. */
  datatype Entry = Entry(identifier: Value, resource: Discardable)

  /** The node holds `identifier` (compared with `===`). */
  predicate Hits(e: Entry, identifier: Value) {
    StrictEquals(e.identifier, identifier)
  }

  /** The hooks called when the entries are discarded one after the other. */
  function DiscardAll(es: seq<Entry>): seq<Hook> {
    if es == [] then [] else DiscardAll(es[..|es| - 1]) + DiscardNode(es[|es| - 1].resource)
  }

  /** The entries that do not hold `identifier`, in order. */
  function Without(es: seq<Entry>, identifier: Value): seq<Entry> {
    if es == [] then []
    else Without(es[..|es| - 1], identifier) + (if Hits(es[|es| - 1], identifier) then [] else [es[|es| - 1]])
  }

  /** The entries that hold `identifier`, in order. */
  function Matching(es: seq<Entry>, identifier: Value): seq<Entry> {
    if es == [] then []
    else Matching(es[..|es| - 1], identifier) + (if Hits(es[|es| - 1], identifier) then [es[|es| - 1]] else [])
  }

  /** The resource of the first entry holding `identifier`. */
  function FirstMatch(es: seq<Entry>, identifier: Value): Option<Discardable> {
    if es == [] then None
    else if Hits(es[0], identifier) then Some(es[0].resource)
    else FirstMatch(es[1..], identifier)
  }

  /** `Without` and `Matching` split the entries: each entry lands on exactly one side. */
  lemma {:induction false} WithoutMatchingSplit(es: seq<Entry>, identifier: Value)
    ensures forall e :: e in Without(es, identifier) <==> e in es && !Hits(e, identifier)
    ensures forall e :: e in Matching(es, identifier) <==> e in es && Hits(e, identifier)
    ensures |Without(es, identifier)| + |Matching(es, identifier)| == |es|
  {
    if es != [] {
      var init := es[..|es| - 1];
      WithoutMatchingSplit(init, identifier);
      assert es == init + [es[|es| - 1]];
    }
  }

  /** The first match is the resource of the first entry holding the identifier, and there is none exactly when no entry holds it. */
  lemma {:induction false} FirstMatchIsFirst(es: seq<Entry>, identifier: Value)
    ensures FirstMatch(es, identifier).None? <==> forall k :: 0 <= k < |es| ==> !Hits(es[k], identifier)
    ensures FirstMatch(es, identifier).Some? ==>
      exists k :: 0 <= k < |es| && Hits(es[k], identifier) && es[k].resource == FirstMatch(es, identifier).value &&
        forall j :: 0 <= j < k ==> !Hits(es[j], identifier)
  {
    if es != [] && !Hits(es[0], identifier) {
      FirstMatchIsFirst(es[1..], identifier);
      if FirstMatch(es, identifier).Some? {
        var k :| 0 <= k < |es[1..]| && Hits(es[1..][k], identifier) && es[1..][k].resource == FirstMatch(es, identifier).value &&
          forall j :: 0 <= j < k ==> !Hits(es[1..][j], identifier);
        assert es[k + 1] == es[1..][k];
        assert forall j :: 0 <= j < k + 1 ==> !Hits(es[j], identifier) by {
          forall j | 0 <= j < k + 1 ensures !Hits(es[j], identifier) {
            if j > 0 { assert es[j] == es[1..][j - 1]; }
          }
        }
      } else {
        forall k | 0 <= k < |es| ensures !Hits(es[k], identifier) {
          if k > 0 { assert es[k] == es[1..][k - 1]; }
        }
      }
    }
  }

  /** After removing an identifier (other than NaN) and appending it once, it is held exactly once and found. */
  lemma {:induction false} ReAddedOnce(es: seq<Entry>, identifier: Value, d: Discardable)
    requires !identifier.NaN?
    ensures Matching(Without(es, identifier) + [Entry(identifier, d)], identifier) == [Entry(identifier, d)]
    ensures FirstMatch(Without(es, identifier) + [Entry(identifier, d)], identifier) == Some(d)
  {
    var w := Without(es, identifier);
    WithoutMatchingSplit(es, identifier);
    NoneMatching(w, identifier);
    assert (w + [Entry(identifier, d)])[..|w|] == w;
    FirstMatchAfter(w, Entry(identifier, d), identifier);
  }

  lemma {:induction false} NoneMatching(es: seq<Entry>, identifier: Value)
    requires forall e :: e in es ==> !Hits(e, identifier)
    ensures Matching(es, identifier) == [] && FirstMatch(es, identifier) == None
  {
    if es != [] {
      NoneMatching(es[..|es| - 1], identifier);
      NoneMatching(es[1..], identifier);
    }
  }

  lemma {:induction false} FirstMatchAfter(es: seq<Entry>, e: Entry, identifier: Value)
    requires FirstMatch(es, identifier) == None && Hits(e, identifier)
    ensures FirstMatch(es + [e], identifier) == Some(e.resource)
  {
    if es != [] {
      assert (es + [e])[1..] == es[1..] + [e];
      FirstMatchAfter(es[1..], e, identifier);
    }
  }

  /** Taking one more entry into account. */
  lemma SplitStep(es: seq<Entry>, i: nat, identifier: Value)
    requires i < |es|
    ensures Without(es[..i + 1], identifier) == Without(es[..i], identifier) + (if Hits(es[i], identifier) then [] else [es[i]])
    ensures Matching(es[..i + 1], identifier) == Matching(es[..i], identifier) + (if Hits(es[i], identifier) then [es[i]] else [])
    ensures DiscardAll(es[..i + 1]) == DiscardAll(es[..i]) + DiscardNode(es[i].resource)
  {
    assert es[..i + 1][..i] == es[..i];
  }

  /** The hooks `remove` calls, one entry further. */
  lemma MatchingHooksStep(es: seq<Entry>, i: nat, identifier: Value)
    requires i < |es|
    ensures DiscardAll(Matching(es[..i + 1], identifier)) ==
      DiscardAll(Matching(es[..i], identifier)) + (if Hits(es[i], identifier) then DiscardNode(es[i].resource) else [])
  {
    SplitStep(es, i, identifier);
    var m := Matching(es[..i], identifier);
    if Hits(es[i], identifier) {
      assert (m + [es[i]])[..|m|] == m;
    } else {
      assert m + [] == m;
    }
  }

  // ---------------------------------------------------------------------------
  // Links
  // ---------------------------------------------------------------------------

  /**
   * `chain` (the sentinel and then the nodes) is the list the links spell:
   * each node's `next` is the one after it and its `prev` the one before it,
   * the last node has no `next`, and `tail` is the last node.
   */
  ghost predicate Linked(chain: seq<NodeId>, next: map<NodeId, NodeId>, prev: map<NodeId, NodeId>, tail: NodeId) {
    |chain| >= 1 && chain[0] == Head &&
    (forall j, k :: 0 <= j < k < |chain| ==> chain[j] != chain[k]) &&
    (forall j :: 0 <= j < |chain| - 1 ==> chain[j] in next && next[chain[j]] == chain[j + 1]) &&
    chain[|chain| - 1] !in next &&
    (forall j :: 1 <= j < |chain| ==> chain[j] in prev && prev[chain[j]] == chain[j - 1]) &&
    tail == chain[|chain| - 1]
  }

  /** `add`'s relinking: the new node goes after the tail and becomes the tail. */
  lemma LinkedAppend(chain: seq<NodeId>, next: map<NodeId, NodeId>, prev: map<NodeId, NodeId>, tail: NodeId, n: NodeId)
    requires Linked(chain, next, prev, tail) && n !in chain && n !in next
    ensures Linked(chain + [n], next[tail := n], prev[n := tail], n)
  {
  }

  /** `remove`'s relinking of node `chain[p]`: its predecessor skips it, and its successor (or the tail) points back past it. */
  lemma LinkedUnlink(chain: seq<NodeId>, next: map<NodeId, NodeId>, prev: map<NodeId, NodeId>, tail: NodeId, p: nat)
    requires Linked(chain, next, prev, tail) && 1 <= p < |chain|
    ensures var n := chain[p]; var pr := prev[n];
      pr == chain[p - 1] &&
      (n in next ==> p < |chain| - 1 && Linked(chain[..p] + chain[p + 1..], next[pr := next[n]], prev[next[n] := pr], tail)) &&
      (n !in next ==> p == |chain| - 1 && Linked(chain[..p] + chain[p + 1..], next - {pr}, prev, pr))
  {
    var n := chain[p];
    var c := chain[..p] + chain[p + 1..];
    assert |c| == |chain| - 1;
    assert forall j :: 0 <= j < p ==> c[j] == chain[j];
    assert forall j :: p <= j < |c| ==> c[j] == chain[j + 1];
    if n in next {
      assert p < |chain| - 1;
      LinkedUnlinkMiddle(chain, next, prev, tail, p, c);
    } else {
      assert c == chain[..p];
    }
  }

  lemma LinkedUnlinkMiddle(chain: seq<NodeId>, next: map<NodeId, NodeId>, prev: map<NodeId, NodeId>, tail: NodeId, p: nat, c: seq<NodeId>)
    requires Linked(chain, next, prev, tail) && 1 <= p < |chain| - 1
    requires |c| == |chain| - 1
    requires forall j :: 0 <= j < p ==> c[j] == chain[j]
    requires forall j :: p <= j < |c| ==> c[j] == chain[j + 1]
    ensures Linked(c, next[chain[p - 1] := chain[p + 1]], prev[chain[p + 1] := chain[p - 1]], tail)
  {
    var nx, pv := next[chain[p - 1] := chain[p + 1]], prev[chain[p + 1] := chain[p - 1]];
    forall j | 0 <= j < |c| - 1 ensures c[j] in nx && nx[c[j]] == c[j + 1] {
      if j < p - 1 {
        assert chain[j] != chain[p - 1];
      } else if j >= p {
        assert chain[j + 1] != chain[p - 1];
      }
    }
    forall j | 1 <= j < |c| ensures c[j] in pv && pv[c[j]] == c[j - 1] {
      if j < p {
        assert chain[j] != chain[p + 1];
      } else if j > p {
        assert chain[j + 1] != chain[p + 1];
      }
    }
    assert c[|c| - 1] == chain[|chain| - 1] != chain[p - 1];
  }

  /** Dropping a non-matching entry from the front keeps the first match. */
  lemma FirstMatchDrop(es: seq<Entry>, i: nat, identifier: Value)
    requires i < |es| && !Hits(es[i], identifier)
    ensures FirstMatch(es[i..], identifier) == FirstMatch(es[i + 1..], identifier)
  {
    assert es[i..][1..] == es[i + 1..];
  }

  /**
   * The shape of a list, stated on the values of its fields: the links
   * spell `chain`, node numbers are below `nextId`, and the nodes after the
   * sentinel hold `contents` in order. It is stated through `Shaped` so that
   * only the lemmas below open it.
   */
  ghost predicate ListInv(chain: seq<NodeId>, contents: seq<Entry>, next: map<NodeId, NodeId>, prev: map<NodeId, NodeId>,
                          entry: map<NodeId, Entry>, tail: NodeId, nextId: NodeId) {
    forall t {:trigger Shaped(chain, contents, next, prev, entry, t, nextId)} :: t == tail ==> Shaped(chain, contents, next, prev, entry, t, nextId)
  }

  ghost predicate Shaped(chain: seq<NodeId>, contents: seq<Entry>, next: map<NodeId, NodeId>, prev: map<NodeId, NodeId>,
                         entry: map<NodeId, Entry>, tail: NodeId, nextId: NodeId) {
    Linked(chain, next, prev, tail) &&
    (forall k :: k in next ==> k < nextId) &&
    (forall k :: 0 <= k < |chain| ==> chain[k] < nextId) &&
    |contents| == |chain| - 1 &&
    (forall k :: 1 <= k < |chain| ==> chain[k] in entry && entry[chain[k]] == contents[k - 1])
  }

  /** A walk from `chain[i]` goes on to `chain[i + 1]` and stops after the last node; a node's entry is its place in `contents`. */
  lemma ListWalk(chain: seq<NodeId>, contents: seq<Entry>, next: map<NodeId, NodeId>, prev: map<NodeId, NodeId>,
                 entry: map<NodeId, Entry>, tail: NodeId, nextId: NodeId, i: nat)
    requires ListInv(chain, contents, next, prev, entry, tail, nextId) && i < |chain|
    ensures |contents| == |chain| - 1 && chain[0] == Head
    ensures chain[i] in next <==> i + 1 < |chain|
    ensures chain[i] in next ==> next[chain[i]] == chain[i + 1]
    ensures 0 < i ==> chain[i] in entry && contents[i - 1] == entry[chain[i]]
  {
    assert Shaped(chain, contents, next, prev, entry, tail, nextId);
  }

  /** `add` keeps the shape, with the new node and entry at the end. */
  lemma ListAppend(chain: seq<NodeId>, contents: seq<Entry>, next: map<NodeId, NodeId>, prev: map<NodeId, NodeId>,
                   entry: map<NodeId, Entry>, tail: NodeId, nextId: NodeId, e: Entry)
    requires ListInv(chain, contents, next, prev, entry, tail, nextId)
    ensures ListInv(chain + [nextId], contents + [e], next[tail := nextId], prev[nextId := tail], entry[nextId := e], nextId, nextId + 1)
  {
    assert Shaped(chain, contents, next, prev, entry, tail, nextId);
    LinkedAppend(chain, next, prev, tail, nextId);
    assert Shaped(chain + [nextId], contents + [e], next[tail := nextId], prev[nextId := tail], entry[nextId := e], nextId, nextId + 1);
  }

  /** `remove`'s relinking of node `chain[p]` keeps the shape, without the node and its entry. */
  lemma ListUnlink(chain: seq<NodeId>, contents: seq<Entry>, next: map<NodeId, NodeId>, prev: map<NodeId, NodeId>,
                   entry: map<NodeId, Entry>, tail: NodeId, nextId: NodeId, p: nat)
    requires ListInv(chain, contents, next, prev, entry, tail, nextId) && 1 <= p < |chain|
    ensures chain[p] in prev && prev[chain[p]] == chain[p - 1] && |contents| == |chain| - 1
    ensures var n, pr := chain[p], chain[p - 1];
      (n in next ==>
        ListInv(chain[..p] + chain[p + 1..], contents[..p - 1] + contents[p..], next[pr := next[n]], prev[next[n] := pr], entry, tail, nextId)) &&
      (n !in next ==>
        ListInv(chain[..p] + chain[p + 1..], contents[..p - 1] + contents[p..], next - {pr}, prev, entry, pr, nextId))
  {
    assert Shaped(chain, contents, next, prev, entry, tail, nextId);
    LinkedUnlink(chain, next, prev, tail, p);
    var n, pr := chain[p], chain[p - 1];
    var c, cs := chain[..p] + chain[p + 1..], contents[..p - 1] + contents[p..];
    assert forall k :: 1 <= k < |c| ==> c[k] in entry && entry[c[k]] == cs[k - 1] by {
      forall k | 1 <= k < |c| ensures c[k] in entry && entry[c[k]] == cs[k - 1] {
        if k < p {
          assert c[k] == chain[k] && cs[k - 1] == contents[k - 1];
        } else {
          assert c[k] == chain[k + 1] && cs[k - 1] == contents[k];
        }
      }
    }
    assert forall k :: 0 <= k < |c| ==> c[k] < nextId by {
      forall k | 0 <= k < |c| ensures c[k] < nextId {
        if k < p {
          assert c[k] == chain[k];
        } else {
          assert c[k] == chain[k + 1];
        }
      }
    }
    if n in next {
      assert Shaped(c, cs, next[pr := next[n]], prev[next[n] := pr], entry, tail, nextId);
    } else {
      assert Shaped(c, cs, next - {pr}, prev, entry, pr, nextId);
    }
  }

  // ---------------------------------------------------------------------------
  // ResourceList
  // ---------------------------------------------------------------------------

  /** `ResourceList` (dist/aj.js:3298-3356). */
  class ResourceList {
    var next: map<NodeId, NodeId>
    var prev: map<NodeId, NodeId>
    var entry: map<NodeId, Entry>
    var tail: NodeId
    /** `head` and `tail` are still there; `discard` deletes them. */
    var live: bool
    /** The number the next node gets. */
    var nextId: NodeId
    /** The discard hooks called so far, in order. */
    var hooks: seq<Hook>
    ghost var chain: seq<NodeId>
    /** The entries of the list, in link order. */
    ghost var contents: seq<Entry>

    ghost predicate Valid()
      reads this`chain, this`next, this`prev, this`tail, this`nextId, this`entry, this`contents
    {
      |chain| >= 1 && |contents| == |chain| - 1 && ListInv(chain, contents, next, prev, entry, tail, nextId)
    }

    /** `node.next`. */
    function NextOf(n: NodeId): Option<NodeId>
      reads this`next
    {
      if n in next then Some(next[n]) else None
    }

    /** A walk from `chain[i]` goes on to `chain[i + 1]` and stops after the last node; a node's entry is its place in `contents`. */
    lemma WalkStep(i: nat)
      requires Valid() && i < |chain|
      ensures |contents| == |chain| - 1 && chain[0] == Head
      ensures NextOf(chain[i]) == if i + 1 < |chain| then Some(chain[i + 1]) else None
      ensures 0 < i ==> chain[i] in entry && contents[i - 1] == entry[chain[i]]
    {
      ListWalk(chain, contents, next, prev, entry, tail, nextId, i);
    }

    /** `new ResourceList()`: just the head sentinel. */
    constructor ()
      ensures Valid() && live && contents == [] && hooks == []
    {
      next := map[];
      prev := map[];
      entry := map[];
      tail := Head;
      live := true;
      nextId := Head + 1;
      hooks := [];
      chain := [Head];
      contents := [];
      assert Shaped([Head], [], map[], map[], map[], Head, Head + 1);
    }

    /** `isEmpty` (dist/aj.js:3302-3304): a discarded list counts as empty. */
    function IsEmpty(): (r: bool)
      requires Valid()
      reads this`live, this`next, this`chain, this`prev, this`tail, this`nextId, this`entry, this`contents
      ensures r <==> !live || contents == []
    {
      WalkStep(0);
      !live || NextOf(Head).None?
    }

    /** `add` (dist/aj.js:3306-3316): a new node after the tail; on a discarded list there is no tail to link to. */
    method Add(identifier: Value, resource: Discardable) returns (r: Result<()>)
      requires Valid()
      modifies this`next, this`prev, this`entry, this`tail, this`nextId, this`chain, this`contents
      ensures Valid() && live == old(live) && hooks == old(hooks)
      ensures !old(live) ==> r.Throw? && contents == old(contents)
      ensures old(live) ==> r == Ok(()) && contents == old(contents) + [Entry(identifier, resource)]
    {
      if !live {
        return Throw("TypeError: Cannot set property 'next' of undefined");
      }
      var n := nextId;
      ListAppend(chain, contents, next, prev, entry, tail, nextId, Entry(identifier, resource));
      entry, prev, next, tail, nextId := entry[n := Entry(identifier, resource)], prev[n := tail], next[tail := n], n, nextId + 1;
      chain, contents := chain + [n], contents + [Entry(identifier, resource)];
      r := Ok(());
    }

    /** Unlinks node `n`, which sits at `chain[p]`; its own links stay as they were. */
    method Unlink(n: NodeId, ghost p: nat)
      requires Valid() && 1 <= p < |chain| && chain[p] == n
      modifies this`next, this`prev, this`tail, this`chain, this`contents
      ensures Valid() && chain == old(chain[..p] + chain[p + 1..])
      ensures contents == old(contents[..p - 1] + contents[p..])
      ensures NextOf(n) == old(NextOf(n))
    {
      ListUnlink(chain, contents, next, prev, entry, tail, nextId, p);
      var pr := prev[n];
      if n in next {
        var nx := next[n];
        next, prev := next[pr := nx], prev[nx := pr];
      } else {
        next, tail := next - {pr}, pr;
      }
      chain, contents := chain[..p] + chain[p + 1..], contents[..p - 1] + contents[p..];
    }

    /**
     * `remove` (dist/aj.js:3318-3332): every node holding the identifier is
     * unlinked, its resource's discard hook called first; the walk goes on
     * from the unlinked node's own `next`.
     */
    method Remove(identifier: Value) returns (r: Result<()>)
      requires Valid()
      modifies this`next, this`prev, this`tail, this`chain, this`contents, this`hooks
      ensures Valid() && live == old(live)
      ensures !old(live) ==> r.Throw? && contents == old(contents) && hooks == old(hooks)
      ensures old(live) ==>
        r == Ok(()) &&
        contents == Without(old(contents), identifier) &&
        hooks == old(hooks) + DiscardAll(Matching(old(contents), identifier))
    {
      if !live {
        return Throw("TypeError: Cannot read property 'next' of undefined");
      }
      ghost var es0, c0, hooks0 := contents, chain, hooks;
      ghost var kept: seq<NodeId>, w: seq<Entry>, calls: seq<Hook> := [], [], [];
      WalkStep(0);
      var node := NextOf(Head);
      ghost var i: nat := 0;
      while node.Some?
        invariant Walked(identifier, es0, c0, hooks0, i, kept, w, calls, node)
        decreases |es0| - i
      {
        node, kept, w, calls := Advance(identifier, es0, c0, hooks0, i, kept, w, calls, node);
        i := i + 1;
      }
      assert es0[..i] == es0;
      r := Ok(());
    }

    /**
     * Where `remove`'s walk stands after `i` nodes: `node` is the next one,
     * `kept` the nodes kept so far, `w` their entries, and `calls` the hooks
     * called so far.
     */
    ghost predicate Walked(identifier: Value, es0: seq<Entry>, c0: seq<NodeId>, hooks0: seq<Hook>,
                           i: nat, kept: seq<NodeId>, w: seq<Entry>, calls: seq<Hook>, node: Option<NodeId>)
      reads this`chain, this`next, this`prev, this`tail, this`nextId, this`entry, this`contents, this`hooks
    {
      Valid() && |c0| == |es0| + 1 &&
      i <= |es0| && (node.Some? <==> i < |es0|) && (node.Some? ==> node.value == c0[i + 1]) &&
      chain == [Head] + kept + c0[i + 1..] &&
      contents == w + es0[i..] && w == Without(es0[..i], identifier) &&
      hooks == hooks0 + calls && calls == DiscardAll(Matching(es0[..i], identifier))
    }

    /** One step of `remove`'s walk. */
    method Advance(identifier: Value, ghost es0: seq<Entry>, ghost c0: seq<NodeId>, ghost hooks0: seq<Hook>,
                   ghost i: nat, ghost kept: seq<NodeId>, ghost w: seq<Entry>, ghost calls: seq<Hook>, node: Option<NodeId>)
      returns (node': Option<NodeId>, ghost kept': seq<NodeId>, ghost w': seq<Entry>, ghost calls': seq<Hook>)
      requires Walked(identifier, es0, c0, hooks0, i, kept, w, calls, node) && node.Some?
      modifies this`next, this`prev, this`tail, this`chain, this`contents, this`hooks
      ensures Walked(identifier, es0, c0, hooks0, i + 1, kept', w', calls', node')
    {
      SplitStep(es0, i, identifier);
      MatchingHooksStep(es0, i, identifier);
      assert c0[i + 1..][1..] == c0[i + 2..] && es0[i..][1..] == es0[i + 1..];
      node', kept', w', calls' := RemoveStep(node.value, identifier, w, c0[i + 1..], es0[i..], kept, hooks0, calls);
    }

    /**
     * One node of `remove`'s walk: `n` is the first of the nodes `rest` not
     * yet visited, holding the first of `restEs`; it is unlinked if it
     * holds the identifier.
     */
    method RemoveStep(n: NodeId, identifier: Value, ghost w: seq<Entry>, ghost rest: seq<NodeId>, ghost restEs: seq<Entry>,
                      ghost kept: seq<NodeId>, ghost hooks0: seq<Hook>, ghost calls: seq<Hook>)
      returns (node: Option<NodeId>, ghost kept': seq<NodeId>, ghost w': seq<Entry>, ghost calls': seq<Hook>)
      requires Valid() && |rest| >= 1 && n == rest[0] && |restEs| == |rest|
      requires chain == [Head] + kept + rest && contents == w + restEs && hooks == hooks0 + calls
      modifies this`next, this`prev, this`tail, this`chain, this`contents, this`hooks
      ensures Valid()
      ensures node.Some? <==> |rest| > 1
      ensures node.Some? ==> node.value == rest[1]
      ensures chain == [Head] + kept' + rest[1..]
      ensures w' == if Hits(restEs[0], identifier) then w else w + [restEs[0]]
      ensures contents == w' + restEs[1..]
      ensures calls' == calls + (if Hits(restEs[0], identifier) then DiscardNode(restEs[0].resource) else [])
      ensures hooks == hooks0 + calls'
    {
      ghost var q := 1 + |kept|;
      assert chain[q] == n;
      WalkStep(q);
      assert chain[q + 1..] == rest[1..];
      if Hits(entry[n], identifier) {
        hooks := hooks + DiscardNode(entry[n].resource);
        Unlink(n, q);
        kept', w', calls' := kept, w, calls + DiscardNode(entry[n].resource);
        assert chain == [Head] + kept + rest[1..];
        assert contents == w + restEs[1..];
      } else {
        kept', w', calls' := kept + [n], w + [restEs[0]], calls;
      }
      node := NextOf(n);
    }

    /** `get` (dist/aj.js:3334-3345): the resource of the first node holding the identifier, undefined when none does. */
    method Get(identifier: Value) returns (r: Result<Option<Discardable>>)
      requires Valid()
      ensures !live ==> r.Throw?
      ensures live ==> r == Ok(FirstMatch(contents, identifier))
    {
      if !live {
        return Throw("TypeError: Cannot read property 'next' of undefined");
      }
      ghost var es := contents;
      WalkStep(0);
      var node := NextOf(Head);
      ghost var i: nat := 0;
      while node.Some?
        invariant i <= |es| && (node.Some? <==> i < |es|)
        invariant node.Some? ==> node.value == chain[i + 1]
        invariant FirstMatch(es, identifier) == FirstMatch(es[i..], identifier)
        decreases |es| - i
      {
        var n := node.value;
        WalkStep(i + 1);
        if Hits(entry[n], identifier) {
          return Ok(Some(entry[n].resource));
        }
        FirstMatchDrop(es, i, identifier);
        node := NextOf(n);
        i := i + 1;
      }
      r := Ok(None);
    }

    /**
     * `discard` (dist/aj.js:3347-3356): every node's discard hook is called
     * in order, then head and tail are deleted so the list cannot be used
     * again.
     */
    method Discard() returns (r: Result<()>)
      requires Valid()
      modifies this`hooks, this`live
      ensures !live
      ensures !old(live) ==> r.Throw? && hooks == old(hooks)
      ensures old(live) ==> r == Ok(()) && hooks == old(hooks) + DiscardAll(contents)
    {
      if !live {
        return Throw("TypeError: Cannot read property 'next' of undefined");
      }
      ghost var es, hooks0 := contents, hooks;
      WalkStep(0);
      var node := NextOf(Head);
      ghost var i: nat := 0;
      while node.Some?
        invariant i <= |es| && (node.Some? <==> i < |es|)
        invariant node.Some? ==> node.value == chain[i + 1]
        invariant hooks == hooks0 + DiscardAll(es[..i])
        decreases |es| - i
      {
        var n := node.value;
        WalkStep(i + 1);
        SplitStep(es, i, Undefined);
        hooks := hooks + DiscardNode(entry[n].resource);
        node := NextOf(n);
        i := i + 1;
      }
      assert es[..i] == es;
      live := false;
      r := Ok(());
    }
  }

  // ---------------------------------------------------------------------------
  // ResourceMap
  // ---------------------------------------------------------------------------

  /** Concatenation regroups. */
  lemma Regroup<T>(a: seq<T>, b: seq<T>, c: seq<T>)
    ensures a + b + c == a + (b + c)
  {
  }

  /** Discarding one more category appends its hooks. */
  lemma DiscardCategoriesSnoc(order: seq<string>, c: string, entries: map<string, seq<Entry>>)
    requires c in entries
    ensures DiscardCategories(order + [c], entries) == DiscardCategories(order, entries) + DiscardAll(entries[c])
  {
    assert (order + [c])[..|order|] == order;
  }

  /** `order` lists, once each, the categories of `all` not in `keys`. */
  ghost predicate Covers(all: set<string>, keys: set<string>, order: seq<string>) {
    keys <= all && Distinct(order) &&
    (forall c :: c in order ==> c in all && c !in keys) &&
    (forall c :: c in all ==> c in keys || c in order)
  }

  /** Moving a waiting category to the end of `order` keeps the cover. */
  lemma CoversStep(all: set<string>, keys: set<string>, order: seq<string>, c: string)
    requires Covers(all, keys, order) && c in keys
    ensures Covers(all, keys - {c}, order + [c])
  {
    forall i, j | 0 <= i < j < |order + [c]|
      ensures (order + [c])[i] != (order + [c])[j]
    {
      if j == |order| { assert order[i] in order; }
    }
  }

  /** The hooks of `log` that list `l` called, where `callers[k]` is the list that called `log[k]`. */
  ghost function HooksBy(log: seq<Hook>, callers: seq<ResourceList>, l: ResourceList): seq<Hook>
    requires |callers| == |log|
  {
    if log == [] then []
    else HooksBy(log[..|log| - 1], callers[..|callers| - 1], l) + (if callers[|callers| - 1] == l then [log[|log| - 1]] else [])
  }

  /** Hooks that list `m` calls add to `m`'s share of the log, and to no other list's. */
  lemma {:induction false} HooksByAppend(log: seq<Hook>, callers: seq<ResourceList>, seg: seq<Hook>, m: ResourceList, l: ResourceList)
    requires |callers| == |log|
    ensures HooksBy(log + seg, callers + seq(|seg|, _ => m), l) == HooksBy(log, callers, l) + (if m == l then seg else [])
    decreases |seg|
  {
    var ms := seq(|seg|, _ => m);
    if seg == [] {
      assert log + seg == log && callers + ms == callers;
    } else {
      var k := |seg| - 1;
      assert (log + seg)[..|log| + k] == log + seg[..k];
      assert (callers + ms)[..|callers| + k] == callers + seq(k, _ => m);
      HooksByAppend(log, callers, seg[..k], m, l);
      assert seg[..k] + [seg[k]] == seg;
    }
  }

  /** A list that called none of the log's hooks has no share of it. */
  lemma {:induction false} HooksByAbsent(log: seq<Hook>, callers: seq<ResourceList>, l: ResourceList)
    requires |callers| == |log| && l !in callers
    ensures HooksBy(log, callers, l) == []
  {
    if log != [] {
      assert forall k :: 0 <= k < |callers| - 1 ==> callers[..|callers| - 1][k] == callers[k];
      HooksByAbsent(log[..|log| - 1], callers[..|callers| - 1], l);
    }
  }

  /** The hooks called when the categories' lists are discarded in the given order. */
  function DiscardCategories(order: seq<string>, entries: map<string, seq<Entry>>): seq<Hook> {
    if order == [] then []
    else
      var c := order[|order| - 1];
      DiscardCategories(order[..|order| - 1], entries) + (if c in entries then DiscardAll(entries[c]) else [])
  }

  /** `ResourceMap` (dist/aj.js:3358-3397): a list per category, created on first use. */
  class ResourceMap {
    var lists: map<string, ResourceList>
    /** The entries of each category's list. */
    ghost var entries: map<string, seq<Entry>>
    /** The discard hooks the map's lists have called, in order. */
    ghost var hooks: seq<Hook>
    /** For each hook of `hooks`, the list that called it. */
    ghost var callers: seq<ResourceList>
    /** The category each list serves or served; no list serves two. */
    ghost var owner: map<ResourceList, string>

    ghost predicate Valid()
      reads this`lists, this`entries, this`owner, this`hooks, this`callers, owner.Keys
    {
      entries.Keys == lists.Keys && Logged() &&
      forall c :: c in lists ==>
        lists[c] in owner && owner[lists[c]] == c &&
        lists[c].Valid() && lists[c].live && lists[c].contents == entries[c]
    }

    /** Every list the map ever held has called exactly its share of `hooks`, in order. */
    ghost predicate Logged()
      reads this`hooks, this`callers, this`owner, owner.Keys`hooks
    {
      |callers| == |hooks| && (forall l :: l in callers ==> l in owner) &&
      forall l {:trigger HooksBy(hooks, callers, l)} :: l in owner ==> l.hooks == HooksBy(hooks, callers, l)
    }

    /** The entries of a category, none when it has no list. */
    ghost function EntriesIn(category: string): seq<Entry>
      reads this`entries
    {
      if category in entries then entries[category] else []
    }

    /** `new ResourceMap()`. */
    constructor ()
      ensures Valid() && entries == map[] && hooks == []
    {
      lists := map[];
      entries := map[];
      hooks, callers := [], [];
      owner := map[];
    }

    /** `getList` (dist/aj.js:3362-3369): the category's list, a new empty one when it has none. */
    method GetList(category: string) returns (list: ResourceList)
      requires Valid()
      modifies this`lists, this`owner, this`entries
      ensures Valid() && category in lists && list == lists[category]
      ensures entries == old(entries)[category := old(EntriesIn(category))]
      ensures category !in old(lists) ==> fresh(list)
      ensures category in old(lists) ==> lists == old(lists)
      ensures hooks == old(hooks)
      ensures forall l :: l in owner ==> l in old(owner) || fresh(l)
    {
      if category in lists {
        list := lists[category];
        WriteSame(entries, category);
      } else {
        list := NewList(category);
      }
    }

    /** A new empty list for a category that has none. */
    method NewList(category: string) returns (list: ResourceList)
      requires Valid() && category !in lists
      modifies this`lists, this`owner, this`entries
      ensures Valid() && fresh(list) && hooks == old(hooks)
      ensures lists == old(lists)[category := list] && owner == old(owner)[list := category]
      ensures entries == old(entries)[category := []]
    {
      ghost var ls := lists;
      list := new ResourceList();
      assert list !in callers;
      HooksByAbsent(hooks, callers, list);
      lists, owner, entries := lists[category := list], owner[list := category], entries[category := []];
      forall c | c in lists
        ensures lists[c] in owner && owner[lists[c]] == c && lists[c].Valid() && lists[c].live && lists[c].contents == entries[c]
      {
        if c != category { assert lists[c] == ls[c] && ls[c] != list; }
      }
      forall l | l in owner
        ensures l.hooks == HooksBy(hooks, callers, l)
      {
        if l != list { assert l in old(owner); }
      }
    }

    /** `add` once the category's list is there: the list drops the identifier's entries, then takes the new one. */
    method Put(category: string, identifier: Value, resource: Discardable)
      requires Valid() && category in lists
      modifies this`entries, this`hooks, this`callers, lists[category]
      ensures Valid() && lists == old(lists)
      ensures entries == old(entries)[category := Without(old(entries[category]), identifier) + [Entry(identifier, resource)]]
      ensures hooks == old(hooks) + DiscardAll(Matching(old(entries[category]), identifier))
    {
      RemoveIn(category, identifier);
      ghost var e1 := entries;
      AppendIn(category, identifier, resource);
      Overwrite(old(entries), category, e1[category], e1[category] + [Entry(identifier, resource)]);
    }

    /** `list.add(identifier, resource)` on the category's list; the other lists stay as they were. */
    method AppendIn(category: string, identifier: Value, resource: Discardable)
      requires Valid() && category in lists
      modifies this`entries, lists[category]
      ensures Valid() && lists == old(lists) && hooks == old(hooks)
      ensures entries == old(entries)[category := old(entries[category]) + [Entry(identifier, resource)]]
    {
      var list := lists[category];
      var _ := list.Add(identifier, resource);
      entries := entries[category := list.contents];
      forall c | c in lists && c != category
        ensures lists[c] != list && lists[c].Valid() && lists[c].live && lists[c].contents == entries[c]
      {
      }
    }

    /** `list.remove(identifier)` on the category's list; the other lists stay as they were. */
    method RemoveIn(category: string, identifier: Value)
      requires Valid() && category in lists
      modifies this`entries, this`hooks, this`callers, lists[category]
      ensures Valid() && lists == old(lists)
      ensures entries == old(entries)[category := Without(old(entries[category]), identifier)]
      ensures hooks == old(hooks) + DiscardAll(Matching(old(entries[category]), identifier))
    {
      var list := lists[category];
      ghost var h0 := list.hooks;
      var _ := list.Remove(identifier);
      ghost var called := list.hooks[|h0|..];
      entries, hooks, callers := entries[category := list.contents], hooks + called, callers + seq(|called|, _ => list);
      forall l | l in owner
        ensures l.hooks == HooksBy(hooks, callers, l)
      {
        HooksByAppend(old(hooks), old(callers), called, list, l);
      }
      forall c | c in lists && c != category
        ensures lists[c] != list && lists[c].Valid() && lists[c].live && lists[c].contents == entries[c]
      {
      }
    }

    /** `if (list.isEmpty()) delete this.map[category]`. */
    method Prune(category: string)
      requires Valid() && category in lists
      modifies this`lists, this`entries
      ensures Valid()
      ensures entries == if old(entries[category]) == [] then old(entries) - {category} else old(entries)
      ensures hooks == old(hooks)
    {
      if lists[category].IsEmpty() {
        lists, entries := lists - {category}, entries - {category};
      }
    }

    /**
     * `add` (dist/aj.js:3371-3375): the identifier is first removed from the
     * category, so it ends up held once, by the new resource, at the end.
     */
    method Add(category: string, identifier: Value, resource: Discardable)
      requires Valid()
      modifies this, owner.Keys
      ensures Valid()
      ensures entries == old(entries)[category := Without(old(EntriesIn(category)), identifier) + [Entry(identifier, resource)]]
      ensures hooks == old(hooks) + DiscardAll(Matching(old(EntriesIn(category)), identifier))
      ensures forall l :: l in owner ==> l in old(owner) || fresh(l)
    {
      var _ := GetList(category);
      ghost var e1 := entries;
      Put(category, identifier, resource);
      Overwrite(old(entries), category, e1[category], entries[category]);
    }

    /**
     * `remove` (dist/aj.js:3377-3385): the identifier's entries go, and a
     * category left empty is deleted.
     */
    method Remove(category: string, identifier: Value)
      requires Valid()
      modifies this, owner.Keys
      ensures Valid()
      ensures var rest := Without(old(EntriesIn(category)), identifier);
        entries == if rest == [] then old(entries) - {category} else old(entries)[category := rest]
      ensures hooks == old(hooks) + DiscardAll(Matching(old(EntriesIn(category)), identifier))
    {
      var _ := GetList(category);
      ghost var e1 := entries;
      RemoveIn(category, identifier);
      Prune(category);
      Overwrite(old(entries), category, e1[category], Without(e1[category], identifier));
      WriteDelete(old(entries), category, Without(e1[category], identifier));
    }

    /**
     * `get` (dist/aj.js:3387-3390): the resource of the category's first
     * entry holding the identifier; looking creates the category's list.
     */
    method Get(category: string, identifier: Value) returns (r: Option<Discardable>)
      requires Valid()
      modifies this`lists, this`owner, this`entries
      ensures Valid() && entries == old(entries)[category := old(EntriesIn(category))]
      ensures r == FirstMatch(old(EntriesIn(category)), identifier)
      ensures forall l :: l in owner ==> l in old(owner) || fresh(l)
    {
      var list := GetList(category);
      var res := list.Get(identifier);
      r := res.value;
    }

    /**
     * `discard` (dist/aj.js:3392-3397): every list is discarded and the map
     * starts again empty. `order` is the order the categories were visited
     * in.
     */
    method Discard() returns (ghost order: seq<string>)
      requires Valid()
      modifies this, owner.Keys
      ensures Valid() && entries == map[]
      ensures forall c :: c in old(lists) ==> !old(lists)[c].live
      ensures (forall c :: c in order <==> c in old(entries)) && Distinct(order)
      ensures hooks == old(hooks) + DiscardCategories(order, old(entries))
    {
      order := DiscardLists();
      lists, entries := map[], map[];
    }

    /** The loop of `discard`: each list is discarded, in some order. */
    method DiscardLists() returns (ghost order: seq<string>)
      requires Valid()
      modifies this`hooks, this`callers, owner.Keys
      ensures Alive({}) && Covers(entries.Keys, {}, order) && Logged()
      ensures hooks == old(hooks) + DiscardCategories(order, entries)
    {
      var keys := lists.Keys;
      ghost var hooks0 := hooks;
      order := [];
      while keys != {}
        invariant Discarding(keys, order, hooks0)
        modifies this`hooks, this`callers, owner.Keys
        decreases keys
      {
        var c :| c in keys;
        DiscardNext(c, keys, order, hooks0);
        keys, order := keys - {c}, order + [c];
      }
    }

    /**
     * Midway through `discard`: the categories of `order` are done, in that
     * order, and those of `keys` wait.
     */
    ghost predicate Discarding(keys: set<string>, order: seq<string>, hooks0: seq<Hook>)
      reads this`lists, this`entries, this`owner, this`hooks, this`callers, owner.Keys
    {
      Owned() && entries.Keys == lists.Keys && Covers(lists.Keys, keys, order) &&
      Alive(keys) && Intact(keys) && Logged() &&
      hooks == hooks0 + DiscardCategories(order, entries)
    }

    /** One turn of `discard`'s loop, on the waiting category `c`. */
    method DiscardNext(c: string, keys: set<string>, ghost order: seq<string>, ghost hooks0: seq<Hook>)
      requires c in keys && Discarding(keys, order, hooks0)
      modifies this`hooks, this`callers, lists[c]
      ensures Discarding(keys - {c}, order + [c], hooks0)
    {
      DiscardOne(c, keys);
      DiscardCategoriesSnoc(order, c, entries);
      Regroup(hooks0, DiscardCategories(order, entries), DiscardAll(entries[c]));
      CoversStep(lists.Keys, keys, order, c);
    }

    /** Every list is known by the category it serves. */
    ghost predicate Owned()
      reads this`lists, this`owner
    {
      forall c :: c in lists ==> lists[c] in owner && owner[lists[c]] == c
    }

    /** Exactly the lists of `keys` are not discarded yet. */
    ghost predicate Alive(keys: set<string>)
      reads this`lists, this`owner, owner.Keys`live
    {
      forall c :: c in lists ==> lists[c] in owner && (c in keys <==> lists[c].live)
    }

    /** The lists of `keys` still hold their entries. */
    ghost predicate Intact(keys: set<string>)
      reads this`lists, this`entries, this`owner
      reads owner.Keys`chain, owner.Keys`next, owner.Keys`prev, owner.Keys`tail, owner.Keys`nextId, owner.Keys`entry, owner.Keys`contents
    {
      forall c :: c in keys ==>
        c in lists && lists[c] in owner && c in entries && lists[c].Valid() && lists[c].contents == entries[c]
    }

    /** One turn of `discard`'s loop: the list of `c`, which still waits, is discarded. */
    method DiscardOne(c: string, keys: set<string>)
      requires c in keys && Owned() && Alive(keys) && Intact(keys) && Logged()
      modifies this`hooks, this`callers, lists[c]
      ensures Alive(keys - {c}) && Intact(keys - {c}) && Logged()
      ensures hooks == old(hooks) + DiscardAll(entries[c])
    {
      var list := lists[c];
      ghost var h0 := list.hooks;
      var _ := list.Discard();
      ghost var called := list.hooks[|h0|..];
      hooks, callers := hooks + called, callers + seq(|called|, _ => list);
      forall l | l in owner
        ensures l.hooks == HooksBy(hooks, callers, l)
      {
        HooksByAppend(old(hooks), old(callers), called, list, l);
      }
      forall d | d in lists
        ensures lists[d] in owner && (d in keys - {c} <==> lists[d].live)
      {
        if d != c { assert lists[d] != list; }
      }
    }
  }
}
