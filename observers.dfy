/**
 * The observer family of the dirty-checking engine (dist/aj.js:1346-2125),
 * in the configuration without `Object.observe`: every observer keeps a
 * baseline (a value, a snapshot of an object or array, or a vector of values)
 * and `check_` compares the world against it, reports what changed and takes
 * the new baseline.
 *
 * Path, object and array observers are instances of `Observer`; a
 * `CompoundObserver` observes paths and such observers. Callbacks are not
 * run: a call of an observer's callback appends the arguments to the
 * observer's `reports` log, and whether the callback throws is a property of
 * the callback. The observers a compound observes are opened with the
 * compound's `deliver` as callback (`Relay`); their reports are logged like
 * any other.
 */
module Observe {
  import opened JsCore
  import opened Paths
  import opened Diffs
  import ArraySplice

  /** `MAX_DIRTY_CHECK_CYCLES` (dist/aj.js:1346). */
  const MaxDirtyCheckCycles: nat := 1000

  /** The lifecycle states UNOPENED, OPENED, CLOSED and RESETTING (dist/aj.js:1607-1610). */
  datatype State = Unopened | Opened | Closed | Resetting

  /**
   * What an observer was opened with: a listener of the program, which may
   * throw, or another observer's method (a compound's `deliver`).
   */
  datatype Callback = Listener(throws: bool) | Relay

  /** The arguments one call of a callback receives. */
  datatype Change =
    | PathChange(value: Value, oldValue: Value)
    | ObjectChange(diff: Diff, oldObject: View)
    | ArrayChange(splices: seq<ArraySplice.Splice>)
    | CompoundChange(values: seq<Value>, oldValues: map<nat, Value>)

  /** The three kinds of observer that watch one thing, with what each watches. */
  datatype Kind =
    | PathKind(target: Value, path: Path)
    | ObjectKind
    | ArrayKind

  /** One observed item of a compound observer: an object and a path, or an observer. */
  datatype Entry = PathEntry(target: Value, path: Path) | ObserverEntry(sub: Observer)

  /** Any observer, as the checkpoint's list holds them. */
  datatype Observable = Single(leaf: Observer) | Compound(compound: CompoundObserver)

  /** What a compound's `open`, `discardChanges` and `finishReset` return: `value_`, undefined once closed. */
  datatype VectorValue = Vector(vs: seq<Value>) | ClosedVector

  // ---------------------------------------------------------------------------
  // Values observed
  // ---------------------------------------------------------------------------

  /** What a path reads from an object; the invalid sentinel reads undefined. */
  function PathValue(objs: map<ObjId, JsObject>, target: Value, path: Path): Value {
    if path.valid then ValueAt(objs, target, path.keys) else Undefined
  }

  /**
   * `copyObject` of ObjectObserver (dist/aj.js:1760-1768): a copy of the own
   * properties, an array for an array; anything but an object copies to `{}`.
   */
  function CopyObject(objs: map<ObjId, JsObject>, v: Value): JsObject {
    if v.Obj? then ObjectAt(objs, v.id) else Plain(map[])
  }

  /** `copyObject` of ArrayObserver, `arr.slice()` (dist/aj.js:1844-1846). */
  function CopyArray(objs: map<ObjId, JsObject>, v: Value): JsObject {
    ArrayObj(ElemsOf(objs, v))
  }

  /** The elements of an array snapshot. */
  function Elements(o: JsObject): seq<Value> {
    match o
    case ArrayObj(e) => e
    case Plain(_) => []
  }

  /** Element `i` of a JavaScript array, undefined past its end. */
  function At(s: seq<Value>, i: nat): Value {
    if i < |s| then s[i] else Undefined
  }

  /** `s[i] = v` on a JavaScript array: a write past the end leaves holes that read as undefined. */
  function SetAt(s: seq<Value>, i: nat, v: Value): (r: seq<Value>)
    ensures At(r, i) == v
    ensures forall j: nat :: j != i ==> At(r, j) == At(s, j)
  {
    if i < |s| then s[i := v] else s + seq(i - |s|, _ => Undefined) + [v]
  }

  /** Against a fresh copy of itself an array shows no splice exactly when none of its elements is NaN. */
  lemma ArraySnapshotSplicesIffNaN(cur: seq<Value>)
    ensures ArraySplice.Splices(cur, cur) == [] <==> NaN !in cur
  {
    ArraySplice.NoSplicesIffStrictlyEqual(cur, cur);
    if NaN in cur {
      var k :| 0 <= k < |cur| && cur[k] == NaN;
      assert !StrictEquals(cur[k], cur[k]);
    }
  }

  // ---------------------------------------------------------------------------
  // Callbacks
  // ---------------------------------------------------------------------------

  /** A call of the callback raises: the listener throws, or there is no callback to call. */
  predicate Raises(cb: Option<Callback>) {
    cb.None? || (cb.value.Listener? && cb.value.throws)
  }

  /** The log entries one `report_` adds: the call, when there is a callback to call. */
  function Delivered(cb: Option<Callback>, c: Change): seq<Change> {
    if cb.Some? then [c] else []
  }

  /** The same change delivered `n` times over, as repeated checks that find it deliver it. */
  function Resent(cb: Option<Callback>, c: Change, n: nat): seq<Change> {
    if n == 0 then [] else Resent(cb, c, n - 1) + Delivered(cb, c)
  }

  /** `n` deliveries are `n` reports with a callback and none without. */
  lemma {:induction false} ResentLength(cb: Option<Callback>, c: Change, n: nat)
    ensures |Resent(cb, c, n)| == if cb.Some? then n else 0
  {
    if n > 0 {
      ResentLength(cb, c, n - 1);
    }
  }

  /** One more delivery of the same change extends the log by one more `Resent` step. */
  lemma ResentAgain(cb: Option<Callback>, c: Change, n: nat, log: seq<Change>)
    ensures log + Resent(cb, c, n) + Delivered(cb, c) == log + Resent(cb, c, n + 1)
  {
    assert Resent(cb, c, n + 1) == Resent(cb, c, n) + Delivered(cb, c);
  }

  /**
   * What a dirty check appends: nothing when the first check finds
   * nothing; otherwise `first`, the change it finds, and then `again`
   * once for each further check a NaN keeps finding it.
   */
  function DirtyEntries(cb: Option<Callback>, found: bool, persists: bool, first: Change, again: Change): seq<Change> {
    if !found then [] else Delivered(cb, first) + Resent(cb, again, if persists then MaxDirtyCheckCycles - 1 else 0)
  }

  /**
   * The log after `n` checks that found a change, the first finding
   * `first` and the others `again`: it extends the log before, by one
   * report per check when there is a callback, and by exactly
   * `DirtyEntries` when `n` is the count `dirtyCheck` reaches.
   */
  lemma DirtyLogGrows(cb: Option<Callback>, found: bool, persists: bool, first: Change, again: Change, n: nat, log: seq<Change>, reports: seq<Change>)
    requires n == if !found then 0 else if persists then MaxDirtyCheckCycles else 1
    requires n == 0 ==> reports == log
    requires n > 0 ==> reports == log + Delivered(cb, first) + Resent(cb, again, n - 1)
    ensures log <= reports
    ensures |reports| == |log| + (if cb.Some? then n else 0)
    ensures reports == log + DirtyEntries(cb, found, persists, first, again)
  {
    if n > 0 {
      ResentLength(cb, again, n - 1);
    }
  }

  // ---------------------------------------------------------------------------
  // Compound entries
  // ---------------------------------------------------------------------------

  /** What `open` and `discardChanges` of a path, object or array observer return. */
  function SubValue(objs: map<ObjId, JsObject>, s: Observer): Value
    reads s`value
  {
    if s.kind.PathKind? then PathValue(objs, s.kind.target, s.kind.path) else s.value
  }

  /** The value a compound reads for one entry. */
  function EntryValue(objs: map<ObjId, JsObject>, e: Entry): Value
    reads (if e.ObserverEntry? then {e.sub} else {})`value
  {
    match e
    case PathEntry(t, p) => PathValue(objs, t, p)
    case ObserverEntry(s) => SubValue(objs, s)
  }

  /** The values of a list of entries, position by position. */
  function EntryValues(objs: map<ObjId, JsObject>, es: seq<Entry>): (r: seq<Value>)
    reads (set e | e in es && e.ObserverEntry? :: e.sub)`value
    ensures |r| == |es|
    ensures forall j :: 0 <= j < |es| ==> r[j] == EntryValue(objs, es[j])
  {
    if es == [] then [] else EntryValues(objs, es[..|es| - 1]) + [EntryValue(objs, es[|es| - 1])]
  }

  /**
   * The sparse `oldValues` of a compound's report: the previous value at
   * exactly the positions whose value is not the same value any more.
   */
  function ChangedPositions(before: seq<Value>, now: seq<Value>): (m: map<nat, Value>)
    ensures forall j :: j in m <==> 0 <= j < |now| && !AreSameValue(At(before, j), now[j])
    ensures forall j :: j in m ==> m[j] == At(before, j)
  {
    forall a, b ensures AreSameValue(a, b) <==> a == b {
      AreSameValueIsIdentity(a, b);
    }
    map j | 0 <= j < |now| && At(before, j) != now[j] :: At(before, j)
  }

  /** A vector that holds each entry's value at its position shows no change. */
  lemma SettledVectorUnchanged(values: seq<Value>, now: seq<Value>)
    requires forall j: nat :: j < |now| ==> At(values, j) == now[j]
    ensures ChangedPositions(values, now) == map[]
  {
    forall j: nat | j < |now| ensures AreSameValue(At(values, j), now[j]) {
      AreSameValueIsIdentity(At(values, j), now[j]);
    }
  }

  /** A map holding exactly the changed positions with their old values is `ChangedPositions`. */
  lemma ChangedPositionsDetermined(m: map<nat, Value>, before: seq<Value>, now: seq<Value>)
    requires forall j :: j in m <==> 0 <= j < |now| && At(before, j) != now[j]
    requires forall j :: j in m ==> m[j] == At(before, j)
    ensures m == ChangedPositions(before, now)
  {
    var c := ChangedPositions(before, now);
    forall j: nat | j < |now| ensures j in m <==> j in c {
      AreSameValueIsIdentity(At(before, j), now[j]);
    }
  }

  /** How a compound's `check_` obtains an observed observer's value. */
  datatype SubAction = OpenSub | DiscardSub

  /**
   * The choice as written (dist/aj.js:2038-2040): the observer is opened
   * whenever the compound itself is still UNOPENED, and opening an observer
   * that is already open throws.
   */
  function SubStepAsWritten(compound: State, sub: State): (r: Result<SubAction>)
    ensures r.Throw? <==> compound == Unopened && sub != Unopened
  {
    if compound == Unopened then
      if sub == Unopened then Ok(OpenSub) else Throw("Observer has already been opened.")
    else Ok(DiscardSub)
  }

  /**
   * The corrected choice the model uses: open the observer only while both
   * the compound and the observer are unopened, and otherwise discard its
   * changes. It never opens an open observer, and it agrees with the code
   * as written wherever that does not throw.
   */
  function SubStep(compound: State, sub: State): (r: SubAction)
    ensures r == OpenSub ==> sub == Unopened
    ensures SubStepAsWritten(compound, sub).Ok? ==> SubStepAsWritten(compound, sub).value == r
    ensures compound != Unopened ==> r == DiscardSub
  {
    if compound == Unopened && sub == Unopened then OpenSub else DiscardSub
  }

  /**
   * A compound created with `reportChangesOnOpen` opens each observer as it is
   * added (`AddObserver`); its own `open` then reaches the observer while the
   * compound is still UNOPENED, and the code as written throws.
   */
  lemma ReportOnOpenCompoundThrowsAsWritten(compound: State, sub: State)
    requires compound == Unopened && sub == Opened
    ensures SubStepAsWritten(compound, sub) == Throw("Observer has already been opened.")
    ensures SubStep(compound, sub) == DiscardSub
  {
  }

  /** What a compound's `check_` may change of an observer it observes. */
  datatype SubRecord = SubRecord(value: Value, state: State, callback: Option<Callback>, reports: seq<Change>, valid: bool)

  /** The record of an observer now. */
  ghost function RecordOf(objs: map<ObjId, JsObject>, s: Observer): SubRecord
    reads s`value, s`state, s`callback, s`reports, s`snapshot
  {
    SubRecord(SubValue(objs, s), s.state, s.callback, s.reports, s.Valid())
  }

  /**
   * What a compound's `check_` does to one of its observers, from record
   * `r` to record `r'`: the value and the log stay, a valid observer stays
   * valid; it is opened with the compound's `deliver` when `opening` and it
   * was unopened, and its state and callback stay otherwise.
   */
  predicate StepRecord(r: SubRecord, r': SubRecord, opening: bool) {
    r'.value == r.value && r'.reports == r.reports && (r.valid ==> r'.valid) &&
    if opening && r.state == Unopened then r'.state == Opened && r'.callback == Some(Relay)
    else r'.state == r.state && r'.callback == r.callback
  }

  /**
   * Each observer in `ss` was stepped from what `start` records for it,
   * opened when it is in `opens` (see `StepRecord`).
   */
  ghost predicate Stepped(objs: map<ObjId, JsObject>, ss: set<Observer>, start: map<Observer, SubRecord>, opens: set<Observer>)
    reads ss`value, ss`state, ss`callback, ss`reports, ss`snapshot
  {
    forall s :: s in ss ==> s in start && StepRecord(start[s], RecordOf(objs, s), s in opens)
  }

  /** Always true: the term that lets `AllCalm` speak of one observer. */
  predicate Watched(s: Observer) {
    true
  }

  /**
   * Every observer in `ss` is calm: nothing pending and no NaN. The
   * quantifier is only instantiated for an observer `s` whose `Watched(s)`
   * is mentioned, which keeps it out of the way of proofs that only pass
   * the fact along.
   */
  ghost predicate AllCalm(objs: map<ObjId, JsObject>, ss: set<Observer>)
    reads ss`value, ss`snapshot
  {
    forall s {:trigger Watched(s)} :: Watched(s) && s in ss ==> s.Calm(objs)
  }

  /** The observers in `ss` have the values `vals` records for them (for `Watched`, see `AllCalm`). */
  ghost predicate Agrees(objs: map<ObjId, JsObject>, vals: map<Observer, SubRecord>, ss: set<Observer>)
    reads ss`value
  {
    forall s {:trigger Watched(s)} :: Watched(s) && s in ss ==> s in vals && vals[s].value == SubValue(objs, s)
  }

  /** The values of the entries `es` when each observer has the value `start` records for it. */
  function EntriesOf(objs: map<ObjId, JsObject>, start: map<Observer, SubRecord>, es: seq<Entry>): seq<Value> {
    seq(|es|, j requires 0 <= j < |es| => EntryFrom(objs, start, es[j]))
  }

  /** Each observer in `ss` went from `before` to `after` by a step that opened nothing. */
  predicate StepsBetween(before: map<Observer, SubRecord>, after: map<Observer, SubRecord>, ss: set<Observer>) {
    forall s :: s in ss ==> s in before && s in after && StepRecord(before[s], after[s], false)
  }

  /** The observers among the first `n` entries of `es`. */
  ghost function SubsIn(es: seq<Entry>, n: nat): set<Observer> {
    set j | 0 <= j < n && j < |es| && es[j].ObserverEntry? :: es[j].sub
  }

  /** Pushing an entry adds its observer, if it is one, to the observers among the entries. */
  lemma SubsInPush(es: seq<Entry>, e: Entry)
    ensures SubsIn(es + [e], |es| + 1) == SubsIn(es, |es|) + (if e.ObserverEntry? then {e.sub} else {})
  {
    var es' := es + [e];
    forall s | s in SubsIn(es', |es'|) ensures s in SubsIn(es, |es|) + (if e.ObserverEntry? then {e.sub} else {}) {
      var j :| 0 <= j < |es'| && es'[j].ObserverEntry? && es'[j].sub == s;
      if j < |es| {
        assert es[j] == es'[j];
      }
    }
    forall s | s in SubsIn(es, |es|) ensures s in SubsIn(es', |es'|) {
      var j :| 0 <= j < |es| && es[j].ObserverEntry? && es[j].sub == s;
      assert es'[j] == es[j];
    }
    if e.ObserverEntry? {
      assert es'[|es|] == e;
    }
  }

  /** The value of an entry, with an observer's taken from what it was (`start`). */
  function EntryFrom(objs: map<ObjId, JsObject>, start: map<Observer, SubRecord>, e: Entry): Value {
    match e
    case PathEntry(t, p) => PathValue(objs, t, p)
    case ObserverEntry(s) => if s in start then start[s].value else Undefined
  }

  // ---------------------------------------------------------------------------
  // The engine's global state
  // ---------------------------------------------------------------------------

  /**
   * The process-wide state (dist/aj.js:1612, 1671-1737): the observers the
   * checkpoint visits, the count of open observers, the re-entry flag of the
   * checkpoint, the flag a throwing callback sets, and the next observer id.
   */
  class Runtime {
    var allObservers: seq<Observable>
    var allObserversCount: int
    var runningMicrotaskCheckpoint: bool
    var errorThrownDuringCallback: bool
    var nextObserverId: nat

    constructor ()
      ensures allObservers == [] && allObserversCount == 0
      ensures !runningMicrotaskCheckpoint && !errorThrownDuringCallback && nextObserverId == 1
    {
      allObservers := [];
      allObserversCount := 0;
      runningMicrotaskCheckpoint := false;
      errorThrownDuringCallback := false;
      nextObserverId := 1;
    }

    /**
     * Since the list was `listed` and the count `count`, the list only
     * grew, the count with it, and only when `growing`.
     */
    ghost predicate Listed(listed: seq<Observable>, count: int, growing: bool)
      reads this`allObservers, this`allObserversCount
    {
      listed <= allObservers && allObserversCount == count + |allObservers| - |listed| &&
      (!growing ==> allObservers == listed)
    }

    /** `addToAll` (dist/aj.js:1679-1685). */
    method AddToAll(o: Observable)
      modifies this`allObservers, this`allObserversCount
      ensures allObservers == old(allObservers) + [o]
      ensures allObserversCount == old(allObserversCount) + 1
    {
      allObserversCount := allObserversCount + 1;
      allObservers := allObservers + [o];
    }

    /** `removeFromAll` (dist/aj.js:1687-1689): only the count drops; the checkpoint drops the observer. */
    method RemoveFromAll()
      modifies this`allObserversCount
      ensures allObserversCount == old(allObserversCount) - 1
    {
      allObserversCount := allObserversCount - 1;
    }

    /** `Platform.clearObservers` (dist/aj.js:1733-1737). */
    method ClearObservers()
      modifies this`allObservers
      ensures allObservers == []
    {
      allObservers := [];
    }
  }

  // ---------------------------------------------------------------------------
  // Path, object and array observers
  // ---------------------------------------------------------------------------

  /**
   * A path, object or array observer (dist/aj.js:1614-1668, 1739-1931).
   * `value` is `value_` (the watched object, or the path's last value) and
   * `snapshot` the `oldObject_` of an object or array observer.
   */
  class Observer {
    const id: nat
    const kind: Kind
    var state: State
    var callback: Option<Callback>
    var value: Value
    var snapshot: Option<JsObject>
    var reports: seq<Change>

    /** Only a compound resets, and an open object or array observer holds its snapshot. */
    ghost predicate Valid()
      reads this`state, this`snapshot
    {
      state != Resetting && (!kind.PathKind? && state == Opened ==> snapshot.Some?)
    }

    /** A new, unopened observer with no callback, no snapshot and an empty log. */
    ghost predicate Fresh()
      reads this
    {
      state == Unopened && callback == None && snapshot == None && reports == []
    }

    /** The snapshot, or `{}` when there is none. */
    function Before(): JsObject
      reads this`snapshot
    {
      if snapshot.Some? then snapshot.value else Plain(map[])
    }

    /** What `check_` would find now: a value that is not the same value, a non-empty diff, or splices. */
    ghost predicate HasChanges(objs: map<ObjId, JsObject>)
      reads this`value, this`snapshot
    {
      match kind
      case PathKind(target, path) => !AreSameValue(PathValue(objs, target, path), value)
      case ObjectKind => !DiffIsEmpty(ObjectDiff(ViewOf(CopyObject(objs, value)), ViewOf(Before())))
      case ArrayKind => ArraySplice.Splices(ElemsOf(objs, value), Elements(Before())) != []
    }

    /** What `check_` would report now. */
    ghost function Pending(objs: map<ObjId, JsObject>): Change
      reads this
    {
      match kind
      case PathKind(target, path) => PathChange(PathValue(objs, target, path), value)
      case ObjectKind => ObjectChange(ObjectDiff(ViewOf(CopyObject(objs, value)), ViewOf(Before())), ViewOf(Before()))
      case ArrayKind => ArrayChange(ArraySplice.Splices(ElemsOf(objs, value), Elements(Before())))
    }

    /**
     * Changes that taking a new baseline cannot clear: a NaN in the watched
     * object or array, which `===` never finds equal to its copy.
     */
    ghost predicate ChangesPersist(objs: map<ObjId, JsObject>)
      reads this`value
    {
      match kind
      case PathKind(_, _) => false
      case ObjectKind => HoldsNaN(ViewOf(CopyObject(objs, value)))
      case ArrayKind => NaN in ElemsOf(objs, value)
    }

    /** Nothing pending and no NaN to keep a change alive. */
    ghost predicate Calm(objs: map<ObjId, JsObject>)
      reads this`value, this`snapshot
    {
      !HasChanges(objs) && !ChangesPersist(objs)
    }

    /**
     * The baseline is the current state: a path observer holds the path's
     * value, an object or array observer a copy of its object.
     */
    ghost predicate Baseline(objs: map<ObjId, JsObject>)
      reads this`value, this`snapshot
    {
      match kind
      case PathKind(target, path) => value == PathValue(objs, target, path)
      case ObjectKind => snapshot == Some(CopyObject(objs, value))
      case ArrayKind => snapshot == Some(CopyArray(objs, value))
    }

    /**
     * What `check_` reports against a fresh baseline: the path's value
     * against itself, or the object or array against its own copy.
     */
    ghost function Recurring(objs: map<ObjId, JsObject>): Change
      reads this`value
    {
      match kind
      case PathKind(target, path) => PathChange(PathValue(objs, target, path), PathValue(objs, target, path))
      case ObjectKind => ObjectChange(ObjectDiff(ViewOf(CopyObject(objs, value)), ViewOf(CopyObject(objs, value))), ViewOf(CopyObject(objs, value)))
      case ArrayKind => ArrayChange(ArraySplice.Splices(ElemsOf(objs, value), Elements(CopyArray(objs, value))))
    }

    /**
     * What `deliver` appends to the log: nothing unless the observer is open
     * and finds a change; otherwise the pending change, then the recurring
     * one for every further check that a NaN keeps finding it.
     */
    ghost function DirtyLog(objs: map<ObjId, JsObject>): seq<Change>
      reads this
    {
      if state != Opened then []
      else DirtyEntries(callback, HasChanges(objs), ChangesPersist(objs), Pending(objs), Recurring(objs))
    }

    /** Against a fresh baseline the change pending is the recurring one. */
    lemma BaselinePendingRecurs(objs: map<ObjId, JsObject>)
      requires Baseline(objs)
      ensures Pending(objs) == Recurring(objs)
    {
    }

    /**
     * Against a fresh baseline `check_` finds a change exactly when a NaN
     * keeps one alive: never for a path, and for an object or array exactly
     * when it holds NaN.
     */
    lemma BaselineLeavesOnlyPersistentChanges(objs: map<ObjId, JsObject>)
      requires Baseline(objs)
      ensures HasChanges(objs) <==> ChangesPersist(objs)
    {
      match kind {
        case PathKind(target, path) =>
          AreSameValueIsIdentity(PathValue(objs, target, path), value);
        case ObjectKind =>
          ViewOfWellFormed(CopyObject(objs, value));
          SnapshotDiffEmptyIffNoNaN(ViewOf(CopyObject(objs, value)));
        case ArrayKind =>
          ArraySnapshotSplicesIffNaN(ElemsOf(objs, value));
      }
    }

    /** `new PathObserver(object, path)` (dist/aj.js:1883-1889), given the path `getPath` returns. */
    constructor PathObserver(rt: Runtime, target: Value, path: Path)
      modifies rt`nextObserverId
      ensures id == old(rt.nextObserverId) && rt.nextObserverId == id + 1
      ensures kind == PathKind(target, path) && value == Undefined && Fresh()
    {
      id := rt.nextObserverId;
      kind := PathKind(target, path);
      state := Unopened;
      callback := None;
      value := Undefined;
      snapshot := None;
      reports := [];
      new;
      rt.nextObserverId := rt.nextObserverId + 1;
    }

    /** `new ObjectObserver(object)` (dist/aj.js:1739-1743). */
    constructor ObjectObserver(rt: Runtime, target: Value)
      modifies rt`nextObserverId
      ensures id == old(rt.nextObserverId) && rt.nextObserverId == id + 1
      ensures kind == ObjectKind && value == target && Fresh()
    {
      id := rt.nextObserverId;
      kind := ObjectKind;
      state := Unopened;
      callback := None;
      value := target;
      snapshot := None;
      reports := [];
      new;
      rt.nextObserverId := rt.nextObserverId + 1;
    }

    /** The object-observer part of `new ArrayObserver(array)` (dist/aj.js:1832-1836), once the array test passed. */
    constructor ArrayObserver(rt: Runtime, arr: Value)
      modifies rt`nextObserverId
      ensures id == old(rt.nextObserverId) && rt.nextObserverId == id + 1
      ensures kind == ArrayKind && value == arr && Fresh()
    {
      id := rt.nextObserverId;
      kind := ArrayKind;
      state := Unopened;
      callback := None;
      value := arr;
      snapshot := None;
      reports := [];
      new;
      rt.nextObserverId := rt.nextObserverId + 1;
    }

    /**
     * `new ArrayObserver(array)` (dist/aj.js:1832-1836): throws, before an id
     * is taken, when the argument is not an array.
     */
    static method NewArrayObserver(rt: Runtime, objs: map<ObjId, JsObject>, arr: Value) returns (r: Result<Observer>)
      modifies rt`nextObserverId
      ensures !IsArray(objs, arr) ==> r == Throw("Provided object is not an Array") && rt.nextObserverId == old(rt.nextObserverId)
      ensures IsArray(objs, arr) ==> r.Ok? && fresh(r.value) && r.value.kind == ArrayKind && r.value.value == arr && r.value.Fresh()
      ensures IsArray(objs, arr) ==> r.value.id == old(rt.nextObserverId) && rt.nextObserverId == old(rt.nextObserverId) + 1
    {
      if !IsArray(objs, arr) {
        return Throw("Provided object is not an Array");
      }
      var o := new Observer.ArrayObserver(rt, arr);
      r := Ok(o);
    }

    /**
     * `report_` (dist/aj.js:1655-1663): the callback is called with the
     * change; an exception it raises (also the one from calling a missing
     * callback) is caught and only sets `_errorThrownDuringCallback`.
     */
    method Report(rt: Runtime, c: Change)
      modifies this`reports, rt`errorThrownDuringCallback
      ensures reports == old(reports) + Delivered(callback, c)
      ensures rt.errorThrownDuringCallback == (old(rt.errorThrownDuringCallback) || Raises(callback))
    {
      if callback.Some? {
        reports := reports + [c];
      }
      if Raises(callback) {
        rt.errorThrownDuringCallback := true;
      }
    }

    /**
     * `check_` of a PathObserver (dist/aj.js:1918-1926): the new value is
     * always stored; it is reported with the old one, and `check_` returns
     * true, only when changes are not skipped and the two are not
     * `areSameValue` (which in this value model is identity).
     */
    method CheckPath(rt: Runtime, objs: map<ObjId, JsObject>, skipChanges: bool) returns (changed: bool)
      requires kind.PathKind?
      modifies this`value, this`reports, rt`errorThrownDuringCallback
      ensures value == PathValue(objs, kind.target, kind.path)
      ensures changed <==> !skipChanges && !AreSameValue(value, old(value))
      ensures reports == old(reports) + (if changed then Delivered(callback, PathChange(value, old(value))) else [])
      ensures rt.errorThrownDuringCallback == (old(rt.errorThrownDuringCallback) || (changed && Raises(callback)))
    {
      var oldValue := value;
      value := kind.path.GetValueFrom(objs, kind.target);
      if skipChanges || AreSameValue(value, oldValue) {
        return false;
      }
      Report(rt, PathChange(value, oldValue));
      changed := true;
    }

    /**
     * `check_` of an ObjectObserver (dist/aj.js:1770-1801): an empty diff
     * against the snapshot returns false and changes nothing; otherwise the
     * object is snapshotted again and the diff is reported with the old
     * snapshot (the `oldValue` getter reads it).
     */
    method CheckObject(rt: Runtime, objs: map<ObjId, JsObject>) returns (changed: bool)
      requires kind.ObjectKind? && snapshot.Some?
      modifies this`snapshot, this`reports, rt`errorThrownDuringCallback
      ensures changed <==> !DiffIsEmpty(ObjectDiff(ViewOf(CopyObject(objs, value)), ViewOf(old(snapshot).value)))
      ensures snapshot == if changed then Some(CopyObject(objs, value)) else old(snapshot)
      ensures reports == old(reports) +
        (if changed then Delivered(callback, ObjectChange(ObjectDiff(ViewOf(CopyObject(objs, value)), ViewOf(old(snapshot).value)), ViewOf(old(snapshot).value))) else [])
      ensures rt.errorThrownDuringCallback == (old(rt.errorThrownDuringCallback) || (changed && Raises(callback)))
    {
      var oldObject := ViewOf(snapshot.value);
      var diff := DiffObjectFromOldObject(ViewOf(CopyObject(objs, value)), oldObject);
      if DiffIsEmpty(diff) {
        return false;
      }
      snapshot := Some(CopyObject(objs, value));
      Report(rt, ObjectChange(diff, oldObject));
      changed := true;
    }

    /**
     * `check_` of an ArrayObserver (dist/aj.js:1848-1867): the splices from the
     * snapshot to the array; none returns false and changes nothing, otherwise
     * the array is copied again and the splices are reported.
     */
    method CheckArray(rt: Runtime, objs: map<ObjId, JsObject>) returns (changed: bool)
      requires kind.ArrayKind? && snapshot.Some?
      modifies this`snapshot, this`reports, rt`errorThrownDuringCallback
      ensures changed <==> ArraySplice.Splices(ElemsOf(objs, value), Elements(old(snapshot).value)) != []
      ensures snapshot == if changed then Some(CopyArray(objs, value)) else old(snapshot)
      ensures reports == old(reports) +
        (if changed then Delivered(callback, ArrayChange(ArraySplice.Splices(ElemsOf(objs, value), Elements(old(snapshot).value)))) else [])
      ensures rt.errorThrownDuringCallback == (old(rt.errorThrownDuringCallback) || (changed && Raises(callback)))
    {
      var cur := ElemsOf(objs, value);
      var prev := Elements(snapshot.value);
      var splices := ArraySplice.CalcSplices(cur, 0, |cur|, prev, 0, |prev|);
      if |splices| == 0 {
        return false;
      }
      snapshot := Some(CopyArray(objs, value));
      Report(rt, ArrayChange(splices));
      changed := true;
    }

    /**
     * `check_` as the checkpoint and `dirtyCheck` call it, on an open
     * observer: it finds exactly the changes `HasChanges` describes, reports
     * them and then holds the new baseline; finding none it changes nothing.
     */
    method Check(rt: Runtime, objs: map<ObjId, JsObject>) returns (changed: bool)
      requires Valid() && state == Opened
      modifies this`value, this`snapshot, this`reports, rt`errorThrownDuringCallback
      ensures changed <==> old(HasChanges(objs))
      ensures changed ==> Baseline(objs)
      ensures !changed ==> value == old(value) && snapshot == old(snapshot)
      ensures !kind.PathKind? ==> value == old(value)
      ensures Valid()
      ensures reports == old(reports) + (if changed then Delivered(callback, old(Pending(objs))) else [])
      ensures rt.errorThrownDuringCallback == (old(rt.errorThrownDuringCallback) || (changed && Raises(callback)))
    {
      match kind {
        case PathKind(target, path) =>
          AreSameValueIsIdentity(PathValue(objs, target, path), value);
          changed := CheckPath(rt, objs, false);
        case ObjectKind =>
          changed := CheckObject(rt, objs);
        case ArrayKind =>
          changed := CheckArray(rt, objs);
      }
    }

    /**
     * The loop of `dirtyCheck` (dist/aj.js:1349-1351): `check_` until it
     * finds nothing, at most `MAX_DIRTY_CHECK_CYCLES` times, counting the
     * checks that found a change. The first reports the change pending,
     * each later one the change a NaN keeps alive.
     */
    method CheckWhileChanged(rt: Runtime, objs: map<ObjId, JsObject>) returns (cycles: nat)
      requires Valid() && state == Opened
      modifies this`value, this`snapshot, this`reports, rt`errorThrownDuringCallback
      ensures cycles == if !old(HasChanges(objs)) then 0 else if old(ChangesPersist(objs)) then MaxDirtyCheckCycles else 1
      ensures cycles > 0 ==> Baseline(objs) && reports == old(reports) + Delivered(callback, old(Pending(objs))) + Resent(callback, Recurring(objs), cycles - 1)
      ensures cycles == 0 ==> value == old(value) && snapshot == old(snapshot) && reports == old(reports)
      ensures Valid() && (!kind.PathKind? ==> value == old(value))
      ensures rt.errorThrownDuringCallback == (old(rt.errorThrownDuringCallback) || (cycles > 0 && Raises(callback)))
    {
      ghost var persists, log, pending := ChangesPersist(objs), reports, Pending(objs);
      var c := Check(rt, objs);
      if !c {
        return 0;
      }
      ghost var first, recurring := reports, Recurring(objs);
      assert first == log + Delivered(callback, pending);
      cycles := 1;
      while cycles < MaxDirtyCheckCycles
        invariant 1 <= cycles <= MaxDirtyCheckCycles && Valid() && Baseline(objs)
        invariant !kind.PathKind? ==> value == old(value)
        invariant cycles > 1 ==> persists
        invariant Recurring(objs) == recurring
        invariant reports == first + Resent(callback, recurring, cycles - 1)
        invariant rt.errorThrownDuringCallback == (old(rt.errorThrownDuringCallback) || Raises(callback))
        decreases MaxDirtyCheckCycles - cycles
      {
        BaselineLeavesOnlyPersistentChanges(objs);
        BaselinePendingRecurs(objs);
        ResentAgain(callback, recurring, cycles - 1, first);
        assert Pending(objs) == recurring;
        c := Check(rt, objs);
        if !c {
          break;
        }
        cycles := cycles + 1;
      }
    }

    /**
     * `dirtyCheck` (dist/aj.js:1348-1357): the checks above, reporting
     * whether any found a change. Unless a NaN keeps a change alive the
     * second check finds nothing, so the count is 0 or 1, and 1000 with a
     * NaN; the log grows by exactly what `DirtyLog` describes.
     */
    method DirtyCheck(rt: Runtime, objs: map<ObjId, JsObject>) returns (changed: bool, cycles: nat)
      requires Valid() && state == Opened
      modifies this`value, this`snapshot, this`reports, rt`errorThrownDuringCallback
      ensures cycles == if !old(HasChanges(objs)) then 0 else if old(ChangesPersist(objs)) then MaxDirtyCheckCycles else 1
      ensures changed <==> cycles > 0
      ensures |reports| == |old(reports)| + (if callback.Some? then cycles else 0)
      ensures old(reports) <= reports
      ensures cycles > 0 ==> reports == old(reports) + Delivered(callback, old(Pending(objs))) + Resent(callback, Recurring(objs), cycles - 1)
      ensures reports == old(reports) + old(DirtyLog(objs))
      ensures cycles > 0 ==> Baseline(objs)
      ensures cycles == 0 ==> value == old(value) && snapshot == old(snapshot) && reports == old(reports)
      ensures Valid() && (!kind.PathKind? ==> value == old(value))
      ensures rt.errorThrownDuringCallback == (old(rt.errorThrownDuringCallback) || (cycles > 0 && Raises(callback)))
    {
      ghost var log, pending, recurring := reports, Pending(objs), Recurring(objs);
      ghost var found, persists := HasChanges(objs), ChangesPersist(objs);
      cycles := CheckWhileChanged(rt, objs);
      changed := cycles > 0;
      DirtyLogGrows(callback, found, persists, pending, Recurring(objs), cycles, log, reports);
    }

    /** `deliver` (dist/aj.js:1648-1653, 1812-1820): a dirty check, on an open observer only. */
    method Deliver(rt: Runtime, objs: map<ObjId, JsObject>) returns (cycles: nat)
      requires Valid()
      modifies this`value, this`snapshot, this`reports, rt`errorThrownDuringCallback
      ensures old(state) != Opened ==> cycles == 0 && unchanged(this) && unchanged(rt)
      ensures old(state) == Opened ==>
        cycles == (if !old(HasChanges(objs)) then 0 else if old(ChangesPersist(objs)) then MaxDirtyCheckCycles else 1)
      ensures |reports| == |old(reports)| + (if callback.Some? then cycles else 0)
      ensures old(reports) <= reports
      ensures cycles > 0 ==> reports == old(reports) + Delivered(callback, old(Pending(objs))) + Resent(callback, Recurring(objs), cycles - 1)
      ensures reports == old(reports) + old(DirtyLog(objs))
      ensures Valid() && (cycles > 0 ==> Baseline(objs))
      ensures cycles == 0 ==> value == old(value) && snapshot == old(snapshot) && reports == old(reports)
      ensures rt.errorThrownDuringCallback == (old(rt.errorThrownDuringCallback) || (cycles > 0 && Raises(callback)))
    {
      if state != Opened {
        return 0;
      }
      var _, n := DirtyCheck(rt, objs);
      cycles := n;
    }

    /**
     * `discardChanges` (dist/aj.js:1665-1668, 1822-1829): the observer takes
     * the current state as its baseline without reporting and returns its
     * value. It does not look at the observer's state.
     */
    method DiscardChanges(rt: Runtime, objs: map<ObjId, JsObject>) returns (v: Value)
      modifies this`value, this`snapshot, this`reports, rt`errorThrownDuringCallback
      ensures v == value && Baseline(objs)
      ensures reports == old(reports) && rt.errorThrownDuringCallback == old(rt.errorThrownDuringCallback)
      ensures !kind.PathKind? ==> value == old(value)
    {
      match kind {
        case PathKind(_, _) =>
          var _ := CheckPath(rt, objs, true);
        case ObjectKind =>
          snapshot := Some(CopyObject(objs, value));
        case ArrayKind =>
          snapshot := Some(CopyArray(objs, value));
      }
      v := value;
    }

    /**
     * `open` (dist/aj.js:1624-1634) with `connect_` (dist/aj.js:1750-1758,
     * 1898-1903), which takes the baseline exactly as `discardChanges` does:
     * an observer opens once; it joins the observers the checkpoint visits,
     * keeps its callback, takes its first baseline without reporting and
     * returns its value.
     */
    method Open(rt: Runtime, objs: map<ObjId, JsObject>, cb: Option<Callback>) returns (r: Result<Value>)
      modifies this`state, this`callback, this`value, this`snapshot, this`reports
      modifies rt`allObservers, rt`allObserversCount, rt`errorThrownDuringCallback
      ensures old(state) != Unopened ==> r == Throw("Observer has already been opened.") && unchanged(this) && unchanged(rt)
      ensures old(state) == Unopened ==>
        r == Ok(value) && state == Opened && callback == cb && Valid() && Baseline(objs) &&
        rt.allObservers == old(rt.allObservers) + [Single(this)] && rt.allObserversCount == old(rt.allObserversCount) + 1
      ensures reports == old(reports) && rt.errorThrownDuringCallback == old(rt.errorThrownDuringCallback)
      ensures !kind.PathKind? ==> value == old(value)
    {
      if state != Unopened {
        return Throw("Observer has already been opened.");
      }
      rt.AddToAll(Single(this));
      callback := cb;
      var _ := DiscardChanges(rt, objs);
      state := Opened;
      r := Ok(value);
    }

    /**
     * `close` (dist/aj.js:1636-1646) with `disconnect_` (dist/aj.js:1803-1810,
     * 1905-1912): an open observer leaves the count of open observers, drops
     * its snapshot, value and callback and is CLOSED for good; closing an
     * observer that is not open does nothing.
     */
    method Close(rt: Runtime)
      modifies this`state, this`callback, this`value, this`snapshot, rt`allObserversCount
      ensures old(state) != Opened ==> unchanged(this) && unchanged(rt)
      ensures old(state) == Opened ==>
        state == Closed && value == Undefined && callback == None &&
        snapshot == (if kind.PathKind? then old(snapshot) else None) &&
        rt.allObserversCount == old(rt.allObserversCount) - 1
      ensures old(Valid()) ==> Valid()
    {
      if state != Opened {
        return;
      }
      rt.RemoveFromAll();
      match kind {
        case PathKind(_, _) =>
          value := Undefined;
        case _ =>
          snapshot := None;
      }
      value := Undefined;
      callback := None;
      state := Closed;
    }

    /**
     * `setValue` of a PathObserver (dist/aj.js:1928-1931): writes through the
     * path into the object; the observer itself is unchanged.
     */
    method SetValue(h: Heap, newValue: Value)
      requires kind.PathKind?
      modifies h
      ensures h.objs == PathWrite(old(h.objs), kind.target, kind.path, newValue) && h.next == old(h.next)
    {
      var _ := kind.path.SetValueFrom(h, kind.target, newValue);
    }
  }

  /** What `setValueFrom` makes of the objects: the last key written in the object the path reaches, if any. */
  function PathWrite(objs: map<ObjId, JsObject>, target: Value, path: Path, v: Value): map<ObjId, JsObject> {
    if path.valid && |path.keys| > 0 && SetTarget(objs, target, path.keys).Some?
    then SetProperty(objs, SetTarget(objs, target, path.keys).value, path.keys[|path.keys| - 1], v)
    else objs
  }

  // ---------------------------------------------------------------------------
  // Compound observers
  // ---------------------------------------------------------------------------

  /**
   * A CompoundObserver (dist/aj.js:1934-2065): `observed` holds its entries,
   * `values` its vector `value_`, with one position per entry.
   */
  class CompoundObserver {
    const id: nat
    const reportChangesOnOpen: bool
    var state: State
    var callback: Option<Callback>
    var values: seq<Value>
    var observed: seq<Entry>
    var reports: seq<Change>
    ghost var subs: set<Observer>

    ghost predicate Valid() reads this`observed, this`subs {
      subs == SubsBefore(|observed|)
    }

    /** The observers among the first `n` entries. */
    ghost function SubsBefore(n: nat): set<Observer>
      reads this`observed
    {
      SubsIn(observed, n)
    }

    /** The observers among the first `i + 1` entries: those among the first `i`, and entry `i`'s. */
    lemma SubsBeforeNext(i: nat)
      requires i < |observed|
      ensures forall s :: s in SubsBefore(i + 1) <==>
        s in SubsBefore(i) || (observed[i].ObserverEntry? && s == observed[i].sub)
      ensures observed[i].ObserverEntry? ==> observed[i].sub in SubsBefore(|observed|)
    {
      if observed[i].ObserverEntry? {
        assert observed[i].sub in SubsBefore(|observed|);
      }
    }

    /** Every observer among the entries is one of `subs`. */
    lemma SubsCoverEntries()
      requires Valid()
      ensures forall e :: e in observed && e.ObserverEntry? ==> e.sub in subs
    {
      forall e | e in observed && e.ObserverEntry? ensures e.sub in subs {
        var j :| 0 <= j < |observed| && observed[j] == e;
        SubsBeforeNext(j);
      }
    }

    /** The values the compound reads for its entries, position by position. */
    ghost function Entries(objs: map<ObjId, JsObject>): (r: seq<Value>)
      requires Valid()
      reads this`observed, this`subs, subs`value
    {
      SubsCoverEntries();
      EntryValues(objs, observed)
    }

    /** What the observers the compound observes are now. */
    ghost function Records(objs: map<ObjId, JsObject>): map<Observer, SubRecord>
      reads this`subs, subs`value, subs`state, subs`callback, subs`reports, subs`snapshot
    {
      map s | s in subs :: RecordOf(objs, s)
    }

    /** `value_`: the vector until `close` sets it to undefined. */
    function CurrentValue(): VectorValue
      reads this`state, this`values
    {
      if state == Closed then ClosedVector else Vector(values)
    }

    /** What `check_` would find now: a position whose value is not the same value. */
    ghost predicate HasChanges(objs: map<ObjId, JsObject>)
      requires Valid()
      reads this`values, this`observed, this`subs, subs`value
    {
      ChangedPositions(values, Entries(objs)) != map[]
    }

    /** The baseline is the current state: each position holds its entry's value. */
    ghost predicate Baseline(objs: map<ObjId, JsObject>)
      requires Valid()
      reads this`values, this`observed, this`subs, subs`value
    {
      forall j: nat :: j < |observed| ==> At(values, j) == Entries(objs)[j]
    }

    /** Against a fresh baseline `check_` finds no change: no value of a compound is NaN-like to itself. */
    lemma BaselineShowsNoChange(objs: map<ObjId, JsObject>)
      requires Valid()
      requires Baseline(objs)
      ensures !HasChanges(objs)
    {
      SettledVectorUnchanged(values, Entries(objs));
    }

    /** A new, unopened compound with no callback, no entries, an empty vector and an empty log. */
    ghost predicate Fresh()
      reads this
    {
      state == Unopened && callback == None && values == [] && observed == [] && reports == []
    }

    /** `new CompoundObserver(reportChangesOnOpen)` (dist/aj.js:1934-1941). */
    constructor (rt: Runtime, reportChangesOnOpen: bool)
      modifies rt`nextObserverId
      ensures id == old(rt.nextObserverId) && rt.nextObserverId == id + 1
      ensures this.reportChangesOnOpen == reportChangesOnOpen && Fresh() && Valid()
    {
      id := rt.nextObserverId;
      this.reportChangesOnOpen := reportChangesOnOpen;
      state := Unopened;
      callback := None;
      values := [];
      observed := [];
      reports := [];
      subs := {};
      new;
      rt.nextObserverId := rt.nextObserverId + 1;
    }

    /** `report_` (dist/aj.js:1655-1663), as for the other observers. */
    method Report(rt: Runtime, c: Change)
      modifies this`reports, rt`errorThrownDuringCallback
      ensures reports == old(reports) + Delivered(callback, c)
      ensures rt.errorThrownDuringCallback == (old(rt.errorThrownDuringCallback) || Raises(callback))
    {
      if callback.Some? {
        reports := reports + [c];
      }
      if Raises(callback) {
        rt.errorThrownDuringCallback := true;
      }
    }

    /**
     * How `check_` reads an observer entry (dist/aj.js:2036-2040): by opening
     * the observer with the compound's `deliver` as callback, or by
     * discarding its changes, as `SubStep` chooses. Either way the value is
     * the one the entry had, and the observers in `calm` stay calm: the new
     * baseline of one that was calm leaves it nothing to report.
     */
    method ReadSub(rt: Runtime, objs: map<ObjId, JsObject>, sub: Observer, ghost calm: set<Observer>) returns (v: Value)
      requires AllCalm(objs, calm)
      modifies rt`allObservers, rt`allObserversCount, rt`errorThrownDuringCallback
      modifies sub`state, sub`callback, sub`value, sub`snapshot, sub`reports
      ensures v == old(SubValue(objs, sub))
      ensures StepRecord(old(RecordOf(objs, sub)), RecordOf(objs, sub), SubStep(state, old(sub.state)) == OpenSub)
      ensures AllCalm(objs, calm)
      ensures rt.errorThrownDuringCallback == old(rt.errorThrownDuringCallback)
      ensures SubStep(state, old(sub.state)) == OpenSub ==>
        rt.allObservers == old(rt.allObservers) + [Single(sub)] && rt.allObserversCount == old(rt.allObserversCount) + 1
      ensures SubStep(state, old(sub.state)) == DiscardSub ==>
        rt.allObservers == old(rt.allObservers) && rt.allObserversCount == old(rt.allObserversCount)
    {
      ghost var persists := sub.ChangesPersist(objs);
      assert Watched(sub);
      if SubStep(state, sub.state) == OpenSub {
        var r := sub.Open(rt, objs, Some(Relay));
        v := r.value;
      } else {
        v := sub.DiscardChanges(rt, objs);
      }
      assert sub.ChangesPersist(objs) == persists;
      sub.BaselineLeavesOnlyPersistentChanges(objs);
    }

    /** The observers opened by the first `i` entries of `check_`: none unless the compound is unopened. */
    ghost function OpensBefore(i: nat): set<Observer>
      reads this`state, this`observed
    {
      if state == Unopened then SubsBefore(i) else {}
    }

    /** The observers `check_` opens: all it observes while the compound is unopened, none after. */
    ghost function CheckOpens(): set<Observer>
      reads this`state, this`subs
    {
      if state == Unopened then subs else {}
    }

    /** Entry `i` of `check_` (dist/aj.js:2033-2043): a path is read from its object, an observer by `ReadSub`. */
    method ReadEntryAt(rt: Runtime, objs: map<ObjId, JsObject>, i: nat,
                       ghost start: map<Observer, SubRecord>, ghost listed: seq<Observable>, ghost count: int,
                       ghost calm: set<Observer>) returns (v: Value)
      requires Valid() && i < |observed|
      requires Stepped(objs, subs, start, OpensBefore(i)) && rt.Listed(listed, count, state == Unopened)
      requires AllCalm(objs, calm)
      modifies rt`allObservers, rt`allObserversCount, rt`errorThrownDuringCallback, subs
      ensures Stepped(objs, subs, start, OpensBefore(i + 1)) && rt.Listed(listed, count, state == Unopened)
      ensures AllCalm(objs, calm)
      ensures v == EntryFrom(objs, start, observed[i])
      ensures rt.errorThrownDuringCallback == old(rt.errorThrownDuringCallback)
    {
      SubsBeforeNext(i);
      match observed[i] {
        case PathEntry(t, p) =>
          v := p.GetValueFrom(objs, t);
        case ObserverEntry(sub) =>
          v := ReadSub(rt, objs, sub, calm);
      }
    }

    /** Each observer observed is as recorded, none of them stepped. */
    lemma RecordsStepped(objs: map<ObjId, JsObject>)
      ensures Stepped(objs, subs, Records(objs), {})
    {
    }

    /**
     * What the compound reads follows from the values recorded for the
     * observers it observes: stepping an observer keeps its value.
     */
    lemma EntriesFromRecords(objs: map<ObjId, JsObject>, start: map<Observer, SubRecord>, opens: set<Observer>)
      requires Valid() && Stepped(objs, subs, start, opens)
      ensures Entries(objs) == EntriesOf(objs, start, observed)
    {
      forall j | 0 <= j < |observed| ensures Entries(objs)[j] == EntriesOf(objs, start, observed)[j] {
        if observed[j].ObserverEntry? {
          SubsBeforeNext(j);
        }
      }
    }

    /** What the compound reads follows from the values `vals` holds for the observers it observes. */
    lemma EntriesFromValues(objs: map<ObjId, JsObject>, vals: map<Observer, SubRecord>)
      requires Valid() && Agrees(objs, vals, subs)
      ensures Entries(objs) == EntriesOf(objs, vals, observed)
    {
      forall j | 0 <= j < |observed| ensures Entries(objs)[j] == EntriesOf(objs, vals, observed)[j] {
        if observed[j].ObserverEntry? {
          SubsBeforeNext(j);
          assert Watched(observed[j].sub);
        }
      }
    }

    /**
     * The loop of `check_` (dist/aj.js:2032-2056): every entry is read
     * (`ReadEntryAt`). With `skipChanges` each value is taken as the new
     * baseline; otherwise the positions whose value is not the same value
     * take the new one and are returned with their old values.
     */
    method ReadEntries(rt: Runtime, objs: map<ObjId, JsObject>, skipChanges: bool, ghost start: map<Observer, SubRecord>,
                       ghost calm: set<Observer>)
      returns (vals: seq<Value>, oldValues: map<nat, Value>)
      requires Valid() && Stepped(objs, subs, start, {}) && AllCalm(objs, calm)
      modifies rt`allObservers, rt`allObserversCount, rt`errorThrownDuringCallback, subs
      ensures forall j: nat :: j < |observed| ==> At(vals, j) == EntriesOf(objs, start, observed)[j]
      ensures forall j: nat :: j >= |observed| ==> At(vals, j) == At(values, j)
      ensures oldValues == if skipChanges then map[] else ChangedPositions(values, EntriesOf(objs, start, observed))
      ensures !skipChanges && oldValues == map[] ==> vals == values
      ensures rt.errorThrownDuringCallback == old(rt.errorThrownDuringCallback)
      ensures Stepped(objs, subs, start, CheckOpens()) && AllCalm(objs, calm)
      ensures rt.Listed(old(rt.allObservers), old(rt.allObserversCount), state == Unopened)
    {
      ghost var expected := EntriesOf(objs, start, observed);
      assert OpensBefore(0) == {};
      vals := values;
      oldValues := map[];
      var i := 0;
      while i < |observed|
        invariant 0 <= i <= |observed|
        invariant forall j: nat :: j < i ==> At(vals, j) == expected[j]
        invariant forall j: nat :: j >= i ==> At(vals, j) == At(values, j)
        invariant forall j :: j in oldValues <==> !skipChanges && 0 <= j < i && At(values, j) != expected[j]
        invariant forall j :: j in oldValues ==> oldValues[j] == At(values, j)
        invariant !skipChanges && oldValues == map[] ==> vals == values
        invariant rt.errorThrownDuringCallback == old(rt.errorThrownDuringCallback)
        invariant Stepped(objs, subs, start, OpensBefore(i)) && AllCalm(objs, calm)
        invariant rt.Listed(old(rt.allObservers), old(rt.allObserversCount), state == Unopened)
        decreases |observed| - i
      {
        var v := ReadEntryAt(rt, objs, i, start, old(rt.allObservers), old(rt.allObserversCount), calm);
        AreSameValueIsIdentity(v, At(vals, i));
        if skipChanges {
          vals := SetAt(vals, i, v);
        } else if !AreSameValue(v, At(vals, i)) {
          oldValues := oldValues[i := At(vals, i)];
          vals := SetAt(vals, i, v);
        }
        i := i + 1;
      }
      if !skipChanges {
        ChangedPositionsDetermined(oldValues, values, expected);
      }
    }

    /**
     * The end of `check_` (dist/aj.js:2058-2064): the new vector becomes the
     * baseline and, when some position changed, is reported with the old
     * values of those positions.
     */
    method Publish(rt: Runtime, vals: seq<Value>, oldValues: map<nat, Value>, ghost objs: map<ObjId, JsObject>, ghost calm: set<Observer>,
                   ghost start: map<Observer, SubRecord>)
      returns (changed: bool)
      requires AllCalm(objs, calm) && Stepped(objs, subs, start, CheckOpens())
      modifies this`values, this`reports, rt`errorThrownDuringCallback
      ensures AllCalm(objs, calm) && Stepped(objs, subs, start, CheckOpens())
      ensures values == vals && changed == (oldValues != map[])
      ensures reports == old(reports) + (if changed then Delivered(callback, CompoundChange(vals, oldValues)) else [])
      ensures rt.errorThrownDuringCallback == (old(rt.errorThrownDuringCallback) || (changed && Raises(callback)))
    {
      values := vals;
      changed := oldValues != map[];
      if changed {
        Report(rt, CompoundChange(vals, oldValues));
      }
    }

    /**
     * `check_` (dist/aj.js:2030-2065): the entries are read (`ReadEntries`);
     * when some position changed, the new vector is reported with the old
     * values of exactly those positions. The observers in `calm` stay calm.
     */
    method Check(rt: Runtime, objs: map<ObjId, JsObject>, skipChanges: bool, ghost calm: set<Observer>) returns (changed: bool)
      requires Valid() && AllCalm(objs, calm)
      modifies this`values, this`reports, rt`allObservers, rt`allObserversCount, rt`errorThrownDuringCallback, subs
      ensures Baseline(objs) && Entries(objs) == old(Entries(objs))
      ensures forall j: nat :: j >= |observed| ==> At(values, j) == At(old(values), j)
      ensures changed <==> !skipChanges && old(HasChanges(objs))
      ensures !skipChanges && !changed ==> values == old(values)
      ensures reports == old(reports) +
        (if changed then Delivered(callback, CompoundChange(values, ChangedPositions(old(values), old(Entries(objs))))) else [])
      ensures rt.errorThrownDuringCallback == (old(rt.errorThrownDuringCallback) || (changed && Raises(callback)))
      ensures Stepped(objs, subs, old(Records(objs)), CheckOpens())
      ensures AllCalm(objs, calm)
      ensures rt.Listed(old(rt.allObservers), old(rt.allObserversCount), state == Unopened)
    {
      ghost var start := Records(objs);
      RecordsStepped(objs);
      EntriesFromRecords(objs, start, {});
      var vals, oldValues := ReadEntries(rt, objs, skipChanges, start, calm);
      changed := Publish(rt, vals, oldValues, objs, calm, start);
      EntriesFromRecords(objs, start, CheckOpens());
    }

    /** The records now are one step from `start` that opened nothing. */
    lemma RecordsAfter(objs: map<ObjId, JsObject>, start: map<Observer, SubRecord>)
      requires Stepped(objs, subs, start, {})
      ensures StepsBetween(start, Records(objs), subs)
    {
    }

    /** Steps that open nothing compose: two such steps are one. */
    lemma SteppedTwice(objs: map<ObjId, JsObject>, first: map<Observer, SubRecord>, mid: map<Observer, SubRecord>)
      requires StepsBetween(first, mid, subs) && Stepped(objs, subs, mid, {})
      ensures Stepped(objs, subs, first, {})
    {
    }

    /**
     * `discardChanges` (dist/aj.js:1665-1668): `check_` with `skipChanges`
     * takes the entries' values as the new baseline without reporting, and
     * `value_` is returned.
     */
    method DiscardChanges(rt: Runtime, objs: map<ObjId, JsObject>) returns (v: VectorValue)
      requires Valid()
      modifies this`values, this`reports, rt`allObservers, rt`allObserversCount, rt`errorThrownDuringCallback, subs
      ensures v == CurrentValue() && Baseline(objs) && Entries(objs) == old(Entries(objs))
      ensures reports == old(reports) && rt.errorThrownDuringCallback == old(rt.errorThrownDuringCallback)
      ensures Stepped(objs, subs, old(Records(objs)), CheckOpens())
      ensures rt.Listed(old(rt.allObservers), old(rt.allObserversCount), state == Unopened)
    {
      var _ := Check(rt, objs, true, {});
      v := CurrentValue();
    }

    /**
     * `dirtyCheck` (dist/aj.js:1348-1357) on a compound: `check_` until it
     * finds nothing. A compound's vector holds the values themselves, which
     * are always the same value as themselves, so the second check finds
     * nothing: the count of checks that found a change is 0 or 1.
     */
    method DirtyCheck(rt: Runtime, objs: map<ObjId, JsObject>) returns (changed: bool, cycles: nat)
      requires Valid() && state == Opened
      modifies this`values, this`reports, rt`allObservers, rt`allObserversCount, rt`errorThrownDuringCallback, subs
      ensures cycles == if old(HasChanges(objs)) then 1 else 0
      ensures changed <==> cycles > 0
      ensures Baseline(objs) && Entries(objs) == old(Entries(objs))
      ensures reports == old(reports) +
        (if changed then Delivered(callback, CompoundChange(values, ChangedPositions(old(values), old(Entries(objs))))) else [])
      ensures rt.errorThrownDuringCallback == (old(rt.errorThrownDuringCallback) || (changed && Raises(callback)))
      ensures Stepped(objs, subs, old(Records(objs)), {})
      ensures rt.allObservers == old(rt.allObservers) && rt.allObserversCount == old(rt.allObserversCount)
    {
      ghost var first := Records(objs);
      ghost var log, before, entries, found := reports, values, Entries(objs), HasChanges(objs);
      RecordsStepped(objs);
      cycles := 0;
      while cycles < MaxDirtyCheckCycles
        invariant cycles <= 1 && state == Opened && Stepped(objs, subs, first, {}) && Entries(objs) == entries
        invariant cycles == 0 ==> values == before && reports == log
        invariant cycles == 1 ==>
          Baseline(objs) && found &&
          reports == log + Delivered(callback, CompoundChange(values, ChangedPositions(before, entries)))
        invariant rt.errorThrownDuringCallback == (old(rt.errorThrownDuringCallback) || (cycles > 0 && Raises(callback)))
        invariant rt.allObservers == old(rt.allObservers) && rt.allObserversCount == old(rt.allObserversCount)
        decreases MaxDirtyCheckCycles - cycles
      {
        if cycles > 0 {
          BaselineShowsNoChange(objs);
        }
        ghost var mid := Records(objs);
        RecordsAfter(objs, first);
        var c := Check(rt, objs, false, {});
        assert CheckOpens() == {};
        SteppedTwice(objs, first, mid);
        if !c {
          break;
        }
        cycles := cycles + 1;
      }
      changed := cycles > 0;
    }

    /** `deliver` (dist/aj.js:1648-1653): a dirty check, on an open compound only. */
    method Deliver(rt: Runtime, objs: map<ObjId, JsObject>) returns (cycles: nat)
      requires Valid()
      modifies this`values, this`reports, rt`allObservers, rt`allObserversCount, rt`errorThrownDuringCallback, subs
      ensures old(state) != Opened ==> cycles == 0 && unchanged(this) && unchanged(rt)
      ensures old(state) == Opened ==>
        cycles == (if old(HasChanges(objs)) then 1 else 0) && Baseline(objs) &&
        reports == old(reports) +
          (if cycles > 0 then Delivered(callback, CompoundChange(values, ChangedPositions(old(values), old(Entries(objs))))) else [])
    {
      if state != Opened {
        return 0;
      }
      var _, n := DirtyCheck(rt, objs);
      cycles := n;
    }

    /**
     * `addToAll` and the callback of `open` (dist/aj.js:1628-1629); what the
     * compound reads is not touched.
     */
    method Enlist(rt: Runtime, objs: map<ObjId, JsObject>, cb: Option<Callback>)
      requires Valid()
      modifies this`callback, rt`allObservers, rt`allObserversCount
      ensures callback == cb
      ensures Entries(objs) == old(Entries(objs)) && Records(objs) == old(Records(objs)) && HasChanges(objs) == old(HasChanges(objs))
      ensures rt.allObservers == old(rt.allObservers) + [Compound(this)] && rt.allObserversCount == old(rt.allObserversCount) + 1
    {
      rt.AddToAll(Compound(this));
      callback := cb;
    }

    /**
     * `open` (dist/aj.js:1624-1634) with `connect_` (dist/aj.js:1948-1965):
     * a compound opens once; it joins the checkpoint's list, and `check_`,
     * still UNOPENED, opens every unopened observer it observes with the
     * compound's `deliver` and takes the vector as baseline, reporting the
     * positions that differ from the values set by `addPath` and
     * `addObserver` when `reportChangesOnOpen`. It returns the vector.
     */
    method Open(rt: Runtime, objs: map<ObjId, JsObject>, cb: Option<Callback>) returns (r: Result<seq<Value>>)
      requires Valid()
      modifies this`state, this`callback, this`values, this`reports
      modifies rt`allObservers, rt`allObserversCount, rt`errorThrownDuringCallback, subs
      ensures old(state) != Unopened ==> r == Throw("Observer has already been opened.") && unchanged(this) && unchanged(rt)
      ensures old(state) == Unopened ==>
        r == Ok(values) && state == Opened && callback == cb && Baseline(objs) && Entries(objs) == old(Entries(objs)) &&
        Stepped(objs, subs, old(Records(objs)), subs) &&
        rt.Listed(old(rt.allObservers) + [Compound(this)], old(rt.allObserversCount) + 1, true)
      ensures old(state) == Unopened ==>
        var reported := reportChangesOnOpen && old(HasChanges(objs));
        reports == old(reports) +
          (if reported then Delivered(cb, CompoundChange(values, ChangedPositions(old(values), old(Entries(objs))))) else []) &&
        rt.errorThrownDuringCallback == (old(rt.errorThrownDuringCallback) || (reported && Raises(cb)))
    {
      if state != Unopened {
        return Throw("Observer has already been opened.");
      }
      Enlist(rt, objs, cb);
      Connect(rt, objs);
      state := Opened;
      r := Ok(values);
    }

    /**
     * `connect_` (dist/aj.js:1948-1965) without `Object.observe`: `check_`
     * while still UNOPENED, reporting only with `reportChangesOnOpen`. Every
     * observer observed is stepped with opening allowed.
     */
    method Connect(rt: Runtime, objs: map<ObjId, JsObject>)
      requires Valid() && state == Unopened
      modifies this`values, this`reports, rt`allObservers, rt`allObserversCount, rt`errorThrownDuringCallback, subs
      ensures Baseline(objs) && Entries(objs) == old(Entries(objs))
      ensures Stepped(objs, subs, old(Records(objs)), subs)
      ensures rt.Listed(old(rt.allObservers), old(rt.allObserversCount), true)
      ensures var reported := reportChangesOnOpen && old(HasChanges(objs));
        reports == old(reports) +
          (if reported then Delivered(callback, CompoundChange(values, ChangedPositions(old(values), old(Entries(objs))))) else []) &&
        rt.errorThrownDuringCallback == (old(rt.errorThrownDuringCallback) || (reported && Raises(callback)))
    {
      var _ := Check(rt, objs, !reportChangesOnOpen, {});
    }

    /**
     * `disconnect_` (dist/aj.js:1967-1979): every observer observed is
     * closed (an open one becomes CLOSED and leaves the count of open
     * observers; any other is left alone), and the entries and the vector
     * are emptied. `closed` names the observers that were open.
     */
    method Disconnect(rt: Runtime) returns (ghost closed: set<Observer>)
      requires Valid()
      modifies this`observed, this`values, this`subs, rt`allObserversCount, subs
      ensures observed == [] && values == [] && Valid()
      ensures forall s :: s in closed <==> s in old(subs) && old(s.state) == Opened
      ensures rt.allObserversCount == old(rt.allObserversCount) - |closed|
      ensures forall s :: s in old(subs) ==>
        s.state == (if s in closed then Closed else old(s.state)) &&
        s.callback == (if s in closed then None else old(s.callback)) &&
        (old(s.Valid()) ==> s.Valid())
    {
      closed := {};
      var i := 0;
      while i < |observed|
        invariant 0 <= i <= |observed| && Valid() && observed == old(observed)
        invariant forall s :: s in closed <==> s in SubsBefore(i) && old(s.state) == Opened
        invariant rt.allObserversCount == old(rt.allObserversCount) - |closed|
        invariant forall s :: s in subs ==> s.state == (if s in closed then Closed else old(s.state))
        invariant forall s :: s in subs ==> s.callback == (if s in closed then None else old(s.callback))
        invariant forall s :: s in subs ==> old(s.Valid()) ==> s.Valid()
        decreases |observed| - i
      {
        SubsBeforeNext(i);
        if observed[i].ObserverEntry? {
          var sub := observed[i].sub;
          if sub.state == Opened {
            assert sub !in closed && |closed + {sub}| == |closed| + 1;
            closed := closed + {sub};
          }
          sub.Close(rt);
        }
        i := i + 1;
      }
      Clear();
    }

    /** `observed_.length = 0` and `value_.length = 0` (dist/aj.js:1972-1973). */
    method Clear()
      modifies this`observed, this`values, this`subs
      ensures observed == [] && values == [] && Valid()
    {
      observed := [];
      values := [];
      subs := {};
    }

    /**
     * `close` (dist/aj.js:1636-1646) with `disconnect_`: an open compound
     * leaves the count of open observers, closes the observers it observes
     * and empties its entries; its value becomes undefined, it drops its
     * callback and is CLOSED for good. Closing a compound that is not open
     * does nothing.
     */
    method Close(rt: Runtime) returns (ghost closed: set<Observer>)
      requires Valid()
      modifies this`state, this`callback, this`observed, this`values, this`subs, rt`allObserversCount, subs
      ensures old(state) != Opened ==> closed == {} && unchanged(this) && unchanged(rt)
      ensures old(state) == Opened ==>
        state == Closed && callback == None && CurrentValue() == ClosedVector && observed == [] &&
        rt.allObserversCount == old(rt.allObserversCount) - 1 - |closed| &&
        (forall s :: s in closed <==> s in old(subs) && old(s.state) == Opened) &&
        (forall s :: s in old(subs) ==> s.state == (if s in closed then Closed else old(s.state)) && (old(s.Valid()) ==> s.Valid()))
      ensures Valid()
    {
      if state != Opened {
        return {};
      }
      rt.RemoveFromAll();
      closed := Disconnect(rt);
      Retire();
    }

    /** The end of `close` (dist/aj.js:1642-1645). */
    method Retire()
      modifies this`state, this`callback
      ensures state == Closed && callback == None
    {
      callback := None;
      state := Closed;
    }

    /**
     * `startReset` (dist/aj.js:2004-2010): only an open compound resets; it
     * is RESETTING, closes the observers it observes and empties its
     * entries, keeping its callback and its place among the open observers.
     */
    method StartReset(rt: Runtime) returns (r: Result<()>, ghost closed: set<Observer>)
      requires Valid()
      modifies this`state, this`observed, this`values, this`subs, rt`allObserversCount, subs
      ensures old(state) != Opened ==> r == Throw("Can only reset while open") && closed == {} && unchanged(this) && unchanged(rt)
      ensures old(state) == Opened ==>
        r == Ok(()) && state == Resetting && observed == [] && values == [] &&
        rt.allObserversCount == old(rt.allObserversCount) - |closed| &&
        (forall s :: s in closed <==> s in old(subs) && old(s.state) == Opened) &&
        (forall s :: s in old(subs) ==> s.state == (if s in closed then Closed else old(s.state)) && (old(s.Valid()) ==> s.Valid()))
      ensures Valid()
    {
      if state != Opened {
        return Throw("Can only reset while open"), {};
      }
      state := Resetting;
      closed := Disconnect(rt);
      r := Ok(());
    }

    /**
     * `finishReset` (dist/aj.js:2012-2019): only a resetting compound
     * finishes; it is OPENED again before `connect_`, so `check_` opens none
     * of the observers added meanwhile and only discards their changes. The
     * vector becomes the baseline, reported against the values set while
     * resetting when `reportChangesOnOpen`, and is returned.
     */
    method FinishReset(rt: Runtime, objs: map<ObjId, JsObject>) returns (r: Result<seq<Value>>)
      requires Valid()
      modifies this`state, this`values, this`reports, rt`allObservers, rt`allObserversCount, rt`errorThrownDuringCallback, subs
      ensures old(state) != Resetting ==> r == Throw("Can only finishReset after startReset") && unchanged(this) && unchanged(rt)
      ensures old(state) == Resetting ==>
        r == Ok(values) && state == Opened && Baseline(objs) && Entries(objs) == old(Entries(objs)) &&
        Stepped(objs, subs, old(Records(objs)), {}) &&
        rt.allObservers == old(rt.allObservers) && rt.allObserversCount == old(rt.allObserversCount)
      ensures old(state) == Resetting ==>
        var reported := reportChangesOnOpen && old(HasChanges(objs));
        reports == old(reports) +
          (if reported then Delivered(callback, CompoundChange(values, ChangedPositions(old(values), old(Entries(objs))))) else []) &&
        rt.errorThrownDuringCallback == (old(rt.errorThrownDuringCallback) || (reported && Raises(callback)))
    {
      if state != Resetting {
        return Throw("Can only finishReset after startReset");
      }
      state := Opened;
      var _ := Check(rt, objs, !reportChangesOnOpen, {});
      r := Ok(values);
    }

    /** Whether entries can no longer be added: neither UNOPENED nor RESETTING. */
    predicate Started()
      reads this`state
    {
      state != Unopened && state != Resetting
    }

    /** `observed_.push` (dist/aj.js:1986, 1997): one more entry. */
    method Push(e: Entry)
      requires Valid()
      modifies this`observed, this`subs
      ensures observed == old(observed) + [e] && subs == old(subs) + (if e.ObserverEntry? then {e.sub} else {})
      ensures Valid()
    {
      SubsInPush(observed, e);
      observed := observed + [e];
      subs := subs + (if e.ObserverEntry? then {e.sub} else {});
    }

    /**
     * `addPath` (dist/aj.js:1981-1991) for a path `getPath` has already
     * made: only before the compound starts; the entry is added and, when
     * `reportChangesOnOpen`, its position of the vector takes the path's
     * value now, so that `open` reports against it.
     */
    method AddPath(objs: map<ObjId, JsObject>, target: Value, path: Path) returns (r: Result<()>)
      requires Valid()
      modifies this`observed, this`values, this`subs
      ensures old(Started()) ==> r == Throw("Cannot add paths once started.") && unchanged(this)
      ensures !old(Started()) ==>
        r == Ok(()) && observed == old(observed) + [PathEntry(target, path)] && Valid() &&
        Entries(objs) == old(Entries(objs)) + [PathValue(objs, target, path)] &&
        (forall j: nat :: j != |old(observed)| ==> At(values, j) == At(old(values), j)) &&
        At(values, |old(observed)|) ==
          (if reportChangesOnOpen then Entries(objs)[|old(observed)|] else At(old(values), |old(observed)|))
      ensures Valid()
    {
      if Started() {
        return Throw("Cannot add paths once started.");
      }
      ghost var before := Entries(objs);
      Push(PathEntry(target, path));
      assert observed[..|observed| - 1] == old(observed);
      if reportChangesOnOpen {
        var v := path.GetValueFrom(objs, target);
        values := SetAt(values, |observed| - 1, v);
      }
      r := Ok(());
    }

    /**
     * `addObserver` (dist/aj.js:1993-2002): only before the compound starts;
     * the observer is added and, when `reportChangesOnOpen`, opened at once
     * with the compound's `deliver`, its value taking its position of the
     * vector. Opening an observer that was already opened throws, after
     * the entry was added.
     */
    method AddObserver(rt: Runtime, objs: map<ObjId, JsObject>, sub: Observer) returns (r: Result<()>)
      requires Valid()
      modifies this`observed, this`values, this`subs, rt`allObservers, rt`allObserversCount, rt`errorThrownDuringCallback
      modifies sub`state, sub`callback, sub`value, sub`snapshot, sub`reports
      ensures old(Started()) ==> r == Throw("Cannot add observers once started.") && unchanged(this) && unchanged(rt) && unchanged(sub)
      ensures !old(Started()) ==> observed == old(observed) + [ObserverEntry(sub)] && subs == old(subs) + {sub} && Valid()
      ensures !old(Started()) && (!reportChangesOnOpen || old(sub.state) != Unopened) ==>
        values == old(values) && unchanged(rt) && unchanged(sub) &&
        r == (if reportChangesOnOpen then Throw("Observer has already been opened.") else Ok(()))
      ensures !old(Started()) && reportChangesOnOpen && old(sub.state) == Unopened ==>
        r == Ok(()) && sub.state == Opened && sub.callback == Some(Relay) && sub.Valid() && sub.Baseline(objs) &&
        At(values, |old(observed)|) == SubValue(objs, sub) &&
        (forall j: nat :: j != |old(observed)| ==> At(values, j) == At(old(values), j)) &&
        rt.allObservers == old(rt.allObservers) + [Single(sub)] && rt.allObserversCount == old(rt.allObserversCount) + 1
    {
      if Started() {
        return Throw("Cannot add observers once started.");
      }
      Push(ObserverEntry(sub));
      if !reportChangesOnOpen {
        return Ok(());
      }
      var res := sub.Open(rt, objs, Some(Relay));
      if res.Throw? {
        return Throw(res.message);
      }
      values := SetAt(values, |observed| - 1, res.value);
      r := Ok(());
    }
  }

  // ---------------------------------------------------------------------------
  // The checkpoint
  // ---------------------------------------------------------------------------

  /** The state of an observer on the checkpoint's list. */
  function StateOf(o: Observable): State
    reads (if o.Single? then {o.leaf} else {})`state, (if o.Compound? then {o.compound} else {})`state
  {
    if o.Single? then o.leaf.state else o.compound.state
  }

  /** An observer on the list is well formed: it can be checked once it is open. */
  ghost predicate Sound(o: Observable)
    reads (if o.Single? then {o.leaf} else {})`state, (if o.Single? then {o.leaf} else {})`snapshot
    reads (if o.Compound? then {o.compound} else {})`observed, (if o.Compound? then {o.compound} else {})`subs
  {
    if o.Single? then o.leaf.Valid() else o.compound.Valid()
  }

  /** What `check_` would find on a well-formed observer now. */
  ghost predicate Dirty(o: Observable, objs: map<ObjId, JsObject>)
    requires Sound(o)
    reads (if o.Single? then {o.leaf} else {}), (if o.Compound? then {o.compound} else {})
    reads (if o.Compound? then o.compound.subs else {})`value
  {
    if o.Single? then o.leaf.HasChanges(objs) else o.compound.HasChanges(objs)
  }

  /** A path, object or array observer on the list holding a NaN that keeps a change alive. */
  ghost predicate Persists(o: Observable, objs: map<ObjId, JsObject>)
    reads (if o.Single? then {o.leaf} else {})`value
  {
    o.Single? && o.leaf.ChangesPersist(objs)
  }

  /**
   * An observer on the list is calm: a path, object or array observer has
   * nothing pending and no NaN; a compound has no position whose value is
   * not its entry's, the observers it observes having the values `vals`
   * records. Unlike `Dirty`, this does not read the observers a compound
   * observes.
   */
  ghost predicate CalmOn(o: Observable, objs: map<ObjId, JsObject>, vals: map<Observer, SubRecord>)
    reads (if o.Single? then {o.leaf} else {})`value, (if o.Single? then {o.leaf} else {})`snapshot
    reads (if o.Compound? then {o.compound} else {})`values, (if o.Compound? then {o.compound} else {})`observed
  {
    if o.Single? then o.leaf.Calm(objs)
    else ChangedPositions(o.compound.values, EntriesOf(objs, vals, o.compound.observed)) == map[]
  }

  /** A calm observer is exactly one that `check_` would find nothing on and that holds no NaN. */
  lemma CalmIffQuiet(o: Observable, objs: map<ObjId, JsObject>, vals: map<Observer, SubRecord>)
    requires Sound(o) && (o.Compound? ==> Agrees(objs, vals, o.compound.subs))
    ensures CalmOn(o, objs, vals) <==> !Dirty(o, objs) && !Persists(o, objs)
  {
    if o.Compound? {
      o.compound.EntriesFromValues(objs, vals);
    }
  }

  /** `vals` records a value for every observer the compounds on `os` observe, as `marks` records them. */
  ghost predicate Covers(os: seq<Observable>, marks: map<Observable, Mark>, vals: map<Observer, SubRecord>) {
    SubsBy(os, marks) <= vals.Keys
  }

  /** Always true: the term that lets `NaNExactly` and `CalmAll` speak of one observer on the list. */
  predicate Tracked(o: Observable) {
    true
  }

  /** The observers of `os` holding a NaN are exactly those in `nan`. */
  ghost predicate NaNExactly(objs: map<ObjId, JsObject>, os: seq<Observable>, nan: set<Observable>)
    reads Leaves(os)`value
  {
    forall o {:trigger Tracked(o)} :: Tracked(o) && o in os ==> (Persists(o, objs) <==> o in nan)
  }

  /** The observers of `os` that are in `calm` are calm. */
  ghost predicate CalmAll(objs: map<ObjId, JsObject>, vals: map<Observer, SubRecord>, os: seq<Observable>, calm: set<Observable>)
    reads Leaves(os)`value, Leaves(os)`snapshot, Compounds(os)`values, Compounds(os)`observed
  {
    forall o {:trigger Tracked(o)} :: Tracked(o) && o in os && o in calm ==> CalmOn(o, objs, vals)
  }

  /** The observers of `l` that `marks` records as open and that are not in `nan`: those a pass over `l` leaves calm. */
  ghost function Cleared(l: seq<Observable>, marks: map<Observable, Mark>, nan: set<Observable>): set<Observable> {
    set o | o in l && o in marks && marks[o].state == Opened && o !in nan
  }

  /** What a pass over one more observer leaves calm. */
  lemma ClearedSnoc(l: seq<Observable>, o: Observable, marks: map<Observable, Mark>, nan: set<Observable>)
    ensures Cleared(l + [o], marks, nan) == Cleared(l, marks, nan) + Cleared([o], marks, nan)
  {
  }

  /** A pass over the rebuilt list leaves calm what a pass over the old one did. */
  lemma ClearedKept(os: seq<Observable>, marks: map<Observable, Mark>, nan: set<Observable>)
    ensures Cleared(Kept(os, marks), marks, nan) == Cleared(os, marks, nan)
  {
    KeptExactly(os, marks);
  }

  /** What the checkpoint leaves in place of an observer: its state, its callback and, for a compound, the observers it observes. */
  datatype Mark = Mark(state: State, subs: set<Observer>, callback: Option<Callback>)

  ghost function MarkOf(o: Observable): Mark
    reads (if o.Single? then {o.leaf} else {})`state, (if o.Single? then {o.leaf} else {})`callback
    reads (if o.Compound? then {o.compound} else {})`state, (if o.Compound? then {o.compound} else {})`subs
    reads (if o.Compound? then {o.compound} else {})`callback
  {
    Mark(StateOf(o), if o.Compound? then o.compound.subs else {}, if o.Single? then o.leaf.callback else o.compound.callback)
  }

  /** The path, object and array observers on a list. */
  ghost function Leaves(os: seq<Observable>): set<Observer> {
    set o | o in os && o.Single? :: o.leaf
  }

  /** The compounds on a list. */
  ghost function Compounds(os: seq<Observable>): set<CompoundObserver> {
    set o | o in os && o.Compound? :: o.compound
  }

  /** The observers the compounds on a list observe now. */
  ghost function SubsOf(os: seq<Observable>): set<Observer>
    reads Compounds(os)`subs
  {
    set o, s | o in os && o.Compound? && s in o.compound.subs :: s
  }

  /** The observers the compounds on a list observe, as `marks` records them. */
  ghost function SubsBy(os: seq<Observable>, marks: map<Observable, Mark>): set<Observer> {
    set o, s | o in os && o in marks && s in marks[o].subs :: s
  }

  /** The marks of the observers on a list now. */
  ghost function Marks(os: seq<Observable>): map<Observable, Mark>
    reads Leaves(os)`state, Leaves(os)`callback, Compounds(os)`state, Compounds(os)`subs, Compounds(os)`callback
  {
    map o | o in os :: MarkOf(o)
  }

  /** Every observer on `os` is well formed and still as `marks` records it. */
  ghost predicate Settled(os: seq<Observable>, marks: map<Observable, Mark>)
    reads Leaves(os)`state, Leaves(os)`snapshot, Leaves(os)`callback
    reads Compounds(os)`state, Compounds(os)`observed, Compounds(os)`subs, Compounds(os)`callback
  {
    forall o {:trigger o in os} :: o in os ==> o in marks && MarkOf(o) == marks[o] && Sound(o)
  }

  /** The observers of `os` that `marks` records as open, in order: the list one pass rebuilds. */
  function Kept(os: seq<Observable>, marks: map<Observable, Mark>): seq<Observable> {
    if os == [] then []
    else
      var o := os[|os| - 1];
      Kept(os[..|os| - 1], marks) + (if o in marks && marks[o].state == Opened then [o] else [])
  }

  /** `n` passes that each found a change. */
  ghost function Trues(n: nat): (r: seq<bool>)
    ensures |r| == n && forall k :: 0 <= k < n ==> r[k]
  {
    if n == 0 then [] else Trues(n - 1) + [true]
  }

  /** Every pass but the last found a change. */
  predicate ChangedUntilLast(found: seq<bool>) {
    forall k :: 0 <= k < |found| - 1 ==> found[k]
  }

  /** `n` passes that each found a change, then one that found `b`. */
  lemma TruesThen(n: nat, b: bool)
    ensures |Trues(n) + [b]| == n + 1 && (Trues(n) + [b])[n] == b && ChangedUntilLast(Trues(n) + [b])
  {
  }

  /** A pass keeps exactly the observers recorded as open. */
  lemma {:induction false} KeptExactly(os: seq<Observable>, marks: map<Observable, Mark>)
    ensures forall o :: o in Kept(os, marks) <==> o in os && o in marks && marks[o].state == Opened
  {
    if os != [] {
      var init := os[..|os| - 1];
      KeptExactly(init, marks);
      assert os == init + [os[|os| - 1]];
    }
  }

  /** The pass over one more observer keeps it when it is recorded as open. */
  lemma KeptSnoc(os: seq<Observable>, o: Observable, marks: map<Observable, Mark>)
    ensures Kept(os + [o], marks) == Kept(os, marks) + (if o in marks && marks[o].state == Opened then [o] else [])
  {
    assert (os + [o])[..|os|] == os;
  }

  /** A second pass keeps what the first kept. */
  lemma {:induction false} KeptTwice(os: seq<Observable>, marks: map<Observable, Mark>)
    ensures Kept(Kept(os, marks), marks) == Kept(os, marks)
  {
    if os != [] {
      var o := os[|os| - 1];
      var k := Kept(os[..|os| - 1], marks);
      KeptTwice(os[..|os| - 1], marks);
      if o in marks && marks[o].state == Opened {
        var kk := k + [o];
        assert kk[..|kk| - 1] == k && kk[|kk| - 1] == o;
        assert Kept(kk, marks) == Kept(k, marks) + [o];
      } else {
        assert Kept(os, marks) == k;
      }
    }
  }

  // ---------------------------------------------------------------------------
  // The logs the checkpoint appends to
  // ---------------------------------------------------------------------------

  /** The logs (`reports`) of the observers `leaves` and the compounds `compounds`, by observable. */
  ghost function Logs(leaves: set<Observer>, compounds: set<CompoundObserver>): map<Observable, seq<Change>>
    reads leaves`reports, compounds`reports
  {
    map p | p in (set x | x in leaves :: Single(x)) + (set y | y in compounds :: Compound(y)) ::
      if p.Single? then p.leaf.reports else p.compound.reports
  }

  /** Of the visits `seen`, whose findings are `hits`, how many found a change on `p`. */
  function Hits(seen: seq<Observable>, hits: seq<bool>, p: Observable): nat {
    if seen == [] || hits == [] then 0
    else Hits(seen[..|seen| - 1], hits[..|hits| - 1], p) + (if seen[|seen| - 1] == p && hits[|hits| - 1] then 1 else 0)
  }

  /** How many reports the visits `seen` deliver to `p`: one per change found, when `p` has a callback. */
  ghost function Tally(seen: seq<Observable>, hits: seq<bool>, marks: map<Observable, Mark>, p: Observable): nat {
    if p in marks && marks[p].callback.Some? then Hits(seen, hits, p) else 0
  }

  /**
   * From `before` to `after` every log only grew, and by one report for
   * each of the visits `seen` that found a change on its observer, when
   * that observer has a callback.
   */
  ghost predicate Grew(before: map<Observable, seq<Change>>, after: map<Observable, seq<Change>>,
                       seen: seq<Observable>, hits: seq<bool>, marks: map<Observable, Mark>) {
    after.Keys == before.Keys &&
    forall p :: p in before ==> before[p] <= after[p] && |after[p]| == |before[p]| + Tally(seen, hits, marks, p)
  }

  /** The visits of `n` passes over `os`: the whole list first, then, each time, the observers recorded as open. */
  ghost function Rounds(os: seq<Observable>, marks: map<Observable, Mark>, n: nat): seq<Observable> {
    if n == 0 then [] else Rounds(os, marks, n - 1) + (if n == 1 then os else Kept(os, marks))
  }

  /** The findings of consecutive passes, one pass after another. */
  function Flatten(sweeps: seq<seq<bool>>): seq<bool> {
    if sweeps == [] then [] else Flatten(sweeps[..|sweeps| - 1]) + sweeps[|sweeps| - 1]
  }

  /** One more pass appends its findings. */
  lemma FlattenSnoc(sweeps: seq<seq<bool>>, hits: seq<bool>)
    ensures Flatten(sweeps + [hits]) == Flatten(sweeps) + hits
  {
    assert (sweeps + [hits])[..|sweeps|] == sweeps;
  }

  /** One more visit found a change in some visit exactly when it did or an earlier one did. */
  lemma FoundSnoc(hits: seq<bool>, changed: bool)
    ensures (true in hits + [changed]) <==> (true in hits || changed)
  {
    assert (hits + [changed])[|hits|] == changed;
  }

  /** Hits add up over consecutive runs of visits. */
  lemma {:induction false} HitsAppend(seen: seq<Observable>, hits: seq<bool>, more: seq<Observable>, moreHits: seq<bool>, p: Observable)
    requires |seen| == |hits| && |more| == |moreHits|
    ensures Hits(seen + more, hits + moreHits, p) == Hits(seen, hits, p) + Hits(more, moreHits, p)
  {
    if more == [] {
      assert seen + more == seen && hits + moreHits == hits;
    } else {
      var n := |more| - 1;
      HitsAppend(seen, hits, more[..n], moreHits[..n], p);
      assert (seen + more)[..|seen + more| - 1] == seen + more[..n];
      assert (hits + moreHits)[..|hits + moreHits| - 1] == hits + moreHits[..n];
    }
  }

  /** Growth over two consecutive runs of visits is growth over both. */
  lemma GrewTrans(l0: map<Observable, seq<Change>>, l1: map<Observable, seq<Change>>, l2: map<Observable, seq<Change>>,
                  seen: seq<Observable>, hits: seq<bool>, more: seq<Observable>, moreHits: seq<bool>, marks: map<Observable, Mark>)
    requires |seen| == |hits| && |more| == |moreHits|
    requires Grew(l0, l1, seen, hits, marks) && Grew(l1, l2, more, moreHits, marks)
    ensures Grew(l0, l2, seen + more, hits + moreHits, marks)
  {
    forall p | p in l0 ensures l0[p] <= l2[p] && |l2[p]| == |l0[p]| + Tally(seen + more, hits + moreHits, marks, p) {
      HitsAppend(seen, hits, more, moreHits, p);
    }
  }

  /** Visits that found no change leave every log as it was. */
  lemma {:induction false} NoHits(seen: seq<Observable>, hits: seq<bool>, p: Observable)
    requires true !in hits
    ensures Hits(seen, hits, p) == 0
  {
    if seen != [] && hits != [] {
      assert hits[|hits| - 1] in hits;
      assert forall b :: b in hits[..|hits| - 1] ==> b in hits;
      NoHits(seen[..|seen| - 1], hits[..|hits| - 1], p);
    }
  }

  /** Growth over visits that found nothing is no change at all. */
  lemma GrewNothing(before: map<Observable, seq<Change>>, after: map<Observable, seq<Change>>,
                    seen: seq<Observable>, hits: seq<bool>, marks: map<Observable, Mark>)
    requires Grew(before, after, seen, hits, marks) && true !in hits
    ensures after == before
  {
    forall p | p in before ensures after[p] == before[p] {
      NoHits(seen, hits, p);
    }
  }

  /** One visit of `o` that found `changed`: only `o`'s log changed, and it grew by the report delivered, if any. */
  lemma VisitLogs(before: map<Observable, seq<Change>>, after: map<Observable, seq<Change>>, o: Observable, changed: bool,
                  marks: map<Observable, Mark>)
    requires after.Keys == before.Keys && forall p :: p in before && p != o ==> after[p] == before[p]
    requires o in before ==> before[o] <= after[o] && |after[o]| == |before[o]| + (if changed && o in marks && marks[o].callback.Some? then 1 else 0)
    ensures Grew(before, after, [o], [changed], marks)
  {
    forall p | p in before ensures Hits([o], [changed], p) == (if o == p && changed then 1 else 0) {
      assert [o][..0] == [] && [changed][..0] == [];
    }
  }

  /** A well-formed list is settled against its own marks. */
  lemma SettledAtStart(os: seq<Observable>)
    requires forall o :: o in os ==> Sound(o)
    ensures Settled(os, Marks(os))
  {
  }

  /**
   * `observer.check_()` as the checkpoint calls it, followed by the push
   * back on the list (dist/aj.js:1713-1722), for an open observer: the
   * check finds exactly what `Dirty` describes; no observer on the list
   * changes state, and all stay well formed. The observers compounds read
   * keep their values (`vals`), no NaN appears or goes (`nan`), the calm
   * observers stay calm (`calm`), and the one checked ends calm unless it
   * holds a NaN.
   */
  method CheckOne(rt: Runtime, objs: map<ObjId, JsObject>, o: Observable, ghost os: seq<Observable>, ghost marks: map<Observable, Mark>,
                  ghost vals: map<Observer, SubRecord>, ghost nan: set<Observable>, ghost calm: set<Observable>)
    returns (changed: bool)
    requires o in os && Settled(os, marks) && marks[o].state == Opened && Covers(os, marks, vals)
    requires Agrees(objs, vals, vals.Keys) && NaNExactly(objs, os, nan) && CalmAll(objs, vals, os, calm)
    modifies rt`allObservers, rt`allObserversCount, rt`errorThrownDuringCallback, Leaves(os), Compounds(os), SubsBy(os, marks)
    ensures changed <==> old(Dirty(o, objs))
    ensures Settled(os, marks) && Agrees(objs, vals, vals.Keys) && NaNExactly(objs, os, nan)
    ensures CalmAll(objs, vals, os, calm + Cleared([o], marks, nan))
    ensures o.Single? ==> o.leaf.reports == old(o.leaf.reports) + (if changed then Delivered(o.leaf.callback, old(o.leaf.Pending(objs))) else [])
    ensures o.Compound? ==> (o.compound.reports == old(o.compound.reports) +
      (if changed then Delivered(o.compound.callback, CompoundChange(o.compound.values, ChangedPositions(old(o.compound.values), old(o.compound.Entries(objs))))) else []))
    ensures forall x: Observer :: old(allocated(x)) && Single(x) != o ==> x.reports == old(x.reports)
    ensures forall y: CompoundObserver :: old(allocated(y)) && Compound(y) != o ==> y.reports == old(y.reports)
    ensures rt.allObservers == old(rt.allObservers) + [o] && rt.allObserversCount == old(rt.allObserversCount)
    ensures old(rt.errorThrownDuringCallback) ==> rt.errorThrownDuringCallback
  {
    if o.Single? {
      changed := CheckLeaf(rt, objs, o.leaf, os, marks, vals, nan, calm);
    } else {
      assert MarkOf(o) == marks[o];
      forall s | s in o.compound.subs ensures s in vals.Keys {
        assert s in SubsBy(os, marks);
      }
      changed := CheckCompound(rt, objs, o.compound, os, marks, vals, nan, calm);
    }
    rt.allObservers := rt.allObservers + [o];
  }

  /**
   * `check_` of an open path, object or array observer on the list: no
   * observer on the list changes state, the values compounds read and the
   * NaNs stay, and the observer ends calm unless it holds a NaN.
   */
  method CheckLeaf(rt: Runtime, objs: map<ObjId, JsObject>, l: Observer, ghost os: seq<Observable>, ghost marks: map<Observable, Mark>,
                   ghost vals: map<Observer, SubRecord>, ghost nan: set<Observable>, ghost calm: set<Observable>)
    returns (changed: bool)
    requires Single(l) in os && Settled(os, marks) && marks[Single(l)].state == Opened
    requires Agrees(objs, vals, vals.Keys) && NaNExactly(objs, os, nan) && CalmAll(objs, vals, os, calm)
    modifies l`value, l`snapshot, l`reports, rt`errorThrownDuringCallback
    ensures changed <==> old(l.HasChanges(objs))
    ensures Settled(os, marks) && Agrees(objs, vals, vals.Keys) && NaNExactly(objs, os, nan)
    ensures CalmAll(objs, vals, os, calm + Cleared([Single(l)], marks, nan))
    ensures l.reports == old(l.reports) + (if changed then Delivered(l.callback, old(l.Pending(objs))) else [])
    ensures forall x: Observer :: old(allocated(x)) && x != l ==> x.reports == old(x.reports)
    ensures forall y: CompoundObserver :: old(allocated(y)) ==> y.reports == old(y.reports)
    ensures old(rt.errorThrownDuringCallback) ==> rt.errorThrownDuringCallback
  {
    assert Tracked(Single(l));
    changed := CheckLeafAlone(rt, objs, l, os, marks);
    forall s | Watched(s) && s in vals.Keys ensures vals[s].value == SubValue(objs, s) {
      assert old(vals[s].value == SubValue(objs, s));
    }
    forall o | Tracked(o) && o in os ensures Persists(o, objs) <==> o in nan {
      assert old(Persists(o, objs)) <==> o in nan;
    }
    forall o | Tracked(o) && o in os && o in calm + Cleared([Single(l)], marks, nan) ensures CalmOn(o, objs, vals) {
      if o != Single(l) {
        assert old(CalmOn(o, objs, vals));
      }
    }
  }

  /** `check_` of an open path, object or array observer, told about that observer alone. */
  method CheckLeafAlone(rt: Runtime, objs: map<ObjId, JsObject>, l: Observer, ghost os: seq<Observable>, ghost marks: map<Observable, Mark>)
    returns (changed: bool)
    requires Single(l) in os && Settled(os, marks) && marks[Single(l)].state == Opened
    modifies l`value, l`snapshot, l`reports, rt`errorThrownDuringCallback
    ensures changed <==> old(l.HasChanges(objs))
    ensures Settled(os, marks)
    ensures SubValue(objs, l) == old(SubValue(objs, l)) && l.ChangesPersist(objs) == old(l.ChangesPersist(objs))
    ensures !l.ChangesPersist(objs) ==> l.Calm(objs)
    ensures l.reports == old(l.reports) + (if changed then Delivered(l.callback, old(l.Pending(objs))) else [])
    ensures forall x: Observer :: old(allocated(x)) && x != l ==> x.reports == old(x.reports)
    ensures forall y: CompoundObserver :: old(allocated(y)) ==> y.reports == old(y.reports)
    ensures old(rt.errorThrownDuringCallback) ==> rt.errorThrownDuringCallback
  {
    changed := l.Check(rt, objs);
    if changed {
      l.BaselineLeavesOnlyPersistentChanges(objs);
    }
    forall o | o in os
      ensures o in marks && MarkOf(o) == marks[o] && Sound(o)
    {
      assert old(o in marks && MarkOf(o) == marks[o] && Sound(o));
    }
  }

  /**
   * `check_` of an open compound on the list: no observer on the list
   * changes state, the values compounds read and the NaNs stay, the calm
   * observers stay calm, and the compound ends calm.
   */
  method CheckCompound(rt: Runtime, objs: map<ObjId, JsObject>, c: CompoundObserver, ghost os: seq<Observable>, ghost marks: map<Observable, Mark>,
                       ghost vals: map<Observer, SubRecord>, ghost nan: set<Observable>, ghost calm: set<Observable>)
    returns (changed: bool)
    requires Compound(c) in os && Settled(os, marks) && marks[Compound(c)].state == Opened && c.subs <= vals.Keys
    requires Agrees(objs, vals, vals.Keys) && NaNExactly(objs, os, nan) && CalmAll(objs, vals, os, calm)
    modifies c`values, c`reports, rt`allObservers, rt`allObserversCount, rt`errorThrownDuringCallback, c.subs
    ensures changed <==> old(c.HasChanges(objs))
    ensures Settled(os, marks) && Agrees(objs, vals, vals.Keys) && NaNExactly(objs, os, nan)
    ensures CalmAll(objs, vals, os, calm + Cleared([Compound(c)], marks, nan))
    ensures c.reports == old(c.reports) +
      (if changed then Delivered(c.callback, CompoundChange(c.values, ChangedPositions(old(c.values), old(c.Entries(objs))))) else [])
    ensures forall x: Observer :: old(allocated(x)) ==> x.reports == old(x.reports)
    ensures forall y: CompoundObserver :: old(allocated(y)) && y != c ==> y.reports == old(y.reports)
    ensures rt.allObservers == old(rt.allObservers) && rt.allObserversCount == old(rt.allObserversCount)
    ensures old(rt.errorThrownDuringCallback) ==> rt.errorThrownDuringCallback
  {
    assert Tracked(Compound(c));
    assert MarkOf(Compound(c)) == marks[Compound(c)];
    changed := CheckCompoundFramed(rt, objs, c, vals);
    forall o | o in os ensures o in marks && MarkOf(o) == marks[o] && Sound(o) {
      assert old(o in marks && MarkOf(o) == marks[o] && Sound(o));
    }
    forall s | Watched(s) && s in vals.Keys ensures vals[s].value == SubValue(objs, s) {
      assert old(vals[s].value == SubValue(objs, s));
    }
    forall o | Tracked(o) && o in os ensures Persists(o, objs) <==> o in nan {
      assert old(Persists(o, objs)) <==> o in nan;
    }
    forall o | Tracked(o) && o in os && o in calm + Cleared([Compound(c)], marks, nan) ensures CalmOn(o, objs, vals) {
      if o != Compound(c) {
        assert old(CalmOn(o, objs, vals));
      }
    }
  }

  /** `CheckCompoundAlone`, which also tells that no observer but the compound changes its log. */
  method CheckCompoundFramed(rt: Runtime, objs: map<ObjId, JsObject>, c: CompoundObserver, ghost vals: map<Observer, SubRecord>)
    returns (changed: bool)
    requires c.Valid() && c.state == Opened && Agrees(objs, vals, c.subs)
    modifies c`values, c`reports, rt`allObservers, rt`allObserversCount, rt`errorThrownDuringCallback, c.subs
    ensures changed <==> old(c.HasChanges(objs))
    ensures forall s :: s in c.subs ==>
      s.state == old(s.state) && s.callback == old(s.callback) &&
      (old(s.Valid()) ==> s.Valid()) && SubValue(objs, s) == old(SubValue(objs, s)) &&
      s.ChangesPersist(objs) == old(s.ChangesPersist(objs)) && (old(s.Calm(objs)) ==> s.Calm(objs))
    ensures ChangedPositions(c.values, EntriesOf(objs, vals, c.observed)) == map[]
    ensures c.reports == old(c.reports) +
      (if changed then Delivered(c.callback, CompoundChange(c.values, ChangedPositions(old(c.values), old(c.Entries(objs))))) else [])
    ensures forall x: Observer :: old(allocated(x)) ==> x.reports == old(x.reports)
    ensures forall y: CompoundObserver :: old(allocated(y)) && y != c ==> y.reports == old(y.reports)
    ensures rt.allObservers == old(rt.allObservers) && rt.allObserversCount == old(rt.allObserversCount)
    ensures old(rt.errorThrownDuringCallback) ==> rt.errorThrownDuringCallback
  {
    changed := CheckCompoundAlone(rt, objs, c, vals);
  }

  /**
   * `check_` of an open compound, told about it and the observers it
   * observes alone: they keep their states, values and NaNs, the calm ones
   * stay calm, and the compound ends calm.
   */
  method CheckCompoundAlone(rt: Runtime, objs: map<ObjId, JsObject>, c: CompoundObserver, ghost vals: map<Observer, SubRecord>)
    returns (changed: bool)
    requires c.Valid() && c.state == Opened && Agrees(objs, vals, c.subs)
    modifies c`values, c`reports, rt`allObservers, rt`allObserversCount, rt`errorThrownDuringCallback, c.subs
    ensures changed <==> old(c.HasChanges(objs))
    ensures forall s :: s in c.subs ==>
      s.state == old(s.state) && s.callback == old(s.callback) && s.reports == old(s.reports) &&
      (old(s.Valid()) ==> s.Valid()) && SubValue(objs, s) == old(SubValue(objs, s)) &&
      s.ChangesPersist(objs) == old(s.ChangesPersist(objs)) && (old(s.Calm(objs)) ==> s.Calm(objs))
    ensures ChangedPositions(c.values, EntriesOf(objs, vals, c.observed)) == map[]
    ensures c.reports == old(c.reports) +
      (if changed then Delivered(c.callback, CompoundChange(c.values, ChangedPositions(old(c.values), old(c.Entries(objs))))) else [])
    ensures rt.allObservers == old(rt.allObservers) && rt.allObserversCount == old(rt.allObserversCount)
    ensures old(rt.errorThrownDuringCallback) ==> rt.errorThrownDuringCallback
  {
    ghost var start := c.Records(objs);
    ghost var calm := set s | s in c.subs && s.Calm(objs);
    changed := c.Check(rt, objs, false, calm);
    forall s | s in c.subs
      ensures s.state == old(s.state) && s.callback == old(s.callback) && s.reports == old(s.reports)
      ensures (old(s.Valid()) ==> s.Valid()) && SubValue(objs, s) == old(SubValue(objs, s))
      ensures s.ChangesPersist(objs) == old(s.ChangesPersist(objs)) && (old(s.Calm(objs)) ==> s.Calm(objs))
    {
      assert StepRecord(start[s], RecordOf(objs, s), false);
      assert Watched(s);
    }
    c.BaselineShowsNoChange(objs);
    c.EntriesFromValues(objs, vals);
  }

  /**
   * One step of a pass (dist/aj.js:1713-1722): an observer that is not
   * open is skipped and dropped; an open one is checked and kept. The step
   * finds a change exactly when the observer is open and `check_` finds
   * one on it; the calm observers stay calm, and the one visited joins
   * them when it is open and holds no NaN.
   */
  method Visit(rt: Runtime, objs: map<ObjId, JsObject>, o: Observable, ghost os: seq<Observable>, ghost marks: map<Observable, Mark>,
               ghost seen: seq<Observable>, ghost vals: map<Observer, SubRecord>, ghost nan: set<Observable>, ghost calm: set<Observable>)
    returns (changed: bool)
    requires o in os && Settled(os, marks) && rt.allObservers == Kept(seen, marks) && Covers(os, marks, vals)
    requires Agrees(objs, vals, vals.Keys) && NaNExactly(objs, os, nan) && CalmAll(objs, vals, os, calm + Cleared(seen, marks, nan))
    modifies rt`allObservers, rt`allObserversCount, rt`errorThrownDuringCallback, Leaves(os), Compounds(os), SubsBy(os, marks)
    ensures changed <==> marks[o].state == Opened && old(Dirty(o, objs))
    ensures o in calm ==> !changed
    ensures Settled(os, marks) && Agrees(objs, vals, vals.Keys) && NaNExactly(objs, os, nan)
    ensures CalmAll(objs, vals, os, calm + Cleared(seen + [o], marks, nan))
    ensures o.Single? ==> o.leaf.reports == old(o.leaf.reports) + (if changed then Delivered(o.leaf.callback, old(o.leaf.Pending(objs))) else [])
    ensures o.Compound? ==> (o.compound.reports == old(o.compound.reports) +
      (if changed then Delivered(o.compound.callback, CompoundChange(o.compound.values, ChangedPositions(old(o.compound.values), old(o.compound.Entries(objs))))) else []))
    ensures forall x: Observer :: old(allocated(x)) && Single(x) != o ==> x.reports == old(x.reports)
    ensures forall y: CompoundObserver :: old(allocated(y)) && Compound(y) != o ==> y.reports == old(y.reports)
    ensures rt.allObservers == Kept(seen + [o], marks) && rt.allObserversCount == old(rt.allObserversCount)
    ensures old(rt.errorThrownDuringCallback) ==> rt.errorThrownDuringCallback
  {
    KeptSnoc(seen, o, marks);
    ClearedSnoc(seen, o, marks, nan);
    ghost var done := calm + Cleared(seen, marks, nan);
    if o in calm {
      assert Tracked(o) && o in done;
      CalmOnAgrees(o, os, marks, objs, vals);
    }
    changed := false;
    if StateOf(o) == Opened {
      changed := CheckOne(rt, objs, o, os, marks, vals, nan, done);
    }
    assert calm + Cleared(seen + [o], marks, nan) == done + Cleared([o], marks, nan);
  }

  /**
   * What holds after a pass visited `seen`: every observer is as `marks`
   * records it, those `vals` covers agree with it, the NaNs are `nan`, the
   * calm observers and those cleared so far are calm, the list holds the
   * visited observers recorded as open, and the logs grew from `start` by
   * the visits `seen` with findings `hits`.
   */
  ghost predicate Sweeping(rt: Runtime, objs: map<ObjId, JsObject>, os: seq<Observable>, marks: map<Observable, Mark>,
                           vals: map<Observer, SubRecord>, nan: set<Observable>, calm: set<Observable>,
                           leaves: set<Observer>, compounds: set<CompoundObserver>,
                           seen: seq<Observable>, start: map<Observable, seq<Change>>, hits: seq<bool>)
    reads rt, Leaves(os), Compounds(os), SubsBy(os, marks), vals.Keys, leaves`reports, compounds`reports
  {
    Settled(os, marks) && Covers(os, marks, vals) && Agrees(objs, vals, vals.Keys) && NaNExactly(objs, os, nan) &&
    CalmAll(objs, vals, os, calm + Cleared(seen, marks, nan)) && rt.allObservers == Kept(seen, marks) &&
    |seen| == |hits| && Grew(start, Logs(leaves, compounds), seen, hits, marks)
  }

  /** `Visit`, as a step of a pass: what held of the observers visited before holds with `o` added. */
  method Step(rt: Runtime, objs: map<ObjId, JsObject>, o: Observable, ghost os: seq<Observable>, ghost marks: map<Observable, Mark>,
              ghost vals: map<Observer, SubRecord>, ghost nan: set<Observable>, ghost calm: set<Observable>,
              ghost leaves: set<Observer>, ghost compounds: set<CompoundObserver>,
              ghost seen: seq<Observable>, ghost start: map<Observable, seq<Change>>, ghost hits: seq<bool>)
    returns (changed: bool)
    requires o in os && Sweeping(rt, objs, os, marks, vals, nan, calm, leaves, compounds, seen, start, hits)
    modifies rt`allObservers, rt`allObserversCount, rt`errorThrownDuringCallback, Leaves(os), Compounds(os), SubsBy(os, marks)
    ensures changed <==> marks[o].state == Opened && old(Dirty(o, objs))
    ensures o in calm ==> !changed
    ensures Sweeping(rt, objs, os, marks, vals, nan, calm, leaves, compounds, seen + [o], start, hits + [changed])
    ensures rt.allObserversCount == old(rt.allObserversCount)
    ensures old(rt.errorThrownDuringCallback) ==> rt.errorThrownDuringCallback
  {
    ghost var logs := Logs(leaves, compounds);
    changed := Visit(rt, objs, o, os, marks, seen, vals, nan, calm);
    assert MarkOf(o) == marks[o];
    ghost var now := Logs(leaves, compounds);
    forall p | p in logs && p != o ensures now[p] == logs[p] {
      if p.Single? {
        assert Single(p.leaf) != o && old(allocated(p.leaf));
      } else {
        assert Compound(p.compound) != o && old(allocated(p.compound));
      }
    }
    VisitLogs(logs, now, o, changed, marks);
    GrewTrans(start, logs, now, seen, hits, [o], [changed], marks);
  }

  /**
   * One pass of `performMicrotaskCheckpoint` (dist/aj.js:1708-1722): the
   * list is emptied and rebuilt from the observers that are open, each
   * checked in order. No NaN appears or goes, the calm observers stay
   * calm and every open observer of the old list without a NaN ends calm;
   * when all the open ones were calm, the pass finds no change.
   */
  method Pass(rt: Runtime, objs: map<ObjId, JsObject>, ghost os: seq<Observable>, ghost marks: map<Observable, Mark>,
              ghost vals: map<Observer, SubRecord>, ghost nan: set<Observable>, ghost calm: set<Observable>,
              ghost leaves: set<Observer>, ghost compounds: set<CompoundObserver>)
    returns (anyChanged: bool, ghost hits: seq<bool>)
    requires Settled(os, marks) && (forall o :: o in rt.allObservers ==> o in os) && Covers(os, marks, vals)
    requires Agrees(objs, vals, vals.Keys) && NaNExactly(objs, os, nan) && CalmAll(objs, vals, os, calm)
    modifies rt`allObservers, rt`allObserversCount, rt`errorThrownDuringCallback, Leaves(os), Compounds(os), SubsBy(os, marks)
    ensures Settled(os, marks) && Agrees(objs, vals, vals.Keys) && NaNExactly(objs, os, nan)
    ensures CalmAll(objs, vals, os, calm + Cleared(old(rt.allObservers), marks, nan))
    ensures (forall o :: o in old(rt.allObservers) && marks[o].state == Opened ==> o in calm) ==> !anyChanged
    ensures |hits| == |old(rt.allObservers)| && (anyChanged <==> true in hits)
    ensures Grew(old(Logs(leaves, compounds)), Logs(leaves, compounds), old(rt.allObservers), hits, marks)
    ensures rt.allObservers == Kept(old(rt.allObservers), marks) && rt.allObserversCount == old(rt.allObserversCount)
    ensures old(rt.errorThrownDuringCallback) ==> rt.errorThrownDuringCallback
  {
    ghost var start := Logs(leaves, compounds);
    var toCheck := rt.allObservers;
    rt.allObservers := [];
    anyChanged, hits := Sweep(rt, objs, toCheck, os, marks, vals, nan, calm, leaves, compounds, start);
  }

  /**
   * The loop of one pass (dist/aj.js:1713-1722): each observer of
   * `toCheck` is visited in order. A change is found exactly when some
   * visit found one, and never when every open observer there was calm.
   */
  method Sweep(rt: Runtime, objs: map<ObjId, JsObject>, toCheck: seq<Observable>, ghost os: seq<Observable>, ghost marks: map<Observable, Mark>,
               ghost vals: map<Observer, SubRecord>, ghost nan: set<Observable>, ghost calm: set<Observable>,
               ghost leaves: set<Observer>, ghost compounds: set<CompoundObserver>, ghost start: map<Observable, seq<Change>>)
    returns (anyChanged: bool, ghost hits: seq<bool>)
    requires (forall o :: o in toCheck ==> o in os) && Sweeping(rt, objs, os, marks, vals, nan, calm, leaves, compounds, [], start, [])
    modifies rt`allObservers, rt`allObserversCount, rt`errorThrownDuringCallback, Leaves(os), Compounds(os), SubsBy(os, marks)
    ensures Sweeping(rt, objs, os, marks, vals, nan, calm, leaves, compounds, toCheck, start, hits)
    ensures (anyChanged <==> true in hits) && ((forall o :: o in toCheck && marks[o].state == Opened ==> o in calm) ==> !anyChanged)
    ensures rt.allObserversCount == old(rt.allObserversCount)
    ensures old(rt.errorThrownDuringCallback) ==> rt.errorThrownDuringCallback
  {
    ghost var wasCalm := forall o :: o in toCheck && marks[o].state == Opened ==> o in calm;
    anyChanged := false;
    hits := [];
    var i := 0;
    assert toCheck[..0] == [];
    while i < |toCheck|
      invariant 0 <= i <= |toCheck|
      invariant Sweeping(rt, objs, os, marks, vals, nan, calm, leaves, compounds, toCheck[..i], start, hits)
      invariant wasCalm ==> !anyChanged
      invariant anyChanged <==> true in hits
      invariant rt.allObserversCount == old(rt.allObserversCount)
      invariant old(rt.errorThrownDuringCallback) ==> rt.errorThrownDuringCallback
    {
      var o := toCheck[i];
      assert toCheck[..i + 1] == toCheck[..i] + [o];
      var c := Step(rt, objs, o, os, marks, vals, nan, calm, leaves, compounds, toCheck[..i], start, hits);
      FoundSnoc(hits, c);
      if c {
        anyChanged := true;
      }
      hits := hits + [c];
      i := i + 1;
    }
    assert toCheck[..i] == toCheck;
  }

  /** On a settled list whose observed observers agree with `vals`, a calm observer is one `check_` finds nothing on. */
  lemma CalmOnAgrees(o: Observable, os: seq<Observable>, marks: map<Observable, Mark>, objs: map<ObjId, JsObject>, vals: map<Observer, SubRecord>)
    requires o in os && Settled(os, marks) && Covers(os, marks, vals) && Agrees(objs, vals, vals.Keys)
    ensures CalmOn(o, objs, vals) <==> !Dirty(o, objs) && !Persists(o, objs)
  {
    if o.Compound? {
      assert MarkOf(o) == marks[o];
      forall s | Watched(s) && s in o.compound.subs ensures s in vals && vals[s].value == SubValue(objs, s) {
        assert s in SubsBy(os, marks);
      }
    }
    CalmIffQuiet(o, objs, vals);
  }

  /**
   * `Platform.performMicrotaskCheckpoint` (dist/aj.js:1695-1731) with no
   * end-of-microtask tasks: returns at once when re-entered; otherwise
   * runs passes until one finds no change or `MAX_DIRTY_CHECK_CYCLES`
   * passes ran, and returns the count `dirtyCheckCycleCount` exposes.
   * `found` tells, pass by pass, whether it found a change. The list ends
   * with the observers of the old list that were open, in order; no
   * observer changes state. Every observer left on the list has nothing
   * pending unless it holds a NaN. When no open observer had anything
   * pending or a NaN, one pass is run; when no open observer held a NaN,
   * at most two. The logs of the observers `leaves` and `compounds` grow
   * by one report per visit that found a change on an observer with a
   * callback, and not at all when that single pass ran. The flag the
   * source raises for the passes is left down: no callback runs here, so
   * nothing could see it raised.
   */
  method PerformMicrotaskCheckpoint(rt: Runtime, objs: map<ObjId, JsObject>, ghost leaves: set<Observer>, ghost compounds: set<CompoundObserver>)
    returns (cycles: nat, ghost found: seq<bool>, ghost sweeps: seq<seq<bool>>)
    requires forall o :: o in rt.allObservers ==> Sound(o)
    modifies rt`allObservers, rt`allObserversCount, rt`errorThrownDuringCallback
    modifies Leaves(rt.allObservers), Compounds(rt.allObservers), SubsBy(rt.allObservers, Marks(rt.allObservers))
    ensures old(rt.runningMicrotaskCheckpoint) ==>
      cycles == 0 && found == [] && sweeps == [] && unchanged(rt) && Logs(leaves, compounds) == old(Logs(leaves, compounds))
    ensures !old(rt.runningMicrotaskCheckpoint) ==>
      Swept(rt, objs, leaves, compounds, old(rt.allObservers), old(Marks(rt.allObservers)), old(Logs(leaves, compounds)),
            old(Quiet(objs, rt.allObservers)), old(NaNFree(objs, rt.allObservers)), cycles, found, sweeps)
    ensures rt.runningMicrotaskCheckpoint == old(rt.runningMicrotaskCheckpoint)
    ensures rt.allObserversCount == old(rt.allObserversCount) && rt.nextObserverId == old(rt.nextObserverId)
    ensures old(rt.errorThrownDuringCallback) ==> rt.errorThrownDuringCallback
  {
    if rt.runningMicrotaskCheckpoint {
      return 0, [], [];
    }
    cycles, found, sweeps := RunPasses(rt, objs, leaves, compounds);
  }


  /**
   * What the checkpoint's passes achieve on the list `os`, whose observers
   * were in the states `marks` and had the logs `logs`, and whose open
   * observers all had nothing pending (`quiet`) or held no NaN (`noNaN`):
   * `cycles` passes ran, each but the last found a change and the last
   * found none unless `MAX_DIRTY_CHECK_CYCLES` passes ran; `found` and
   * `sweeps` tell, pass by pass and visit by visit, what they found. Every
   * log grew by one report per visit that found a change on an observer
   * with a callback. The list holds the observers of `os` that were open,
   * in order; no observer changed state, and none on the list has anything
   * pending unless it holds a NaN. A quiet list takes one pass and no log
   * grows; a list without NaNs takes at most two.
   */
  ghost predicate Swept(rt: Runtime, objs: map<ObjId, JsObject>, leaves: set<Observer>, compounds: set<CompoundObserver>,
                        os: seq<Observable>, marks: map<Observable, Mark>, logs: map<Observable, seq<Change>>,
                        quiet: bool, noNaN: bool, cycles: nat, found: seq<bool>, sweeps: seq<seq<bool>>)
    reads rt, Leaves(os), Compounds(os), Leaves(Kept(os, marks)), Compounds(Kept(os, marks)), SubsOf(Kept(os, marks))`value
    reads leaves`reports, compounds`reports
  {
    1 <= cycles <= MaxDirtyCheckCycles && |found| == cycles && |sweeps| == cycles &&
    ChangedUntilLast(found) && (cycles < MaxDirtyCheckCycles ==> !found[cycles - 1]) &&
    (forall k :: 0 <= k < cycles ==> (found[k] <==> true in sweeps[k])) &&
    Grew(logs, Logs(leaves, compounds), Rounds(os, marks, cycles), Flatten(sweeps), marks) &&
    rt.allObservers == Kept(os, marks) && Settled(os, marks) && Cleaned(objs, Kept(os, marks)) &&
    (quiet ==> cycles == 1 && Logs(leaves, compounds) == logs) &&
    (noNaN ==> cycles <= 2)
  }

  /** Every open well-formed observer on `os` has nothing pending and no NaN. */
  ghost predicate Quiet(objs: map<ObjId, JsObject>, os: seq<Observable>)
    reads Leaves(os), Compounds(os), SubsOf(os)`value
  {
    forall o :: o in os && Sound(o) && StateOf(o) == Opened ==> !Dirty(o, objs) && !Persists(o, objs)
  }

  /** No open observer on `os` holds a NaN. */
  ghost predicate NaNFree(objs: map<ObjId, JsObject>, os: seq<Observable>)
    reads Leaves(os), Compounds(os)
  {
    forall o :: o in os && StateOf(o) == Opened ==> !Persists(o, objs)
  }

  /** Every observer on `os` is well formed and has nothing pending unless it holds a NaN. */
  ghost predicate Cleaned(objs: map<ObjId, JsObject>, os: seq<Observable>)
    reads Leaves(os), Compounds(os), SubsOf(os)`value
  {
    forall o :: o in os ==> Sound(o) && (!Persists(o, objs) ==> !Dirty(o, objs))
  }

  /**
   * What the checkpoint records before its first pass: `vals` covers the
   * observers compounds observe and agrees with them, `nan` holds the
   * observers with a NaN and `calm` the calm ones; an open observer with
   * nothing pending and no NaN is calm.
   */
  lemma CalmAtStart(os: seq<Observable>, marks: map<Observable, Mark>, objs: map<ObjId, JsObject>)
    returns (vals: map<Observer, SubRecord>, nan: set<Observable>, calm: set<Observable>)
    requires Settled(os, marks) && marks == Marks(os)
    ensures Covers(os, marks, vals) && Agrees(objs, vals, vals.Keys) && NaNExactly(objs, os, nan) && CalmAll(objs, vals, os, calm)
    ensures Quiet(objs, os) ==> forall o :: o in os && marks[o].state == Opened ==> o in calm
    ensures NaNFree(objs, os) ==> forall o :: o in os && marks[o].state == Opened ==> o !in nan
  {
    vals := map s | s in SubsBy(os, marks) :: RecordOf(objs, s);
    nan := set o | o in os && Persists(o, objs);
    calm := set o | o in os && CalmOn(o, objs, vals);
    assert Covers(os, marks, vals) && Agrees(objs, vals, vals.Keys);
    forall o | o in os {
      CalmOnAgrees(o, os, marks, objs, vals);
    }
  }

  /** After one pass or more the list holds the observers recorded as open, and none of them has anything pending unless it holds a NaN. */
  lemma CyclesDone(rt: Runtime, objs: map<ObjId, JsObject>, os: seq<Observable>, marks: map<Observable, Mark>,
                   vals: map<Observer, SubRecord>, nan: set<Observable>, calm: set<Observable>,
                   leaves: set<Observer>, compounds: set<CompoundObserver>,
                   start: map<Observable, seq<Change>>, cycles: nat, sweeps: seq<seq<bool>>)
    requires cycles >= 1 && Cycling(rt, objs, os, marks, vals, nan, calm, leaves, compounds, start, cycles, sweeps)
    ensures rt.allObservers == Kept(os, marks) && Settled(os, marks) && Cleaned(objs, rt.allObservers)
    ensures |sweeps| == cycles && Grew(start, Logs(leaves, compounds), Rounds(os, marks, cycles), Flatten(sweeps), marks)
  {
    CalmAfterPasses(os, marks, objs, vals, nan, calm);
  }

  /** After the passes, an observer left on the list has nothing pending unless it holds a NaN. */
  lemma CalmAfterPasses(os: seq<Observable>, marks: map<Observable, Mark>, objs: map<ObjId, JsObject>,
                        vals: map<Observer, SubRecord>, nan: set<Observable>, calm: set<Observable>)
    requires Settled(os, marks) && Covers(os, marks, vals) && Agrees(objs, vals, vals.Keys) && NaNExactly(objs, os, nan)
    requires CalmAll(objs, vals, os, calm + Cleared(os, marks, nan))
    ensures Cleaned(objs, Kept(os, marks))
  {
    KeptExactly(os, marks);
    forall o | o in Kept(os, marks) ensures Sound(o) && (!Persists(o, objs) ==> !Dirty(o, objs)) {
      assert Tracked(o);
      CalmOnAgrees(o, os, marks, objs, vals);
    }
  }

  /**
   * The checkpoint once past its re-entry test (dist/aj.js:1700-1730):
   * records the list, the observers' states and the logs, runs the passes
   * and draws what they achieve. Every log grows by one report per visit
   * that found a change on an observer with a callback; when no open
   * observer had anything pending, one pass runs and no log grows.
   */
  method RunPasses(rt: Runtime, objs: map<ObjId, JsObject>, ghost leaves: set<Observer>, ghost compounds: set<CompoundObserver>)
    returns (cycles: nat, ghost found: seq<bool>, ghost sweeps: seq<seq<bool>>)
    requires forall o :: o in rt.allObservers ==> Sound(o)
    modifies rt`allObservers, rt`allObserversCount, rt`errorThrownDuringCallback
    modifies Leaves(rt.allObservers), Compounds(rt.allObservers), SubsBy(rt.allObservers, Marks(rt.allObservers))
    ensures Swept(rt, objs, leaves, compounds, old(rt.allObservers), old(Marks(rt.allObservers)), old(Logs(leaves, compounds)),
                  old(Quiet(objs, rt.allObservers)), old(NaNFree(objs, rt.allObservers)), cycles, found, sweeps)
    ensures rt.allObserversCount == old(rt.allObserversCount)
    ensures old(rt.errorThrownDuringCallback) ==> rt.errorThrownDuringCallback
  {
    ghost var os := rt.allObservers;
    ghost var marks := Marks(os);
    ghost var quiet := Quiet(objs, os);
    ghost var noNaN := NaNFree(objs, os);
    SettledAtStart(os);
    ghost var vals, nan, calm := CalmAtStart(os, marks, objs);
    ghost var logs := Logs(leaves, compounds);
    assert Cycling(rt, objs, os, marks, vals, nan, calm, leaves, compounds, logs, 0, []);
    ghost var last;
    cycles, last, sweeps := Passes(rt, objs, os, marks, vals, nan, calm, leaves, compounds, logs);
    found := Trues(cycles - 1) + [last];
    TruesThen(cycles - 1, last);
    CyclesDone(rt, objs, os, marks, vals, nan, calm, leaves, compounds, logs, cycles, sweeps);
    if cycles == 1 && !found[0] {
      assert Flatten(sweeps) == sweeps[0] by { assert sweeps[..0] == []; }
      GrewNothing(logs, Logs(leaves, compounds), Rounds(os, marks, 1), Flatten(sweeps), marks);
    }
  }


  /**
   * The loop of the checkpoint (dist/aj.js:1706-1724): passes run until
   * one finds no change or `MAX_DIRTY_CHECK_CYCLES` passes ran; `found`
   * tells, pass by pass, whether it found a change. The first pass leaves
   * every open observer without a NaN calm, so the second finds no change
   * when there is no NaN; when every open observer is calm to begin with,
   * the first finds none.
   */
  method Passes(rt: Runtime, objs: map<ObjId, JsObject>, ghost os: seq<Observable>, ghost marks: map<Observable, Mark>,
                ghost vals: map<Observer, SubRecord>, ghost nan: set<Observable>, ghost calm: set<Observable>,
                ghost leaves: set<Observer>, ghost compounds: set<CompoundObserver>,
                ghost start: map<Observable, seq<Change>>)
    returns (cycles: nat, ghost last: bool, ghost sweeps: seq<seq<bool>>)
    requires Cycling(rt, objs, os, marks, vals, nan, calm, leaves, compounds, start, 0, [])
    modifies rt`allObservers, rt`allObserversCount, rt`errorThrownDuringCallback
    modifies Leaves(os), Compounds(os), SubsBy(os, marks)
    ensures 1 <= cycles <= MaxDirtyCheckCycles && (cycles < MaxDirtyCheckCycles ==> !last)
    ensures |sweeps| == cycles && (last <==> true in sweeps[cycles - 1]) && forall k :: 0 <= k < cycles - 1 ==> true in sweeps[k]
    ensures Cycling(rt, objs, os, marks, vals, nan, calm, leaves, compounds, start, cycles, sweeps)
    ensures rt.allObserversCount == old(rt.allObserversCount)
    ensures old(rt.errorThrownDuringCallback) ==> rt.errorThrownDuringCallback
    ensures (forall o :: o in os && marks[o].state == Opened ==> o in calm) ==> cycles == 1
    ensures (forall o :: o in os && marks[o].state == Opened ==> o !in nan) ==> cycles <= 2
  {
    ghost var quiet := forall o :: o in os && marks[o].state == Opened ==> o in calm;
    ghost var noNaN := forall o :: o in os && marks[o].state == Opened ==> o !in nan;
    cycles := 0;
    sweeps := [];
    while true
      invariant cycles < MaxDirtyCheckCycles
      invariant Cycling(rt, objs, os, marks, vals, nan, calm, leaves, compounds, start, cycles, sweeps)
      invariant forall k :: 0 <= k < cycles ==> true in sweeps[k]
      invariant rt.allObserversCount == old(rt.allObserversCount)
      invariant old(rt.errorThrownDuringCallback) ==> rt.errorThrownDuringCallback
      invariant quiet ==> cycles == 0
      invariant noNaN ==> cycles <= 1
      decreases MaxDirtyCheckCycles - cycles
    {
      var anyChanged, hits := Cycle(rt, objs, os, marks, vals, nan, calm, leaves, compounds, start, cycles, sweeps);
      cycles := cycles + 1;
      sweeps := sweeps + [hits];
      last := anyChanged;
      if !(cycles < MaxDirtyCheckCycles && anyChanged) {
        break;
      }
    }
  }

  /**
   * What holds after `cycles` passes: every observer is as `marks` records
   * it, those `vals` covers agree with it, the NaNs are `nan`, the calm
   * observers are calm and, after a pass, so is every open observer
   * without a NaN; the list holds the whole list or, after a pass, the
   * observers recorded as open; and the logs grew from `start` by the
   * visits of the passes, whose findings are `sweeps`.
   */
  ghost predicate Cycling(rt: Runtime, objs: map<ObjId, JsObject>, os: seq<Observable>, marks: map<Observable, Mark>,
                          vals: map<Observer, SubRecord>, nan: set<Observable>, calm: set<Observable>,
                          leaves: set<Observer>, compounds: set<CompoundObserver>,
                          start: map<Observable, seq<Change>>, cycles: nat, sweeps: seq<seq<bool>>)
    reads rt`allObservers, Leaves(os), Compounds(os), SubsBy(os, marks), vals.Keys, leaves`reports, compounds`reports
  {
    Settled(os, marks) && Covers(os, marks, vals) && Agrees(objs, vals, vals.Keys) && NaNExactly(objs, os, nan) &&
    CalmAll(objs, vals, os, if cycles == 0 then calm else calm + Cleared(os, marks, nan)) &&
    rt.allObservers == (if cycles == 0 then os else Kept(os, marks)) &&
    |sweeps| == cycles && |Flatten(sweeps)| == |Rounds(os, marks, cycles)| &&
    Grew(start, Logs(leaves, compounds), Rounds(os, marks, cycles), Flatten(sweeps), marks)
  }

  /**
   * One more pass of the checkpoint's loop: the first pass finds no
   * change when every open observer is calm, and a later one finds none
   * when no open observer holds a NaN.
   */
  method Cycle(rt: Runtime, objs: map<ObjId, JsObject>, ghost os: seq<Observable>, ghost marks: map<Observable, Mark>,
               ghost vals: map<Observer, SubRecord>, ghost nan: set<Observable>, ghost calm: set<Observable>,
               ghost leaves: set<Observer>, ghost compounds: set<CompoundObserver>,
               ghost start: map<Observable, seq<Change>>, ghost cycles: nat, ghost sweeps: seq<seq<bool>>)
    returns (anyChanged: bool, ghost hits: seq<bool>)
    requires Cycling(rt, objs, os, marks, vals, nan, calm, leaves, compounds, start, cycles, sweeps)
    modifies rt`allObservers, rt`allObserversCount, rt`errorThrownDuringCallback, Leaves(os), Compounds(os), SubsBy(os, marks)
    ensures Cycling(rt, objs, os, marks, vals, nan, calm, leaves, compounds, start, cycles + 1, sweeps + [hits])
    ensures anyChanged <==> true in hits
    ensures cycles == 0 && (forall o :: o in os && marks[o].state == Opened ==> o in calm) ==> !anyChanged
    ensures cycles > 0 && (forall o :: o in os && marks[o].state == Opened ==> o !in nan) ==> !anyChanged
    ensures rt.allObserversCount == old(rt.allObserversCount)
    ensures old(rt.errorThrownDuringCallback) ==> rt.errorThrownDuringCallback
  {
    ghost var before := if cycles == 0 then calm else calm + Cleared(os, marks, nan);
    if cycles > 0 {
      KeptTwice(os, marks);
      KeptExactly(os, marks);
      ClearedKept(os, marks, nan);
      assert (forall o :: o in os && marks[o].state == Opened ==> o !in nan) ==>
        forall o :: o in Kept(os, marks) && marks[o].state == Opened ==> o in before;
    }
    ghost var list := rt.allObservers;
    ghost var logs := Logs(leaves, compounds);
    anyChanged, hits := Pass(rt, objs, os, marks, vals, nan, before, leaves, compounds);
    GrewTrans(start, logs, Logs(leaves, compounds), Rounds(os, marks, cycles), Flatten(sweeps), list, hits, marks);
    FlattenSnoc(sweeps, hits);
    if cycles == 0 {
      assert Cleared(os, marks, nan) == Cleared(rt.allObservers, marks, nan) by { ClearedKept(os, marks, nan); }
    }
  }

}
