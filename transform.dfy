/**
 * ObserverTransform (dist/aj.js:2068-2125): a decorator over another
 * observer that hands on its values through `getValueFn` and writes
 * through `setValueFn`. The observer it decorates is a path, object or
 * array observer here.
 */
module Transforms {
  import opened JsCore
  import opened Paths
  import opened Observe

  /** What calling a method of the decorated observer raises once `close` has dropped it. */
  const DroppedObservable: string := "TypeError: observable_ is undefined"

  class ObserverTransform {
    var observable: Option<Observer>
    const getValueFn: Value -> Value
    const setValueFn: Value -> Value
    const dontPassThroughSet: bool
    var callback: Option<Callback>
    var value: Value
    var reports: seq<Change>

    /** The decorated observer, while there is one, is well formed. */
    ghost predicate Valid()
      reads this`observable, Inner()`state, Inner()`snapshot
    {
      observable.Some? ==> observable.value.Valid()
    }

    /** The decorated observer, as a set for frames. */
    function Inner(): set<Observer>
      reads this`observable
    {
      if observable.Some? then {observable.value} else {}
    }

    /**
     * `new ObserverTransform(observable, getValueFn, setValueFn,
     * dontPassThroughSet)` (dist/aj.js:2070-2081): a missing function is
     * the identity; no callback, value undefined.
     */
    constructor (observable: Observer, getValueFn: Option<Value -> Value>, setValueFn: Option<Value -> Value>, dontPassThroughSet: bool)
      requires observable.Valid()
      ensures this.observable == Some(observable) && this.dontPassThroughSet == dontPassThroughSet
      ensures forall v :: this.getValueFn(v) == if getValueFn.Some? then getValueFn.value(v) else v
      ensures forall v :: this.setValueFn(v) == if setValueFn.Some? then setValueFn.value(v) else v
      ensures callback == None && value == Undefined && reports == [] && Valid()
    {
      this.observable := Some(observable);
      var ident: Value -> Value := v => v;  // `identFn` (dist/aj.js:2068)
      var get: Value -> Value := if getValueFn.Some? then getValueFn.value else ident;
      var put: Value -> Value := if setValueFn.Some? then setValueFn.value else ident;
      this.getValueFn := get;
      this.setValueFn := put;
      this.dontPassThroughSet := dontPassThroughSet;
      callback := None;
      value := Undefined;
      reports := [];
    }

    /**
     * `open` (dist/aj.js:2084-2090): keeps the callback, opens the
     * decorated observer with `observedCallback_` and holds the projection
     * of what that returns: the path's value, or the object or array
     * watched. Opening it twice throws what its `open` throws.
     */
    method Open(rt: Runtime, objs: map<ObjId, JsObject>, cb: Option<Callback>) returns (r: Result<Value>)
      requires Valid()
      modifies this`callback, this`value, rt`allObservers, rt`allObserversCount, rt`errorThrownDuringCallback
      modifies Inner()`state, Inner()`callback, Inner()`value, Inner()`snapshot, Inner()`reports
      ensures callback == cb && Valid() && reports == old(reports)
      ensures rt.errorThrownDuringCallback == old(rt.errorThrownDuringCallback)
      ensures observable.None? ==> r == Throw(DroppedObservable) && value == old(value) && unchanged(rt)
      ensures observable.Some? && old(observable.value.state) != Unopened ==>
        r == Throw("Observer has already been opened.") && value == old(value) && unchanged(rt) && unchanged(observable.value)
      ensures observable.Some? && old(observable.value.state) == Unopened ==>
        var inner := observable.value;
        r == Ok(value) && value == getValueFn(SubValue(objs, inner)) &&
        inner.state == Opened && inner.callback == Some(Relay) && inner.Baseline(objs) &&
        rt.allObservers == old(rt.allObservers) + [Single(inner)] && rt.allObserversCount == old(rt.allObserversCount) + 1
    {
      callback := cb;
      if observable.None? {
        return Throw(DroppedObservable);
      }
      var res := observable.value.Open(rt, objs, Some(Relay));
      if res.Throw? {
        return Throw(res.message);
      }
      value := getValueFn(res.value);
      r := Ok(value);
    }

    /**
     * `observedCallback_` (dist/aj.js:2092-2099), called with the value the
     * decorated observer reports: the projection replaces the value and is
     * reported with the old one only when it is not the same value;
     * otherwise nothing happens. What the callback raises reaches the
     * decorated observer's `report_`, which only sets the error flag; once
     * closed, the missing `getValueFn` raises there.
     */
    method Observed(rt: Runtime, v: Value) returns (reported: bool)
      modifies this`value, this`reports, rt`errorThrownDuringCallback
      ensures reported <==> observable.Some? && !AreSameValue(getValueFn(v), old(value))
      ensures value == (if reported then getValueFn(v) else old(value))
      ensures reports == old(reports) + (if reported then Delivered(callback, PathChange(getValueFn(v), old(value))) else [])
      ensures rt.errorThrownDuringCallback ==
        (old(rt.errorThrownDuringCallback) || observable.None? || (reported && Raises(callback)))
    {
      if observable.None? {
        rt.errorThrownDuringCallback := true;
        return false;
      }
      var projected := getValueFn(v);
      if AreSameValue(projected, value) {
        return false;
      }
      var oldValue := value;
      value := projected;
      if callback.Some? {
        reports := reports + [PathChange(value, oldValue)];
      }
      if Raises(callback) {
        rt.errorThrownDuringCallback := true;
      }
      reported := true;
    }

    /**
     * `deliver` (dist/aj.js:2106-2108): the decorated observer's dirty
     * check; a change a path observer finds reaches `observedCallback_`
     * when the observer was opened with it. An object or array observer
     * hands `observedCallback_` the record of added properties or the
     * splices, an object `report_` builds afresh that the value model does
     * not hold: its changes stay in that observer's log.
     */
    method Deliver(rt: Runtime, objs: map<ObjId, JsObject>) returns (r: Result<()>)
      requires Valid()
      modifies this`value, this`reports, rt`errorThrownDuringCallback, Inner()`value, Inner()`snapshot, Inner()`reports
      ensures Valid()
      ensures observable.None? ==> r == Throw(DroppedObservable) && unchanged(this) && unchanged(rt)
      ensures observable.Some? ==>
        var inner := observable.value;
        var found := old(inner.state) == Opened && old(inner.HasChanges(objs));
        var projected := getValueFn(SubValue(objs, inner));
        var reported := found && inner.kind.PathKind? && inner.callback == Some(Relay) && !AreSameValue(projected, old(value));
        r == Ok(()) &&
        (found ==> inner.Baseline(objs)) && (!found ==> unchanged(inner)) &&
        inner.reports == old(inner.reports) + old(inner.DirtyLog(objs)) &&
        value == (if reported then projected else old(value)) &&
        reports == old(reports) + (if reported then Delivered(callback, PathChange(projected, old(value))) else []) &&
        rt.errorThrownDuringCallback ==
          (old(rt.errorThrownDuringCallback) || (found && Raises(inner.callback)) || (reported && Raises(callback)))
    {
      if observable.None? {
        return Throw(DroppedObservable);
      }
      var inner := observable.value;
      var cycles := inner.Deliver(rt, objs);
      if cycles > 0 && inner.kind.PathKind? && inner.callback == Some(Relay) {
        var _ := Observed(rt, inner.value);
      }
      r := Ok(());
    }

    /**
     * `discardChanges` (dist/aj.js:2101-2104): the decorated observer takes
     * a new baseline without reporting, and its value's projection becomes
     * the value.
     */
    method DiscardChanges(rt: Runtime, objs: map<ObjId, JsObject>) returns (r: Result<Value>)
      requires Valid()
      modifies this`value, rt`errorThrownDuringCallback, Inner()`value, Inner()`snapshot, Inner()`reports
      ensures Valid() && reports == old(reports) && rt.errorThrownDuringCallback == old(rt.errorThrownDuringCallback)
      ensures observable.None? ==> r == Throw(DroppedObservable) && value == old(value)
      ensures observable.Some? ==>
        var inner := observable.value;
        r == Ok(value) && value == getValueFn(SubValue(objs, inner)) && inner.Baseline(objs)
    {
      if observable.None? {
        return Throw(DroppedObservable);
      }
      var v := observable.value.DiscardChanges(rt, objs);
      value := getValueFn(v);
      r := Ok(value);
    }

    /**
     * `setValue` (dist/aj.js:2110-2114): the value goes through
     * `setValueFn` and, unless `dontPassThroughSet`, is written through the
     * decorated observer when it is a path observer, the only kind with a
     * `setValue`.
     */
    method SetValue(h: Heap, v: Value) returns (r: Result<()>)
      requires Valid()
      modifies h
      ensures observable.None? ==> r == Throw(DroppedObservable) && unchanged(h)
      ensures observable.Some? ==>
        var inner := observable.value;
        r == Ok(()) && h.next == old(h.next) &&
        h.objs == if dontPassThroughSet || !inner.kind.PathKind? then old(h.objs)
                  else PathWrite(old(h.objs), inner.kind.target, inner.kind.path, setValueFn(v))
    {
      if observable.None? {
        return Throw(DroppedObservable);
      }
      var written := setValueFn(v);
      if !dontPassThroughSet && observable.value.kind.PathKind? {
        observable.value.SetValue(h, written);
      }
      r := Ok(());
    }

    /**
     * `close` (dist/aj.js:2116-2125): closes the decorated observer, if
     * there still is one, and drops it, the callback and the value.
     */
    method Close(rt: Runtime)
      requires Valid()
      modifies this`observable, this`callback, this`value, rt`allObserversCount
      modifies Inner()`state, Inner()`callback, Inner()`value, Inner()`snapshot
      ensures observable == None && callback == None && value == Undefined && Valid()
      ensures old(observable).None? ==> unchanged(rt)
      ensures old(observable).Some? ==>
        var inner := old(observable).value;
        inner.state == (if old(inner.state) == Opened then Closed else old(inner.state)) &&
        rt.allObserversCount == old(rt.allObserversCount) - (if old(inner.state) == Opened then 1 else 0)
    {
      if observable.Some? {
        observable.value.Close(rt);
      }
      observable := None;
      callback := None;
      value := Undefined;
    }
  }
}
