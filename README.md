# asta4js observation core in Dafny

asta4js binds page elements to a JavaScript scope object. It notices changes
in that scope through a bundled copy of observe-js, in `dist/aj.js`. On
engines without `Object.observe` (`hasObserve == false`), observe-js is a
dirty-checking engine:

- Every observer keeps a baseline.
- `Platform.performMicrotaskCheckpoint` re-checks all open observers, at most
  1000 times, until none finds a change.
- A path observer compares one value.
- An object observer diffs the own properties against a snapshot.
- An array observer reports the splices that turn the snapshot into the array.
- A compound observer reports a vector of values together with the old values
  at the positions that changed.

Around the engine the model covers:

- the path language: `parsePath`, `Path.toString`, `getValueFrom`,
  `setValueFrom` and the `Path.get` cache;
- the splice calculation: a Levenshtein walk in which an update costs two;
- `ObserverTransform`;
- the bundle's resource bookkeeping (`ResourceList` and `ResourceMap`) and its
  array helpers (`arrayUtil`, `moveUp`, `moveDown`);
- from `src/aj.js`: the `ObserverMap` rings of observer items,
  `removeArrayObserver`, `__replaceIndexesInPath`, `createUID`, the ordered
  meta-rewriter table and `__createAndRetrieveSubMetaRef`;
- from `src/value-monitor.js`: the path-text helpers (`concatPath`,
  `convertObservePath`, `transferToSafePropertyPath`), the spawning write
  `setValueWithSpawn`, the value references of `getValueRef` and
  `getCompoundValueRef`, and `getMonitro`.

## How the model is organised

- **Values.** JavaScript values are a datatype (`JsCore.Value`): undefined,
  null, booleans, NaN, -0, integers, strings and object references.
- **Objects.** Objects live in a heap, either as a map of ids to plain objects
  and arrays or as the `JsCore.Heap` class when an operation allocates.
- **Code that changes state in place becomes classes with loops.** This covers
  the observers, the runtime lists, `ResourceList`/`ResourceMap`,
  `ObserverMap`, the path cache and the monitors. Each method is proved
  against a specification function.
- **Code that only computes becomes functions with lemmas.** This covers the
  parser machine, the splice matrix and walk, and the text helpers.

Module by file:

| file | module | covers |
|---|---|---|
| `js_core.dfy` | `JsCore` | values, `===`, `areSameValue`, `isIdent`, `isIndex`, own properties, `String.replace` with a string pattern, the heap |
| `path_parser.dfy` | `PathParser` | `getPathCharType`, the `pathStateMachine` table, `parsePath`, `formatAccessor`/`toString`, the print-then-parse round trip |
| `paths.dfy` | `Paths` | `Path`, `getValueFrom`, `setValueFrom`, `getPath` and its cache |
| `diffs.dfy` | `Diffs` | `diffObjectFromOldObject`, `diffIsEmpty` |
| `array_splice.dfy` | `ArraySplice` | `calcEditDistances`, `spliceOperationsFromEditDistances`, `calcSplices`, `sharedPrefix`, `sharedSuffix`, `applySplices` |
| `observers.dfy` | `Observe` | the observer family, `dirtyCheck`, `addToAll`, `performMicrotaskCheckpoint` |
| `transform.dfy` | `Transforms` | `ObserverTransform` |
| `resources.dfy` | `Resources` | `discardNode`, `ResourceList`, `ResourceMap` |
| `array_util.dfy` | `ArrayUtil` | `swap`, `arrayLengthAdjust`, `regulateArray`, `moveUp`, `moveDown` |
| `observer_map.dfy` | `ObserverMaps` | `ObserverMap`, `Scope.removeArrayObserver` |
| `aj_util.dfy` | `AjUtil` | `__replaceIndexesInPath`, `createUID`, `__getOrderedMetaRewritter`, `__createAndRetrieveSubMetaRef` |
| `path_text.dfy` | `PathText` | `concatPath`, `convertObservePath`, `transferToSafePropertyPath` |
| `value_monitor.dfy` | `ValueMonitors` | `setValueWithSpawn`, `getValueRef`, `getCompoundValueRef`, `VirtualScopeMonitorWrapper.getMonitro` |

## Model

| member | source | states |
|---|---|---|
| JsCore.AreSameValueIsIdentity | dist/aj.js:1005-1012 | `areSameValue` (NaN equals NaN; +0 and -0 differ) is exactly identity of values |
| JsCore.StrictEqualsVersusIdentity | dist/aj.js:1005-1012 | `===` departs from identity only on the two zeros, which it equates, and on NaN, which it does not equate with itself |
| JsCore.NatToString | dist/aj.js:989-991 | `String(n)` is a non-empty digit string without a leading zero |
| JsCore.NatToStringInjective | dist/aj.js:989-991 | different numbers have different decimal spellings |
| JsCore.CanonicalDigitsSpelling | dist/aj.js:989-991 | a digit string without a leading zero is the spelling of its own value, so `+s === s >>> 0` holds of it |
| JsCore.IsIndex | dist/aj.js:989-991 | a string taken for an index is non-empty, made of numeral characters only, and holds a decimal digit, as `+s === s >>> 0` requires |
| JsCore.IndexSpelling | dist/aj.js:989-991 | the spelling of every number below 2^32 is an index without a leading zero |
| JsCore.ArrayIndex | dist/aj.js:989-991 | a key names an array element only when it spells that element's index |
| JsCore.OwnProps | dist/aj.js:1760-1768 | `for (var prop in o)` visits a plain object's own properties; on an array it visits exactly the spelled indices, each with its element |
| JsCore.SetPropertyReadBack | dist/aj.js:1337 | a property written into a plain object is read back, and every other key keeps its value |
| JsCore.ReplaceFirstChar | src/value-monitor.js:21-29 | `s.replace(c, t)` replaces the first occurrence of `c` and nothing else |
| JsCore.ReplaceFirstAbsent | src/value-monitor.js:21-29 | without an occurrence the string is returned unchanged |
| JsCore.ReplaceFirstMultiset | src/value-monitor.js:21-29 | a replacement removes exactly one `c` and adds the characters of the token |
| JsCore.Heap.Alloc | src/aj.js:564-588 | `{}` and `[]` allocate an object with a new id and leave every existing object unchanged |
| PathParser.GetPathCharType | dist/aj.js:1032-1071 | each character class holds exactly the characters the source assigns to it: end of text, identifier start, digits 1-9, `0` and white space |
| PathParser.Transition | dist/aj.js:1073-1139 | exactly end of input leads to `afterPath`; only `beforePath` returns to itself; inside quotes every other character has a move; only the modes that hold a key or an index push one |
| PathParser.EofEndsTheMachine | dist/aj.js:1073-1139 | from every mode, end of input leads either to `afterPath` or to an error |
| PathParser.ParsePath | dist/aj.js:1143-1204 | the character loop returns exactly what the machine `Parse` accepts, and undefined on a parse error |
| PathParser.FormatAccessor | dist/aj.js:1259-1265 | the accessor is bracketed and at least two characters longer than the key; it is printed without quotes exactly when the key is taken for an index |
| PathParser.PathString | dist/aj.js:1271-1283 | the text is empty exactly for the empty path, and ends in `]` after a last key that is no identifier |
| PathParser.PathStringNext | dist/aj.js:1274-1281 | the text of the first `i + 1` keys is that of the first `i`, then key `i`'s piece |
| PathParser.QuotedRun | dist/aj.js:1263 | a key escaped by `formatAccessor` is read back, inside double quotes, as the key itself |
| PathParser.PrefixRun | dist/aj.js:1271-1283 | after the printed text of the first `n` printable keys the machine sits in the state that holds those `n` keys |
| PathParser.EndRun | dist/aj.js:1143-1204 | at the end of the text, the state after `n` keys yields those keys |
| PathParser.PrintThenParse | dist/aj.js:1259-1283 | `parsePath(toString(keys))` gives back the keys, for every key list whose keys are `Printable`: identifiers, canonical indices, the empty key, and other keys that neither end in a backslash nor are ones `isIndex` may take for an index (numeral characters only, with a decimal digit or all white space) |
| PathParser.QuotedKeysRoundTrip | dist/aj.js:1259-1283 | keys `isIndex` rejects whatever `+s` makes of them, such as "a.b", "a b" and "-", print quoted and parse back; " 1" and " ", which `isIndex` may take for indices, are not printable |
| PathParser.SpacedNotPrintable | dist/aj.js:989-991 | a key that starts with white space and that `isIndex` may take for an index is outside the round trip |
| PathParser.NoDigitNoIndex | dist/aj.js:989-991 | a key without a decimal digit that does not start with white space is never taken for an index |
| PathParser.DottedPathRoundTrip | dist/aj.js:1143-1204 | `a.b.c` of identifiers parses to its identifiers, and printing them gives back the same text |
| PathParser.BracketIndex | dist/aj.js:1143-1204 | `[n]` parses to the single key `n`, kept as a string |
| PathParser.LeadingZeroRejected | dist/aj.js:1111-1114 | an index that begins with `0` followed by another digit is a parse error |
| PathParser.UnterminatedQuoteRejected | dist/aj.js:1123-1133 | a quote that is never closed is a parse error |
| PathParser.UnclosedQuoteText | dist/aj.js:1123-1133 | any text of the form `[`, a quote, then no second such quote, does not parse |
| PathParser.UnclosedQuoteClasses | dist/aj.js:1032-1071 | in such a text the classes are `[`, the quote's class, and no second such quote |
| PathParser.SpaceSeparatedIdentsRejected | dist/aj.js:1081-1101 | two identifiers separated only by white space are a parse error |
| Paths.ValueAtConcat | dist/aj.js:1285-1292 | reading along `k1 + k2` is reading along `k1`, then along `k2` |
| Paths.NullishReadsUndefined | dist/aj.js:1285-1292 | from null or undefined, every non-empty path reads undefined |
| Paths.NullishStopsRead | dist/aj.js:1285-1292 | once a value before the last key is null or undefined, the whole read is undefined |
| Paths.SetTargetIsRead | dist/aj.js:1324-1339 | the write finds object `id` exactly when every value read before the last key is an object and the last of them is `id` |
| Paths.SetPropertyOtherObject | dist/aj.js:1324-1339 | the write changes no other object |
| Paths.SetThenGet | dist/aj.js:1285-1339 | after a successful `setValueFrom` into a plain object, `getValueFrom` along the same path reads the value written |
| Paths.Path.constructor | dist/aj.js:1212-1223 | a path holds the keys it was built from and its validity |
| Paths.Path.ToString | dist/aj.js:1271-1283 | the loop's text is the printed path `PathString`, which `PrintThenParse` parses back when the keys are printable |
| Paths.Path.GetValueFrom | dist/aj.js:1285-1292 | a valid path reads the value along its keys; the invalid sentinel reads undefined |
| Paths.Path.SetValueFrom | dist/aj.js:1324-1339 | true exactly for a valid non-empty path whose walk reaches an object, and then exactly one property of that object is written; false otherwise, with the heap unchanged |
| Paths.EmptyTextIsEmptyPath | dist/aj.js:1143-1204 | the empty text is a valid path with no keys |
| Paths.EmptyPathReadsRoot | dist/aj.js:1285-1292 | the empty path reads its root back |
| Paths.PathCache.GetPath | dist/aj.js:1228-1255 | a `Path` is returned as it is; a non-empty key list becomes a new uncached path; a text is served from the cache or parsed; a parse failure yields `invalidPath`; a parsed text is cached under itself. Corrected lookup, see Findings |
| Paths.CacheLookupAsWritten | dist/aj.js:1244-1246 | the cache object `{}` finds its own entries, and also every name it inherits that is not its own entry |
| Paths.InheritedNameShadowsPath | dist/aj.js:1244-1246 | `Path.get('toString')` hits the inherited `Object.prototype.toString`, although `toString` parses to a one-key path |
| Diffs.ViewOfWellFormed | dist/aj.js:1371-1406 | the own properties of an array are its indices, so `length` is never among them |
| Diffs.DiffObjectFromOldObject | dist/aj.js:1371-1406 | `removed` holds exactly the old keys that are gone, each mapped to undefined. `added` holds exactly the new keys, with their values. `changed` holds exactly the kept keys whose value is not `===`, and a changed array length; it maps each to the new value |
| Diffs.OldKeysPass | dist/aj.js:1376-1389 | the first loop finds exactly the removed keys and the kept keys whose value changed |
| Diffs.NewKeysPass | dist/aj.js:1391-1396 | the second loop finds exactly the added keys |
| Diffs.DiffDetermined | dist/aj.js:1371-1406 | the three maps are determined by the properties above |
| Diffs.SnapshotDiffEmptyIffNoNaN | dist/aj.js:1365-1406 | an object compared with a fresh copy of itself shows no change exactly when none of its properties holds NaN |
| ArraySplice.CalcEditDistances | dist/aj.js:2221-2251 | every cell of the matrix is the edit distance `Dist` of the two prefixes, counting an update as a deletion plus an addition |
| ArraySplice.FillRow | dist/aj.js:2238-2248 | one inner row gets its distances; the other rows are untouched |
| ArraySplice.SpliceOperationsFromEditDistances | dist/aj.js:2256-2304 | the walk back over the matrix yields exactly the edit trace `Trace` |
| ArraySplice.WalkBackStep | dist/aj.js:2262-2299 | one turn of the walk takes the step `Step` prescribes |
| ArraySplice.TraceWalks | dist/aj.js:2256-2304 | the trace consumes exactly the two ranges, and each edit fits the elements it consumes |
| ArraySplice.LeaveKeepsEqual | dist/aj.js:2282-2290 | the walk keeps an element only where the two arrays agree under `===` |
| ArraySplice.SharedPrefix | dist/aj.js:2411-2416 | the count of leading elements that are `===`, at most the search length |
| ArraySplice.SharedSuffix | dist/aj.js:2418-2426 | the count of trailing elements that are `===`, at most the search length |
| ArraySplice.FoldSplices | dist/aj.js:2363-2408 | the edit loop groups the trace into splices as `FoldEdits` does |
| ArraySplice.CalcSplices | dist/aj.js:2330-2409 | the splices are `CalcSplicesSpec` of the two ranges |
| ArraySplice.TrimWindow | dist/aj.js:2332-2345 | the shared prefix is cut only when both ranges start at 0, and the shared suffix only when both reach the end; the two never overlap |
| ArraySplice.SplicesOfTrimmed | dist/aj.js:2347-2408 | a pure addition, a pure removal, or the folded edit trace, as the trimmed ranges require |
| ArraySplice.CalculateSplices | dist/aj.js:2428-2431 | the splices of the two whole arrays |
| ArraySplice.ApplySplices | dist/aj.js:1870-1881 | the previous array becomes the result of applying every splice in turn with `splice`; no other object changes |
| ArraySplice.FoldSettles | dist/aj.js:2363-2408 | the splices folded from any fitting walk make the array agree with the current one up to the walk's end |
| ArraySplice.SplicesRebuildCurrent | dist/aj.js:1870-1881 | applying the reported splices to the previous array gives an array of the current length that matches it at every position, up to `===` |
| ArraySplice.SplicesRebuildExactly | dist/aj.js:1870-1881 | when neither array holds -0, the rebuilt array is exactly the current one |
| ArraySplice.FoldStepTally | dist/aj.js:2363-2408 | one step of the edit loop keeps the flushed splices non-empty, ascending and separated, inside the range walked, with the lengths tallied |
| ArraySplice.RangeShape | dist/aj.js:2347-2408 | the splices of two ranges are non-empty, ascending, separated and inside the current range, and the current range plus what they remove equals the old range plus what they add |
| ArraySplice.SplicesShape | dist/aj.js:2330-2409 | every reported splice changes something; each ends before the next begins; all end inside the current array; the current length plus the removed count equals the old length plus the added count |
| ArraySplice.NoSplicesIffStrictlyEqual | dist/aj.js:2330-2409 | no splice is reported exactly when the arrays have the same length and are `===` position by position |
| ArraySplice.EditSplicesNonEmpty | dist/aj.js:2363-2408 | two non-empty ranges whose first elements differ yield at least one splice |
| ArraySplice.ApplyAllDrawnFrom | dist/aj.js:1870-1881 | every element of the rebuilt array comes from the previous or the current array |
| ArraySplice.SignedZeroUnreported | dist/aj.js:2433-2435 | `[0]` against `[-0]` reports nothing, so the rebuilt array keeps -0 |
| ArraySplice.NaNAlwaysReported | dist/aj.js:2433-2435 | an unchanged `[NaN]` reports a one-element replacement |
| ArraySplice.AppendReported | dist/aj.js:2356-2357 | appending one element is reported as a single addition at the old length |
| ArraySplice.ReplacementReported | dist/aj.js:2363-2408 | replacing one middle element is reported as a single one-for-one splice at its position |
| Observe.ArraySnapshotSplicesIffNaN | dist/aj.js:1844-1867 | an array compared with its fresh copy reports no splice exactly when it holds no NaN |
| Observe.SetAt | dist/aj.js:2054 | `oldValues[i] = v` sets position `i` and leaves every other position as it was |
| Observe.ChangedPositions | dist/aj.js:2044-2056 | the sparse `oldValues`: exactly the positions whose value is no longer the same value, each holding its previous value |
| Observe.SettledVectorUnchanged | dist/aj.js:2044-2056 | a vector that already holds every entry's value reports no change |
| Observe.ChangedPositionsDetermined | dist/aj.js:2044-2056 | `oldValues` is determined by the positions that changed |
| Observe.SubStepAsWritten | dist/aj.js:2036-2040 | as written, reading an observer entry throws exactly when the compound is unopened and the observer is not |
| Observe.SubStep | dist/aj.js:2036-2040 | the corrected choice opens only an unopened observer, agrees with the code wherever that does not throw, and only discards once the compound is open |
| Observe.ReportOnOpenCompoundThrowsAsWritten | dist/aj.js:2036-2040 | as written, a compound with `reportChangesOnOpen` throws "Observer has already been opened." on `open`, because `addObserver` already opened its observer |
| Observe.Runtime.constructor | dist/aj.js:1671-1691 | no observers, count 0, no checkpoint running, ids starting at 1 |
| Observe.Runtime.AddToAll | dist/aj.js:1679-1685 | the observer is appended to the list and counted |
| Observe.Runtime.RemoveFromAll | dist/aj.js:1687-1689 | only the count drops |
| Observe.Runtime.ClearObservers | dist/aj.js:1734-1736 | the list is emptied |
| Observe.Observer.BaselineLeavesOnlyPersistentChanges | dist/aj.js:1348-1357 | against a fresh baseline, a path observer never finds a change, and an object or array observer finds one exactly when NaN keeps it alive |
| Observe.Observer.PathObserver | dist/aj.js:1883-1889 | a new unopened path observer takes the next id |
| Observe.Observer.ObjectObserver | dist/aj.js:1739-1743 | a new unopened object observer takes the next id and holds its object |
| Observe.Observer.ArrayObserver | dist/aj.js:1832-1836 | a new unopened array observer takes the next id and holds its array |
| Observe.Observer.NewArrayObserver | dist/aj.js:1832-1836 | a non-array argument throws before an id is taken |
| Observe.Observer.Report | dist/aj.js:1655-1663 | the callback receives the change; an exception it raises, or the call of a missing callback, sets `errorThrownDuringCallback` |
| Observe.Observer.CheckPath | dist/aj.js:1918-1926 | the new value is stored; a change is reported with the old value exactly when it is not the same value and changes are not skipped |
| Observe.Observer.CheckObject | dist/aj.js:1770-1801 | an empty diff returns false and keeps the snapshot; otherwise the diff is reported against the old snapshot and the copy becomes the new snapshot |
| Observe.Observer.CheckArray | dist/aj.js:1848-1867 | no splice returns false and keeps the snapshot; otherwise the splices are reported and the copy becomes the new snapshot |
| Observe.Observer.Check | dist/aj.js:1770-1926 | on an open observer, reports exactly the pending change and leaves a baseline; finding nothing changes nothing |
| Observe.Observer.CheckWhileChanged | dist/aj.js:1349-1351 | the loop of `check_` calls: it stops at the first check that finds nothing or after `MAX_DIRTY_CHECK_CYCLES`; the count of checks that found a change is 0, 1, or 1000 when NaN keeps the change alive; the log gains the pending change and then the recurring one once per further check |
| Observe.Observer.DirtyCheck | dist/aj.js:1346-1357 | 0 cycles without a change; 1 when the change settles; 1000 (`MAX_DIRTY_CHECK_CYCLES`) when NaN keeps it alive. The old log is a prefix of the new one, which is longer by one entry per cycle when there is a callback; the entries gained are exactly `DirtyLog`: the pending change and then, once per further cycle, the change a fresh baseline still shows |
| Observe.ResentLength | dist/aj.js:1349-1351 | `n` repeated deliveries add `n` reports with a callback and none without |
| Observe.ResentAgain | dist/aj.js:1349-1351 | one more check that finds the recurring change extends the log by one more repeated delivery |
| Observe.DirtyLogGrows | dist/aj.js:1346-1357 | the log after a dirty check extends the log before it, by one report per check that found a change when there is a callback; when the count is the one `dirtyCheck` reaches (0, 1, or 1000 with a NaN), the entries gained are exactly `DirtyEntries`: the first change found, then the recurring one for each further check |
| Observe.Observer.BaselinePendingRecurs | dist/aj.js:1346-1357 | against a fresh baseline the change `check_` would report is the recurring one: the value against itself, or the object or array against its copy |
| Observe.Observer.Deliver | dist/aj.js:1648-1653 | a dirty check on an open observer, with its log contents as for `DirtyCheck`: the pending change, then the recurring one once per further cycle; any other state does nothing |
| Observe.Observer.DiscardChanges | dist/aj.js:1665-1668 | a new baseline without a report; returns the value |
| Observe.Observer.Open | dist/aj.js:1624-1634 | a second `open` throws and changes nothing. The first keeps the callback, joins the list and the count, and takes a baseline without reporting |
| Observe.Observer.Close | dist/aj.js:1636-1646 | only an open observer closes: it leaves the count and drops its callback and value, and an object or array observer also drops its snapshot |
| Observe.Observer.SetValue | dist/aj.js:1928-1931 | the value is written through the path into the object, as `setValueFrom` writes it |
| Observe.CompoundObserver.BaselineShowsNoChange | dist/aj.js:2030-2065 | after a baseline, `check_` finds no change |
| Observe.CompoundObserver.constructor | dist/aj.js:1934-1941 | a new unopened compound with no entries, which takes the next id |
| Observe.CompoundObserver.Report | dist/aj.js:1655-1663 | the callback receives the change; an exception sets `errorThrownDuringCallback` |
| Observe.CompoundObserver.ReadSub | dist/aj.js:2036-2040 | an observer entry reads the observer's value; the observer is opened only as `SubStep` prescribes, and otherwise steps without reporting |
| Observe.CompoundObserver.ReadEntryAt | dist/aj.js:2033-2043 | entry `i` reads its path's value, or its observer's recorded value |
| Observe.CompoundObserver.ReadEntries | dist/aj.js:2032-2056 | every entry is read. `oldValues` is exactly the changed positions, or nothing with `skipChanges`. No change keeps the vector |
| Observe.CompoundObserver.Publish | dist/aj.js:2058-2064 | the new vector is stored and reported with `oldValues` exactly when some position changed |
| Observe.CompoundObserver.Check | dist/aj.js:2030-2065 | reports exactly the changed positions unless changes are skipped, and leaves a baseline |
| Observe.CompoundObserver.DiscardChanges | dist/aj.js:1665-1668 | a new baseline without a report; returns the vector |
| Observe.CompoundObserver.DirtyCheck | dist/aj.js:1348-1357 | a compound settles in at most one cycle, because its vector holds the values themselves |
| Observe.CompoundObserver.Deliver | dist/aj.js:1648-1653 | a dirty check on an open compound; any other state does nothing |
| Observe.CompoundObserver.Enlist | dist/aj.js:1628-1629 | the compound joins the list and the count and keeps its callback; what it reads is untouched |
| Observe.CompoundObserver.Open | dist/aj.js:1948-1965 | a second `open` throws. The first joins the list, takes a baseline, and reports changes only with `reportChangesOnOpen` |
| Observe.CompoundObserver.Connect | dist/aj.js:1948-1965 | `check_` while still unopened: every observer observed is opened if unopened and keeps its value, the vector becomes the baseline, and the change is reported only with `reportChangesOnOpen` |
| Observe.CompoundObserver.Disconnect | dist/aj.js:1967-1979 | exactly the open observers among the entries are closed and leave the count; the entries and vector are emptied |
| Observe.CompoundObserver.Clear | dist/aj.js:1972-1973 | no entries and an empty vector |
| Observe.CompoundObserver.Close | dist/aj.js:1967-1979 | only an open compound closes: it and its open observers leave the count, and its vector becomes the closed value |
| Observe.CompoundObserver.Retire | dist/aj.js:1642-1645 | CLOSED and without a callback |
| Observe.CompoundObserver.StartReset | dist/aj.js:2004-2010 | only an open compound resets: RESETTING, its observers closed, its entries emptied |
| Observe.CompoundObserver.FinishReset | dist/aj.js:2012-2019 | only a resetting compound finishes: OPENED again, a new baseline, reported only with `reportChangesOnOpen` |
| Observe.CompoundObserver.Push | dist/aj.js:1986 | one more entry, with its observer among those observed |
| Observe.CompoundObserver.AddPath | dist/aj.js:1981-1991 | refused once started; otherwise the entry is appended, and with `reportChangesOnOpen` its value goes into the vector |
| Observe.CompoundObserver.AddObserver | dist/aj.js:1993-2002 | refused once started. Otherwise the observer is appended; with `reportChangesOnOpen` it is opened at once and its value stored, and an already open observer throws |
| Observe.KeptExactly | dist/aj.js:1713-1722 | a pass keeps exactly the listed observers that are open |
| Observe.KeptTwice | dist/aj.js:1713-1722 | a second pass keeps what the first kept |
| Observe.CheckOne | dist/aj.js:1713-1722 | an open observer on the list is checked, finds a change exactly when one is pending, ends calm unless it holds a NaN, and is pushed back; no observer changes state |
| Observe.CheckLeaf | dist/aj.js:1713-1722 | a path, object or array observer finds a change exactly when one is pending; the values compounds read and the NaNs stay, and it ends calm unless it holds a NaN |
| Observe.CheckLeafAlone | dist/aj.js:1770-1926 | `check_` on a leaf finds a change exactly when one is pending and leaves it calm unless it holds a NaN |
| Observe.CheckCompound | dist/aj.js:1713-1722 | a compound finds a change exactly when one is pending; the observers it reads keep their states and values, and it ends calm unless it holds a NaN |
| Observe.CheckCompoundAlone | dist/aj.js:2030-2065 | `check_` on a compound whose observers agree with `vals` finds a change exactly when one is pending and leaves it calm; its log grows by the change delivered, if any, and its observers' logs stay |
| Observe.CheckCompoundFramed | dist/aj.js:2030-2065 | `check_` on a compound changes no log but its own, which grows by the change delivered, if any |
| Observe.Visit | dist/aj.js:1713-1722 | an observer that is not open is dropped and finds nothing; an open one is checked, finds a change exactly when one is pending, and is kept; a calm observer finds nothing and an open one without NaN ends calm; its log grows by the one report delivered when it found a change and has a callback, and no other log changes |
| Observe.Step | dist/aj.js:1713-1722 | a visit extends what held of the observers visited before: the list, the calm observers, and every log grown by one report per visit that found a change on an observer with a callback |
| Observe.Sweep | dist/aj.js:1713-1722 | the pass's loop visits every observer of the old list in order; a change is found exactly when some visit found one, never when every open observer visited was calm, and the logs grow by one report per finding |
| Observe.Pass | dist/aj.js:1708-1722 | the list is rebuilt from exactly the observers that were open, in order; every open one without a NaN ends calm, a pass over calm observers finds no change, and every log only grows, by one report per visit that found a change on an observer with a callback |
| Observe.Cycle | dist/aj.js:1708-1722 | one more pass keeps the loop's invariant, the logs having grown by that pass's findings; the first pass finds nothing when every open observer is calm, a later one when no open observer holds a NaN |
| Observe.Passes | dist/aj.js:1706-1724 | passes repeat while one finds a change, between 1 and 1000 times; every pass but the last found a change, and the last found none unless the limit was hit; one pass when all open observers were calm, at most two without NaN; the logs grow by the findings of all the passes |
| Observe.CyclesDone | dist/aj.js:1706-1724 | after one pass or more the list holds the observers recorded as open, none with anything pending unless it holds a NaN, and the logs grew by the findings of every pass |
| Observe.VisitLogs | dist/aj.js:1713-1722 | a visit that changes only its observer's log, by the report it delivered, is growth by one report per change found |
| Observe.HitsAppend | dist/aj.js:1706-1724 | the changes found on an observer over two consecutive runs of visits add up |
| Observe.GrewTrans | dist/aj.js:1706-1724 | growth of the logs over two consecutive runs of visits is growth over both |
| Observe.NoHits | dist/aj.js:1706-1724 | visits that found no change found none on any observer |
| Observe.GrewNothing | dist/aj.js:1706-1724 | growth over visits that found no change leaves every log as it was |
| Observe.PerformMicrotaskCheckpoint | dist/aj.js:1695-1731 | a re-entrant call does nothing and changes no log. Otherwise passes repeat while one finds a change, between 1 and 1000 times; the last finds none unless the limit is hit; the list ends as the open observers, in order, each with nothing pending unless it holds a NaN; every log of the observers `leaves` and `compounds` the caller names only grows, by one report per visit that found a change on an observer with a callback; with nothing pending and no NaN one pass runs and no log grows, and without NaN at most two passes run |
| Observe.CalmAtStart | dist/aj.js:1695-1706 | before the first pass, an open observer with nothing pending and no NaN is calm, and the NaN holders are recorded |
| Observe.CalmAfterPasses | dist/aj.js:1706-1724 | after the passes every observer left on the list has nothing pending unless it holds a NaN |
| Observe.RunPasses | dist/aj.js:1700-1730 | the pass count, the list, the calm observers and the growth of every log, as for the checkpoint; the observer count stays and a raised error flag stays raised |
| Transforms.ObserverTransform.constructor | dist/aj.js:2068-2081 | a missing getter or setter is the identity; the transform holds the decorated path, object or array observer, with no callback and value undefined |
| Transforms.ObserverTransform.Open | dist/aj.js:2084-2090 | opens the decorated observer with `observedCallback_` and returns the getter's projection of its value (the path's value, or the object or array watched); a second `open` throws |
| Transforms.ObserverTransform.Observed | dist/aj.js:2092-2099 | the projection is reported with the old value exactly when it is not the same value; it is then stored |
| Transforms.ObserverTransform.Deliver | dist/aj.js:2106-2108 | a change a decorated path observer finds reaches the callback through the projection, once; the decorated observer takes a new baseline after a change and is untouched otherwise; the decorated observer's log grows by exactly what its own `deliver` appends (`DirtyLog`): the pending change and, when a NaN keeps it alive, the recurring change 999 more times |
| Transforms.ObserverTransform.DiscardChanges | dist/aj.js:2101-2104 | the decorated observer takes a new baseline and the projection becomes the value, with no report |
| Transforms.ObserverTransform.SetValue | dist/aj.js:2110-2114 | the setter's result is written through the path of a decorated path observer, unless `dontPassThroughSet`; an object or array observer has no `setValue`, so nothing is written |
| Transforms.ObserverTransform.Close | dist/aj.js:2116-2125 | closes the decorated observer if it is open, and drops it, the callback and the value |
| Resources.DiscardNode | dist/aj.js:3283-3296 | calls at most one hook, the first of `_discard`, `discard` and `close` the resource has, on that resource |
| Resources.WithoutMatchingSplit | dist/aj.js:3318-3332 | every entry is either kept or removed by its identifier, never both |
| Resources.FirstMatchIsFirst | dist/aj.js:3334-3345 | the result is the resource of the first entry holding the identifier; there is none exactly when no entry holds it |
| Resources.ReAddedOnce | dist/aj.js:3371-3375 | after `add`, an identifier other than NaN is held exactly once and found |
| Resources.ResourceList.constructor | dist/aj.js:3298-3301 | a live list with no entries |
| Resources.ResourceList.IsEmpty | dist/aj.js:3302-3304 | true exactly when the list is discarded or has no entries |
| Resources.ResourceList.Add | dist/aj.js:3306-3316 | on a live list the entry goes at the end; on a discarded list the call throws |
| Resources.ResourceList.Remove | dist/aj.js:3318-3332 | every entry holding the identifier goes, in order, and each one's discard hook is called |
| Resources.ResourceList.Get | dist/aj.js:3334-3345 | the first matching resource, or undefined |
| Resources.ResourceList.Discard | dist/aj.js:3347-3356 | every entry's hook is called in order, and the list is dead afterwards |
| Resources.ResourceMap.constructor | dist/aj.js:3358-3360 | no categories |
| Resources.ResourceMap.GetList | dist/aj.js:3362-3369 | a category's list, created empty when missing |
| Resources.HooksByAppend | dist/aj.js:3392-3397 | after a list calls further hooks, its share of the map's log grows by exactly those hooks and every other list's share is unchanged |
| Resources.ResourceMap.Add | dist/aj.js:3371-3375 | the identifier's old entries are removed, with their hooks, and the new entry is appended last; the map's log stays, list by list, the hooks each list has called (`Valid`) |
| Resources.ResourceMap.Remove | dist/aj.js:3377-3385 | the identifier's entries go, with their hooks, and a category left empty is deleted; the log stays tied to the lists' own hooks |
| Resources.ResourceMap.Get | dist/aj.js:3387-3390 | the first matching resource of the category, whose list is created when missing |
| Resources.ResourceMap.Discard | dist/aj.js:3392-3397 | every category's hooks run, category by category in some order that covers each once, every old list is dead, and the map becomes empty; the log stays tied to the lists' own hooks |
| Resources.ResourceMap.DiscardLists | dist/aj.js:3393-3395 | the loop discards each list once, every list ends dead, and the hooks the lists called are appended category by category |
| Resources.ResourceMap.DiscardNext | dist/aj.js:3393-3395 | one turn discards one waiting list and keeps the loop's invariant |
| ArrayUtil.Put | dist/aj.js:2956-2957 | `a[k] = x` writes position `k`, grows a short array, and reads undefined in any gap |
| ArrayUtil.Swap | dist/aj.js:2954-2958 | the two elements trade places, nothing else in the array changes and the elements are a permutation; an index past the end grows the array |
| ArrayUtil.SwapPermutes | src/aj.js:514-518 | a swap permutes the elements |
| ArrayUtil.SwapTwice | src/aj.js:514-518 | swapping back restores the array |
| ArrayUtil.ArrayLengthAdjust | dist/aj.js:2960-2982 | the array ends with exactly `hopeLength` elements; the kept prefix is untouched; new positions hold `initialNewFn(i)` or undefined; the cut elements are reported with their indices when asked |
| ArrayUtil.RegulateArray | dist/aj.js:2985-2997 | an array is kept as it is when `tryKeepRef`; otherwise a new array holds the elements (`[v]` for a non-array, `[]` for a nullish value) |
| ArrayUtil.MovedUpPermutes | dist/aj.js:3581-3598 | moving an element up keeps the elements and puts it at `index - k` |
| ArrayUtil.MovedDownPermutes | dist/aj.js:3600-3618 | moving an element down keeps the elements and puts it at `index + k` |
| ArrayUtil.Steps | dist/aj.js:3581-3618 | the distance moved never exceeds the room there is, and is positive for a positive step when there is room |
| ArrayUtil.ShiftUp | dist/aj.js:3587-3593 | the shifting loop leaves exactly `MovedUp` |
| ArrayUtil.MoveUp | dist/aj.js:3581-3598 | a non-array gives false and changes nothing; an array has its element moved up by the capped step |
| ArrayUtil.ShiftDown | dist/aj.js:3607-3613 | the shifting loop leaves exactly `MovedDown` |
| ArrayUtil.MoveDown | dist/aj.js:3600-3618 | a non-array gives false and changes nothing; an array has its element moved down by the capped step |
| ObserverMaps.LooseEquals | src/aj.js:793 | `==` holds wherever `===` does, is reflexive except on NaN, and relates null or undefined only to null or undefined |
| ObserverMaps.RingAppend | src/aj.js:775-782 | linking a new item before the head keeps a well-formed ring, with the item last |
| ObserverMaps.RingUnlink | src/aj.js:754-762 | relinking an item's neighbours leaves the ring without that item |
| ObserverMaps.CollectItems | src/aj.js:790-800 | the walk from the head round to the head lists exactly the ring's items that match `extraInfo`, in order |
| ObserverMaps.SelectedOfUnselected | src/aj.js:832-837 | after the matching items are closed, listing again finds none |
| ObserverMaps.InvAdd | src/aj.js:749-785 | adding keeps every ring well formed |
| ObserverMaps.InvClose | src/aj.js:754-762 | closing a linked item takes it out of exactly its own ring |
| ObserverMaps.ObserverMap.constructor | src/aj.js:745-747 | no paths |
| ObserverMaps.ObserverMap.Add | src/aj.js:749-785 | the first `add` for a path creates its head; the new item is appended last to that path's ring, and every other path is unchanged |
| ObserverMaps.ObserverMap.GetObserverList | src/aj.js:787-802 | a path without a head throws. Otherwise the ring's items are listed in order: all of them for a falsy `extraInfo`, else those whose `extraInfo` is loosely equal |
| ObserverMaps.ObserverMap.Close | src/aj.js:754-762 | the observer is closed and the item leaves its ring, exactly once (corrected, see Findings) |
| ObserverMaps.ObserverMap.CloseEach | src/aj.js:834-836 | closing the listed items in order removes exactly them from the ring |
| ObserverMaps.Scope.constructor | src/aj.js:804-809 | two empty observer maps, `path` and `splice` |
| ObserverMaps.Scope.RemoveArrayObserver | src/aj.js:832-837 | closes exactly the array observers of `path` registered for `targetObj`, in order; the others stay listed |
| ObserverMaps.CloseTwiceAsWrittenLosesItems | src/aj.js:754-762 | as written, closing an item twice relinks stale neighbours, so a later item is lost from the list |
| ObserverMaps.CloseTwiceListsLaterItems | src/aj.js:754-762 | with `close` clearing its links, the same steps list the later item |
| AjUtil.ReplaceIndexesInPath | src/aj.js:811-818 | without indexes the path is unchanged; otherwise each index replaces the first `?` left, in turn |
| AjUtil.FillWithoutMarks | src/aj.js:811-818 | a path without `?` is never changed |
| AjUtil.FillSkips | src/aj.js:811-818 | text before the first `?` is left alone |
| AjUtil.FillFirstMark | src/aj.js:813-815 | the first index goes to the first `?` and the rest go to what follows |
| AjUtil.UidInjective | src/aj.js:485-490 | different counter values give different ids |
| AjUtil.UidSource.constructor | src/aj.js:485 | the counter starts at 0 |
| AjUtil.UidSource.CreateUID | src/aj.js:485-490 | the counter goes up by one and the id is new, never handed out before |
| AjUtil.Normalize | src/aj.js:439-472 | accepted exactly for a function, or for an object with `fn`; the priority is never 0 (falsy becomes 100) |
| AjUtil.NormalizeIdempotent | src/aj.js:445-465 | an entry written out from a table element normalises back to that element |
| AjUtil.CollectedSpec | src/aj.js:439-472 | the table is built exactly when every entry is accepted, one element per entry, in order |
| AjUtil.CollectedKeepsError | src/aj.js:451-462 | the first refused entry decides the error |
| AjUtil.KeyLeqTotal | src/aj.js:476 | the key order is total |
| AjUtil.KeyLeqTrans | src/aj.js:476 | the key order is transitive |
| AjUtil.PrecedesTotal | src/aj.js:474-480 | the comparator's order is total |
| AjUtil.PrecedesTrans | src/aj.js:474-480 | the comparator's order is transitive |
| AjUtil.Insert | src/aj.js:474-480 | inserting into an ordered table keeps it ordered and adds exactly the element |
| AjUtil.Sort | src/aj.js:474-480 | the result is ordered by ascending priority, then key, and is a permutation of the input |
| AjUtil.OrderedTableSpec | src/aj.js:433-483 | built exactly when every entry is accepted; then it is ordered and holds exactly the normalised entries |
| AjUtil.RewriterTable.constructor | src/aj.js:433-437 | no cached table |
| AjUtil.RewriterTable.GetOrdered | src/aj.js:433-483 | returns the ordered table; a table once built is cached and kept; a refused configuration throws and caches nothing |
| AjUtil.CreateAndRetrieveSubMetaRef | src/aj.js:564-588 | afterwards `meta[subType]` is an array holding the returned reference. An existing array gains a new `{}`; an object is wrapped in a new array and returned; another truthy value is wrapped with a new `{}`; a falsy value is replaced. Other objects and other keys are unchanged |
| PathText.ConcatPath | src/value-monitor.js:71-81 | the call throws exactly when neither a root nor a sub-path is given |
| PathText.ConcatPathJoins | src/value-monitor.js:71-81 | two plain parts are joined by a dot |
| PathText.ConcatPathIndex | src/value-monitor.js:71-81 | a sub-path that starts with `[` is appended without a dot |
| PathText.JoinSplit | src/value-monitor.js:91 | joining the pieces of `split` gives the text back |
| PathText.SplitJoin | src/value-monitor.js:91 | splitting joined pieces that hold no separator gives them back |
| PathText.FirstGroup | src/value-monitor.js:93-98 | `exec` finds the leftmost group `[digits]`, or none when no group starts anywhere |
| PathText.ConvertObservePath | src/value-monitor.js:83-113 | the converted text `ObservePath` of root and sub-path, or the scope-root error |
| PathText.ConvertParts | src/value-monitor.js:96-110 | the loop converts each dot segment in turn |
| PathText.RootErrorExactly | src/value-monitor.js:84-87 | "The scope root cannot be observed" is thrown exactly for no root and an empty sub-path |
| PathText.ConvertedPlain | src/value-monitor.js:105-109 | segments without brackets are each quoted as `['name']` |
| PathText.ConvertDottedPath | src/value-monitor.js:83-113 | `a.b` becomes `['a']['b']` |
| PathText.ConvertIndexedPath | src/value-monitor.js:83-113 | root `a` and sub-path `b[0][1]` become `['a']['b'][0][1]` |
| PathText.TransferToSafePropertyPath | src/value-monitor.js:21-29 | each of `.`, `[`, `]`, `"` and `'`, in that order, has its first occurrence replaced by its token |
| PathText.TokenIsSafe | src/value-monitor.js:9-19 | no token holds any of the masked characters |
| PathText.TransferredCounts | src/value-monitor.js:21-29 | each masked character loses exactly one occurrence when it has one |
| PathText.TransferredIsSafe | src/value-monitor.js:21-29 | a path holding each masked character at most once comes out free of all of them |
| ValueMonitors.SetValueWithSpawn | src/value-monitor.js:140-157 | the write is exactly `Spawn`: down the keys, with a new `{}` for every falsy property before the last key. An empty path writes nothing (corrected, see Findings) |
| ValueMonitors.SpawnInto | src/value-monitor.js:151-154 | one step into the property, or into a new `{}` put there |
| ValueMonitors.SpawnFresh | src/value-monitor.js:151-154 | a new `{}` under the key, and the walk goes on inside it |
| ValueMonitors.SpawnAgreesWithSetValueFrom | src/value-monitor.js:166-174 | where `setValueFrom` succeeds, the spawning write is the same write and allocates nothing |
| ValueMonitors.SpawnFrame | src/value-monitor.js:140-157 | from a plain object whose first key is falsy, the write does not throw, hangs the new chain under that key, and leaves every other existing object unchanged |
| ValueMonitors.SpawnReadBack | src/value-monitor.js:140-157 | after such a write the value is read back along the keys |
| ValueMonitors.AsWrittenAgrees | src/value-monitor.js:140-157 | on a non-empty path the recursion as written does what `Spawn` says, within one call per key |
| ValueMonitors.AsWrittenLoopsFromEmpty | src/value-monitor.js:140-157 | as written, the empty path on an empty object never reaches a write, however many calls are allowed |
| ValueMonitors.EmptyPathNeverWrites | src/value-monitor.js:148-154 | as written, the empty path never terminates, while the corrected `Spawn` leaves the heap unchanged |
| ValueMonitors.ReadAfterWrite | src/value-monitor.js:164-180 | a write that reaches a plain object reads back |
| ValueMonitors.GetTextPath | dist/aj.js:1228-1255 | a text yields a path for that text: cached, new, or the invalid sentinel |
| ValueMonitors.ValueRef.constructor | src/value-monitor.js:159-163 | the reference holds its path, scope and transform |
| ValueMonitors.ValueRef.SetValue | src/value-monitor.js:164-176 | a reachable path is written with the stored form. An unreachable one is left alone with `spawnUnreachablePath === false`, and spawned otherwise, which is the default |
| ValueMonitors.ValueRef.GetValue | src/value-monitor.js:177-180 | the value along the path, shown through the transform |
| ValueMonitors.CompoundText | src/value-monitor.js:212-218 | a text fails only with the scope-root error, and exactly as the scope root: not `@:`, no root, and empty |
| ValueMonitors.WriteAllAppend | src/value-monitor.js:227-229 | writing two groups of paths is writing the first group, then the second |
| ValueMonitors.WriteAllSingle | src/value-monitor.js:227-229 | each path of a compound set is a plain `setValueFrom`, which never spawns |
| ValueMonitors.CompoundPath | src/value-monitor.js:213-219 | an `@:` text is taken from the scope root as it is, any other is converted below the root; the result is a path for that text |
| ValueMonitors.CompoundValueRef.constructor | src/value-monitor.js:221-222 | the reference holds its paths and scope |
| ValueMonitors.CompoundValueRef.SetValues | src/value-monitor.js:223-230 | a count mismatch throws and writes nothing; otherwise one write per path, in order |
| ValueMonitors.CompoundValueRef.GetValues | src/value-monitor.js:231-237 | the value along each path, by position |
| ValueMonitors.ValueMonitor.constructor | src/value-monitor.js:64-69 | the monitor holds its scope and root |
| ValueMonitors.ValueMonitor.GetValueRef | src/value-monitor.js:159-182 | the scope-root error is passed on; otherwise a new reference over the path for the converted text |
| ValueMonitors.ValueMonitor.GetCompoundValueRef | src/value-monitor.js:209-238 | fails exactly when some text is the scope root; otherwise one path per text, in order |
| ValueMonitors.TransferredEmpty | src/value-monitor.js:21-29 | making a path safe empties only the empty path |
| ValueMonitors.MonitorKey | src/value-monitor.js:42-44 | the key is `__vr__` exactly when the root is missing or empty |
| ValueMonitors.VirtualRootIsOneProperty | src/value-monitor.js:41-51 | a root with each masked character at most once becomes a single property under `__vr__` |
| ValueMonitors.OneSegmentUnderRoot | src/value-monitor.js:83-113 | `__vr__.t` converts to `['__vr__']['t']` |
| ValueMonitors.VirtualScopeMonitorWrapper.constructor | src/value-monitor.js:31-34 | a private scope object and no monitors |
| ValueMonitors.VirtualScopeMonitorWrapper.GetMonitro | src/value-monitor.js:41-51 | the monitor registered under the root's key; on first use a new monitor over the private scope is made and registered |
| ValueMonitors.VirtualScopeMonitorWrapper.Register | src/value-monitor.js:46-49 | a new monitor for the key is registered under it |
| ValueMonitors.VirtualScopeMonitorWrapper.Enlist | src/value-monitor.js:48 | the key's entry goes last and no hook runs |
| ValueMonitors.GetMonitroTwice | src/value-monitor.js:41-51 | asking twice for the same root gives the same monitor |

## Left out

- Observe.CompoundObserver.AddObserver: only a path, object or array observer can be an entry (`ObserverEntry`). The source's `addObserver` (dist/aj.js:1993-2002) and `check_` (dist/aj.js:2036-2040) take any observable, so a compound or an `ObserverTransform` may be nested inside a compound. That is not modelled: a compound's value is a vector, an array the value model does not hold, and a transform's value is its getter's projection, which the compound's entry record does not carry.
- Observe.PerformMicrotaskCheckpoint: `runningMicrotaskCheckpoint` is not raised for the passes and lowered after them (dist/aj.js:1703, 1730); it is false before and after a checkpoint that runs, as in the source, and since no callback runs in the model, nothing could see it raised in between. Observe.RunPasses leaves it untouched for the same reason.
- The `Object.observe` branches of observe-js (`hasObserve == true`), `ObservedSet` and `iterateObjects_`. The model is the dirty-checking engine only, where `collectObservers` (dist/aj.js:1671) always holds, so its tests in the checkpoint (dist/aj.js:1699) and in `addToAll` never fail.
- The `new Function`-compiled accessor of `getValueFrom` (dist/aj.js:1304-1322), used when `hasEval` holds, is not modelled; the model reads along the keys as the loop does. The compiled text differs from the loop: a key such as " 1" or "1e2" that `isIndex` accepts is pasted bare into `obj[ 1]` or `obj[1e2]`, which reads `obj[1]` or `obj[100]`; backslash escapes inside a quoted key are interpreted; and a key ending in a backslash makes `new Function` throw a SyntaxError.
- `runEOMTasks`: nothing in the repository schedules end-of-microtask tasks, so the model's task list is always empty.
- Floating point: numbers are integers, NaN and -0; fractions and infinities are not modelled.
- Loose equality `==` and coercions. Loose equality is modelled as `===` with `null == undefined`; strings that coerce to numbers and similar cases are not.
- The prototype chain is not modelled anywhere: property reads (`Property`, `getValueFrom`, `ref[path[index]]`), the `in` tests of `diffObjectFromOldObject` (dist/aj.js:1380-1396), `ResourceMap.getList`'s `this.map[category]` and `ObserverMap`'s `this.map[path]` see own properties only. A name inherited from `Object.prototype` (such as `toString`) or through a primitive's wrapper (such as `"s".charAt` or `(1).constructor`) is read as absent. The one exception is a string's `length` and its characters at canonical indices, which `JsCore.StringProperty` reads. Finding 2 exhibits the consequence for the path cache only.
- `Scope.registerPathObserver` and `Scope.registerArrayObserver`: registration goes through `ObserverMap.Add`; the observers they open are not tied to the map's items.
- Callbacks are logged, not run: a listener, a compound's `deliver` (`Relay`) and the transform's `observedCallback_` record their arguments in the observer's report log, and whether a listener throws is a property of it. This applies to Observe.Observer.Report, Observe.CompoundObserver.Report, Observe.PerformMicrotaskCheckpoint (whose passes do not see changes a callback would make) and Transforms.ObserverTransform (whose getter and setter are total functions on values). A callback that changes the observed objects, opens or closes observers, or re-enters the checkpoint is not modelled.
- The texts of thrown messages are kept only where the model can compare them; `console.error` in the checkpoint is not modelled.
- `JSON.stringify` in the meta-rewriter error message is not modelled.
- `localeCompare` is modelled as code-unit order.
- Priorities are integers; a non-numeric priority is not modelled.
- AjUtil.Sort: two entries with the same priority and the same key (an object entry whose `key` names another entry) compare equal under the comparator of src/aj.js:474-480. `Array.prototype.sort` may order such a tie either way; the model keeps one order and states only that the table is ordered and a permutation of the entries, which holds for either.
- AjUtil.Normalize: a `null` entry is not modelled. `typeof null` is "object", so `def.priority` throws a TypeError there; the model's entries are objects, functions or other kinds.
- ValueMonitors.SetValueWithSpawn: a walk that reaches a primitive throws at once in the model. The source first reads the primitive's inherited property (`(1).constructor` is a function), may walk on into an object found that way and write there, and throws only when it writes onto the primitive itself.
- JsCore.IsIndex: `+s === s >>> 0 && s !== ''` (dist/aj.js:989-991) is computed exactly only on digit strings; every other string is taken as no index. The numeric coercion `+s` is not computed, so strings that the source accepts as indices, such as " 1", "1e2", "+1", "0x10" and " ", are rejected by the model. The ensures states only what holds for both: an index is non-empty, numeral-shaped and holds a decimal digit (`MayBeIndex`).
- PathParser.FormatAccessor: `isIndex` is `+s === s >>> 0 && s !== ''` (dist/aj.js:989-991), and the model computes it exactly only on digit strings. On keys made only of numeral characters that are not digit strings (" 1", "1e2", "+1", "0x10") the numeric coercion is not modelled, so whether such a key prints bare (`[ 1]`, `[1e2]`) or quoted is not stated.
- PathParser.PrintThenParse: the round trip is proved only for `Printable` keys. It excludes two kinds of key. The first is the keys `isIndex` may take for an index though the model does not (`MayBeIndex`: numeral characters only, with a decimal digit or all white space, such as " 1", "1e2" or " "); the source prints those bare, and they do not parse back. This over-approximates: numeral-shaped keys with a digit that `+s` does not read as an integer, such as "1.5", "-1" or "1a", print quoted and parse back, but are excluded too. The second is keys ending in a backslash, whose printed form escapes the closing quote. The empty key is admitted: it prints as `[""]` and parses back.
- PathParser.PrefixRun: stated only for `Printable` keys, for the same reason.
- Paths.Path.ToString: the text is `PathString`, whose parse is proved only for `Printable` keys, for the same reason.
- `createUID` in `safePathReplaces` and `getMonitro`: the ids are parameters (`ids`), since their values come from a process-wide counter.
- Array writes under keys that are not indices (such as `length` or a name) are dropped in the heap model.
- JsCore.OwnProps, JsCore.ArrayWrite and ArrayUtil.Put: arrays are dense sequences, so holes are not modelled. A write past the end fills the gap with undefined elements that are present and enumerable. In JavaScript the gap is made of holes, which `for (var prop in o)` (dist/aj.js:1760-1768) and `diffObjectFromOldObject` skip. For `a = [x]` followed by `a[3] = y`, the source's object diff reports only `3` as added; the model also reports `1` and `2`, with value undefined.
- `Path.get` keeps its cache in a module variable; the model passes the cache as an object parameter.
- `ValueMonitor.observerMap`, `pathObserve`, `arrayObserve`, `removeArrayObserve`, `compoundObserve`, `createSubMonitor`, `getVirtualMonitor`, `discard` and `VirtualScopeMonitorWrapper.reset`/`discard` are not part of this model.
- I/O, timers and concurrency: none in the core; observers run sequentially.
- ArrayUtil.ArrayLengthAdjust: `discardCutFn` is modelled as a flag that reports the cut elements with their indices, not as a function that is called.
- ObserverMaps.ObserverMap.GetObserverList: `extraInfo` truthiness and `==` are modelled over the value model above.
- Transforms.ObserverTransform: the decorated observer is a path, object or array observer. Decorating a compound observer is not modelled. A compound's value is a vector, which `open` and `discardChanges` hand to the getter as an array object; the value model does not hold that array.
- Transforms.ObserverTransform.Deliver: for a decorated object or array observer, `observedCallback_` is not run. Its argument is the record of added properties or the splices array, an object that `report_` builds afresh; the change stays in the decorated observer's log.
- ValueMonitors.VirtualScopeMonitorWrapper.GetMonitro: the monitor's own `VirtualScopeMonitorWrapper` and `ResourceMap` fields are not built.

## Findings

| source | as written | input that shows it | evidently intended | confidence | as-written member | corrected member |
|---|---|---|---|---|---|---|
| dist/aj.js:2036-2040 | `check_` opens an observer entry whenever the compound is UNOPENED | a compound with `reportChangesOnOpen`: `addObserver` already opens the observer, so the compound's `open` calls `open` a second time and throws "Observer has already been opened." | open only an observer that is still unopened | not executed | Observe.ReportOnOpenCompoundThrowsAsWritten | Observe.SubStep |
| dist/aj.js:1244-1246 | `pathCache[pathString]` on a plain `{}` | `Path.get('toString')` returns `Object.prototype.toString` instead of the path `["toString"]` | look up own entries only | not executed | Paths.InheritedNameShadowsPath | Paths.PathCache.GetPath |
| src/aj.js:754-762 | `close` relinks `prev`/`next` every time it is called and never clears them | items 1 and 2 after head 0; close 2, then 1, then 2 again; add item 3: walking from the head lists nothing, and item 3 is lost | a second close changes nothing | not executed | ObserverMaps.CloseTwiceAsWrittenLosesItems | ObserverMaps.CloseTwiceListsLaterItems |
| src/value-monitor.js:140-157 | the recursion stops only at `index == path.length - 1` | a path of length 0: `getValueRef("x'y")` converts the text to `['x'y']`, which does not parse, so its path is `invalidPath`; `setValue(1)` fails to write and spawns, index `-1` is never reached, and `{}` is spawned under `"undefined"` without end | the empty path writes nothing | not executed | ValueMonitors.EmptyPathNeverWrites | ValueMonitors.SetValueWithSpawn |
