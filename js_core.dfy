/**
 * The slice of JavaScript's value model that the change-detection engine
 * relies on: primitive values with their two equalities (`===` and the
 * engine's `areSameValue`), truthiness, the identifier and index tests used
 * by the path printer, and a heap of plain objects and arrays addressed by
 * identity.
 *
 * Numbers are modelled as NaN, negative zero and the integers; fractions and
 * the infinities are outside the model.
 */
module JsCore {

  datatype Option<T> = None | Some(value: T)

  /** The outcome of an operation that may throw. */
  datatype Result<T> = Ok(value: T) | Throw(message: string)

  /** Identity of an object in the heap. */
  type ObjId = nat

  /** A JavaScript value. `Num(0)` is +0; `NegZero` is -0. */
  datatype Value =
    | Undefined
    | Null
    | Bool(b: bool)
    | NaN
    | NegZero
    | Num(n: int)
    | Str(s: string)
    | Obj(id: ObjId)

  /** `x == null` in JavaScript: true exactly for null and undefined. */
  predicate IsNullish(v: Value) {
    v.Undefined? || v.Null?
  }

  /** `isObject(obj)`, i.e. `obj === Object(obj)`. */
  predicate IsObject(v: Value) {
    v.Obj?
  }

  /** Boolean conversion (`!!v`). */
  predicate Truthy(v: Value) {
    match v
    case Undefined => false
    case Null => false
    case Bool(b) => b
    case NaN => false
    case NegZero => false
    case Num(n) => n != 0
    case Str(s) => s != ""
    case Obj(_) => true
  }

  predicate IsZero(v: Value) {
    v == NegZero || v == Num(0)
  }

  /** Strict equality `===`: NaN equals nothing, and -0 equals +0. */
  predicate StrictEquals(a: Value, b: Value) {
    if a.NaN? || b.NaN? then false
    else if IsZero(a) && IsZero(b) then true
    else a == b
  }

  /**
   * `areSameValue` (dist/aj.js:1005-1012): `===`, except that NaN is the same
   * as NaN and the two zeros are told apart by the sign of `1 / x`.
   */
  predicate AreSameValue(a: Value, b: Value) {
    if StrictEquals(a, b) then !IsZero(a) || a == b
    else a.NaN? && b.NaN?
  }

  /** In this value model `areSameValue` is exactly identity of values. */
  lemma AreSameValueIsIdentity(a: Value, b: Value)
    ensures AreSameValue(a, b) <==> a == b
  {
  }

  /** `===` and identity differ only on NaN and on the pair of zeros. */
  lemma StrictEqualsVersusIdentity(a: Value, b: Value)
    ensures StrictEquals(a, b) && a != b ==> IsZero(a) && IsZero(b)
    ensures a == b && !StrictEquals(a, b) ==> a.NaN?
  {
  }

  /** Equal under `===` or identical: the equivalence that splices preserve. */
  predicate Matches(a: Value, b: Value) {
    a == b || StrictEquals(a, b)
  }

  // ---------------------------------------------------------------------------
  // Characters, identifiers and indices
  // ---------------------------------------------------------------------------

  predicate IsDigit(c: char) {
    '0' <= c <= '9'
  }

  /** First character of an identifier: `[$_a-zA-Z]`. */
  predicate IsIdentStart(c: char) {
    c == '$' || c == '_' || ('a' <= c <= 'z') || ('A' <= c <= 'Z')
  }

  /** Later characters of an identifier: `[$_a-zA-Z0-9]`. */
  predicate IsIdentPart(c: char) {
    IsIdentStart(c) || IsDigit(c)
  }

  /** `isIdent` (dist/aj.js:1206-1208), the regular expression `^[$_a-zA-Z]+[$_a-zA-Z0-9]*$`. */
  predicate IsIdent(s: string) {
    |s| > 0 && IsIdentStart(s[0]) && forall i :: 1 <= i < |s| ==> IsIdentPart(s[i])
  }

  predicate IsDigits(s: string) {
    forall i :: 0 <= i < |s| ==> IsDigit(s[i])
  }

  function DigitValue(c: char): nat
    requires IsDigit(c)
  {
    (c as int - '0' as int) as nat
  }

  function DigitChar(d: nat): (c: char)
    requires d < 10
    ensures IsDigit(c) && DigitValue(c) == d
  {
    ('0' as int + d) as char
  }

  /** The number a string of decimal digits denotes. */
  function DigitsValue(s: string): nat
    requires IsDigits(s)
  {
    if |s| == 0 then 0 else 10 * DigitsValue(s[..|s| - 1]) + DigitValue(s[|s| - 1])
  }

  /** The decimal spelling of a natural number, as `String(n)` gives it. */
  function NatToString(n: nat): (s: string)
    ensures |s| > 0 && IsDigits(s)
    ensures |s| > 1 ==> s[0] != '0'
  {
    if n < 10 then [DigitChar(n)] else NatToString(n / 10) + [DigitChar(n % 10)]
  }

  lemma {:induction false} NatToStringValue(n: nat)
    ensures DigitsValue(NatToString(n)) == n
  {
    if n >= 10 {
      var s := NatToString(n);
      NatToStringValue(n / 10);
      assert s[..|s| - 1] == NatToString(n / 10);
    }
  }

  lemma NatToStringInjective(m: nat, n: nat)
    ensures NatToString(m) == NatToString(n) ==> m == n
  {
    NatToStringValue(m);
    NatToStringValue(n);
  }

  /** A digit string without a leading zero (or "0" itself). */
  predicate IsCanonicalDigits(s: string) {
    |s| > 0 && IsDigits(s) && (|s| == 1 || s[0] != '0')
  }

  lemma {:induction false} CanonicalDigitsPositive(s: string)
    requires IsDigits(s) && |s| > 0 && s[0] != '0'
    ensures DigitsValue(s) > 0
  {
    if |s| > 1 {
      assert s[..|s| - 1][0] == s[0];
      CanonicalDigitsPositive(s[..|s| - 1]);
    }
  }

  /** A canonical digit string is the spelling of its own value. */
  lemma {:induction false} CanonicalDigitsSpelling(s: string)
    requires IsCanonicalDigits(s)
    ensures NatToString(DigitsValue(s)) == s
  {
    if |s| > 1 {
      var p := s[..|s| - 1];
      assert p[0] == s[0];
      CanonicalDigitsPositive(p);
      CanonicalDigitsSpelling(p);
      var v := DigitsValue(s);
      assert v / 10 == DigitsValue(p) && v % 10 == DigitValue(s[|s| - 1]);
      assert s == p + [s[|s| - 1]];
    }
  }

  const TwoTo32: nat := 0x1_0000_0000

  /**
   * `isIndex` (dist/aj.js:989-991) on strings of decimal digits: `+s === s >>> 0`
   * holds exactly when the digits denote a number below 2^32. On other strings
   * the numeric coercion is not modelled; see `NumericShaped`.
   */
  predicate IsIndex(s: string): (r: bool)
    ensures r ==> s != "" && NumericShaped(s) && MayBeIndex(s)
  {
    |s| > 0 && IsDigits(s) && DigitsValue(s) < TwoTo32
  }

  /** The decimal spelling of every number below 2^32 is an index without a leading zero. */
  lemma IndexSpelling(n: nat)
    requires n < TwoTo32
    ensures IsIndex(NatToString(n)) && IsCanonicalDigits(NatToString(n))
  {
    NatToStringValue(n);
  }

  /** The white space and line terminators `+s` skips around a numeral. */
  predicate NumeralSpace(c: char) {
    c in {'\t', '\n', '\U{000B}', '\U{000C}', '\r', ' ', '\U{00A0}', '\U{1680}', '\U{2028}', '\U{2029}', '\U{202F}', '\U{205F}', '\U{3000}', '\U{FEFF}'} ||
    '\U{2000}' <= c <= '\U{200A}'
  }

  /** A character that can occur in a string `+s` reads as a finite number: digits, signs, point, exponent, radix prefixes, hex digits, spaces. */
  predicate NumeralChar(c: char) {
    '0' <= c <= '9' || 'a' <= c <= 'f' || 'A' <= c <= 'F' || c in {'+', '-', '.', 'x', 'X', 'o', 'O'} || NumeralSpace(c)
  }

  /**
   * A string made only of numeral characters. `+s` is NaN or infinite on
   * any other string, so `isIndex` is false there, as `IsIndex` is; on
   * numeral-shaped strings that are not plain digits (" 1", "1e2", "0x10",
   * "+1", "1.0", "-0", " ") the two may differ.
   */
  predicate NumericShaped(s: string) {
    forall i :: 0 <= i < |s| ==> NumeralChar(s[i])
  }

  /**
   * A string `isIndex` may take for an index: numeral-shaped, and holding a
   * decimal digit or made of white space only (where `+s` is 0). Every
   * integer `+s` yields comes from such a string: a decimal, hex, octal or
   * binary numeral has a digit, and a string of spaces reads as 0.
   */
  predicate MayBeIndex(s: string) {
    NumericShaped(s) && ((exists i :: 0 <= i < |s| && '0' <= s[i] <= '9') || forall i :: 0 <= i < |s| ==> NumeralSpace(s[i]))
  }

  /**
   * The array element a property key names: a canonical digit string below
   * 2^32 - 1, the largest array index being 2^32 - 2.
   */
  function ArrayIndex(key: string): (r: Option<nat>)
    ensures r.Some? ==> NatToString(r.value) == key
  {
    if IsCanonicalDigits(key) && DigitsValue(key) < TwoTo32 - 1 then
      CanonicalDigitsSpelling(key);
      Some(DigitsValue(key))
    else None
  }

  // ---------------------------------------------------------------------------
  // Objects and the heap
  // ---------------------------------------------------------------------------

  /** A heap object: a plain object with its own properties, or an array. */
  datatype JsObject = Plain(props: map<string, Value>) | ArrayObj(elems: seq<Value>)

  /** The object an identity denotes; an identity the heap lacks reads as `{}`. */
  function ObjectAt(objs: map<ObjId, JsObject>, id: ObjId): JsObject {
    if id in objs then objs[id] else Plain(map[])
  }

  /** `Array.isArray(v)`. */
  predicate IsArray(objs: map<ObjId, JsObject>, v: Value) {
    v.Obj? && ObjectAt(objs, v.id).ArrayObj?
  }

  /** The elements of an array value, and [] for anything else. */
  function ElemsOf(objs: map<ObjId, JsObject>, v: Value): seq<Value> {
    if v.Obj? then
      match ObjectAt(objs, v.id)
      case ArrayObj(e) => e
      case Plain(_) => []
    else []
  }

  /** Own enumerable properties, as `for (var prop in o)` visits them. */
  function OwnProps(o: JsObject): (m: map<string, Value>)
    ensures o.Plain? ==> m == o.props
    ensures o.ArrayObj? ==> forall i :: 0 <= i < |o.elems| ==> NatToString(i) in m && m[NatToString(i)] == o.elems[i]
    ensures o.ArrayObj? ==> forall k :: k in m ==> exists i :: 0 <= i < |o.elems| && k == NatToString(i)
  {
    match o
    case Plain(p) => p
    case ArrayObj(e) =>
      assert forall i, j :: 0 <= i < |e| && 0 <= j < |e| && NatToString(i) == NatToString(j) ==> i == j by {
        forall i, j | 0 <= i < |e| && 0 <= j < |e| && NatToString(i) == NatToString(j) ensures i == j {
          NatToStringInjective(i, j);
        }
      }
      map i | 0 <= i < |e| :: NatToString(i) := e[i]
  }

  /** Property read `v[key]`; callers guard against null and undefined. */
  function Property(objs: map<ObjId, JsObject>, v: Value, key: string): Value {
    match v
    case Obj(id) => ObjectProperty(ObjectAt(objs, id), key)
    case Str(s) => StringProperty(s, key)
    case _ => Undefined
  }

  /** Property read on an object: its own key, or an array's length or element. */
  function ObjectProperty(o: JsObject, key: string): Value {
    match o
    case Plain(p) => if key in p then p[key] else Undefined
    case ArrayObj(e) => ArrayProperty(e, key)
  }

  /** Property read on an array's elements: `length`, or the element at a canonical index. */
  function ArrayProperty(e: seq<Value>, key: string): Value {
    if key == "length" then Num(|e|)
    else if ArrayIndex(key).Some? && ArrayIndex(key).value < |e| then e[ArrayIndex(key).value]
    else Undefined
  }

  /** Property read on a string: `length`, or the one-character string at a canonical index. */
  function StringProperty(s: string, key: string): Value {
    if key == "length" then Num(|s|)
    else if ArrayIndex(key).Some? && ArrayIndex(key).value < |s| then Str([s[ArrayIndex(key).value]])
    else Undefined
  }

  /**
   * Property write `obj[key] = v` on the object `id`. An array grows to take an
   * element written past its end (the gap reads as undefined); writes of
   * other keys to an array are not modelled and leave it unchanged.
   */
  function SetProperty(objs: map<ObjId, JsObject>, id: ObjId, key: string, v: Value): (r: map<ObjId, JsObject>)
  {
    match ObjectAt(objs, id)
    case Plain(p) => objs[id := Plain(p[key := v])]
    case ArrayObj(e) => objs[id := ArrayObj(ArrayWrite(e, key, v))]
  }

  /** The elements after writing `key` of an array: only a canonical index changes them. */
  function ArrayWrite(e: seq<Value>, key: string, v: Value): seq<Value> {
    var ix := ArrayIndex(key);
    if ix.None? then e
    else if ix.value < |e| then e[ix.value := v]
    else e + seq(ix.value - |e|, _ => Undefined) + [v]
  }

  /** A plain-object write is read back, and no other key of the object moves. */
  lemma SetPropertyReadBack(objs: map<ObjId, JsObject>, id: ObjId, key: string, v: Value, other: string)
    requires ObjectAt(objs, id).Plain?
    ensures Property(SetProperty(objs, id, key, v), Obj(id), key) == v
    ensures other != key ==> Property(SetProperty(objs, id, key, v), Obj(id), other) == Property(objs, Obj(id), other)
  {
  }

  /** Writing a key twice keeps the second value. */
  lemma Overwrite<K, V>(m: map<K, V>, k: K, a: V, b: V)
    ensures m[k := a][k := b] == m[k := b]
  {
  }

  /** Writing a key and then deleting it is deleting it. */
  lemma WriteDelete<K, V>(m: map<K, V>, k: K, a: V)
    ensures m[k := a] - {k} == m - {k}
  {
  }

  /** Writing back a key's own value changes nothing. */
  lemma WriteSame<K, V>(m: map<K, V>, k: K)
    requires k in m
    ensures m[k := m[k]] == m
  {
  }

  /** No element occurs twice. */
  ghost predicate Distinct<T>(s: seq<T>) {
    forall i, j :: 0 <= i < j < |s| ==> s[i] != s[j]
  }

  /** `s` begins with `pat`. */
  predicate StartsWith(s: string, pat: string) {
    |pat| <= |s| && s[..|pat|] == pat
  }

  /** `s.replace(pat, t)` with a string pattern: its first occurrence becomes `t`. */
  function ReplaceFirst(s: string, pat: string, t: string): string
    decreases |s|
  {
    if StartsWith(s, pat) then t + s[|pat|..]
    else if |s| == 0 then s
    else [s[0]] + ReplaceFirst(s[1..], pat, t)
  }

  /** No occurrence of `pat` starts within `a`, so the replacement happens in `b`. */
  lemma {:induction false} ReplaceFirstSkips(a: string, b: string, pat: string, t: string)
    requires forall i :: 0 <= i < |a| ==> !StartsWith((a + b)[i..], pat)
    requires |pat| > 0
    ensures ReplaceFirst(a + b, pat, t) == a + ReplaceFirst(b, pat, t)
  {
    if |a| > 0 {
      var ab := a + b;
      assert ab[0..] == ab && ab[0] == a[0];
      assert ab[1..] == a[1..] + b;
      assert ReplaceFirst(ab, pat, t) == [a[0]] + ReplaceFirst(a[1..] + b, pat, t);
      forall i | 0 <= i < |a[1..]|
        ensures !StartsWith((a[1..] + b)[i..], pat)
      {
        assert (a[1..] + b)[i..] == ab[i + 1..];
      }
      ReplaceFirstSkips(a[1..], b, pat, t);
      assert [a[0]] + (a[1..] + ReplaceFirst(b, pat, t)) == a + ReplaceFirst(b, pat, t);
    } else {
      assert a + b == b && a + ReplaceFirst(b, pat, t) == ReplaceFirst(b, pat, t);
    }
  }

  /** A one-character pattern absent from `a` is not found in `a`. */
  lemma SkipsChar(a: string, b: string, c: char)
    requires c !in a
    ensures forall i :: 0 <= i < |a| ==> !StartsWith((a + b)[i..], [c])
  {
    forall i | 0 <= i < |a|
      ensures !StartsWith((a + b)[i..], [c])
    {
      assert (a + b)[i..][..1] == [a[i]];
    }
  }

  /** The first occurrence of a character is the one replaced. */
  lemma ReplaceFirstChar(a: string, b: string, c: char, t: string)
    requires c !in a
    ensures ReplaceFirst(a + [c] + b, [c], t) == a + t + b
  {
    SkipsChar(a, [c] + b, c);
    assert a + [c] + b == a + ([c] + b);
    ReplaceFirstSkips(a, [c] + b, [c], t);
    assert StartsWith([c] + b, [c]);
    assert ([c] + b)[1..] == b;
  }

  /** Without the character the string is left as it is. */
  lemma ReplaceFirstAbsent(s: string, c: char, t: string)
    requires c !in s
    ensures ReplaceFirst(s, [c], t) == s
  {
    SkipsChar(s, [], c);
    assert s + [] == s;
    ReplaceFirstSkips(s, [], [c], t);
  }

  /** Replacing the first `c` takes one `c` out and puts the replacement's characters in. */
  lemma ReplaceFirstMultiset(s: string, c: char, t: string)
    ensures c in s ==> multiset(ReplaceFirst(s, [c], t)) == multiset(s) - multiset{c} + multiset(t)
    ensures c !in s ==> ReplaceFirst(s, [c], t) == s
  {
    if c in s {
      var k :| 0 <= k < |s| && s[k] == c;
      var i := FirstIndex(s, c, k);
      var a, b := s[..i], s[i + 1..];
      assert c !in a by {
        forall j | 0 <= j < |a| ensures a[j] != c {
          assert a[j] == s[j];
        }
      }
      assert s == a + [c] + b;
      ReplaceFirstChar(a, b, c, t);
      TradeOne(a, b, c, t);
    } else {
      ReplaceFirstAbsent(s, c, t);
    }
  }

  lemma TradeOne(a: string, b: string, c: char, t: string)
    ensures multiset(a + t + b) == multiset(a + [c] + b) - multiset{c} + multiset(t)
  {
  }

  /** The first position of `c` in `s`, at or before a known one. */
  function FirstIndex(s: string, c: char, k: nat): (m: nat)
    requires k < |s| && s[k] == c
    ensures m <= k && s[m] == c && forall j :: 0 <= j < m ==> s[j] != c
  {
    if c !in s[..k] then k
    else
      var j :| 0 <= j < k && s[..k][j] == c;
      FirstIndex(s, c, j)
  }

  /** The objects of a program run, addressed by identity. */
  class Heap {
    var objs: map<ObjId, JsObject>
    var next: ObjId

    ghost predicate Valid()
      reads this
    {
      forall id :: id in objs ==> id < next
    }

    constructor ()
      ensures Valid() && objs == map[]
    {
      objs := map[];
      next := 0;
    }

    /** Allocates a new object (`{}`, `[]`, an array literal). */
    method Alloc(o: JsObject) returns (id: ObjId)
      requires Valid()
      modifies this
      ensures Valid()
      ensures id !in old(objs) && objs == old(objs)[id := o]
      ensures id == old(next) && next == old(next) + 1
    {
      id := next;
      objs := objs[id := o];
      next := next + 1;
    }
  }
}
