/**
 * The path parser of observe-js (dist/aj.js:1032-1204): a finite-state
 * machine over character classes that turns a property-access expression
 * such as `a.b[0]["c d"]` into its list of keys, and the printer that turns
 * a list of keys back into text (`formatAccessor` and `Path.toString`,
 * dist/aj.js:1259-1283).
 */
module PathParser {
  import opened JsCore

  // ---------------------------------------------------------------------------
  // Character classes and the transition table
  // ---------------------------------------------------------------------------

  /** The classes `getPathCharType` sorts characters into. */
  datatype CharType =
    | Eof | Ws | IdentChar | NumberChar | ZeroChar
    | LBracket | RBracket | Dot | DQuote | SQuote | ElseChar

  /** The characters the path syntax treats as white space. */
  predicate IsPathSpace(c: char) {
    c == ' ' || c == '\t' || c == '\n' || c == '\r' ||
    c == '\U{00A0}' || c == '\U{FEFF}' || c == '\U{2028}' || c == '\U{2029}'
  }

  /** `getPathCharType`; `None` stands for reading past the end of the text. */
  function GetPathCharType(c: Option<char>): (t: CharType)
    ensures t == Eof <==> c.None?
    ensures t == IdentChar <==> c.Some? && IsIdentStart(c.value)
    ensures t == NumberChar <==> c.Some? && '1' <= c.value <= '9'
    ensures t == ZeroChar <==> c == Some('0')
    ensures t == Ws <==> c.Some? && IsPathSpace(c.value)
  {
    match c
    case None => Eof
    case Some(ch) =>
      if ch == '[' then LBracket
      else if ch == ']' then RBracket
      else if ch == '.' then Dot
      else if ch == '"' then DQuote
      else if ch == '\'' then SQuote
      else if ch == '0' then ZeroChar
      else if ch == '_' || ch == '$' then IdentChar
      else if IsPathSpace(ch) then Ws
      else if ('a' <= ch <= 'z') || ('A' <= ch <= 'Z') then IdentChar
      else if '1' <= ch <= '9' then NumberChar
      else ElseChar
  }

  datatype Mode =
    | BeforePath | InPath | BeforeIdent | InIdent | BeforeElement
    | AfterZero | InIndex | InSingleQuote | InDoubleQuote | AfterElement | AfterPath

  /** What a transition does to the pending key. */
  datatype Action = NoAction | Push | Append | AppendEmpty

  datatype Rule = Rule(next: Mode, action: Action)

  /**
   * `pathStateMachine[mode][type] || pathStateMachine[mode]['else']`, with
   * `None` for a missing entry. The two quote modes map end of input to
   * `['error']`, which compares loosely equal to `'error'` and so aborts the
   * parse exactly like a missing entry; it is `None` here too.
   */
  function Transition(m: Mode, t: CharType): (r: Option<Rule>)
    ensures r.Some? ==> (r.value.next == AfterPath <==> t == Eof)
    ensures r.Some? && r.value.next == BeforePath ==> m == BeforePath
    ensures m in {InSingleQuote, InDoubleQuote} && t != Eof ==> r.Some?
    ensures r.Some? && r.value.action == Push ==> m in {InIdent, AfterZero, InIndex, AfterElement}
  {
    match m
    case BeforePath =>
      (match t
       case Ws => Some(Rule(BeforePath, NoAction))
       case IdentChar => Some(Rule(InIdent, Append))
       case LBracket => Some(Rule(BeforeElement, NoAction))
       case Eof => Some(Rule(AfterPath, NoAction))
       case _ => None)
    case InPath =>
      (match t
       case Ws => Some(Rule(InPath, NoAction))
       case Dot => Some(Rule(BeforeIdent, NoAction))
       case LBracket => Some(Rule(BeforeElement, NoAction))
       case Eof => Some(Rule(AfterPath, NoAction))
       case _ => None)
    case BeforeIdent =>
      (match t
       case Ws => Some(Rule(BeforeIdent, NoAction))
       case IdentChar => Some(Rule(InIdent, Append))
       case _ => None)
    case InIdent =>
      (match t
       case IdentChar => Some(Rule(InIdent, Append))
       case ZeroChar => Some(Rule(InIdent, Append))
       case NumberChar => Some(Rule(InIdent, Append))
       case Ws => Some(Rule(InPath, Push))
       case Dot => Some(Rule(BeforeIdent, Push))
       case LBracket => Some(Rule(BeforeElement, Push))
       case Eof => Some(Rule(AfterPath, Push))
       case _ => None)
    case BeforeElement =>
      (match t
       case Ws => Some(Rule(BeforeElement, NoAction))
       case ZeroChar => Some(Rule(AfterZero, Append))
       case NumberChar => Some(Rule(InIndex, Append))
       case SQuote => Some(Rule(InSingleQuote, AppendEmpty))
       case DQuote => Some(Rule(InDoubleQuote, AppendEmpty))
       case _ => None)
    case AfterZero =>
      (match t
       case Ws => Some(Rule(AfterElement, Push))
       case RBracket => Some(Rule(InPath, Push))
       case _ => None)
    case InIndex =>
      (match t
       case ZeroChar => Some(Rule(InIndex, Append))
       case NumberChar => Some(Rule(InIndex, Append))
       case Ws => Some(Rule(AfterElement, NoAction))
       case RBracket => Some(Rule(InPath, Push))
       case _ => None)
    case InSingleQuote =>
      (match t
       case SQuote => Some(Rule(AfterElement, NoAction))
       case Eof => None
       case _ => Some(Rule(InSingleQuote, Append)))
    case InDoubleQuote =>
      (match t
       case DQuote => Some(Rule(AfterElement, NoAction))
       case Eof => None
       case _ => Some(Rule(InDoubleQuote, Append)))
    case AfterElement =>
      (match t
       case Ws => Some(Rule(AfterElement, NoAction))
       case RBracket => Some(Rule(InPath, Push))
       case _ => None)
    case AfterPath => None
  }

  /** End of input leads nowhere but to the end state or to an error. */
  lemma EofEndsTheMachine(m: Mode)
    ensures Transition(m, Eof).Some? ==> Transition(m, Eof).value.next == AfterPath
  {
  }

  // ---------------------------------------------------------------------------
  // The parse, as a function of the text
  // ---------------------------------------------------------------------------

  /** The class of every character of a path text. */
  function CharClasses(path: string): (ts: seq<CharType>)
    ensures |ts| == |path|
    ensures Eof !in ts
  {
    seq(|path|, i requires 0 <= i < |path| => GetPathCharType(Some(path[i])))
  }

  /** The class at position `i`; end of input past the last character. */
  function ClassAt(ts: seq<CharType>, i: nat): CharType {
    if i < |ts| then ts[i] else Eof
  }

  /** The text of the pending key (`undefined` reads as the empty key here). */
  function KeyText(key: Option<string>): string {
    if key.Some? then key.value else ""
  }

  /**
   * `maybeUnescapeQuote`: inside a quoted key, a backslash followed by the
   * closing quote character stands for that quote character.
   */
  predicate IsEscapedQuote(path: string, i: nat, m: Mode) {
    i + 1 < |path| && path[i] == '\\' &&
    ((m == InSingleQuote && path[i + 1] == '\'') || (m == InDoubleQuote && path[i + 1] == '"'))
  }

  /** The pending key after an action; `c` is the character just read. */
  function NextKey(a: Action, c: char, key: Option<string>): Option<string> {
    match a
    case NoAction => key
    case Push => None
    case Append => Some(KeyText(key) + [c])
    case AppendEmpty => Some(KeyText(key))
  }

  /** The keys after an action: `push` adds the pending key, if there is one. */
  function PushKeys(a: Action, key: Option<string>, keys: seq<string>): seq<string> {
    if a == Push && key.Some? then keys + [key.value] else keys
  }

  /**
   * The machine run over `path`, whose character classes are `ts`, from
   * position `i` in mode `m`, with `key` pending and `keys` already pushed:
   * the keys, or `None` for a parse error.
   */
  function Run(path: string, ts: seq<CharType>, i: nat, m: Mode, key: Option<string>, keys: seq<string>): Option<seq<string>>
    requires |ts| == |path| && i <= |path| && m != AfterPath
    decreases |path| - i
  {
    if IsEscapedQuote(path, i, m) then
      Run(path, ts, i + 2, m, Some(KeyText(key) + [path[i + 1]]), keys)
    else
      var t := Transition(m, ClassAt(ts, i));
      if t.None? then None
      else if t.value.next == AfterPath then Some(PushKeys(t.value.action, key, keys))
      else if i == |path| then None // end of input never leads to a reading mode
      else Run(path, ts, i + 1, t.value.next, NextKey(t.value.action, path[i], key), PushKeys(t.value.action, key, keys))
  }

  /** `parsePath`: the keys of a path text, or `None` when it does not parse. */
  function Parse(path: string): Option<seq<string>> {
    Run(path, CharClasses(path), 0, BeforePath, None, [])
  }

  /**
   * `parsePath` (dist/aj.js:1143-1204) as the source runs it: one character
   * per turn of the loop, updating the mode, the pending key and the keys.
   */
  method ParsePath(path: string) returns (result: Option<seq<string>>)
    ensures result == Parse(path)
  {
    ghost var ts := CharClasses(path);
    var keys: seq<string> := [];
    var index := 0;
    var key: Option<string> := None;
    var mode := BeforePath;
    while true
      invariant index <= |path| && mode != AfterPath
      invariant Run(path, ts, index, mode, key, keys) == Parse(path)
      decreases |path| - index
    {
      if IsEscapedQuote(path, index, mode) {
        key := Some(KeyText(key) + [path[index + 1]]);
        index := index + 2;
        continue;
      }
      var c := if index < |path| then Some(path[index]) else None;
      assert GetPathCharType(c) == ClassAt(ts, index);
      var transition := Transition(mode, GetPathCharType(c));
      if transition.None? {
        return None;
      }
      var rule := transition.value;
      if rule.next == AfterPath {
        return Some(PushKeys(rule.action, key, keys));
      }
      if index == |path| {
        return None;
      }
      key, keys := NextKey(rule.action, path[index], key), PushKeys(rule.action, key, keys);
      mode := rule.next;
      index := index + 1;
    }
  }

  // ---------------------------------------------------------------------------
  // The printer
  // ---------------------------------------------------------------------------

  /** `key.replace(/"/g, '\\"')`. */
  function EscapeDoubleQuotes(s: string): (r: string)
    ensures |r| >= |s| && (r == "" <==> s == "")
  {
    if |s| == 0 then ""
    else (if s[0] == '"' then "\\\"" else [s[0]]) + EscapeDoubleQuotes(s[1..])
  }

  /**
   * `formatAccessor` (dist/aj.js:1259-1265): `[n]` for an index,
   * `["..."]` with escaped quotes otherwise. The text is bracketed, and an
   * index is exactly a key printed without quotes.
   */
  function FormatAccessor(key: string): (r: string)
    ensures |r| >= |key| + 2 && r[0] == '[' && r[|r| - 1] == ']'
    ensures IsIndex(key) <==> r[1] != '"'
  {
    if IsIndex(key) then "[" + key + "]"
    else "[\"" + EscapeDoubleQuotes(key) + "\"]"
  }

  /** The text `toString` emits for the key at position `i`. */
  function KeyPiece(i: nat, key: string): string {
    if IsIdent(key) then (if i == 0 then key else "." + key)
    else FormatAccessor(key)
  }

  /**
   * `Path.prototype.toString` (dist/aj.js:1271-1283): empty exactly for
   * the empty path, and ending in `]` after a key that is no identifier.
   */
  function PathString(keys: seq<string>): (r: string)
    ensures r == "" <==> keys == []
    ensures keys != [] && !IsIdent(keys[|keys| - 1]) ==> r[|r| - 1] == ']'
  {
    if |keys| == 0 then ""
    else PathString(keys[..|keys| - 1]) + KeyPiece(|keys| - 1, keys[|keys| - 1])
  }

  /** The text of the first `i + 1` keys: that of the first `i`, then key `i`'s piece. */
  lemma PathStringNext(keys: seq<string>, i: nat)
    requires i < |keys|
    ensures PathString(keys[..i + 1]) == PathString(keys[..i]) + KeyPiece(i, keys[i])
  {
    assert keys[..i + 1][..i] == keys[..i];
  }

  function JoinDots(segs: seq<string>): string {
    if |segs| == 0 then ""
    else if |segs| == 1 then segs[0]
    else JoinDots(segs[..|segs| - 1]) + "." + segs[|segs| - 1]
  }

  predicate EndsWithBackslash(s: string) {
    |s| > 0 && s[|s| - 1] == '\\'
  }

  /**
   * The keys `toString` prints so that they parse back: identifiers, indices
   * without a leading zero, and other keys that do not end with a backslash
   * (a final backslash would escape the closing quote) and are empty or
   * not among those `isIndex` may take for an index (see `MayBeIndex`),
   * which it would print bare.
   */
  predicate Printable(key: string) {
    if IsIdent(key) then true
    else if IsIndex(key) then IsCanonicalDigits(key)
    else !EndsWithBackslash(key) && (key == "" || !MayBeIndex(key))
  }

  // ---------------------------------------------------------------------------
  // Single steps, each stated without the transition table
  // ---------------------------------------------------------------------------

  predicate IsIdentPartClass(t: CharType) {
    t == IdentChar || t == ZeroChar || t == NumberChar
  }

  predicate IsDigitClass(t: CharType) {
    t == ZeroChar || t == NumberChar
  }

  function QuoteOf(m: Mode): char {
    if m == InSingleQuote then '\'' else '"'
  }

  function QuoteClassOf(m: Mode): CharType {
    if m == InSingleQuote then SQuote else DQuote
  }

  /** One ordinary step of the machine, on the character at `i`. */
  lemma Step(p: string, ts: seq<CharType>, i: nat, m: Mode, key: Option<string>, keys: seq<string>, r: Rule)
    requires |ts| == |p| && i < |p| && m != AfterPath && !IsEscapedQuote(p, i, m)
    requires Transition(m, ts[i]) == Some(r) && r.next != AfterPath
    ensures Run(p, ts, i, m, key, keys) == Run(p, ts, i + 1, r.next, NextKey(r.action, p[i], key), PushKeys(r.action, key, keys))
  {
  }

  /** The first character of an identifier opens a key. */
  lemma IdentStartStep(p: string, ts: seq<CharType>, i: nat, m: Mode, keys: seq<string>)
    requires |ts| == |p| && i < |p| && ts[i] == IdentChar && (m == BeforePath || m == BeforeIdent)
    ensures Run(p, ts, i, m, None, keys) == Run(p, ts, i + 1, InIdent, Some([p[i]]), keys)
  {
    Step(p, ts, i, m, None, keys, Rule(InIdent, Append));
    assert "" + [p[i]] == [p[i]];
  }

  /** A later identifier character extends the key. */
  lemma IdentStep(p: string, ts: seq<CharType>, i: nat, acc: string, keys: seq<string>)
    requires |ts| == |p| && i < |p| && IsIdentPartClass(ts[i])
    ensures Run(p, ts, i, InIdent, Some(acc), keys) == Run(p, ts, i + 1, InIdent, Some(acc + [p[i]]), keys)
  {
    Step(p, ts, i, InIdent, Some(acc), keys, Rule(InIdent, Append));
  }

  /** `[` or `.` after an identifier pushes it. */
  lemma IdentEndStep(p: string, ts: seq<CharType>, i: nat, k: string, keys: seq<string>, next: Mode)
    requires |ts| == |p| && i < |p|
    requires (ts[i] == LBracket && next == BeforeElement) || (ts[i] == Dot && next == BeforeIdent)
    ensures Run(p, ts, i, InIdent, Some(k), keys) == Run(p, ts, i + 1, next, None, keys + [k])
  {
    Step(p, ts, i, InIdent, Some(k), keys, Rule(next, Push));
  }

  /** White space after an identifier pushes it. */
  lemma IdentSpaceStep(p: string, ts: seq<CharType>, i: nat, k: string, keys: seq<string>)
    requires |ts| == |p| && i < |p| && ts[i] == Ws
    ensures Run(p, ts, i, InIdent, Some(k), keys) == Run(p, ts, i + 1, InPath, None, keys + [k])
  {
    Step(p, ts, i, InIdent, Some(k), keys, Rule(InPath, Push));
  }

  /** Between keys, `[` opens an element and `.` an identifier. */
  lemma PathStep(p: string, ts: seq<CharType>, i: nat, m: Mode, keys: seq<string>, next: Mode)
    requires |ts| == |p| && i < |p| && (m == BeforePath || m == InPath)
    requires (ts[i] == LBracket && next == BeforeElement) || (ts[i] == Dot && next == BeforeIdent && m == InPath)
    ensures Run(p, ts, i, m, None, keys) == Run(p, ts, i + 1, next, None, keys)
  {
    Step(p, ts, i, m, None, keys, Rule(next, NoAction));
  }

  lemma SpaceStep(p: string, ts: seq<CharType>, i: nat, keys: seq<string>)
    requires |ts| == |p| && i < |p| && ts[i] == Ws
    ensures Run(p, ts, i, InPath, None, keys) == Run(p, ts, i + 1, InPath, None, keys)
  {
    Step(p, ts, i, InPath, None, keys, Rule(InPath, NoAction));
  }

  /** A digit after `[` opens an index; a leading `0` must stand alone. */
  lemma IndexStartStep(p: string, ts: seq<CharType>, i: nat, keys: seq<string>)
    requires |ts| == |p| && i < |p| && IsDigitClass(ts[i])
    ensures Run(p, ts, i, BeforeElement, None, keys)
         == Run(p, ts, i + 1, if ts[i] == ZeroChar then AfterZero else InIndex, Some([p[i]]), keys)
  {
    Step(p, ts, i, BeforeElement, None, keys, Rule(if ts[i] == ZeroChar then AfterZero else InIndex, Append));
    assert "" + [p[i]] == [p[i]];
  }

  lemma DigitStep(p: string, ts: seq<CharType>, i: nat, acc: string, keys: seq<string>)
    requires |ts| == |p| && i < |p| && IsDigitClass(ts[i])
    ensures Run(p, ts, i, InIndex, Some(acc), keys) == Run(p, ts, i + 1, InIndex, Some(acc + [p[i]]), keys)
  {
    Step(p, ts, i, InIndex, Some(acc), keys, Rule(InIndex, Append));
  }

  /** `]` closes an index and pushes it. */
  lemma IndexEndStep(p: string, ts: seq<CharType>, i: nat, m: Mode, k: string, keys: seq<string>)
    requires |ts| == |p| && i < |p| && ts[i] == RBracket && (m == AfterZero || m == InIndex)
    ensures Run(p, ts, i, m, Some(k), keys) == Run(p, ts, i + 1, InPath, None, keys + [k])
  {
    Step(p, ts, i, m, Some(k), keys, Rule(InPath, Push));
  }

  /** A quote after `[` opens a quoted key, which starts empty. */
  lemma QuoteStartStep(p: string, ts: seq<CharType>, i: nat, keys: seq<string>)
    requires |ts| == |p| && i < |p| && (ts[i] == DQuote || ts[i] == SQuote)
    ensures Run(p, ts, i, BeforeElement, None, keys)
         == Run(p, ts, i + 1, if ts[i] == DQuote then InDoubleQuote else InSingleQuote, Some(""), keys)
  {
    Step(p, ts, i, BeforeElement, None, keys, Rule(if ts[i] == DQuote then InDoubleQuote else InSingleQuote, AppendEmpty));
  }

  /** Inside quotes, any character but the closing quote is taken literally. */
  lemma QuotedCharStep(p: string, ts: seq<CharType>, i: nat, m: Mode, key: Option<string>, keys: seq<string>)
    requires |ts| == |p| && i < |p| && (m == InSingleQuote || m == InDoubleQuote)
    requires ts[i] != QuoteClassOf(m) && ts[i] != Eof && !IsEscapedQuote(p, i, m)
    ensures Run(p, ts, i, m, key, keys) == Run(p, ts, i + 1, m, Some(KeyText(key) + [p[i]]), keys)
  {
    Step(p, ts, i, m, key, keys, Rule(m, Append));
  }

  /** `"]` closes a double-quoted key and pushes it. */
  lemma QuoteEndStep(p: string, ts: seq<CharType>, i: nat, k: string, keys: seq<string>)
    requires |ts| == |p| && i + 1 < |p| && p[i] != '\\' && ts[i] == DQuote && ts[i + 1] == RBracket
    ensures Run(p, ts, i, InDoubleQuote, Some(k), keys) == Run(p, ts, i + 2, InPath, None, keys + [k])
  {
    Step(p, ts, i, InDoubleQuote, Some(k), keys, Rule(AfterElement, NoAction));
    Step(p, ts, i + 1, AfterElement, Some(k), keys, Rule(InPath, Push));
  }

  /** Inside quotes, a backslash before the closing quote escapes it. */
  lemma EscapeStep(p: string, ts: seq<CharType>, i: nat, m: Mode, key: Option<string>, keys: seq<string>)
    requires |ts| == |p| && i + 1 < |p| && m != AfterPath && IsEscapedQuote(p, i, m)
    ensures Run(p, ts, i, m, key, keys) == Run(p, ts, i + 2, m, Some(KeyText(key) + [p[i + 1]]), keys)
  {
  }

  // ---------------------------------------------------------------------------
  // Runs over pieces of text
  // ---------------------------------------------------------------------------

  /** A run of identifier characters extends the pending identifier. */
  lemma {:induction false} IdentRun(p: string, ts: seq<CharType>, a: nat, b: nat, acc: string, fin: string, keys: seq<string>)
    requires |ts| == |p| && a <= b <= |p| && fin == acc + p[a..b]
    requires forall k :: a <= k < b ==> IsIdentPartClass(ts[k])
    ensures Run(p, ts, a, InIdent, Some(acc), keys) == Run(p, ts, b, InIdent, Some(fin), keys)
    decreases b - a
  {
    if a == b {
      assert acc + p[a..b] == acc;
    } else {
      IdentStep(p, ts, a, acc, keys);
      assert p[a..b] == [p[a]] + p[a + 1..b];
      assert fin == acc + [p[a]] + p[a + 1..b];
      IdentRun(p, ts, a + 1, b, acc + [p[a]], fin, keys);
    }
  }

  /** A run of digits extends the pending index. */
  lemma {:induction false} DigitRun(p: string, ts: seq<CharType>, a: nat, b: nat, acc: string, fin: string, keys: seq<string>)
    requires |ts| == |p| && a <= b <= |p| && fin == acc + p[a..b]
    requires forall k :: a <= k < b ==> IsDigitClass(ts[k])
    ensures Run(p, ts, a, InIndex, Some(acc), keys) == Run(p, ts, b, InIndex, Some(fin), keys)
    decreases b - a
  {
    if a == b {
      assert acc + p[a..b] == acc;
    } else {
      DigitStep(p, ts, a, acc, keys);
      assert p[a..b] == [p[a]] + p[a + 1..b];
      assert fin == acc + [p[a]] + p[a + 1..b];
      DigitRun(p, ts, a + 1, b, acc + [p[a]], fin, keys);
    }
  }

  /** White space between keys is skipped. */
  lemma {:induction false} SpaceRun(p: string, ts: seq<CharType>, a: nat, b: nat, keys: seq<string>)
    requires |ts| == |p| && a <= b <= |p|
    requires forall k :: a <= k < b ==> ts[k] == Ws
    ensures Run(p, ts, a, InPath, None, keys) == Run(p, ts, b, InPath, None, keys)
    decreases b - a
  {
    if a < b {
      SpaceStep(p, ts, a, keys);
      SpaceRun(p, ts, a + 1, b, keys);
    }
  }

  /** The escaped text of a key, split after its first character. */
  lemma EscapeSplit(w: string)
    requires |w| > 0 && !EndsWithBackslash(w)
    ensures EscapeDoubleQuotes(w) == (if w[0] == '"' then "\\\"" else [w[0]]) + EscapeDoubleQuotes(w[1..])
    ensures !EndsWithBackslash(w[1..])
    ensures w[0] == '\\' ==> |w| > 1 && EscapeDoubleQuotes(w[1..])[0] != '"'
  {
    assert |w[1..]| > 0 ==> w[1..][|w[1..]| - 1] == w[|w| - 1];
  }

  /**
   * The body of a double-quoted key, as `formatAccessor` escapes it, is read
   * back as the key itself.
   */
  lemma {:induction false} QuotedRun(p: string, ts: seq<CharType>, a: nat, b: nat, w: string, acc: string, fin: string, keys: seq<string>)
    requires |ts| == |p| && b == a + |EscapeDoubleQuotes(w)| && b <= |p|
    requires p[a..b] == EscapeDoubleQuotes(w) && fin == acc + w
    requires forall k :: a <= k < b ==> ts[k] != Eof && (ts[k] == DQuote ==> p[k] == '"')
    requires !EndsWithBackslash(w)
    ensures Run(p, ts, a, InDoubleQuote, Some(acc), keys) == Run(p, ts, b, InDoubleQuote, Some(fin), keys)
    decreases |w|
  {
    if |w| == 0 {
      assert acc + w == acc;
    } else {
      var e := EscapeDoubleQuotes(w);
      var rest := EscapeDoubleQuotes(w[1..]);
      EscapeSplit(w);
      if w[0] == '"' {
        assert p[a] == '\\' && p[a + 1] == '"' by {
          assert p[a..b][0] == '\\' && p[a..b][1] == '"';
        }
        EscapeStep(p, ts, a, InDoubleQuote, Some(acc), keys);
        assert p[a + 2..b] == rest by {
          assert p[a..b][2..] == rest;
        }
        assert fin == KeyText(Some(acc)) + [p[a + 1]] + w[1..];
        QuotedRun(p, ts, a + 2, b, w[1..], KeyText(Some(acc)) + [p[a + 1]], fin, keys);
      } else {
        assert p[a] == w[0] by {
          assert p[a..b][0] == w[0];
        }
        assert p[a + 1..b] == rest by {
          assert p[a..b][1..] == rest;
        }
        assert w[0] == '\\' ==> p[a + 1] == rest[0];
        QuotedCharStep(p, ts, a, InDoubleQuote, Some(acc), keys);
        assert fin == KeyText(Some(acc)) + [p[a]] + w[1..];
        QuotedRun(p, ts, a + 1, b, w[1..], KeyText(Some(acc)) + [p[a]], fin, keys);
      }
    }
  }

  /** An unterminated quote: the rest of the text holds no closing quote. */
  lemma {:induction false} UnclosedQuoteRun(p: string, ts: seq<CharType>, a: nat, m: Mode, key: Option<string>, keys: seq<string>)
    requires |ts| == |p| && a <= |p| && (m == InSingleQuote || m == InDoubleQuote)
    requires forall k :: a <= k < |p| ==> p[k] != QuoteOf(m) && ts[k] != QuoteClassOf(m) && ts[k] != Eof
    ensures Run(p, ts, a, m, key, keys) == None
    decreases |p| - a
  {
    assert !IsEscapedQuote(p, a, m);
    if a < |p| {
      QuotedCharStep(p, ts, a, m, key, keys);
      UnclosedQuoteRun(p, ts, a + 1, m, Some(KeyText(key) + [p[a]]), keys);
    }
  }

  // ---------------------------------------------------------------------------
  // Character classes of printed text
  // ---------------------------------------------------------------------------

  /** `ts` holds the class of the character of `p` at `k`. */
  predicate ClassFact(p: string, ts: seq<CharType>, k: nat)
    requires |ts| == |p| && k < |p|
  {
    ts[k] == GetPathCharType(Some(p[k]))
  }

  /**
   * `ts` holds the classes of the characters of `p` between `lo` and `hi`.
   * Stated through `ClassFact`, so that the facts are drawn out only where a
   * proof asks for them.
   */
  predicate ClassesOn(p: string, ts: seq<CharType>, lo: nat, hi: nat)
    requires |ts| == |p|
  {
    forall k :: lo <= k < hi && k < |p| ==> ClassFact(p, ts, k)
  }

  lemma ClassesOfText(p: string)
    ensures ClassesOn(p, CharClasses(p), 0, |p|)
  {
    var ts := CharClasses(p);
    forall k | 0 <= k < |p|
      ensures ClassFact(p, ts, k)
    {
    }
  }

  lemma IdentClasses(p: string, ts: seq<CharType>, lo: nat, w: string)
    requires |ts| == |p| && lo + |w| <= |p| && ClassesOn(p, ts, lo, lo + |w|)
    requires p[lo..lo + |w|] == w && IsIdent(w)
    ensures ts[lo] == IdentChar
    ensures forall k :: lo <= k < lo + |w| ==> IsIdentPartClass(ts[k])
  {
    forall k | lo <= k < lo + |w|
      ensures IsIdentPartClass(ts[k])
    {
      assert ClassFact(p, ts, k);
      assert p[k] == w[k - lo];
    }
    assert ClassFact(p, ts, lo);
  }

  lemma DigitClasses(p: string, ts: seq<CharType>, lo: nat, w: string)
    requires |ts| == |p| && lo + |w| <= |p| && ClassesOn(p, ts, lo, lo + |w|)
    requires p[lo..lo + |w|] == w && IsDigits(w)
    ensures forall k :: lo <= k < lo + |w| ==> IsDigitClass(ts[k])
    ensures forall k :: lo <= k < lo + |w| ==> (ts[k] == ZeroChar <==> p[k] == '0')
  {
    forall k | lo <= k < lo + |w|
      ensures IsDigitClass(ts[k]) && (ts[k] == ZeroChar <==> p[k] == '0')
    {
      assert ClassFact(p, ts, k);
      assert p[k] == w[k - lo];
    }
  }

  lemma QuotedClasses(p: string, ts: seq<CharType>, lo: nat, hi: nat)
    requires |ts| == |p| && lo <= hi <= |p| && ClassesOn(p, ts, lo, hi)
    ensures forall k :: lo <= k < hi ==> ts[k] != Eof && (ts[k] == DQuote ==> p[k] == '"')
  {
    forall k | lo <= k < hi
      ensures ts[k] != Eof && (ts[k] == DQuote ==> p[k] == '"')
    {
      assert ClassFact(p, ts, k);
    }
  }

  // ---------------------------------------------------------------------------
  // Round trip of the printer through the parser
  // ---------------------------------------------------------------------------

  /** The machine state after the text of the first `n` keys. */
  function StateMode(keys: seq<string>, n: nat): Mode
    requires n <= |keys|
  {
    if n == 0 then BeforePath else if IsIdent(keys[n - 1]) then InIdent else InPath
  }

  function StateKey(keys: seq<string>, n: nat): Option<string>
    requires n <= |keys|
  {
    if n > 0 && IsIdent(keys[n - 1]) then Some(keys[n - 1]) else None
  }

  function StateKeys(keys: seq<string>, n: nat): seq<string>
    requires n <= |keys|
  {
    if n > 0 && IsIdent(keys[n - 1]) then keys[..n - 1] else keys[..n]
  }

  /**
   * A state between two keys: an identifier still pending, or nothing
   * pending at the start or after a closed bracket.
   */
  predicate Settled(m: Mode, key: Option<string>) {
    (m == InIdent && key.Some?) || ((m == BeforePath || m == InPath) && key.None?)
  }

  /** The keys once the pending identifier, if any, is pushed. */
  function Flush(key: Option<string>, keys: seq<string>): seq<string> {
    if key.Some? then keys + [key.value] else keys
  }

  /** The state after `n` keys is settled, and flushing it gives the `n` keys. */
  lemma StateSettled(keys: seq<string>, n: nat)
    requires n <= |keys|
    ensures Settled(StateMode(keys, n), StateKey(keys, n))
    ensures Flush(StateKey(keys, n), StateKeys(keys, n)) == keys[..n]
    ensures StateMode(keys, n) == BeforePath <==> n == 0
  {
    if n > 0 && IsIdent(keys[n - 1]) {
      assert keys[..n - 1] + [keys[n - 1]] == keys[..n];
    }
  }

  /** Leaving a settled state by `[` or `.`: the pending identifier is pushed. */
  lemma LeaveState(p: string, ts: seq<CharType>, a: nat, m: Mode, key: Option<string>, keys: seq<string>, next: Mode)
    requires |ts| == |p| && a < |p| && Settled(m, key)
    requires (ts[a] == LBracket && next == BeforeElement) || (ts[a] == Dot && next == BeforeIdent && m != BeforePath)
    ensures Run(p, ts, a, m, key, keys) == Run(p, ts, a + 1, next, None, Flush(key, keys))
  {
    if m == InIdent {
      IdentEndStep(p, ts, a, key.value, keys, next);
    } else {
      PathStep(p, ts, a, m, keys, next);
    }
  }

  /** An identifier key `k`, after a `.` unless it is the first key: its text is `p[start..b]`. */
  lemma IdentPieceRun(p: string, ts: seq<CharType>, a: nat, start: nat, b: nat, m: Mode, key: Option<string>, keys: seq<string>, k: string)
    requires |ts| == |p| && Settled(m, key) && IsIdent(k)
    requires start == (if m == BeforePath then a else a + 1) && b == start + |k| && b <= |p| && p[start..b] == k
    requires m != BeforePath ==> ts[a] == Dot
    requires ts[start] == IdentChar && forall j :: start <= j < b ==> IsIdentPartClass(ts[j])
    ensures Run(p, ts, a, m, key, keys) == Run(p, ts, b, InIdent, Some(k), Flush(key, keys))
  {
    assert p[start] == k[0];
    assert k == [p[start]] + p[start + 1..b];
    if m == BeforePath {
      assert Flush(key, keys) == keys;
      IdentStartStep(p, ts, a, BeforePath, keys);
      IdentRun(p, ts, a + 1, b, [p[a]], k, keys);
    } else {
      LeaveState(p, ts, a, m, key, keys, BeforeIdent);
      IdentStartStep(p, ts, a + 1, BeforeIdent, Flush(key, keys));
      IdentRun(p, ts, a + 1 + 1, b, [p[a + 1]], k, Flush(key, keys));
    }
  }

  /** The text `k]` after the `[` of an index key. */
  lemma IndexBodyRun(p: string, ts: seq<CharType>, a: nat, b: nat, ks: seq<string>, k: string)
    requires |ts| == |p| && IsCanonicalDigits(k)
    requires b == a + |k| + 1 && b <= |p| && p[a..b - 1] == k
    requires ts[b - 1] == RBracket
    requires forall j :: a <= j < b - 1 ==> IsDigitClass(ts[j])
    requires ts[a] == ZeroChar <==> k[0] == '0'
    ensures Run(p, ts, a, BeforeElement, None, ks) == Run(p, ts, b, InPath, None, ks + [k])
  {
    assert p[a] == k[0];
    IndexStartStep(p, ts, a, ks);
    if k[0] == '0' {
      assert |k| == 1 && k == [p[a]];
      IndexZeroRun(p, ts, a, ks);
    } else {
      IndexDigitsRun(p, ts, a, b - 1, ks, k);
    }
  }

  /** The `]` right after an index key `0`. */
  lemma IndexZeroRun(p: string, ts: seq<CharType>, a: nat, ks: seq<string>)
    requires |ts| == |p| && a + 1 < |p| && ts[a + 1] == RBracket
    ensures Run(p, ts, a + 1, AfterZero, Some([p[a]]), ks) == Run(p, ts, a + 2, InPath, None, ks + [[p[a]]])
  {
    IndexEndStep(p, ts, a + 1, AfterZero, [p[a]], ks);
  }

  /** The digits after the first non-zero digit of an index key, then its `]` at `c`. */
  lemma IndexDigitsRun(p: string, ts: seq<CharType>, a: nat, c: nat, ks: seq<string>, k: string)
    requires |ts| == |p| && |k| > 0
    requires c == a + |k| && c < |p| && p[a..c] == k
    requires ts[c] == RBracket
    requires forall j :: a <= j < c ==> IsDigitClass(ts[j])
    ensures Run(p, ts, a + 1, InIndex, Some([p[a]]), ks) == Run(p, ts, c + 1, InPath, None, ks + [k])
  {
    assert k == [p[a]] + p[a + 1..c];
    DigitRun(p, ts, a + 1, c, [p[a]], k, ks);
    IndexEndStep(p, ts, c, InIndex, k, ks);
  }

  /** An index key: `[k]`, the text `p[a..b]`. */
  lemma IndexPieceRun(p: string, ts: seq<CharType>, a: nat, b: nat, m: Mode, key: Option<string>, keys: seq<string>, k: string)
    requires |ts| == |p| && Settled(m, key) && IsCanonicalDigits(k)
    requires b == a + |k| + 2 && b <= |p| && p[a + 1..b - 1] == k
    requires ts[a] == LBracket && ts[b - 1] == RBracket
    requires forall j :: a + 1 <= j < b - 1 ==> IsDigitClass(ts[j])
    requires ts[a + 1] == ZeroChar <==> k[0] == '0'
    ensures Run(p, ts, a, m, key, keys) == Run(p, ts, b, InPath, None, Flush(key, keys) + [k])
  {
    LeaveState(p, ts, a, m, key, keys, BeforeElement);
    IndexBodyRun(p, ts, a + 1, b, Flush(key, keys), k);
  }

  /** The text `"e"]` after the `[` of a quoted key, its closing quote at `c`. */
  lemma QuotedBodyRun(p: string, ts: seq<CharType>, a: nat, c: nat, ks: seq<string>, k: string)
    requires |ts| == |p| && !EndsWithBackslash(k)
    requires c == a + 1 + |EscapeDoubleQuotes(k)| && c + 1 < |p|
    requires p[a + 1..c] == EscapeDoubleQuotes(k) && p[c] == '"'
    requires ts[a] == DQuote && ts[c] == DQuote && ts[c + 1] == RBracket
    requires forall j :: a + 1 <= j < c ==> ts[j] != Eof && (ts[j] == DQuote ==> p[j] == '"')
    ensures Run(p, ts, a, BeforeElement, None, ks) == Run(p, ts, c + 2, InPath, None, ks + [k])
  {
    QuoteStartStep(p, ts, a, ks);
    QuotedTailRun(p, ts, a + 1, c, ks, k);
  }

  /** The text `e"]` of a quoted key after its opening quote, its closing quote at `c`. */
  lemma QuotedTailRun(p: string, ts: seq<CharType>, a: nat, c: nat, ks: seq<string>, k: string)
    requires |ts| == |p| && !EndsWithBackslash(k)
    requires c == a + |EscapeDoubleQuotes(k)| && c + 1 < |p|
    requires p[a..c] == EscapeDoubleQuotes(k) && p[c] == '"'
    requires ts[c] == DQuote && ts[c + 1] == RBracket
    requires forall j :: a <= j < c ==> ts[j] != Eof && (ts[j] == DQuote ==> p[j] == '"')
    ensures Run(p, ts, a, InDoubleQuote, Some(""), ks) == Run(p, ts, c + 2, InPath, None, ks + [k])
  {
    assert "" + k == k;
    QuotedRun(p, ts, a, c, k, "", k, ks);
    QuoteEndStep(p, ts, c, k, ks);
  }

  /** Any other key: `["e"]`, the text `p[a..b]`, where `e` is the key with its double quotes escaped. */
  lemma QuotedPieceRun(p: string, ts: seq<CharType>, a: nat, b: nat, m: Mode, key: Option<string>, keys: seq<string>, k: string)
    requires |ts| == |p| && Settled(m, key) && !EndsWithBackslash(k)
    requires b == a + |EscapeDoubleQuotes(k)| + 4 && b <= |p|
    requires p[a + 1 + 1..b - 2] == EscapeDoubleQuotes(k) && p[b - 2] == '"'
    requires ts[a] == LBracket && ts[a + 1] == DQuote && ts[b - 2] == DQuote && ts[b - 1] == RBracket
    requires forall j :: a + 1 + 1 <= j < b - 2 ==> ts[j] != Eof && (ts[j] == DQuote ==> p[j] == '"')
    ensures Run(p, ts, a, m, key, keys) == Run(p, ts, b, InPath, None, Flush(key, keys) + [k])
  {
    var c := b - 2;
    LeaveState(p, ts, a, m, key, keys, BeforeElement);
    assert p[a + 1 + 1..c] == EscapeDoubleQuotes(k) && c == a + 1 + 1 + |EscapeDoubleQuotes(k)|;
    QuotedBodyRun(p, ts, a + 1, c, Flush(key, keys), k);
  }

  lemma SliceOfSlice(s: string, lo: nat, hi: nat, i: nat, j: nat)
    requires lo <= hi <= |s| && i <= j <= hi - lo
    ensures s[lo..hi][i..j] == s[lo + i..lo + j]
  {
    forall t | 0 <= t < j - i
      ensures s[lo..hi][i..j][t] == s[lo + i..lo + j][t]
    {
      assert s[lo..hi][i..j][t] == s[lo..hi][i + t] == s[lo + i + t];
    }
  }

  /** The characters and classes of an identifier piece `p[a..b]`. */
  lemma IdentPieceFacts(p: string, ts: seq<CharType>, a: nat, b: nat, n: nat, k: string)
    requires |ts| == |p| && IsIdent(k) && b == a + |KeyPiece(n, k)| && b <= |p|
    requires p[a..b] == KeyPiece(n, k) && ClassesOn(p, ts, a, b)
    ensures var start := if n == 0 then a else a + 1;
      && b == start + |k|
      && (n > 0 ==> ts[a] == Dot)
      && p[start..b] == k
      && ts[start] == IdentChar && forall j :: start <= j < b ==> IsIdentPartClass(ts[j])
  {
    var piece := KeyPiece(n, k);
    var start := if n == 0 then a else a + 1;
    assert p[start..b] == k by {
      assert p[a..b][start - a..] == k;
    }
    if n > 0 {
      assert p[a] == '.' by {
        assert p[a..b][0] == '.';
      }
      assert ClassFact(p, ts, a);
    }
    IdentClasses(p, ts, start, k);
  }

  /** The characters and classes of an index piece `p[a..b]`. */
  lemma IndexPieceFacts(p: string, ts: seq<CharType>, a: nat, b: nat, k: string)
    requires |ts| == |p| && IsCanonicalDigits(k) && b == a + |k| + 2 && b <= |p|
    requires p[a..b] == "[" + k + "]" && ClassesOn(p, ts, a, b)
    ensures p[a + 1..b - 1] == k
    ensures ts[a] == LBracket && ts[b - 1] == RBracket
    ensures forall j :: a + 1 <= j < b - 1 ==> IsDigitClass(ts[j])
    ensures ts[a + 1] == ZeroChar <==> k[0] == '0'
  {
    var piece := "[" + k + "]";
    assert p[a] == '[' && p[b - 1] == ']' by {
      assert p[a..b][0] == p[a] && p[a..b][1 + |k|] == p[b - 1];
      assert piece[0] == '[' && piece[1 + |k|] == ']';
    }
    assert p[a + 1..b - 1] == k by {
      assert piece[1..1 + |k|] == k;
      SliceOfSlice(p, a, b, 1, 1 + |k|);
    }
    assert ClassFact(p, ts, a) && ClassFact(p, ts, b - 1);
    DigitClasses(p, ts, a + 1, k);
  }

  /** The characters and classes of a quoted piece `p[a..b]`. */
  lemma QuotedPieceFacts(p: string, ts: seq<CharType>, a: nat, b: nat, k: string)
    requires |ts| == |p| && b == a + |EscapeDoubleQuotes(k)| + 4 && b <= |p|
    requires p[a..b] == "[\"" + EscapeDoubleQuotes(k) + "\"]" && ClassesOn(p, ts, a, b)
    ensures p[a + 1 + 1..b - 2] == EscapeDoubleQuotes(k) && p[b - 2] == '"'
    ensures ts[a] == LBracket && ts[a + 1] == DQuote && ts[b - 2] == DQuote && ts[b - 1] == RBracket
    ensures forall j :: a + 1 + 1 <= j < b - 2 ==> ts[j] != Eof && (ts[j] == DQuote ==> p[j] == '"')
  {
    var e := EscapeDoubleQuotes(k);
    var piece := "[\"" + e + "\"]";
    assert p[a] == '[' && p[a + 1] == '"' && p[b - 2] == '"' && p[b - 1] == ']' by {
      var q := p[a..b];
      assert q[0] == p[a] && q[1] == p[a + 1] && q[2 + |e|] == p[b - 2] && q[3 + |e|] == p[b - 1];
      assert piece[0] == '[' && piece[1] == '"' && piece[2 + |e|] == '"' && piece[3 + |e|] == ']';
    }
    assert p[a + 1 + 1..b - 2] == e by {
      assert piece[2..2 + |e|] == e;
      SliceOfSlice(p, a, b, 2, 2 + |e|);
    }
    assert ClassFact(p, ts, a) && ClassFact(p, ts, a + 1);
    assert ClassFact(p, ts, b - 2) && ClassFact(p, ts, b - 1);
    QuotedClasses(p, ts, a + 1 + 1, b - 2);
  }

  /** Reading the text of key `n - 1` (0-based) moves from state `n - 1` to state `n`. */
  lemma PieceRun(p: string, ts: seq<CharType>, a: nat, b: nat, keys: seq<string>, n: nat)
    requires 0 < n <= |keys| && Printable(keys[n - 1]) && |ts| == |p|
    requires b == a + |KeyPiece(n - 1, keys[n - 1])| && b <= |p| && p[a..b] == KeyPiece(n - 1, keys[n - 1])
    requires ClassesOn(p, ts, a, b)
    ensures Run(p, ts, a, StateMode(keys, n - 1), StateKey(keys, n - 1), StateKeys(keys, n - 1))
         == Run(p, ts, b, StateMode(keys, n), StateKey(keys, n), StateKeys(keys, n))
  {
    var i := n - 1;
    var k := keys[i];
    var m, key, ks := StateMode(keys, i), StateKey(keys, i), StateKeys(keys, i);
    StateSettled(keys, i);
    assert keys[..n] == keys[..i] + [k];
    if IsIdent(k) {
      var start := if i == 0 then a else a + 1;
      IdentPieceFacts(p, ts, a, b, i, k);
      IdentPieceRun(p, ts, a, start, b, m, key, ks, k);
    } else if IsIndex(k) {
      IndexPieceFacts(p, ts, a, b, k);
      IndexPieceRun(p, ts, a, b, m, key, ks, k);
    } else {
      QuotedPieceFacts(p, ts, a, b, k);
      QuotedPieceRun(p, ts, a, b, m, key, ks, k);
    }
  }

  /** The text of the first `n` keys is that of the first `n - 1` keys, then piece `n - 1`. */
  lemma PrefixSplit(p: string, ts: seq<CharType>, keys: seq<string>, n: nat)
    requires 0 < n <= |keys| && |ts| == |p|
    requires |PathString(keys[..n])| <= |p| && p[..|PathString(keys[..n])|] == PathString(keys[..n])
    requires ClassesOn(p, ts, 0, |p|)
    ensures |PathString(keys[..n - 1])| <= |p| && p[..|PathString(keys[..n - 1])|] == PathString(keys[..n - 1])
    ensures |PathString(keys[..n])| == |PathString(keys[..n - 1])| + |KeyPiece(n - 1, keys[n - 1])|
    ensures p[|PathString(keys[..n - 1])|..|PathString(keys[..n])|] == KeyPiece(n - 1, keys[n - 1])
    ensures ClassesOn(p, ts, |PathString(keys[..n - 1])|, |PathString(keys[..n])|)
  {
    assert keys[..n][..n - 1] == keys[..n - 1];
    TextSplit(p, PathString(keys[..n - 1]), KeyPiece(n - 1, keys[n - 1]));
  }

  /** A text that starts with `before + piece` starts with `before`, and `piece` follows it. */
  lemma TextSplit(p: string, before: string, piece: string)
    requires |before + piece| <= |p| && p[..|before + piece|] == before + piece
    ensures p[..|before|] == before && p[|before|..|before| + |piece|] == piece
  {
    assert p[..|before|] == before by {
      assert p[..|before + piece|][..|before|] == before;
    }
    assert p[|before|..|before| + |piece|] == piece by {
      assert p[..|before + piece|][|before|..] == piece;
    }
  }

  /** After the text of the first `n` keys, the machine is in state `n`. */
  lemma {:induction false} PrefixRun(p: string, ts: seq<CharType>, keys: seq<string>, n: nat)
    requires n <= |keys| && (forall k :: 0 <= k < n ==> Printable(keys[k])) && |ts| == |p|
    requires |PathString(keys[..n])| <= |p| && p[..|PathString(keys[..n])|] == PathString(keys[..n])
    requires ClassesOn(p, ts, 0, |p|)
    ensures Run(p, ts, 0, BeforePath, None, [])
         == Run(p, ts, |PathString(keys[..n])|, StateMode(keys, n), StateKey(keys, n), StateKeys(keys, n))
  {
    if n > 0 {
      PrefixSplit(p, ts, keys, n);
      PrefixRun(p, ts, keys, n - 1);
      PieceRun(p, ts, |PathString(keys[..n - 1])|, |PathString(keys[..n])|, keys, n);
    }
  }

  /** At the end of the text, state `n` yields the keys read so far. */
  lemma EndRun(p: string, ts: seq<CharType>, keys: seq<string>, n: nat)
    requires n <= |keys| && |ts| == |p|
    ensures Run(p, ts, |p|, StateMode(keys, n), StateKey(keys, n), StateKeys(keys, n)) == Some(keys[..n])
  {
    if n > 0 && IsIdent(keys[n - 1]) {
      assert keys[..n - 1] + [keys[n - 1]] == keys[..n];
    }
  }

  /** `toString` followed by `parsePath` gives back the keys (printable keys). */
  lemma PrintThenParse(keys: seq<string>)
    requires forall k :: 0 <= k < |keys| ==> Printable(keys[k])
    ensures Parse(PathString(keys)) == Some(keys)
  {
    var p := PathString(keys);
    var ts := CharClasses(p);
    assert keys[..|keys|] == keys;
    ClassesOfText(p);
    PrefixRun(p, ts, keys, |keys|);
    EndRun(p, ts, keys, |keys|);
  }

  /** A key with no decimal digit and no leading space is one `isIndex` never takes for an index. */
  lemma NoDigitNoIndex(key: string)
    requires |key| > 0 && !NumeralSpace(key[0]) && forall i :: 0 <= i < |key| ==> !('0' <= key[i] <= '9')
    ensures !MayBeIndex(key)
  {
  }

  /** A key that starts with white space and that `isIndex` may take for an index is printed bare, so it is not printable. */
  lemma SpacedNotPrintable(key: string)
    requires |key| > 0 && NumeralSpace(key[0]) && MayBeIndex(key)
    ensures !Printable(key)
  {
    assert !IsIdentStart(key[0]) && !IsDigit(key[0]);
  }

  /**
   * Keys `isIndex` rejects whatever `+s` makes of them, such as "a.b", "a b"
   * and "-", print quoted and parse back; keys it may take for an index,
   * such as " 1", " " and "0x10", which it would print bare, are outside
   * the round trip.
   */
  lemma QuotedKeysRoundTrip(keys: seq<string>)
    requires keys == ["a.b", "a b", "-"]
    ensures Parse(PathString(keys)) == Some(keys)
    ensures !Printable(" 1") && !Printable(" ")
  {
    NoDigitNoIndex("a.b");
    NoDigitNoIndex("a b");
    NoDigitNoIndex("-");
    PrintThenParse(keys);
    assert " 1"[1] == '1' && MayBeIndex(" 1") && MayBeIndex(" ");
    SpacedNotPrintable(" 1");
    SpacedNotPrintable(" ");
  }

  /** A dotted identifier path prints as the dots between its identifiers. */
  lemma {:induction false} DottedPathString(segs: seq<string>)
    requires forall k :: 0 <= k < |segs| ==> IsIdent(segs[k])
    ensures PathString(segs) == JoinDots(segs)
  {
    if |segs| > 1 {
      assert segs[..|segs| - 1][..|segs| - 2] == segs[..|segs| - 2];
      DottedPathString(segs[..|segs| - 1]);
    }
  }

  /**
   * `a.b.c` parses to its identifiers, and printing them gives the text back.
   */
  lemma DottedPathRoundTrip(segs: seq<string>)
    requires forall k :: 0 <= k < |segs| ==> IsIdent(segs[k])
    ensures Parse(JoinDots(segs)) == Some(segs)
    ensures PathString(Parse(JoinDots(segs)).value) == JoinDots(segs)
  {
    DottedPathString(segs);
    PrintThenParse(segs);
  }

  /** `[n]` gives the single key `n`, kept as its digit string. */
  lemma BracketIndex(n: string)
    requires IsCanonicalDigits(n)
    ensures Parse("[" + n + "]") == Some([n])
  {
    var p := "[" + n + "]";
    var ts := CharClasses(p);
    assert p[0..|p|] == p;
    ClassesOfText(p);
    IndexPieceFacts(p, ts, 0, |p|, n);
    IndexPieceRun(p, ts, 0, |p|, BeforePath, None, [], n);
    assert Flush(None, []) + [n] == [n];
    assert Run(p, ts, |p|, InPath, None, [n]) == Some([n]);
  }

  /** `[0` followed by another digit is a parse error (`[01]`, `[00]`). */
  lemma LeadingZeroRejected(d: char, rest: string)
    requires IsDigit(d)
    ensures Parse("[0" + [d] + rest) == None
  {
    var p := "[0" + [d] + rest;
    var ts := CharClasses(p);
    assert p[0] == '[' && p[1] == '0' && p[2] == d;
    assert ts[0] == LBracket && ts[1] == ZeroChar && IsDigitClass(ts[2]);
    PathStep(p, ts, 0, BeforePath, [], BeforeElement);
    IndexStartStep(p, ts, 1, []);
  }

  /** A quote that is never closed is a parse error. */
  lemma UnterminatedQuoteRejected(quote: char, s: string)
    requires quote == '\'' || quote == '"'
    requires forall k :: 0 <= k < |s| ==> s[k] != quote
    ensures Parse("[" + [quote] + s) == None
  {
    var p := "[" + [quote] + s;
    assert p[0] == '[' && p[1] == quote;
    forall k | 2 <= k < |p| ensures p[k] != quote {
      assert p[k] == s[k - 2];
    }
    UnclosedQuoteText(p, quote);
  }

  /** A text made of `[`, a quote and no second such quote does not parse. */
  lemma UnclosedQuoteText(p: string, quote: char)
    requires quote == '\'' || quote == '"'
    requires |p| >= 2 && p[0] == '[' && p[1] == quote
    requires forall k :: 2 <= k < |p| ==> p[k] != quote
    ensures Parse(p) == None
  {
    var ts := CharClasses(p);
    var m := if quote == '\'' then InSingleQuote else InDoubleQuote;
    UnclosedQuoteClasses(p, quote, ts, m);
    PathStep(p, ts, 0, BeforePath, [], BeforeElement);
    QuoteStartStep(p, ts, 1, []);
    UnclosedQuoteRun(p, ts, 2, m, Some(""), []);
  }

  /** The classes of an unclosed quoted text, apart from the machine. */
  lemma UnclosedQuoteClasses(p: string, quote: char, ts: seq<CharType>, m: Mode)
    requires quote == '\'' || quote == '"'
    requires |p| >= 2 && p[0] == '[' && p[1] == quote
    requires forall k :: 2 <= k < |p| ==> p[k] != quote
    requires ts == CharClasses(p) && m == (if quote == '\'' then InSingleQuote else InDoubleQuote)
    ensures ts[0] == LBracket && ts[1] == QuoteClassOf(m) && (ts[1] == DQuote <==> m == InDoubleQuote)
    ensures forall k :: 2 <= k < |p| ==> p[k] != QuoteOf(m) && ts[k] != QuoteClassOf(m) && ts[k] != Eof
  {
    forall k | 2 <= k < |p|
      ensures p[k] != QuoteOf(m) && ts[k] != QuoteClassOf(m) && ts[k] != Eof
    {
    }
  }

  /** The classes of `a w b`, for identifiers `a` and `b` and white space `w`. */
  lemma SpacedIdentClasses(a: string, w: string, b: string)
    requires IsIdent(a) && IsIdent(b) && |w| > 0
    requires forall k :: 0 <= k < |w| ==> IsPathSpace(w[k])
    ensures var p := a + w + b; var ts := CharClasses(p);
      && p[0..|a|] == a
      && ts[0] == IdentChar && (forall k :: 0 <= k < |a| ==> IsIdentPartClass(ts[k]))
      && (forall k :: |a| <= k < |a| + |w| ==> ts[k] == Ws)
      && ts[|a| + |w|] == IdentChar
  {
    var p := a + w + b;
    var ts := CharClasses(p);
    ClassesOfText(p);
    assert p[0..|a|] == a;
    IdentClasses(p, ts, 0, a);
    forall k | |a| <= k < |a| + |w|
      ensures ts[k] == Ws
    {
      assert p[k] == w[k - |a|];
    }
    assert p[|a| + |w|] == b[0];
  }

  /** Two identifiers separated only by white space (`a b`) are a parse error. */
  lemma SpaceSeparatedIdentsRejected(a: string, w: string, b: string)
    requires IsIdent(a) && IsIdent(b) && |w| > 0
    requires forall k :: 0 <= k < |w| ==> IsPathSpace(w[k])
    ensures Parse(a + w + b) == None
  {
    var p := a + w + b;
    var ts := CharClasses(p);
    SpacedIdentClasses(a, w, b);
    IdentStartStep(p, ts, 0, BeforePath, []);
    assert a == [p[0]] + p[0 + 1..|a|] by {
      assert p[..|a|] == a;
    }
    IdentRun(p, ts, 0 + 1, |a|, [p[0]], a, []);
    IdentSpaceStep(p, ts, |a|, a, []);
    SpaceRun(p, ts, |a| + 1, |a| + |w|, [] + [a]);
    assert Run(p, ts, |a| + |w|, InPath, None, [] + [a]) == None;
  }
}
