/** escapeJSONDangerousChars of internal/validation/sanitization.go, and the string syntax of
    section 7 of RFC 8259 that reads its result back. */
module Escaping {
  import opened Options

  predicate StartsWith(s: string, prefix: string) {
    |prefix| <= |s| && s[..|prefix|] == prefix
  }

  /** strings.ReplaceAll: every non-overlapping occurrence from the left, for a non-empty `target`. */
  function ReplaceAll(s: string, target: string, replacement: string): string
    requires |target| > 0
    decreases |s|
  {
    if s == [] then []
    else if StartsWith(s, target) then replacement + ReplaceAll(s[|target|..], target, replacement)
    else [s[0]] + ReplaceAll(s[1..], target, replacement)
  }

  function EscapeJSONDangerousChars(input: string): string {
    var a := ReplaceAll(input, "\\", "\\\\");
    var b := ReplaceAll(a, "\"", "\\\"");
    var c := ReplaceAll(b, "\n", "\\n");
    var d := ReplaceAll(c, "\r", "\\r");
    ReplaceAll(d, "\t", "\\t")
  }

  // ---------------------------------------------------------------------------------------
  // The five passes amount to one.

  function EscapeChar(c: char): string {
    match c
    case '\\' => "\\\\"
    case '"' => "\\\""
    case '\n' => "\\n"
    case '\r' => "\\r"
    case '\t' => "\\t"
    case _ => [c]
  }

  /** Each character escaped on its own, in one pass. */
  function EscapeEach(s: string): string {
    if s == [] then [] else EscapeChar(s[0]) + EscapeEach(s[1..])
  }

  lemma ReplaceHead(s: string, target: char, replacement: string)
    requires s != []
    ensures ReplaceAll(s, [target], replacement)
         == (if s[0] == target then replacement else [s[0]]) + ReplaceAll(s[1..], [target], replacement)
  {
    assert s[..1] == [s[0]];
  }

  lemma {:induction false} ReplaceConcat(s: string, t: string, target: char, replacement: string)
    ensures ReplaceAll(s + t, [target], replacement)
         == ReplaceAll(s, [target], replacement) + ReplaceAll(t, [target], replacement)
    decreases |s|
  {
    if s == [] {
      assert s + t == t;
    } else {
      assert (s + t)[0] == s[0] && (s + t)[1..] == s[1..] + t;
      ReplaceHead(s, target, replacement);
      ReplaceHead(s + t, target, replacement);
      ReplaceConcat(s[1..], t, target, replacement);
    }
  }

  lemma ReplaceOne(c: char, target: char, replacement: string)
    ensures ReplaceAll([c], [target], replacement) == if c == target then replacement else [c]
  {
    assert [c][1..] == [] && [c][..1] == [c];
    assert replacement + [] == replacement;
  }

  lemma ReplaceTwo(c: char, d: char, target: char, replacement: string)
    requires c != target && d != target
    ensures ReplaceAll([c, d], [target], replacement) == [c, d]
  {
    assert [c, d] == [c] + [d];
    ReplaceConcat([c], [d], target, replacement);
    ReplaceOne(c, target, replacement);
    ReplaceOne(d, target, replacement);
  }

  lemma EscapeOne(c: char)
    ensures EscapeJSONDangerousChars([c]) == EscapeChar(c)
  {
    ReplaceOne(c, '\\', "\\\\");
    ReplaceOne(c, '"', "\\\"");
    ReplaceOne(c, '\n', "\\n");
    ReplaceOne(c, '\r', "\\r");
    ReplaceOne(c, '\t', "\\t");
    ReplaceTwo('\\', '\\', '"', "\\\"");
    ReplaceTwo('\\', '\\', '\n', "\\n");
    ReplaceTwo('\\', '\\', '\r', "\\r");
    ReplaceTwo('\\', '\\', '\t', "\\t");
    ReplaceTwo('\\', '"', '\n', "\\n");
    ReplaceTwo('\\', '"', '\r', "\\r");
    ReplaceTwo('\\', '"', '\t', "\\t");
    ReplaceTwo('\\', 'n', '\r', "\\r");
    ReplaceTwo('\\', 'n', '\t', "\\t");
    ReplaceTwo('\\', 'r', '\t', "\\t");
  }

  lemma EscapeConcat(s: string, t: string)
    ensures EscapeJSONDangerousChars(s + t) == EscapeJSONDangerousChars(s) + EscapeJSONDangerousChars(t)
  {
    var a, a' := ReplaceAll(s, "\\", "\\\\"), ReplaceAll(t, "\\", "\\\\");
    var b, b' := ReplaceAll(a, "\"", "\\\""), ReplaceAll(a', "\"", "\\\"");
    var c, c' := ReplaceAll(b, "\n", "\\n"), ReplaceAll(b', "\n", "\\n");
    var d, d' := ReplaceAll(c, "\r", "\\r"), ReplaceAll(c', "\r", "\\r");
    ReplaceConcat(s, t, '\\', "\\\\");
    ReplaceConcat(a, a', '"', "\\\"");
    ReplaceConcat(b, b', '\n', "\\n");
    ReplaceConcat(c, c', '\r', "\\r");
    ReplaceConcat(d, d', '\t', "\\t");
  }

  /** The five whole-string replacements, in the order the source runs them, equal one
      simultaneous escape of every character: no pass touches what an earlier one wrote. */
  lemma {:induction false} FivePassesAreOne(s: string)
    ensures EscapeJSONDangerousChars(s) == EscapeEach(s)
    decreases |s|
  {
    if s != [] {
      assert s == [s[0]] + s[1..];
      EscapeConcat([s[0]], s[1..]);
      EscapeOne(s[0]);
      FivePassesAreOne(s[1..]);
    }
  }

  // ---------------------------------------------------------------------------------------
  // Reading it back.

  function HexValue(c: char): Option<nat> {
    if '0' <= c <= '9' then Some((c - '0') as nat)
    else if 'A' <= c <= 'F' then Some((c - 'A') as nat + 10)
    else if 'a' <= c <= 'f' then Some((c - 'a') as nat + 10)
    else None
  }

  predicate Control(c: char) {
    c < ' '
  }

  /** The contents of a JSON string, decoded; None where the text breaks the syntax of section 7.
      `strict` refuses raw control characters, as the standard does. A \u escape gives its
      code unit, when that is a character of its own. */
  function Unescape(s: string, strict: bool): Option<string>
    decreases |s|
  {
    if s == [] then Some([])
    else if s[0] == '"' || (strict && Control(s[0])) then None
    else if s[0] != '\\' then Prepend(s[0], Unescape(s[1..], strict))
    else if |s| < 2 then None
    else
      match s[1]
      case '"' => Prepend('"', Unescape(s[2..], strict))
      case '\\' => Prepend('\\', Unescape(s[2..], strict))
      case '/' => Prepend('/', Unescape(s[2..], strict))
      case 'b' => Prepend(8 as char, Unescape(s[2..], strict))
      case 'f' => Prepend(12 as char, Unescape(s[2..], strict))
      case 'n' => Prepend('\n', Unescape(s[2..], strict))
      case 'r' => Prepend('\r', Unescape(s[2..], strict))
      case 't' => Prepend('\t', Unescape(s[2..], strict))
      case 'u' =>
        if |s| < 6 then None
        else
          var w, x, y, z := HexValue(s[2]), HexValue(s[3]), HexValue(s[4]), HexValue(s[5]);
          if w.None? || x.None? || y.None? || z.None? then None
          else
            var unit := w.value * 0x1000 + x.value * 0x100 + y.value * 0x10 + z.value;
            if 0xD800 <= unit < 0xE000 then None else Prepend(unit as char, Unescape(s[6..], strict))
      case _ => None
  }

  function Prepend(c: char, s: Option<string>): Option<string> {
    if s.None? then None else Some([c] + s.value)
  }

  /** A control character the escaping leaves as it is. */
  predicate LeftRaw(c: char) {
    Control(c) && c !in {'\n', '\r', '\t'}
  }

  lemma UnescapeHead(c: char, rest: string, strict: bool)
    ensures Unescape(EscapeChar(c) + rest, strict)
         == if strict && LeftRaw(c) then None else Prepend(c, Unescape(rest, strict))
  {
    var head := EscapeChar(c);
    assert (head + rest)[|head|..] == rest;
  }

  predicate Unreadable(s: string, strict: bool) {
    strict && exists i :: 0 <= i < |s| && LeftRaw(s[i])
  }

  lemma {:induction false} UnescapeEach(s: string, strict: bool)
    ensures Unescape(EscapeEach(s), strict) == if Unreadable(s, strict) then None else Some(s)
    decreases |s|
  {
    if s != [] {
      UnescapeEach(s[1..], strict);
      UnescapeHead(s[0], EscapeEach(s[1..]), strict);
      assert [s[0]] + s[1..] == s;
      assert Unreadable(s, strict) <==> (strict && LeftRaw(s[0])) || Unreadable(s[1..], strict) by {
        assert forall i :: 1 <= i < |s| ==> s[i] == s[1..][i - 1];
        if Unreadable(s[1..], strict) {
          var i :| 0 <= i < |s| - 1 && LeftRaw(s[1..][i]);
          assert LeftRaw(s[i + 1]);
        }
      }
    }
  }

  /** A JSON reader gets the input back, unless the input holds a control character other than
      newline, carriage return and tab: then, and only then, the result is not JSON. */
  lemma RoundTrip(s: string)
    ensures Unescape(EscapeJSONDangerousChars(s), true)
         == if exists i :: 0 <= i < |s| && LeftRaw(s[i]) then None else Some(s)
    ensures Unescape(EscapeJSONDangerousChars(s), false) == Some(s)
  {
    FivePassesAreOne(s);
    UnescapeEach(s, true);
    UnescapeEach(s, false);
  }

  lemma EscapingIsInjective(s: string, t: string)
    requires EscapeJSONDangerousChars(s) == EscapeJSONDangerousChars(t)
    ensures s == t
  {
    RoundTrip(s);
    RoundTrip(t);
  }

  // ---------------------------------------------------------------------------------------
  // What the result may contain.

  /** How many backslashes in a row end right before position `n`. */
  function Backslashes(s: string, n: nat): nat
    requires n <= |s|
  {
    if n > 0 && s[n - 1] == '\\' then Backslashes(s, n - 1) + 1 else 0
  }

  /** Characters a reader would not take literally, each behind an odd run of backslashes. */
  ghost predicate Guarded(s: string) {
    && (forall i :: 0 <= i < |s| ==> s[i] !in {'\n', '\r', '\t'})
    && (forall i :: 0 <= i < |s| ==> QuoteGuarded(s, i))
    && Backslashes(s, |s|) % 2 == 0
  }

  lemma {:induction false} BackslashesAppend(s: string, t: string, n: nat)
    requires n <= |t| && Backslashes(s, |s|) % 2 == 0
    ensures Backslashes(s + t, |s| + n) % 2 == Backslashes(t, n) % 2
    decreases n
  {
    if n == 0 {
      BackslashesPrefix(s, t, |s|);
    } else if t[n - 1] == '\\' {
      BackslashesAppend(s, t, n - 1);
    }
  }

  lemma {:induction false} BackslashesPrefix(s: string, t: string, n: nat)
    requires n <= |s|
    ensures Backslashes(s + t, n) == Backslashes(s, n)
    decreases n
  {
    if n > 0 {
      BackslashesPrefix(s, t, n - 1);
    }
  }

  /** The quote at `i`, if there is one, is escaped. */
  predicate QuoteGuarded(s: string, i: nat)
    requires i < |s|
  {
    s[i] == '"' ==> Backslashes(s, i) % 2 == 1
  }

  lemma QuoteGuardedConcat(s: string, t: string, i: nat)
    requires Guarded(s) && Guarded(t) && i < |s + t|
    ensures QuoteGuarded(s + t, i)
  {
    if i < |s| {
      assert QuoteGuarded(s, i);
      BackslashesPrefix(s, t, i);
    } else {
      assert QuoteGuarded(t, i - |s|);
      BackslashesAppend(s, t, i - |s|);
    }
  }

  lemma GuardedConcat(s: string, t: string)
    requires Guarded(s) && Guarded(t)
    ensures Guarded(s + t)
  {
    forall i | 0 <= i < |s + t| ensures QuoteGuarded(s + t, i) {
      QuoteGuardedConcat(s, t, i);
    }
    BackslashesAppend(s, t, |t|);
  }

  lemma EscapeCharIsGuarded(c: char)
    ensures Guarded(EscapeChar(c))
  {
    var e := EscapeChar(c);
    assert Backslashes(e, 1) == if e[0] == '\\' then 1 else 0;
    forall i | 0 <= i < |e| ensures QuoteGuarded(e, i) {
      assert i == 0 || i == 1;
      assert Backslashes(e, 0) == 0;
    }
  }

  lemma {:induction false} EachIsGuarded(s: string)
    ensures Guarded(EscapeEach(s))
    decreases |s|
  {
    if s != [] {
      EachIsGuarded(s[1..]);
      EscapeCharIsGuarded(s[0]);
      GuardedConcat(EscapeChar(s[0]), EscapeEach(s[1..]));
    }
  }

  /** The result holds no raw newline, carriage return or tab, every quote in it is escaped, and
      it does not end in an escape of its own. */
  lemma ResultIsGuarded(s: string)
    ensures Guarded(EscapeJSONDangerousChars(s))
  {
    FivePassesAreOne(s);
    EachIsGuarded(s);
  }
}
