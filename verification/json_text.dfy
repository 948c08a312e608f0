/** The JSON grammar of RFC 8259, sections 2 to 7, as syntax trees that keep every choice a text
    can make: white space, escapes, number forms. */
module JsonText {
  import opened Options
  import opened Utf8
  import opened JsonScanner
  import opened JsonNesting

  /** White space around a structural character. */
  datatype Pad = Pad(before: seq<byte>, after: seq<byte>)

  datatype CharText =
    | Unescaped(utf8: seq<byte>)
    | Escape(letter: byte)
    | UnicodeEscape(digits: seq<byte>)

  datatype NumberText = NumberText(minus: bool, whole: seq<byte>, frac: Option<seq<byte>>, exp: Option<ExpText>)

  datatype ExpText = ExpText(e: byte, sign: Option<byte>, digits: seq<byte>)

  datatype Value =
    | False
    | Null
    | True
    | Number(number: NumberText)
    | String(chars: seq<CharText>)
    | EmptyArray(open: Pad, close: Pad)
    | Array(open: Pad, first: Value, rest: Elements, close: Pad)
    | EmptyObject(open: Pad, close: Pad)
    | Object(open: Pad, key: seq<CharText>, colon: Pad, first: Value, members: Members, close: Pad)

  datatype Elements = NoElement | Element(comma: Pad, value: Value, rest: Elements)

  datatype Members = NoMember | Member(comma: Pad, key: seq<CharText>, colon: Pad, value: Value, rest: Members)

  datatype Text = Text(before: seq<byte>, value: Value, after: seq<byte>)

  // ---------------------------------------------------------------------------------------
  // The grammar.

  predicate Whitespace(ws: seq<byte>) {
    forall b :: b in ws ==> b in {0x20, 0x09, 0x0A, 0x0D}
  }

  predicate WfPad(p: Pad) {
    Whitespace(p.before) && Whitespace(p.after)
  }

  predicate Digit(b: byte) {
    In(b, 0x30, 0x39)
  }

  predicate Digits(ds: seq<byte>) {
    ds != [] && forall b :: b in ds ==> Digit(b)
  }

  predicate HexDigit(b: byte) {
    Digit(b) || In(b, 0x41, 0x46) || In(b, 0x61, 0x66)
  }

  predicate WfNumber(n: NumberText) {
    && Digits(n.whole) && (n.whole[0] == 0x30 ==> |n.whole| == 1)
    && (n.frac.Some? ==> Digits(n.frac.value))
    && (n.exp.Some? ==>
          && n.exp.value.e in {0x65, 0x45}
          && (n.exp.value.sign.Some? ==> n.exp.value.sign.value in {0x2B, 0x2D})
          && Digits(n.exp.value.digits))
  }

  predicate WfChar(c: CharText) {
    match c
    case Unescaped(utf8) =>
      WellFormedChar(utf8) && (|utf8| == 1 ==> utf8[0] >= 0x20 && utf8[0] != QUOTE && utf8[0] != BACKSLASH)
    case Escape(letter) => letter in {QUOTE, BACKSLASH, 0x2F, 0x62, 0x66, 0x6E, 0x72, 0x74}
    case UnicodeEscape(digits) => |digits| == 4 && forall b :: b in digits ==> HexDigit(b)
  }

  predicate WfString(chars: seq<CharText>) {
    forall i :: 0 <= i < |chars| ==> WfChar(chars[i])
  }

  predicate WfValue(v: Value) {
    match v
    case False => true
    case Null => true
    case True => true
    case Number(n) => WfNumber(n)
    case String(chars) => WfString(chars)
    case EmptyArray(open, close) => WfPad(open) && WfPad(close)
    case Array(open, first, rest, close) => WfPad(open) && WfValue(first) && WfElements(rest) && WfPad(close)
    case EmptyObject(open, close) => WfPad(open) && WfPad(close)
    case Object(open, key, colon, first, members, close) =>
      WfPad(open) && WfString(key) && WfPad(colon) && WfValue(first) && WfMembers(members) && WfPad(close)
  }

  predicate WfElements(es: Elements) {
    es.Element? ==> WfPad(es.comma) && WfValue(es.value) && WfElements(es.rest)
  }

  predicate WfMembers(ms: Members) {
    ms.Member? ==>
      WfPad(ms.comma) && WfString(ms.key) && WfPad(ms.colon) && WfValue(ms.value) && WfMembers(ms.rest)
  }

  predicate WfText(t: Text) {
    Whitespace(t.before) && WfValue(t.value) && Whitespace(t.after)
  }

  // ---------------------------------------------------------------------------------------
  // The bytes of a text.

  function Structural(p: Pad, b: byte): seq<byte> {
    p.before + [b] + p.after
  }

  function CharBytes(c: CharText): seq<byte> {
    match c
    case Unescaped(utf8) => utf8
    case Escape(letter) => [BACKSLASH, letter]
    case UnicodeEscape(digits) => [BACKSLASH, 0x75] + digits
  }

  function CharsBytes(chars: seq<CharText>): seq<byte> {
    if chars == [] then [] else CharBytes(chars[0]) + CharsBytes(chars[1..])
  }

  function StringBytes(chars: seq<CharText>): seq<byte> {
    [QUOTE] + CharsBytes(chars) + [QUOTE]
  }

  function NumberBytes(n: NumberText): seq<byte> {
    (if n.minus then [0x2D] else [])
    + n.whole
    + (if n.frac.Some? then [0x2E] + n.frac.value else [])
    + (if n.exp.Some? then
         [n.exp.value.e] + (if n.exp.value.sign.Some? then [n.exp.value.sign.value] else []) + n.exp.value.digits
       else [])
  }

  function ValueBytes(v: Value): seq<byte> {
    match v
    case False => [0x66, 0x61, 0x6C, 0x73, 0x65]
    case Null => [0x6E, 0x75, 0x6C, 0x6C]
    case True => [0x74, 0x72, 0x75, 0x65]
    case Number(n) => NumberBytes(n)
    case String(chars) => StringBytes(chars)
    case EmptyArray(open, close) => Structural(open, OPEN_BRACKET) + Structural(close, CLOSE_BRACKET)
    case Array(open, first, rest, close) =>
      Structural(open, OPEN_BRACKET)
      + (ValueBytes(first) + ElementsBytes(rest))
      + Structural(close, CLOSE_BRACKET)
    case EmptyObject(open, close) => Structural(open, OPEN_BRACE) + Structural(close, CLOSE_BRACE)
    case Object(open, key, colon, first, members, close) =>
      Structural(open, OPEN_BRACE)
      + ((StringBytes(key) + Structural(colon, COLON)) + (ValueBytes(first) + MembersBytes(members)))
      + Structural(close, CLOSE_BRACE)
  }

  function ElementsBytes(es: Elements): seq<byte> {
    match es
    case NoElement => []
    case Element(comma, value, rest) => Structural(comma, COMMA) + (ValueBytes(value) + ElementsBytes(rest))
  }

  function MembersBytes(ms: Members): seq<byte> {
    match ms
    case NoMember => []
    case Member(comma, key, colon, value, rest) =>
      (Structural(comma, COMMA) + (StringBytes(key) + Structural(colon, COLON)))
      + (ValueBytes(value) + MembersBytes(rest))
  }

  function TextBytes(t: Text): seq<byte> {
    t.before + ValueBytes(t.value) + t.after
  }

  // ---------------------------------------------------------------------------------------
  // Every value nests properly, inside whatever is open around it.

  /** Scanning `data` from `n` leaves open what was open, and nothing else. */
  predicate Closed(n: Nesting, data: seq<byte>) {
    NestScan(n, data) == Some(n)
  }

  lemma ClosedConcat(n: Nesting, a: seq<byte>, b: seq<byte>)
    requires Closed(n, a) && Closed(n, b)
    ensures Closed(n, a + b)
  {
    NestConcat(n, a, b);
  }

  /** A byte that means nothing to the nesting outside strings. */
  predicate Plain(b: byte) {
    b != QUOTE && !Opens(b) && !Closes(b)
  }

  lemma {:induction false} PlainClosed(n: Nesting, data: seq<byte>)
    requires n.lex == OUTSIDE && forall b :: b in data ==> Plain(b)
    ensures Closed(n, data)
    decreases |data|
  {
    if data != [] {
      assert data[0] in data;
      PlainClosed(n, data[1..]);
    }
  }

  lemma ScanOne(n: Nesting, b: byte)
    ensures NestScan(n, [b]) == NestStep(n, b)
  {
    var m := NestStep(n, b);
    assert [b][1..] == [];
    assert m.Some? ==> NestScan(m.value, []) == m;
  }

  lemma StructuralScan(n: Nesting, p: Pad, b: byte)
    requires n.lex == OUTSIDE && WfPad(p)
    requires NestStep(n, b).Some? && NestStep(n, b).value.lex == OUTSIDE
    ensures NestScan(n, Structural(p, b)) == NestStep(n, b)
  {
    PlainClosed(n, p.before);
    PlainClosed(NestStep(n, b).value, p.after);
    ScanOne(n, b);
    NestConcat(n, p.before, [b]);
    NestConcat(n, p.before + [b], p.after);
  }

  function Opened(n: Nesting, b: byte): Nesting {
    n.(stack := [b] + n.stack)
  }

  /** Opening and closing one pair around closed contents. */
  lemma Enclosed(n: Nesting, open: Pad, b: byte, data: seq<byte>, close: Pad, d: byte)
    requires n.lex == OUTSIDE && WfPad(open) && WfPad(close)
    requires Opens(b) && Closes(d) && Opener(d) == b
    requires Closed(Opened(n, b), data)
    ensures Closed(n, Structural(open, b) + data + Structural(close, d))
  {
    var m := Opened(n, b);
    assert m.stack[1..] == n.stack;
    StructuralScan(n, open, b);
    StructuralScan(m, close, d);
    NestConcat(n, Structural(open, b), data);
    NestConcat(n, Structural(open, b) + data, Structural(close, d));
  }

  const INSIDE := Lex(true, false)

  lemma {:induction false} InsideClosed(n: Nesting, data: seq<byte>)
    requires n.lex == INSIDE
    requires forall b :: b in data ==> b != QUOTE && b != BACKSLASH
    ensures Closed(n, data)
    decreases |data|
  {
    if data != [] {
      assert data[0] in data;
      assert forall b :: b in data[1..] ==> b in data;
      InsideClosed(n, data[1..]);
    }
  }

  lemma EscapedClosed(n: Nesting, b: byte)
    requires n.lex == INSIDE
    ensures Closed(n, [BACKSLASH, b])
  {
    ScanOne(n, BACKSLASH);
    ScanOne(n.(lex := Lex(true, true)), b);
    assert [BACKSLASH, b] == [BACKSLASH] + [b];
    NestConcat(n, [BACKSLASH], [b]);
  }

  lemma CharClosed(n: Nesting, c: CharText)
    requires n.lex == INSIDE && WfChar(c)
    ensures Closed(n, CharBytes(c))
  {
    match c
    case Unescaped(utf8) =>
      InsideClosed(n, utf8);
    case Escape(letter) =>
      EscapedClosed(n, letter);
    case UnicodeEscape(digits) =>
      EscapedClosed(n, 0x75);
      InsideClosed(n, digits);
      ClosedConcat(n, [BACKSLASH, 0x75], digits);
  }

  lemma {:induction false} CharsClosed(n: Nesting, chars: seq<CharText>)
    requires n.lex == INSIDE && WfString(chars)
    ensures Closed(n, CharsBytes(chars))
    decreases |chars|
  {
    if chars != [] {
      CharClosed(n, chars[0]);
      CharsClosed(n, chars[1..]);
      ClosedConcat(n, CharBytes(chars[0]), CharsBytes(chars[1..]));
    }
  }

  lemma StringClosed(n: Nesting, chars: seq<CharText>)
    requires n.lex == OUTSIDE && WfString(chars)
    ensures Closed(n, StringBytes(chars))
  {
    var m := n.(lex := INSIDE);
    CharsClosed(m, chars);
    ScanOne(n, QUOTE);
    ScanOne(m, QUOTE);
    NestConcat(n, [QUOTE], CharsBytes(chars));
    NestConcat(n, [QUOTE] + CharsBytes(chars), [QUOTE]);
  }

  lemma NameClosed(n: Nesting, key: seq<CharText>, colon: Pad)
    requires n.lex == OUTSIDE && WfString(key) && WfPad(colon)
    ensures Closed(n, StringBytes(key) + Structural(colon, COLON))
  {
    StringClosed(n, key);
    StructuralScan(n, colon, COLON);
    ClosedConcat(n, StringBytes(key), Structural(colon, COLON));
  }

  lemma {:induction false} ValueClosed(n: Nesting, v: Value)
    requires n.lex == OUTSIDE && WfValue(v)
    ensures Closed(n, ValueBytes(v))
    decreases v
  {
    match v
    case String(chars) =>
      StringClosed(n, chars);
    case EmptyArray(open, close) =>
      Enclosed(n, open, OPEN_BRACKET, [], close, CLOSE_BRACKET);
      assert Structural(open, OPEN_BRACKET) + [] == Structural(open, OPEN_BRACKET);
    case Array(open, first, rest, close) =>
      var m := Opened(n, OPEN_BRACKET);
      ValueClosed(m, first);
      ElementsClosed(m, rest);
      ClosedConcat(m, ValueBytes(first), ElementsBytes(rest));
      Enclosed(n, open, OPEN_BRACKET, ValueBytes(first) + ElementsBytes(rest), close, CLOSE_BRACKET);
    case EmptyObject(open, close) =>
      Enclosed(n, open, OPEN_BRACE, [], close, CLOSE_BRACE);
      assert Structural(open, OPEN_BRACE) + [] == Structural(open, OPEN_BRACE);
    case Object(open, key, colon, first, members, close) =>
      var m := Opened(n, OPEN_BRACE);
      NameClosed(m, key, colon);
      ValueClosed(m, first);
      MembersClosed(m, members);
      ClosedConcat(m, ValueBytes(first), MembersBytes(members));
      var name := StringBytes(key) + Structural(colon, COLON);
      ClosedConcat(m, name, ValueBytes(first) + MembersBytes(members));
      Enclosed(n, open, OPEN_BRACE, name + (ValueBytes(first) + MembersBytes(members)), close, CLOSE_BRACE);
    case _ =>
      PlainClosed(n, ValueBytes(v));
  }

  lemma {:induction false} ElementsClosed(n: Nesting, es: Elements)
    requires n.lex == OUTSIDE && WfElements(es)
    ensures Closed(n, ElementsBytes(es))
    decreases es
  {
    if es.Element? {
      StructuralScan(n, es.comma, COMMA);
      ValueClosed(n, es.value);
      ElementsClosed(n, es.rest);
      ClosedConcat(n, ValueBytes(es.value), ElementsBytes(es.rest));
      ClosedConcat(n, Structural(es.comma, COMMA), ValueBytes(es.value) + ElementsBytes(es.rest));
    }
  }

  lemma {:induction false} MembersClosed(n: Nesting, ms: Members)
    requires n.lex == OUTSIDE && WfMembers(ms)
    ensures Closed(n, MembersBytes(ms))
    decreases ms
  {
    if ms.Member? {
      StructuralScan(n, ms.comma, COMMA);
      NameClosed(n, ms.key, ms.colon);
      var name := StringBytes(ms.key) + Structural(ms.colon, COLON);
      ClosedConcat(n, Structural(ms.comma, COMMA), name);
      ValueClosed(n, ms.value);
      MembersClosed(n, ms.rest);
      ClosedConcat(n, ValueBytes(ms.value), MembersBytes(ms.rest));
      ClosedConcat(n, Structural(ms.comma, COMMA) + name, ValueBytes(ms.value) + MembersBytes(ms.rest));
    }
  }

  /** Every well-formed JSON text is properly nested, and ends outside strings. */
  lemma TextsNest(t: Text)
    requires WfText(t)
    ensures NestScan(EMPTY, TextBytes(t)) == Some(EMPTY)
    ensures ProperlyNested(TextBytes(t))
  {
    PlainClosed(EMPTY, t.before);
    ValueClosed(EMPTY, t.value);
    PlainClosed(EMPTY, t.after);
    ClosedConcat(EMPTY, t.before, ValueBytes(t.value));
    ClosedConcat(EMPTY, t.before + ValueBytes(t.value), t.after);
  }

  // ---------------------------------------------------------------------------------------
  // What this means for the scanner.

  /** Some nesting with the given counts. */
  function AnyNesting(braces: nat, brackets: nat): (n: Nesting)
    ensures n.lex == OUTSIDE && Counts(n) == ScanState(braces, brackets, false, false)
  {
    if braces > 0 then
      var n := AnyNesting(braces - 1, brackets);
      assert ([OPEN_BRACE] + n.stack)[1..] == n.stack;
      Opened(n, OPEN_BRACE)
    else if brackets > 0 then
      var n := AnyNesting(0, brackets - 1);
      assert ([OPEN_BRACKET] + n.stack)[1..] == n.stack;
      Opened(n, OPEN_BRACKET)
    else EMPTY
  }

  /** A serialised value returns the scanner to the state it started in, whatever the counts, and
      no counter drops below zero on the way. */
  lemma {:induction false} ValueNeutral(s: ScanState, v: Value)
    requires !s.inString && !s.escaped && !s.Negative() && WfValue(v)
    ensures Scan(s, ValueBytes(v)) == Some(s)
  {
    var n := AnyNesting(s.braces, s.brackets);
    ValueClosed(n, v);
    NestingCounts(n, ValueBytes(v));
  }

  /** Every well-formed JSON text is accepted. */
  lemma AcceptsEveryJsonText(t: Text)
    requires WfText(t)
    ensures Accepts(TextBytes(t))
  {
    TextsNest(t);
    NestedIsAccepted(TextBytes(t));
  }

  ghost predicate IsJson(data: seq<byte>) {
    exists t :: WfText(t) && TextBytes(t) == data
  }

  const OPEN_STRING := [QUOTE]
  const CROSSED_PAIRS := [OPEN_BRACE, OPEN_BRACKET, CLOSE_BRACE, CLOSE_BRACKET]

  /** Balance is all that is checked: an open string and crossed pairs pass, and neither is a JSON
      text. */
  lemma AcceptsMoreThanJson()
    ensures Accepts(OPEN_STRING) && !IsJson(OPEN_STRING)
    ensures Accepts(CROSSED_PAIRS) && !IsJson(CROSSED_PAIRS)
  {
    AcceptsOpenStringAndCrossedPairs();
    ScanOne(EMPTY, QUOTE);
    CrossedPairsDoNotNest();
    forall t | WfText(t) ensures TextBytes(t) != OPEN_STRING && TextBytes(t) != CROSSED_PAIRS {
      TextsNest(t);
    }
  }

  lemma CrossedPairsDoNotNest()
    ensures !ProperlyNested(CROSSED_PAIRS)
  {
    var d := CROSSED_PAIRS;
    var n, m := Opened(EMPTY, OPEN_BRACE), Opened(Opened(EMPTY, OPEN_BRACE), OPEN_BRACKET);
    assert d[2..][0] == CLOSE_BRACE && NestScan(m, d[2..]) == None;
    assert d[1..][1..] == d[2..] && d[1..][0] == OPEN_BRACKET;
    assert NestScan(n, d[1..]) == None;
  }
}
