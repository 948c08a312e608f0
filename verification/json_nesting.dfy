/** Proper nesting, which JSON texts have and the scanner of isValidJSONStructure only
    approximates by counting: the exact relation between the two. */
module JsonNesting {
  import opened Options
  import opened Utf8
  import opened JsonScanner

  /** Whether the scan is inside a string, and right behind a backslash in it. */
  datatype Lex = Lex(inString: bool, escaped: bool)

  const OUTSIDE := Lex(false, false)

  function LexStep(l: Lex, b: byte): Lex {
    if l.escaped then l.(escaped := false)
    else if b == BACKSLASH then l.(escaped := l.inString)
    else if b == QUOTE then l.(inString := !l.inString)
    else l
  }

  /** The opening bytes not closed yet, the innermost first. */
  datatype Nesting = Nesting(stack: seq<byte>, lex: Lex)

  const EMPTY := Nesting([], OUTSIDE)

  predicate Opens(b: byte) {
    b == OPEN_BRACE || b == OPEN_BRACKET
  }

  predicate Closes(b: byte) {
    b == CLOSE_BRACE || b == CLOSE_BRACKET
  }

  function Opener(b: byte): byte {
    if b == CLOSE_BRACE then OPEN_BRACE else OPEN_BRACKET
  }

  /** One byte; None where it closes something else than what was opened last. */
  function NestStep(n: Nesting, b: byte): Option<Nesting> {
    if n.lex != OUTSIDE || !(Opens(b) || Closes(b)) then Some(n.(lex := LexStep(n.lex, b)))
    else if Opens(b) then Some(n.(stack := [b] + n.stack))
    else if n.stack != [] && n.stack[0] == Opener(b) then Some(n.(stack := n.stack[1..]))
    else None
  }

  function NestScan(n: Nesting, data: seq<byte>): Option<Nesting>
    decreases |data|
  {
    if data == [] then Some(n)
    else
      var m := NestStep(n, data[0]);
      if m.None? then None else NestScan(m.value, data[1..])
  }

  /** Outside strings, everything opened is closed, by its own kind and in order. */
  predicate ProperlyNested(data: seq<byte>) {
    var end := NestScan(EMPTY, data);
    end.Some? && end.value.stack == []
  }

  lemma {:induction false} NestConcat(n: Nesting, a: seq<byte>, b: seq<byte>)
    ensures NestScan(n, a + b) == if NestScan(n, a).None? then None else NestScan(NestScan(n, a).value, b)
    decreases |a|
  {
    if a == [] {
      assert a + b == b;
    } else {
      assert (a + b)[1..] == a[1..] + b;
      if NestStep(n, a[0]).Some? {
        NestConcat(NestStep(n, a[0]).value, a[1..], b);
      }
    }
  }

  // ---------------------------------------------------------------------------------------
  // Counting forgets the order of a nesting.

  function Count(stack: seq<byte>, b: byte): nat {
    if stack == [] then 0 else (if stack[0] == b then 1 else 0) + Count(stack[1..], b)
  }

  function Counts(n: Nesting): ScanState {
    ScanState(Count(n.stack, OPEN_BRACE), Count(n.stack, OPEN_BRACKET), n.lex.inString, n.lex.escaped)
  }

  lemma StepCounts(n: Nesting, b: byte)
    requires NestStep(n, b).Some?
    ensures StepByte(Counts(n), b) == Counts(NestStep(n, b).value)
  {
    if n.lex == OUTSIDE && Opens(b) {
      assert ([b] + n.stack)[1..] == n.stack;
    }
  }

  /** As long as a text nests, the scanner's counters are the counts of what is open. */
  lemma {:induction false} NestingCounts(n: Nesting, data: seq<byte>)
    requires NestScan(n, data).Some?
    ensures Scan(Counts(n), data) == Some(Counts(NestScan(n, data).value))
    decreases |data|
  {
    if data != [] {
      StepCounts(n, data[0]);
      NestingCounts(NestStep(n, data[0]).value, data[1..]);
    }
  }

  lemma NestedIsAccepted(data: seq<byte>)
    requires ProperlyNested(data)
    ensures Accepts(data)
  {
    NestingCounts(EMPTY, data);
  }

  // ---------------------------------------------------------------------------------------
  // What is accepted beyond that: texts in which braces and brackets nest, each on their own.

  predicate IsBrace(b: byte) {
    b == OPEN_BRACE || b == CLOSE_BRACE
  }

  predicate IsBracket(b: byte) {
    b == OPEN_BRACKET || b == CLOSE_BRACKET
  }

  /** Outside strings, a bracket (when braces are kept) or a brace (when brackets are). */
  predicate OtherKind(l: Lex, braces: bool, b: byte) {
    l == OUTSIDE && if braces then IsBracket(b) else IsBrace(b)
  }

  /** The text without the other kind outside strings. */
  function Keep(l: Lex, braces: bool, data: seq<byte>): seq<byte>
    decreases |data|
  {
    if data == [] then []
    else (if OtherKind(l, braces, data[0]) then [] else [data[0]]) + Keep(LexStep(l, data[0]), braces, data[1..])
  }

  /** The other kind does not occur outside strings. */
  predicate OnlyKind(l: Lex, braces: bool, data: seq<byte>)
    decreases |data|
  {
    data == [] || (!OtherKind(l, braces, data[0]) && OnlyKind(LexStep(l, data[0]), braces, data[1..]))
  }

  /** A nesting of one kind, as deep as the counter of that kind says. */
  ghost predicate Tower(n: Option<Nesting>, b: byte, height: int, l: Lex) {
    n.Some? && n.value.lex == l && |n.value.stack| == height && forall x :: x in n.value.stack ==> x == b
  }

  lemma KeepHead(l: Lex, braces: bool, data: seq<byte>, n: Nesting)
    requires data != []
    ensures NestScan(n, Keep(l, braces, data)) ==
            var rest := Keep(LexStep(l, data[0]), braces, data[1..]);
            if OtherKind(l, braces, data[0]) then NestScan(n, rest)
            else if NestStep(n, data[0]).None? then None
            else NestScan(NestStep(n, data[0]).value, rest)
  {
    var rest := Keep(LexStep(l, data[0]), braces, data[1..]);
    if OtherKind(l, braces, data[0]) {
      assert [] + rest == rest;
    } else {
      assert ([data[0]] + rest)[1..] == rest;
    }
  }

  function LexOf(s: ScanState): Lex {
    Lex(s.inString, s.escaped)
  }

  /** One byte, as one kind's tower sees it. */
  lemma {:induction false} TowerStep(s: ScanState, n: Nesting, braces: bool, b: byte)
    requires !s.Negative()
    requires var open := if braces then OPEN_BRACE else OPEN_BRACKET;
             Tower(Some(n), open, if braces then s.braces else s.brackets, LexOf(s))
    ensures var open := if braces then OPEN_BRACE else OPEN_BRACKET;
            var t := StepByte(s, b);
            var height := if braces then t.braces else t.brackets;
            if OtherKind(LexOf(s), braces, b) then Tower(Some(n), open, height, LexOf(t))
            else if height < 0 then NestStep(n, b).None?
            else Tower(NestStep(n, b), open, height, LexOf(t))
    ensures LexOf(StepByte(s, b)) == LexStep(LexOf(s), b)
  {
    assert n.stack != [] ==> n.stack[0] in n.stack;
    assert forall x :: n.stack != [] && x in n.stack[1..] ==> x in n.stack;
    assert forall x :: x in [b] + n.stack ==> x == b || x in n.stack;
  }

  lemma {:induction false} TowersFollow(s: ScanState, n: Nesting, m: Nesting, data: seq<byte>)
    requires !s.Negative()
    requires Tower(Some(n), OPEN_BRACE, s.braces, LexOf(s)) && Tower(Some(m), OPEN_BRACKET, s.brackets, LexOf(s))
    ensures var r := Scan(s, data);
            var p, q := NestScan(n, Keep(LexOf(s), true, data)), NestScan(m, Keep(LexOf(s), false, data));
            if r.None? then p.None? || q.None?
            else Tower(p, OPEN_BRACE, r.value.braces, LexOf(r.value))
                 && Tower(q, OPEN_BRACKET, r.value.brackets, LexOf(r.value))
    decreases |data|
  {
    if data != [] {
      var b := data[0];
      var t := StepByte(s, b);
      TowerStep(s, n, true, b);
      TowerStep(s, m, false, b);
      KeepHead(LexOf(s), true, data, n);
      KeepHead(LexOf(s), false, data, m);
      if !t.Negative() {
        var n' := if OtherKind(LexOf(s), true, b) then n else NestStep(n, b).value;
        var m' := if OtherKind(LexOf(s), false, b) then m else NestStep(m, b).value;
        TowersFollow(t, n', m', data[1..]);
      }
    }
  }

  /** Accepted are exactly the texts that nest properly once brackets are left out, and once
      braces are. */
  lemma AcceptsIffEachKindNests(data: seq<byte>)
    ensures Accepts(data) <==>
      ProperlyNested(Keep(OUTSIDE, true, data)) && ProperlyNested(Keep(OUTSIDE, false, data))
  {
    TowersFollow(START, EMPTY, EMPTY, data);
  }

  lemma {:induction false} OnlyKindKeeps(l: Lex, braces: bool, data: seq<byte>)
    requires OnlyKind(l, braces, data)
    ensures Keep(l, braces, data) == data
    decreases |data|
  {
    if data != [] {
      OnlyKindKeeps(LexStep(l, data[0]), braces, data[1..]);
    }
  }

  lemma {:induction false} OnlyKindLeavesNone(n: Nesting, braces: bool, data: seq<byte>)
    requires OnlyKind(n.lex, braces, data)
    ensures NestScan(n, Keep(n.lex, !braces, data)).Some?
    ensures NestScan(n, Keep(n.lex, !braces, data)).value.stack == n.stack
    decreases |data|
  {
    if data != [] {
      KeepHead(n.lex, !braces, data, n);
      OnlyKindLeavesNone(n.(lex := LexStep(n.lex, data[0])), braces, data[1..]);
    }
  }

  /** With only one kind outside strings, accepted and properly nested are the same. */
  lemma OneKindIsExact(data: seq<byte>, braces: bool)
    requires OnlyKind(OUTSIDE, braces, data)
    ensures Accepts(data) <==> ProperlyNested(data)
  {
    AcceptsIffEachKindNests(data);
    OnlyKindKeeps(OUTSIDE, braces, data);
    OnlyKindLeavesNone(EMPTY, braces, data);
  }
}
