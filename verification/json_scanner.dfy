/** isValidJSONStructure of internal/validation/request_validation.go: a one-pass scanner that
    balances braces and brackets outside strings. */
module JsonScanner {
  import opened Options
  import opened Utf8

  const QUOTE: byte := 0x22
  const BACKSLASH: byte := 0x5C
  const OPEN_BRACE: byte := 0x7B
  const CLOSE_BRACE: byte := 0x7D
  const OPEN_BRACKET: byte := 0x5B
  const CLOSE_BRACKET: byte := 0x5D
  const COLON: byte := 0x3A
  const COMMA: byte := 0x2C

  datatype ScanState = ScanState(braces: int, brackets: int, inString: bool, escaped: bool)
  {
    predicate Negative() {
      braces < 0 || brackets < 0
    }
  }

  const START := ScanState(0, 0, false, false)

  function StepByte(s: ScanState, b: byte): ScanState {
    if s.escaped then s.(escaped := false)
    else if b == BACKSLASH then s.(escaped := s.inString)
    else if b == QUOTE then s.(inString := !s.inString)
    else if s.inString then s
    else if b == OPEN_BRACE then s.(braces := s.braces + 1)
    else if b == CLOSE_BRACE then s.(braces := s.braces - 1)
    else if b == OPEN_BRACKET then s.(brackets := s.brackets + 1)
    else if b == CLOSE_BRACKET then s.(brackets := s.brackets - 1)
    else s
  }

  /** The scan of `data` from state `s`; None once a counter goes below zero. */
  function Scan(s: ScanState, data: seq<byte>): Option<ScanState>
    decreases |data|
  {
    if data == [] then Some(s)
    else
      var t := StepByte(s, data[0]);
      if t.Negative() then None else Scan(t, data[1..])
  }

  predicate Accepts(data: seq<byte>) {
    var end := Scan(START, data);
    end.Some? && end.value.braces == 0 && end.value.brackets == 0
  }

  method IsValidJSONStructure(data: seq<byte>) returns (valid: bool)
    ensures valid == Accepts(data)
  {
    var braceCount, bracketCount, inString, escaped := 0, 0, false, false;
    var i := 0;
    while i < |data|
      invariant 0 <= i <= |data|
      invariant braceCount >= 0 && bracketCount >= 0
      invariant Scan(START, data) == Scan(ScanState(braceCount, bracketCount, inString, escaped), data[i..])
    {
      var b := data[i];
      assert data[i..][0] == b && data[i..][1..] == data[i + 1..];
      i := i + 1;
      if escaped {
        escaped := false;
        continue;
      }
      if b == BACKSLASH {
        if inString {
          escaped := true;
        }
      } else if b == QUOTE {
        inString := !inString;
      } else if b == OPEN_BRACE {
        if !inString {
          braceCount := braceCount + 1;
        }
      } else if b == CLOSE_BRACE {
        if !inString {
          braceCount := braceCount - 1;
        }
      } else if b == OPEN_BRACKET {
        if !inString {
          bracketCount := bracketCount + 1;
        }
      } else if b == CLOSE_BRACKET {
        if !inString {
          bracketCount := bracketCount - 1;
        }
      }
      if braceCount < 0 || bracketCount < 0 {
        return false;
      }
    }
    return braceCount == 0 && bracketCount == 0;
  }

  lemma {:induction false} ScanConcat(s: ScanState, a: seq<byte>, b: seq<byte>)
    ensures Scan(s, a + b) == if Scan(s, a).None? then None else Scan(Scan(s, a).value, b)
    decreases |a|
  {
    if a == [] {
      assert a + b == b;
    } else {
      assert (a + b)[1..] == a[1..] + b;
      if !StepByte(s, a[0]).Negative() {
        ScanConcat(StepByte(s, a[0]), a[1..], b);
      }
    }
  }

  // ---------------------------------------------------------------------------------------
  // What is accepted, without the early exit: no prefix closes more than it opened, and the
  // whole text closes everything.

  function StateAfter(data: seq<byte>): ScanState
    decreases |data|
  {
    if data == [] then START else StepByte(StateAfter(data[..|data| - 1]), data[|data| - 1])
  }

  lemma {:induction false} ScanIsStateAfter(data: seq<byte>)
    ensures Scan(START, data) ==
            if forall i :: 0 <= i <= |data| ==> !StateAfter(data[..i]).Negative()
            then Some(StateAfter(data)) else None
    decreases |data|
  {
    var n := |data|;
    if n > 0 {
      var front, last := data[..n - 1], data[n - 1];
      ScanIsStateAfter(front);
      assert front + [last] == data;
      ScanConcat(START, front, [last]);
      assert forall i :: 0 <= i < n ==> front[..i] == data[..i];
      assert data[..n] == data;
      if Scan(START, front).Some? {
        var s := Scan(START, front).value;
        assert Scan(s, [last]) == if StepByte(s, last).Negative() then None else Some(StepByte(s, last));
      } else {
        var i :| 0 <= i <= |front| && StateAfter(front[..i]).Negative();
        assert StateAfter(data[..i]).Negative();
      }
    }
  }

  lemma AcceptsIffBalanced(data: seq<byte>)
    ensures Accepts(data) <==>
      && (forall i :: 0 <= i <= |data| ==> !StateAfter(data[..i]).Negative())
      && StateAfter(data).braces == 0 && StateAfter(data).brackets == 0
  {
    ScanIsStateAfter(data);
  }

  lemma AcceptsOpenStringAndCrossedPairs()
    ensures Accepts([QUOTE])
    ensures Accepts([OPEN_BRACE, OPEN_BRACKET, CLOSE_BRACE, CLOSE_BRACKET])
  {
    var d := [OPEN_BRACE, OPEN_BRACKET, CLOSE_BRACE, CLOSE_BRACKET];
    var s := ScanState(1, 0, false, false);
    var t := ScanState(1, 1, false, false);
    var u := ScanState(0, 1, false, false);
    assert d[3..][1..] == [] && d[3..][0] == CLOSE_BRACKET;
    assert Scan(u, d[3..]) == Some(START);
    assert d[2..][1..] == d[3..] && d[2..][0] == CLOSE_BRACE;
    assert Scan(t, d[2..]) == Some(START);
    assert d[1..][1..] == d[2..] && d[1..][0] == OPEN_BRACKET;
    assert Scan(s, d[1..]) == Some(START);
  }
}
