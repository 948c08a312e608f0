/** TruncateString and isValidUTF8 of internal/validation/input_limits.go. */
module Truncation {
  import opened Utf8

  /** No rune of the string decodes to U+FFFD. */
  predicate Accepted(s: seq<byte>)
    decreases |s|
  {
    s == [] || (DecodeRune(s).value != REPLACEMENT && Accepted(s[DecodeRune(s).size..]))
  }

  method IsValidUtf8(s: seq<byte>) returns (valid: bool)
    ensures valid == Accepted(s)
  {
    var i := 0;
    while i < |s|
      invariant 0 <= i <= |s|
      invariant Accepted(s) == Accepted(s[i..])
    {
      var r := DecodeRune(s[i..]);
      assert s[i..][r.size..] == s[i + r.size..];
      if r.value == REPLACEMENT {
        return false;
      }
      i := i + r.size;
    }
    return true;
  }

  /** What a truncation is: the value itself when it fits, and otherwise the longest accepted
      prefix of at most `maxLength` bytes. */
  ghost predicate IsTruncation(value: seq<byte>, maxLength: int, r: seq<byte>) {
    if |value| <= maxLength then r == value
    else
      && r <= value
      && Accepted(r)
      && (|r| <= maxLength || (maxLength < 0 && r == []))
      && forall i :: |r| < i <= maxLength ==> !Accepted(value[..i])
  }

  method TruncateString(value: seq<byte>, maxLength: int) returns (r: seq<byte>)
    ensures IsTruncation(value, maxLength, r)
  {
    if |value| <= maxLength {
      return value;
    }
    if maxLength > 0 {
      var i := maxLength;
      while i >= 0
        invariant 0 <= i <= maxLength < |value|
        invariant forall j :: i < j <= maxLength ==> !Accepted(value[..j])
        decreases i
      {
        if i == 0 {
          return value[..i];
        }
        var valid := IsValidUtf8(value[..i]);
        if valid {
          return value[..i];
        }
        i := i - 1;
      }
    }
    return [];
  }

  // ---------------------------------------------------------------------------------------
  // Well-formed input: a sequence of encoded characters.

  ghost predicate WellFormed(chars: seq<seq<byte>>) {
    forall i :: 0 <= i < |chars| ==> WellFormedChar(chars[i])
  }

  function Flatten(chars: seq<seq<byte>>): seq<byte> {
    if chars == [] then [] else chars[0] + Flatten(chars[1..])
  }

  ghost predicate NoReplacement(chars: seq<seq<byte>>) {
    forall i :: 0 <= i < |chars| ==> !IsReplacement(chars[i])
  }

  /** Whole characters are accepted exactly when none of them is U+FFFD; a last character cut
      short is never accepted. */
  lemma {:induction false} AcceptedChars(chars: seq<seq<byte>>, c: seq<byte>, k: nat)
    requires WellFormed(chars) && WellFormedChar(c) && k < |c|
    ensures Accepted(Flatten(chars) + c[..k]) <==> NoReplacement(chars) && k == 0
    decreases |chars|
  {
    var s := Flatten(chars) + c[..k];
    if chars == [] {
      assert s == c[..k];
      if k > 0 {
        CutCharIsInvalid(c, k);
      }
    } else {
      var rest := Flatten(chars[1..]) + c[..k];
      assert s == chars[0] + rest;
      CharDecodes(chars[0], rest);
      assert s[|chars[0]|..] == rest;
      AcceptedChars(chars[1..], c, k);
      assert NoReplacement(chars) <==> !IsReplacement(chars[0]) && NoReplacement(chars[1..]) by {
        if !IsReplacement(chars[0]) && NoReplacement(chars[1..]) {
          forall i | 0 <= i < |chars| ensures !IsReplacement(chars[i]) {
            assert i > 0 ==> chars[i] == chars[1..][i - 1];
          }
        }
        if NoReplacement(chars) {
          assert forall i :: 0 <= i < |chars| - 1 ==> chars[1..][i] == chars[i + 1];
        }
      }
    }
  }

  lemma {:induction false} AcceptedHasChars(s: seq<byte>) returns (chars: seq<seq<byte>>)
    requires Accepted(s)
    ensures WellFormed(chars) && NoReplacement(chars) && Flatten(chars) == s
    decreases |s|
  {
    if s == [] {
      return [];
    }
    var n := DecodeRune(s).size;
    DecodedIsChar(s);
    var rest := AcceptedHasChars(s[n..]);
    chars := [s[..n]] + rest;
    assert chars[1..] == rest;
  }

  /** isValidUTF8 accepts exactly the well-formed UTF-8 strings that do not contain U+FFFD. */
  lemma AcceptedIffWellFormed(s: seq<byte>)
    ensures Accepted(s) <==> exists chars :: WellFormed(chars) && NoReplacement(chars) && Flatten(chars) == s
  {
    if Accepted(s) {
      var chars := AcceptedHasChars(s);
    }
    forall chars | WellFormed(chars) && NoReplacement(chars) && Flatten(chars) == s ensures Accepted(s) {
      AcceptedChars(chars, [0x00], 0);
      assert s + [0x00][..0] == s;
    }
  }

  /** Every offset of the string falls on or inside one character. */
  lemma {:induction false} Locate(chars: seq<seq<byte>>, i: nat) returns (n: nat, k: nat)
    requires WellFormed(chars) && i < |Flatten(chars)|
    ensures n < |chars| && k < |chars[n]|
    ensures |Flatten(chars[..n])| + k == i
    ensures Flatten(chars)[..i] == Flatten(chars[..n]) + chars[n][..k]
    decreases |chars|
  {
    if i < |chars[0]| {
      n, k := 0, i;
      assert Flatten(chars)[..i] == chars[0][..i];
    } else {
      var n', k' := Locate(chars[1..], i - |chars[0]|);
      n, k := n' + 1, k';
      assert chars[..n][1..] == chars[1..][..n'];
      assert Flatten(chars)[..i] == chars[0] + Flatten(chars[1..])[..i - |chars[0]|];
    }
  }

  /** For well-formed input a truncation ends on a character boundary, before any U+FFFD, and
      no longer run of whole characters free of U+FFFD fits. */
  lemma TruncatesAtBoundary(chars: seq<seq<byte>>, maxLength: nat, r: seq<byte>) returns (n: nat)
    requires WellFormed(chars) && maxLength < |Flatten(chars)|
    requires IsTruncation(Flatten(chars), maxLength, r)
    ensures n < |chars| && r == Flatten(chars[..n]) && NoReplacement(chars[..n])
    ensures IsReplacement(chars[n]) || |r| + |chars[n]| > maxLength
  {
    var value := Flatten(chars);
    var k;
    n, k := Locate(chars, |r|);
    assert value[..|r|] == r;
    AcceptedChars(chars[..n], chars[n], k);
    assert k == 0;
    assert r == Flatten(chars[..n]) + chars[n][..0];
    assert Flatten(chars[..n]) + chars[n][..0] == Flatten(chars[..n]);
    var end := |r| + |chars[n]|;
    FlattenSnoc(chars[..n], chars[n]);
    assert chars[..n] + [chars[n]] == chars[..n + 1];
    FlattenSplit(chars, n + 1);
    assert value[..end] == Flatten(chars[..n + 1]);
    AcceptedChars(chars[..n + 1], [0x00], 0);
    assert Flatten(chars[..n + 1]) + [0x00][..0] == Flatten(chars[..n + 1]);
  }

  lemma {:induction false} FlattenSnoc(chars: seq<seq<byte>>, c: seq<byte>)
    ensures Flatten(chars + [c]) == Flatten(chars) + c
    decreases |chars|
  {
    if chars == [] {
      assert ([] + [c])[1..] == [];
    } else {
      assert (chars + [c])[1..] == chars[1..] + [c];
      FlattenSnoc(chars[1..], c);
    }
  }

  lemma {:induction false} FlattenSplit(chars: seq<seq<byte>>, n: nat)
    requires n <= |chars|
    ensures Flatten(chars) == Flatten(chars[..n]) + Flatten(chars[n..])
    decreases n
  {
    if n == 0 {
      assert chars[0..] == chars;
    } else {
      assert chars[..n][1..] == chars[1..][..n - 1];
      assert chars[1..][n - 1..] == chars[n..];
      FlattenSplit(chars[1..], n - 1);
    }
  }

  /** A U+FFFD of the input starts at byte `at`. */
  ghost predicate ReplacementAt(chars: seq<seq<byte>>, at: int) {
    exists i :: 0 <= i < |chars| && IsReplacement(chars[i]) && |Flatten(chars[..i])| == at
  }

  /** At most three bytes are lost below the limit, exactly when no U+FFFD starts four or more
      bytes before it. In particular this holds for input without U+FFFD. */
  lemma LosesAtMostThreeBytes(chars: seq<seq<byte>>, maxLength: nat, r: seq<byte>)
    requires WellFormed(chars) && maxLength < |Flatten(chars)|
    requires IsTruncation(Flatten(chars), maxLength, r)
    ensures maxLength - 3 <= |r| <= maxLength <==> !exists at :: at <= maxLength - 4 && ReplacementAt(chars, at)
    ensures NoReplacement(chars) ==> maxLength - 3 <= |r|
  {
    var n := TruncatesAtBoundary(chars, maxLength, r);
    if |r| < maxLength - 3 {
      assert IsReplacement(chars[n]);
      assert ReplacementAt(chars, |r|);
    } else {
      assert forall j :: 0 <= j < n ==> chars[..n][j] == chars[j];
      forall at | ReplacementAt(chars, at) ensures at > maxLength - 4 {
        var i :| 0 <= i < |chars| && IsReplacement(chars[i]) && |Flatten(chars[..i])| == at;
        FlattenSplit(chars[..i], n);
        assert chars[..i][..n] == chars[..n];
      }
    }
  }
}
