/** Splitting strings and reading numbers as the C++ library does (src/base/Headers.hpp,
    std::getline, std::to_string and std::stoi). */
module Strings {
  import opened Wire

  /** The characters before the first `delim`. */
  function Find(s: string, delim: char): (n: nat)
    ensures n <= |s| && delim !in s[..n] && (n < |s| ==> s[n] == delim)
  {
    if s == "" || s[0] == delim then 0 else
      var n := Find(s[1..], delim);
      assert s[..n + 1] == [s[0]] + s[1..][..n];
      n + 1
  }

  /** The pieces between delimiters; a delimiter at the very end starts no further piece. */
  function Split(s: string, delim: char): (tokens: seq<string>)
    ensures s != "" ==> tokens != []
    decreases |s|
  {
    if s == "" then [] else
      var n := Find(s, delim);
      [s[..n]] + if n < |s| then Split(s[n + 1..], delim) else []
  }

  lemma {:induction false} FindIs(s: string, delim: char, n: nat)
    requires n <= |s| && delim !in s[..n] && (n < |s| ==> s[n] == delim)
    ensures Find(s, delim) == n
  {
    if n > 0 {
      assert s[0] in s[..n] && s[1..][..n - 1] == s[..n][1..];
      FindIs(s[1..], delim, n - 1);
    }
  }

  /** A piece and a delimiter in front of a string. */
  lemma {:induction false} SplitPiece(piece: string, rest: string, delim: char)
    requires delim !in piece
    ensures Split(piece + [delim] + rest, delim) == [piece] + Split(rest, delim)
  {
    var s := piece + [delim] + rest;
    assert s[..|piece|] == piece && s[|piece| + 1..] == rest;
    FindIs(s, delim, |piece|);
  }

  lemma {:induction false} SplitLast(piece: string, delim: char)
    requires delim !in piece && piece != ""
    ensures Split(piece, delim) == [piece]
  {
    assert piece[..|piece|] == piece;
    FindIs(piece, delim, |piece|);
  }

  predicate EndsIn(s: string, delim: char) {
    s != "" && s[|s| - 1] == delim
  }

  /** Joining with a delimiter shows the empty piece that a delimiter at the end of the first hides. */
  lemma {:induction false} SplitJoin(a: string, b: string, delim: char)
    requires a != ""
    ensures Split(a + [delim] + b, delim) ==
            Split(a, delim) + (if EndsIn(a, delim) then [""] else []) + Split(b, delim)
    decreases |a|
  {
    hide Split, Find;
    var n := Find(a, delim);
    if n == |a| {
      assert a[..n] == a && a[|a| - 1] in a;
      SplitLast(a, delim);
      SplitPiece(a, b, delim);
    } else {
      var piece, rest := a[..n], a[n + 1..];
      assert a == piece + [delim] + rest && a + [delim] + b == piece + [delim] + (rest + [delim] + b);
      SplitPiece(piece, rest, delim);
      SplitPiece(piece, rest + [delim] + b, delim);
      if rest == "" {
        SplitNothing(delim);
        assert rest + [delim] + b == "" + [delim] + b;
        SplitPiece("", b, delim);
        assert a[|a| - 1] == delim;
      } else {
        assert a[|a| - 1] == rest[|rest| - 1];
        SplitJoin(rest, b, delim);
      }
    }
  }

  lemma {:induction false} OnePieceMore(a: string, b: string, delim: char)
    ensures |Split(a + [delim] + b, delim)| >= 1 + |Split(b, delim)|
  {
    hide Split;
    if a == "" {
      SplitPiece("", b, delim);
    } else {
      SplitJoin(a, b, delim);
      SomePiece(a, delim);
    }
  }

  lemma {:induction false} SomePiece(s: string, delim: char)
    requires s != ""
    ensures |Split(s, delim)| >= 1
  {
  }

  /** The first piece of what starts at `start`. */
  lemma {:induction false} SplitAt(s: string, delim: char, start: nat, pos: nat)
    requires start <= pos <= |s| && start < |s| && delim !in s[start..pos] && (pos < |s| ==> s[pos] == delim)
    ensures Split(s[start..], delim) == [s[start..pos]] + Split(s[if pos < |s| then pos + 1 else pos..], delim)
  {
    var left, n := s[start..], pos - start;
    assert left[..n] == s[start..pos];
    FindIs(left, delim, n);
    if pos < |s| {
      assert left[n + 1..] == s[pos + 1..];
    }
  }

  /** `split`: one `getline` after the other. */
  method SplitString(s: string, delim: char) returns (tokens: seq<string>)
    ensures tokens == Split(s, delim)
  {
    hide Split;
    tokens := [];
    var pos := 0;
    assert s[0..] == s;
    while pos < |s|
      invariant 0 <= pos <= |s|
      invariant tokens + Split(s[pos..], delim) == Split(s, delim)
    {
      var start := pos;
      while pos < |s| && s[pos] != delim
        invariant start <= pos <= |s| && delim !in s[start..pos]
      {
        assert s[start..pos + 1] == s[start..pos] + [s[pos]];
        pos := pos + 1;
      }
      SplitAt(s, delim, start, pos);
      tokens := tokens + [s[start..pos]];
      if pos < |s| {
        pos := pos + 1;
      }
    }
    SplitNothing(delim);
    assert s[pos..] == "";
  }

  lemma {:induction false} SplitNothing(delim: char)
    ensures Split("", delim) == []
  {
  }

  // ----- numbers -----

  function Digit(d: int): char
    requires 0 <= d < 10
  {
    ('0' as int + d) as char
  }

  predicate IsDigit(c: char) {
    '0' <= c <= '9'
  }

  /** The decimal digits of a number. */
  function Decimal(n: nat): (s: string)
    ensures s != "" && forall i :: 0 <= i < |s| ==> IsDigit(s[i])
  {
    if n < 10 then [Digit(n)] else Decimal(n / 10) + [Digit(n % 10)]
  }

  /** `to_string` */
  function ToString(n: int): string {
    if n < 0 then "-" + Decimal(-n) else Decimal(n)
  }

  /** The value of a string of digits. */
  function Value(s: string): nat
    requires forall i :: 0 <= i < |s| ==> IsDigit(s[i])
  {
    if s == "" then 0 else
      assert IsDigit(s[|s| - 1]);
      Value(s[..|s| - 1]) * 10 + (s[|s| - 1] as int - '0' as int)
  }

  lemma {:induction false} ValueOfDecimal(n: nat)
    ensures Value(Decimal(n)) == n
  {
    if n < 10 {
      assert Decimal(n)[..0] == "";
    } else {
      ValueOfDecimal(n / 10);
      assert Decimal(n)[..|Decimal(n)| - 1] == Decimal(n / 10);
    }
  }

  predicate IsSpace(c: char) {
    c == ' ' || 9 <= c as int <= 13
  }

  function SkipSpaces(s: string): string {
    if s != "" && IsSpace(s[0]) then SkipSpaces(s[1..]) else s
  }

  function Digits(s: string): (d: string)
    ensures forall i :: 0 <= i < |d| ==> IsDigit(d[i])
    ensures d <= s
  {
    if s != "" && IsDigit(s[0]) then [s[0]] + Digits(s[1..]) else ""
  }

  /** `stoi`: spaces, a sign, digits, then anything. It throws without digits, or when the
      number does not fit an int. */
  function Stoi(s: string): Option<int> {
    var t := SkipSpaces(s);
    var negative := t != "" && t[0] == '-';
    var d := Digits(if t != "" && (t[0] == '-' || t[0] == '+') then t[1..] else t);
    if d == "" then None else
      var v: int := Value(d);
      var n := if negative then -v else v;
      if -TWO_TO_THE_31 <= n < TWO_TO_THE_31 then Some(n) else None
  }

  /** Spaces before a number and whatever follows it are not read, nor is a plus sign. */
  lemma {:induction false} StoiReads(n: nat, rest: string)
    requires n < TWO_TO_THE_31 && (rest == "" || !IsDigit(rest[0]))
    ensures Stoi(Decimal(n) + rest) == Some(n) && Stoi("+" + Decimal(n) + rest) == Some(n)
    ensures Stoi(" " + Decimal(n) + rest) == Some(n) && Stoi("-" + Decimal(n) + rest) == Some(0 - n)
  {
    hide Value, Decimal, Digits;
    var d := Decimal(n);
    ValueOfDecimal(n);
    DigitsStop(d, rest);
    assert IsDigit(d[0]) && (d + rest)[0] == d[0];
    assert ("+" + d + rest)[1..] == d + rest && ("-" + d + rest)[1..] == d + rest && (" " + d + rest)[1..] == d + rest;
  }

  lemma {:induction false} DigitsStop(d: string, rest: string)
    requires (forall i :: 0 <= i < |d| ==> IsDigit(d[i])) && (rest == "" || !IsDigit(rest[0]))
    ensures Digits(d + rest) == d
  {
    if d == "" {
      assert d + rest == rest;
    } else {
      assert (d + rest)[1..] == d[1..] + rest;
      DigitsStop(d[1..], rest);
    }
  }

  lemma {:induction false} DigitsOfAll(s: string)
    requires forall i :: 0 <= i < |s| ==> IsDigit(s[i])
    ensures Digits(s) == s
  {
    if s != "" {
      DigitsOfAll(s[1..]);
    }
  }

  lemma {:induction false} StoiOfDigits(d: string)
    requires d != "" && forall i :: 0 <= i < |d| ==> IsDigit(d[i])
    ensures Stoi(d) == if Value(d) < TWO_TO_THE_31 then Some(Value(d)) else None
    ensures Stoi("-" + d) == if Value(d) <= TWO_TO_THE_31 then Some(0 - Value(d)) else None
  {
    hide Value, Digits;
    DigitsOfAll(d);
    assert IsDigit(d[0]);
    assert ("-" + d)[1..] == d && ("-" + d)[0] == '-';
  }

  /** Reading a printed number gives it back. */
  lemma {:induction false} StoiOfToString(n: int)
    requires -TWO_TO_THE_31 <= n < TWO_TO_THE_31
    ensures Stoi(ToString(n)) == Some(n)
  {
    hide Value, Decimal, Stoi;
    var m := if n < 0 then -n else n;
    StoiOfDigits(Decimal(m));
    ValueOfDecimal(m);
  }
}
