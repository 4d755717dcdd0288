/** Numbers kept as decimal strings: the contracts' parser and printer. */
module Decimal {
  import opened Words

  predicate IsDigit(c: char) {
    '0' <= c <= '9'
  }

  function DigitValue(c: char): nat
    requires IsDigit(c)
  {
    c as int - '0' as int
  }

  function DigitChar(d: nat): char
    requires d < 10
  {
    ('0' as int + d) as char
  }

  ghost predicate AllDigits(s: string) {
    forall i :: 0 <= i < |s| ==> IsDigit(s[i])
  }

  /** The number a digit string denotes; the empty string denotes 0. */
  ghost function Number(s: string): nat
    requires AllDigits(s)
  {
    if s == "" then 0 else Number(s[..|s| - 1]) * 10 + DigitValue(s[|s| - 1])
  }

  /** What parsing yields: the number, or 0 for anything that is not a number up to `limit`. */
  ghost function Parsed(s: string, limit: nat): nat {
    if AllDigits(s) && Number(s) <= limit then Number(s) else 0
  }

  /** The decimal digits of a number, without leading zeros. */
  ghost function Digits(v: nat): string
    decreases v, 1
  {
    Leading(v) + [DigitChar(v % 10)]
  }

  ghost function Leading(v: nat): string
    decreases v, 0
  {
    if v < 10 then "" else Digits(v / 10)
  }

  lemma DigitOf(d: nat)
    requires d < 10
    ensures IsDigit(DigitChar(d)) && DigitValue(DigitChar(d)) == d
  {
  }

  lemma AppendDigit(s: string, d: nat)
    requires AllDigits(s) && d < 10
    ensures AllDigits(s + [DigitChar(d)]) && Number(s + [DigitChar(d)]) == Number(s) * 10 + d
  {
    DigitOf(d);
    var t := s + [DigitChar(d)];
    assert t[..|t| - 1] == s;
  }

  // ---------------------------------------------------------------- round trips

  lemma {:induction false} DigitsDenote(v: nat)
    ensures AllDigits(Digits(v)) && Number(Digits(v)) == v
  {
    if v >= 10 { DigitsDenote(v / 10); }
    AppendDigit(Leading(v), v % 10);
  }

  /** Parsing what was printed gives the number back, for every number up to the limit. */
  lemma ParsePrinted(v: nat, limit: nat)
    requires v <= limit
    ensures Parsed(Digits(v), limit) == v
  {
    DigitsDenote(v);
  }

  lemma DigitsInjective(v: nat, w: nat)
    requires Digits(v) == Digits(w)
    ensures v == w
  {
    DigitsDenote(v);
    DigitsDenote(w);
  }

  lemma DigitBack(c: char)
    requires IsDigit(c)
    ensures DigitChar(DigitValue(c)) == c
  {
  }

  lemma LastDigit(n: nat, d: nat)
    requires d < 10
    ensures (n * 10 + d) / 10 == n && (n * 10 + d) % 10 == d
  {
  }

  /** Printing what was parsed gives the string back exactly when it has no superfluous zero. */
  lemma {:induction false} PrintParsed(s: string)
    requires AllDigits(s)
    ensures Digits(Number(s)) == s <==> s == "0" || (s != "" && s[0] != '0')
    decreases |s|
  {
    if s != "" {
      var t, c := s[..|s| - 1], s[|s| - 1];
      assert s == t + [c];
      DigitBack(c);
      LastDigit(Number(t), DigitValue(c));
      assert Digits(Number(s)) == Leading(Number(s)) + [c];
      assert Digits(Number(s))[..|Digits(Number(s))| - 1] == Leading(Number(s));
      PrintParsed(t);
      Positive(t);
      if t != "" && Number(t) > 0 {
        assert Leading(Number(s)) == Digits(Number(t));
      }
    }
  }

  lemma {:induction false} Positive(s: string)
    requires AllDigits(s)
    ensures s != "" && s[0] != '0' ==> Number(s) > 0
    decreases |s|
  {
    if |s| > 1 { Positive(s[..|s| - 1]); }
  }

  lemma {:induction false} PrefixAtMost(s: string, k: nat)
    requires AllDigits(s) && k <= |s|
    ensures Number(s[..k]) <= Number(s)
    decreases |s| - k
  {
    if k < |s| {
      assert s[..k + 1][..k] == s[..k];
      PrefixAtMost(s, k + 1);
    } else {
      assert s[..k] == s;
    }
  }

  // ---------------------------------------------------------------- the loops

  /** `parse_u128` and `parse_u64`, for the largest value of either type. */
  method Parse(s: string, limit: nat) returns (result: nat)
    requires limit >= 9
    ensures result == Parsed(s, limit) <= limit
  {
    result := 0;
    for i := 0 to |s|
      invariant AllDigits(s[..i]) && result == Number(s[..i]) <= limit
    {
      if !IsDigit(s[i]) {
        return 0;
      }
      assert s[..i + 1][..i] == s[..i];
      ghost var next := Number(s[..i + 1]);
      if AllDigits(s) { PrefixAtMost(s, i + 1); }
      if result * 10 > limit {
        return 0;
      }
      result := result * 10;
      if result + DigitValue(s[i]) > limit {
        return 0;
      }
      result := result + DigitValue(s[i]);
    }
    assert s[..|s|] == s;
  }

  ghost function Pow10(n: nat): nat {
    if n == 0 then 1 else 10 * Pow10(n - 1)
  }

  /** Positional notation: what stands in front counts ten times as much for every digit behind it. */
  lemma {:induction false} NumberConcat(s: string, t: string)
    requires AllDigits(s) && AllDigits(t)
    ensures AllDigits(s + t) && Number(s + t) == Number(s) * Pow10(|t|) + Number(t)
    decreases |t|
  {
    if t == "" {
      assert s + t == s;
    } else {
      var u, c := t[..|t| - 1], t[|t| - 1];
      NumberConcat(s, u);
      assert (s + t)[..|s + t| - 1] == s + u && (s + t)[|s + t| - 1] == c;
      assert Pow10(|t|) == 10 * Pow10(|u|);
      assert Number(s) * Pow10(|t|) == Number(s) * Pow10(|u|) * 10;
    }
  }

  /** One character counts what it stands for; a string with anything else in it counts nothing. */
  lemma ParsedCharacter(c: char, s: string, t: string, limit: nat)
    requires limit >= 9
    ensures Parsed([c], limit) == if '0' <= c <= '9' then c as int - 48 else 0
    ensures !('0' <= c <= '9') ==> Parsed(s + [c] + t, limit) == 0
  {
    assert [c][..|[c]| - 1] == "" && [c][0] == c;
    if IsDigit(c) {
      assert Number([c]) == DigitValue(c);
    } else {
      assert (s + [c] + t)[|s|] == c;
    }
  }

  lemma BufferSuffices()
    ensures U128_MAX < Pow10(40)
  {
    assert Pow10(10) == 10_000_000_000;
    assert Pow10(20) == 100_000_000_000_000_000_000;
    assert Pow10(30) == 1_000_000_000_000_000_000_000_000_000_000;
    assert Pow10(40) == 10_000_000_000_000_000_000_000_000_000_000_000_000_000;
  }

  lemma {:induction false} DigitsLength(v: nat, n: nat)
    requires 0 < n && v < Pow10(n)
    ensures |Digits(v)| <= n
  {
    if v >= 10 { DigitsLength(v / 10, n - 1); }
  }

  lemma PrintedLength(v: nat)
    requires v <= U128_MAX
    ensures |Digits(v)| <= 40
  {
    BufferSuffices();
    DigitsLength(v, 40);
  }

  /** Filling the 40-byte buffer from the right, one digit a round; it never overruns. */
  method Print(val: u128) returns (s: string)
    ensures s == Digits(val)
  {
    if val == 0 {
      return "0";
    }
    var buf := new char[40];
    var pos: nat := 40;
    var v: nat := val;
    BufferSuffices();
    while v > 0
      invariant pos <= 40 && v < Pow10(pos)
      invariant Remaining(v) + buf[pos..] == Digits(val)
      decreases v
    {
      ghost var tail := buf[pos..];
      PeelDigit(v, tail);
      pos := pos - 1;
      buf[pos] := DigitChar(v % 10);
      assert buf[pos..] == [DigitChar(v % 10)] + tail;
      v := v / 10;
    }
    s := buf[pos..];
  }

  ghost function Reversed(s: string): string {
    if s == "" then "" else Reversed(s[1..]) + [s[0]]
  }

  lemma {:induction false} ReversedAppend(s: string, c: char)
    ensures Reversed(s + [c]) == [c] + Reversed(s)
  {
    if s == "" {
      assert s + [c] == [c];
    } else {
      assert (s + [c])[1..] == s[1..] + [c];
      ReversedAppend(s[1..], c);
    }
  }

  method Reverse(s: string) returns (r: string)
    ensures r == Reversed(s)
  {
    r := "";
    for i := 0 to |s|
      invariant r == Reversed(s[..i])
    {
      assert s[..i + 1] == s[..i] + [s[i]];
      ReversedAppend(s[..i], s[i]);
      r := [s[i]] + r;
    }
    assert s[..|s|] == s;
  }

  /** The token contract's printer: digits are pushed least first and the list is reversed. */
  method PrintReversed(val: u128) returns (s: string)
    ensures s == Digits(val)
  {
    if val == 0 {
      return "0";
    }
    var digits := "";
    var v: nat := val;
    while v > 0
      invariant Remaining(v) + Reversed(digits) == Digits(val)
      decreases v
    {
      PeelDigit(v, Reversed(digits));
      ReversedAppend(digits, DigitChar(v % 10));
      digits := digits + [DigitChar(v % 10)];
      v := v / 10;
    }
    s := Reverse(digits);
  }

  /** What is still to be printed of `v`. */
  ghost function Remaining(v: nat): string {
    if v == 0 then "" else Digits(v)
  }

  lemma PeelDigit(v: nat, tail: string)
    requires v > 0
    ensures Remaining(v) + tail == Remaining(v / 10) + ([DigitChar(v % 10)] + tail)
  {
    assert Leading(v) == Remaining(v / 10);
  }
}
