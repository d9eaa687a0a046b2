/**
 * The JavaScript string operations the application relies on, over `seq<char>`:
 * `startsWith`, `includes`, `split` with a one-character separator and `pop()`
 * of its result, `toLowerCase` (ASCII letters only), `Number.prototype.toString`
 * for naturals, `padStart(2, '0')` and `Number(...)` of a string of digits.
 */
module Text {

  /** `s.startsWith(prefix)`. */
  predicate StartsWith(s: string, prefix: string) {
    |prefix| <= |s| && s[..|prefix|] == prefix
  }

  /** `s.includes(sub)`, scanning the start positions of `s` from the left. */
  predicate Contains(s: string, sub: string)
    decreases |s|
  {
    StartsWith(s, sub) || (|s| > 0 && Contains(s[1..], sub))
  }

  /** `Contains` agrees with the positional reading "`sub` occurs at some index of `s`". */
  lemma {:induction false} ContainsIff(s: string, sub: string, k: nat)
    requires k + |sub| <= |s|
    ensures s[k..k + |sub|] == sub ==> Contains(s, sub)
    decreases k
  {
    if k > 0 && s[k..k + |sub|] == sub {
      assert s[1..][k - 1..k - 1 + |sub|] == s[k..k + |sub|];
      ContainsIff(s[1..], sub, k - 1);
    }
  }

  /** A witness for `Contains`: every positive answer names a position where `sub` occurs. */
  lemma {:induction false} ContainsWitness(s: string, sub: string) returns (k: nat)
    requires Contains(s, sub)
    ensures k + |sub| <= |s| && s[k..k + |sub|] == sub
    decreases |s|
  {
    if StartsWith(s, sub) {
      k := 0;
    } else {
      var j := ContainsWitness(s[1..], sub);
      assert s[1..][j..j + |sub|] == s[j + 1..j + 1 + |sub|];
      k := j + 1;
    }
  }

  /**
   * `s.split(sep)` for a one-character separator: the maximal separator-free
   * pieces of `s`, in order; `""` splits into `[""]`.
   */
  function Split(s: string, sep: char): (parts: seq<string>)
    ensures |parts| >= 1
    ensures forall i :: 0 <= i < |parts| ==> sep !in parts[i]
    decreases |s|
  {
    if s == [] then [[]]
    else
      var init := Split(s[..|s| - 1], sep);
      if s[|s| - 1] == sep then init + [[]]
      else init[..|init| - 1] + [init[|init| - 1] + [s[|s| - 1]]]
  }

  /** The pieces joined with the separator, the inverse of `Split`. */
  function Join(parts: seq<string>, sep: char): string
    requires |parts| >= 1
  {
    if |parts| == 1 then parts[0] else Join(parts[..|parts| - 1], sep) + [sep] + parts[|parts| - 1]
  }

  lemma {:induction false} JoinSplit(s: string, sep: char)
    ensures Join(Split(s, sep), sep) == s
    decreases |s|
  {
    if s != [] {
      var p, c := s[..|s| - 1], s[|s| - 1];
      var init := Split(p, sep);
      var k := |init|;
      JoinSplit(p, sep);
      assert p + [c] == s;
      var parts := Split(s, sep);
      if c == sep {
        assert parts == init + [[]];
        assert parts[..|parts| - 1] == init;
      } else {
        assert parts == init[..k - 1] + [init[k - 1] + [c]];
        if k > 1 {
          assert parts[..|parts| - 1] == init[..k - 1];
          calc {
            Join(parts, sep);
            Join(init[..k - 1], sep) + [sep] + (init[k - 1] + [c]);
            Join(init, sep) + [c];
          }
        }
      }
    }
  }

  /** A separator-free string is one piece. */
  lemma {:induction false} SplitSingle(t: string, sep: char)
    requires sep !in t
    ensures Split(t, sep) == [t]
    decreases |t|
  {
    if t != [] {
      assert sep !in t[..|t| - 1];
      SplitSingle(t[..|t| - 1], sep);
      assert t[..|t| - 1] + [t[|t| - 1]] == t;
    }
  }

  /** Splitting `s + sep + t` with `t` separator-free adds exactly the piece `t`. */
  lemma {:induction false} SplitAppend(s: string, sep: char, t: string)
    requires sep !in t
    ensures Split(s + [sep] + t, sep) == Split(s, sep) + [t]
    decreases |t|
  {
    var w := s + [sep] + t;
    if t == [] {
      assert w[..|w| - 1] == s;
    } else {
      assert w[..|w| - 1] == s + [sep] + t[..|t| - 1];
      assert sep !in t[..|t| - 1];
      SplitAppend(s, sep, t[..|t| - 1]);
      assert t[..|t| - 1] + [t[|t| - 1]] == t;
    }
  }

  /**
   * `s.split(sep).pop()`: the text after the last separator, or all of `s` when
   * it has none.
   */
  function LastSegment(s: string, sep: char): (r: string)
    decreases |s|
  {
    if s == [] || s[|s| - 1] == sep then [] else LastSegment(s[..|s| - 1], sep) + [s[|s| - 1]]
  }

  /**
   * `LastSegment` is the last piece of `Split`, it is a separator-free suffix,
   * and it is either all of `s` or preceded by a separator.
   */
  lemma {:induction false} LastSegmentSpec(s: string, sep: char)
    ensures var parts := Split(s, sep); parts[|parts| - 1] == LastSegment(s, sep)
    ensures var r := LastSegment(s, sep);
      |r| <= |s| && r == s[|s| - |r|..] && sep !in r && (|r| < |s| ==> s[|s| - |r| - 1] == sep)
    decreases |s|
  {
    if s != [] && s[|s| - 1] != sep {
      var p := s[..|s| - 1];
      LastSegmentSpec(p, sep);
      var r0 := LastSegment(p, sep);
      assert s[|s| - |r0| - 1..] == p[|p| - |r0|..] + [s[|s| - 1]];
    }
  }

  /** The text after a separator followed by separator-free `t` is `t`. */
  lemma {:induction false} LastSegmentAfter(s: string, sep: char, t: string)
    requires sep !in t
    ensures LastSegment(s + [sep] + t, sep) == t
    decreases |t|
  {
    var w := s + [sep] + t;
    if t != [] {
      assert w[..|w| - 1] == s + [sep] + t[..|t| - 1];
      assert sep !in t[..|t| - 1];
      LastSegmentAfter(s, sep, t[..|t| - 1]);
      assert t[..|t| - 1] + [t[|t| - 1]] == t;
    }
  }

  /** `toLowerCase` on one character; letters outside A-Z are kept. */
  function LowerChar(ch: char): char {
    if 'A' <= ch <= 'Z' then (ch as int + 32) as char else ch
  }

  function ToLower(s: string): string {
    seq(|s|, i requires 0 <= i < |s| => LowerChar(s[i]))
  }

  /** Lower-casing commutes with taking the text after the last `.`. */
  lemma {:induction false} LastSegmentToLower(s: string)
    ensures LastSegment(ToLower(s), '.') == ToLower(LastSegment(s, '.'))
    decreases |s|
  {
    if s != [] {
      var p := s[..|s| - 1];
      assert ToLower(s)[..|s| - 1] == ToLower(p);
      LastSegmentToLower(p);
      if s[|s| - 1] != '.' {
        assert ToLower(LastSegment(p, '.') + [s[|s| - 1]]) == ToLower(LastSegment(p, '.')) + [LowerChar(s[|s| - 1])];
      }
    }
  }

  // ---------------------------------------------------------------------
  // Numerals

  predicate IsDecimalDigit(ch: char) { '0' <= ch <= '9' }

  predicate IsHexDigit(ch: char) { IsDecimalDigit(ch) || 'a' <= ch <= 'f' || 'A' <= ch <= 'F' }

  function HexDigitValue(ch: char): (d: nat)
    requires IsHexDigit(ch)
    ensures d < 16 && (d < 10 <==> IsDecimalDigit(ch))
  {
    if IsDecimalDigit(ch) then ch as int - '0' as int
    else if 'a' <= ch <= 'f' then ch as int - 'a' as int + 10
    else ch as int - 'A' as int + 10
  }

  /** The lower-case digit for `d` (as `toString(16)` writes it). */
  function DigitChar(d: nat): char
    requires d < 16
  {
    if d < 10 then ('0' as int + d) as char else ('a' as int + d - 10) as char
  }

  /** Every character of `s` is a digit of the given base. */
  predicate AllDigits(s: string, base: nat) {
    forall i :: 0 <= i < |s| ==> IsHexDigit(s[i]) && HexDigitValue(s[i]) < base
  }

  /** The value of a numeral, most significant digit first; the empty numeral is 0. */
  function DigitsValue(s: string, base: nat): nat
    requires AllDigits(s, base)
    decreases |s|
  {
    if s == [] then 0 else DigitsValue(s[..|s| - 1], base) * base + HexDigitValue(s[|s| - 1])
  }

  function Pow(b: nat, e: nat): nat {
    if e == 0 then 1 else b * Pow(b, e - 1)
  }

  /** `n.toString()`: decimal digits without leading zeros. */
  function NatToString(n: nat): string
    decreases n
  {
    if n < 10 then [DigitChar(n)] else NatToString(n / 10) + [DigitChar(n % 10)]
  }

  /** Reading back what `NatToString` writes gives the number; 1 digit below 10, 2 below 100. */
  lemma {:induction false} NatToStringRoundTrip(n: nat)
    ensures AllDigits(NatToString(n), 10) && DigitsValue(NatToString(n), 10) == n
    ensures n < 10 ==> |NatToString(n)| == 1
    ensures 10 <= n < 100 ==> |NatToString(n)| == 2
    ensures |NatToString(n)| >= 1
    decreases n
  {
    if n >= 10 {
      NatToStringRoundTrip(n / 10);
      var s := NatToString(n);
      assert s[..|s| - 1] == NatToString(n / 10);
    }
  }

  /** `s.padStart(2, '0')`. */
  function PadStart2(s: string): string {
    if |s| >= 2 then s else seq(2 - |s|, _ => '0') + s
  }

  /** A leading zero does not change the value of a decimal numeral. */
  lemma {:induction false} LeadingZero(s: string)
    requires AllDigits(s, 10)
    ensures AllDigits("0" + s, 10) && DigitsValue("0" + s, 10) == DigitsValue(s, 10)
    decreases |s|
  {
    var z := "0" + s;
    if s != [] {
      assert z[..|z| - 1] == "0" + s[..|s| - 1];
      LeadingZero(s[..|s| - 1]);
    }
  }

  /** Two-digit padding of `n < 100` writes exactly two decimal digits whose value is `n`. */
  lemma Pad2RoundTrip(n: nat)
    requires n < 100
    ensures var t := PadStart2(NatToString(n));
      |t| == 2 && AllDigits(t, 10) && DigitsValue(t, 10) == n
  {
    NatToStringRoundTrip(n);
    if n < 10 {
      LeadingZero(NatToString(n));
      assert PadStart2(NatToString(n)) == "0" + NatToString(n);
    }
  }

  /** `n` in exactly `width` lower-case hexadecimal digits (leading zeros kept). */
  function HexFixed(n: nat, width: nat): (r: string)
    ensures |r| == width
    decreases width
  {
    if width == 0 then [] else HexFixed(n / 16, width - 1) + [DigitChar(n % 16)]
  }

  /** Reading back a fixed-width hexadecimal numeral gives the number when it fits. */
  lemma {:induction false} HexFixedRoundTrip(n: nat, width: nat)
    requires n < Pow(16, width)
    ensures AllDigits(HexFixed(n, width), 16) && DigitsValue(HexFixed(n, width), 16) == n
    decreases width
  {
    if width > 0 {
      HexFixedRoundTrip(n / 16, width - 1);
      var s := HexFixed(n, width);
      assert s[..|s| - 1] == HexFixed(n / 16, width - 1);
    }
  }

  /** The other direction: writing back the value of a hexadecimal numeral gives its lower-case form. */
  lemma {:induction false} HexFixedOfValue(s: string)
    requires AllDigits(s, 16)
    ensures DigitsValue(s, 16) < Pow(16, |s|)
    ensures HexFixed(DigitsValue(s, 16), |s|) == ToLower(s)
    decreases |s|
  {
    if s != [] {
      var p := s[..|s| - 1];
      HexFixedOfValue(p);
      var v := DigitsValue(s, 16);
      var d := HexDigitValue(s[|s| - 1]);
      assert v / 16 == DigitsValue(p, 16) && v % 16 == d;
      assert DigitChar(d) == LowerChar(s[|s| - 1]);
      assert ToLower(s) == ToLower(p) + [LowerChar(s[|s| - 1])];
    }
  }
}
