/** Character classes and decimal conversions used by the GeoJSON optimizer:
    Python's `str.isspace`, `str.isdigit` (ASCII only), `int(s)`, `str(n)`,
    `".".join(...)` and `float(token)`, stated exactly on unbounded numbers. */
module Text {

  datatype Option<T> = None | Some(value: T)

  /** Python's `str.isspace()` on one character. */
  predicate IsSpace(c: char) {
    c == ' ' || ('\t' <= c <= '\r') || ('\U{1c}' <= c <= '\U{1f}')
    || c == '\U{85}' || c == '\U{a0}' || c == '\U{1680}'
    || ('\U{2000}' <= c <= '\U{200a}') || c == '\U{2028}' || c == '\U{2029}'
    || c == '\U{202f}' || c == '\U{205f}' || c == '\U{3000}'
  }

  /** `str.isdigit()` restricted to the ASCII digits. */
  predicate IsDigit(c: char) { '0' <= c <= '9' }

  predicate IsDigits(s: string) { forall i :: 0 <= i < |s| ==> IsDigit(s[i]) }

  function DigitValue(c: char): nat
    requires IsDigit(c)
  {
    (c as int - '0' as int) as nat
  }

  function DigitChar(d: nat): (c: char)
    requires d < 10
    ensures IsDigit(c) && DigitValue(c) == d
  {
    ('0' as int + d) as char
  }

  /** The value of a string of ASCII digits, most significant first. */
  function DigitsValue(s: string): nat
    requires IsDigits(s)
  {
    if s == [] then 0 else DigitsValue(s[..|s| - 1]) * 10 + DigitValue(s[|s| - 1])
  }

  /** `str(n)` for a non-negative integer. */
  function FormatNat(n: nat): string
  {
    if n < 10 then [DigitChar(n)] else FormatNat(n / 10) + [DigitChar(n % 10)]
  }

  /** `int(s)` on the strings this program feeds it: non-empty runs of ASCII
      digits. Every other string is a ValueError here. */
  function ParseNat(s: string): Option<nat>
  {
    if s != [] && IsDigits(s) then Some(DigitsValue(s)) else None
  }

  lemma {:induction false} FormatNatDigits(n: nat)
    ensures |FormatNat(n)| > 0 && IsDigits(FormatNat(n))
  {
    if n >= 10 {
      FormatNatDigits(n / 10);
    }
  }

  /** `int(str(n)) == n`: the printed index reads back as the same number. */
  lemma {:induction false} ParseFormatNat(n: nat)
    ensures ParseNat(FormatNat(n)) == Some(n)
  {
    FormatNatDigits(n);
    var s := FormatNat(n);
    if n < 10 {
      assert s == [DigitChar(n)] && s[..0] == [];
      assert DigitsValue(s) == DigitsValue(s[..0]) * 10 + DigitValue(s[0]);
    } else {
      var q, d := n / 10, n % 10;
      ParseFormatNat(q);
      FormatNatDigits(q);
      assert s == FormatNat(q) + [DigitChar(d)];
      assert s[..|s| - 1] == FormatNat(q) && s[|s| - 1] == DigitChar(d);
      assert DigitsValue(s) == DigitsValue(FormatNat(q)) * 10 + d;
      assert q * 10 + d == n;
    }
  }

  /** `".".join(parts)`. */
  function JoinDot(parts: seq<string>): string
  {
    if |parts| == 0 then ""
    else if |parts| == 1 then parts[0]
    else JoinDot(parts[..|parts| - 1]) + "." + parts[|parts| - 1]
  }

  /** `",".join(parts)`. */
  function JoinComma(parts: seq<string>): string
  {
    if |parts| == 0 then ""
    else if |parts| == 1 then parts[0]
    else JoinComma(parts[..|parts| - 1]) + "," + parts[|parts| - 1]
  }

  function Pow10(k: nat): (p: nat)
    ensures p >= 1
  {
    if k == 0 then 1 else 10 * Pow10(k - 1)
  }

  function CountDots(s: string): nat
  {
    if s == [] then 0 else CountDots(s[..|s| - 1]) + (if s[|s| - 1] == '.' then 1 else 0)
  }

  /** Index of the first '.' in `s`, or |s| when there is none. */
  function DotIndex(s: string): (k: nat)
    ensures k <= |s|
    ensures forall i :: 0 <= i < k ==> s[i] != '.'
    ensures k < |s| ==> s[k] == '.'
  {
    if s == [] then 0
    else if s[0] == '.' then 0
    else 1 + DotIndex(s[1..])
  }

  /** `float(token)` for the tokens the polygon reader builds, evaluated
      exactly (no binary rounding): digits with at most one '.', and at least
      one digit. Every other string is a ValueError here. */
  function ParseDecimal(t: string): Option<real>
  {
    var k := DotIndex(t);
    var whole := t[..k];
    var frac := if k < |t| then t[k + 1..] else [];
    if IsDigits(whole) && IsDigits(frac) && |whole| + |frac| > 0 then
      Some(DigitsValue(whole) as real + DigitsValue(frac) as real / Pow10(|frac|) as real)
    else None
  }

  /** The tokens `float` accepts are exactly the digit strings with at most one
      dot and at least one digit. */
  lemma ParseDecimalAccepts(t: string)
    requires forall i :: 0 <= i < |t| ==> IsDigit(t[i]) || t[i] == '.'
    ensures ParseDecimal(t).Some? <==> CountDots(t) <= 1 && CountDots(t) < |t|
  {
    var k := DotIndex(t);
    DotsAround(t, k);
  }

  lemma {:induction false} DotsAround(t: string, k: nat)
    requires forall i :: 0 <= i < |t| ==> IsDigit(t[i]) || t[i] == '.'
    requires k == DotIndex(t)
    ensures k == |t| ==> CountDots(t) == 0
    ensures k < |t| ==> CountDots(t) == 1 + CountDots(t[k + 1..])
    ensures k < |t| ==> (IsDigits(t[k + 1..]) <==> CountDots(t[k + 1..]) == 0)
    ensures IsDigits(t[..k])
  {
    var a := t[..k];
    assert forall i :: 0 <= i < |a| ==> a[i] == t[i];
    NoDotsCount(a);
    if k < |t| {
      var b := t[k + 1..];
      assert forall i :: 0 <= i < |b| ==> b[i] == t[k + 1 + i];
      DigitsIffNoDots(b);
      CountDotsSplit(t, k);
    } else {
      assert a == t;
    }
  }

  /** The dots of `t` on either side of position `k`, which holds a dot. */
  lemma CountDotsSplit(t: string, k: nat)
    requires k < |t| && t[k] == '.'
    ensures CountDots(t) == CountDots(t[..k]) + 1 + CountDots(t[k + 1..])
  {
    var a := t[..k];
    var b := t[k + 1..];
    assert t == (a + [t[k]]) + b;
    CountDotsAppend(a + [t[k]], b);
    CountDotsAppend(a, [t[k]]);
    assert CountDots([t[k]]) == 1 by {
      assert [t[k]][..0] == [];
    }
  }

  lemma {:induction false} NoDotsCount(s: string)
    requires forall i :: 0 <= i < |s| ==> s[i] != '.'
    ensures CountDots(s) == 0
  {
    if s != [] {
      NoDotsCount(s[..|s| - 1]);
    }
  }

  lemma {:induction false} DigitsIffNoDots(s: string)
    requires forall i :: 0 <= i < |s| ==> IsDigit(s[i]) || s[i] == '.'
    ensures IsDigits(s) <==> CountDots(s) == 0
  {
    if s != [] {
      DigitsIffNoDots(s[..|s| - 1]);
      if s[|s| - 1] != '.' {
        assert IsDigits(s) <==> IsDigits(s[..|s| - 1]);
      }
    }
  }

  lemma {:induction false} CountDotsAppend(a: string, b: string)
    ensures CountDots(a + b) == CountDots(a) + CountDots(b)
  {
    if b != [] {
      CountDotsAppend(a, b[..|b| - 1]);
      assert (a + b)[..|a + b| - 1] == a + b[..|b| - 1];
    } else {
      assert a + b == a;
    }
  }

  /** A minus sign never reaches a token: `-1.5` yields the token `1.5`, read
      as 1.5. */
  lemma SignIsDropped()
    ensures ParseDecimal("1.5") == Some(1.5)
    ensures ParseDecimal("1.2.3").None? && ParseDecimal(".").None? && ParseDecimal("").None?
  {
    assert DotIndex("1.5") == 1;
    assert "1.5"[..1] == "1";
    assert "1.5"[2..] == "5";
    assert DotIndex("1.2.3") == 1;
    assert "1.2.3"[2..] == "2.3";
    assert !IsDigits("2.3") by { assert "2.3"[1] == '.'; }
  }
}
