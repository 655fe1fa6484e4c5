/** Numbers in text: `MojStrToInt64` with base 0, as JSON integers and stringly integers are read. */
module Numbers {
  import opened Bytes

  predicate IsSpace(c: byte) {
    c == 32 || 9 <= c <= 13
  }

  predicate IsDigit(c: byte) {
    48 <= c <= 57
  }

  /** The value of a digit, letters included; 16 for none. */
  function DigitOf(c: byte): (d: nat)
    ensures d <= 16
  {
    if IsDigit(c) then c - 48 else if 97 <= c <= 102 then c - 87 else if 65 <= c <= 70 then c - 55 else 16
  }

  /** The digits of `s` from `i` on, in the given base: the value after them, and where they end. */
  function Digits(s: seq<byte>, i: nat, base: nat, acc: nat): (r: (nat, nat))
    requires i <= |s| && base <= 16
    ensures i <= r.1 <= |s|
    decreases |s| - i
  {
    if i < |s| && DigitOf(s[i]) < base then Digits(s, i + 1, base, acc * base + DigitOf(s[i])) else (acc, i)
  }

  function Clamp(x: int): int64 {
    if x < -0x8000_0000_0000_0000 then -0x8000_0000_0000_0000
    else if x > 0x7FFF_FFFF_FFFF_FFFF then 0x7FFF_FFFF_FFFF_FFFF
    else x
  }

  function SkipSpaces(s: seq<byte>, i: nat): (j: nat)
    requires i <= |s|
    ensures i <= j <= |s|
    decreases |s| - i
  {
    if i < |s| && IsSpace(s[i]) then SkipSpaces(s, i + 1) else i
  }

  /**
   * `strtoll` with base 0: white space, a sign, and the digits of the base their prefix says, saturating. The value,
   * and how much of the text was used, which is nothing if there is no digit.
   */
  function StrToInt64(s: seq<byte>): (r: (int64, nat))
    ensures r.1 <= |s|
  {
    var i := SkipSpaces(s, 0);
    var j := if i < |s| && (s[i] == 43 || s[i] == 45) then i + 1 else i;
    if j == |s| || !IsDigit(s[j]) then (0, 0)
    else
      var hex := s[j] == 48 && j + 2 < |s| && (s[j + 1] == 120 || s[j + 1] == 88) && DigitOf(s[j + 2]) < 16;
      var (n: nat, end) :=
        if hex then Digits(s, j + 2, 16, 0) else Digits(s, j, if s[j] == 48 then 8 else 10, 0);
      (Clamp(if s[i] == 45 then 0 - n else n), end)
  }

  // ----- what is read -----

  const LOWER_HEX := "0123456789abcdef"
  const UPPER_HEX := "0123456789ABCDEF"

  /** A digit's value is its place among the sixteen, in either case. */
  lemma DigitIsPlace(c: byte, d: nat)
    requires d < 16
    ensures |LOWER_HEX| == |UPPER_HEX| == 16
    ensures DigitOf(c) == d <==> c as char == LOWER_HEX[d] || c as char == UPPER_HEX[d]
  {
  }

  /** The value of digits by their places. */
  function Positional(t: seq<byte>, base: nat): nat {
    if t == [] then 0 else Positional(t[..|t| - 1], base) * base + DigitOf(t[|t| - 1])
  }

  /** Nothing follows that is a digit too. */
  predicate NoMore(rest: seq<byte>, base: nat) {
    rest == [] || DigitOf(rest[0]) >= base
  }

  /** From a digit on, the value of all of them from the value of what is before it. */
  lemma {:induction false} PositionalDigits(s: seq<byte>, k: nat, i: nat, e: nat, base: nat)
    requires k <= i <= e <= |s| && base <= 16 && NoMore(s[e..], base) && forall j :: k <= j < e ==> DigitOf(s[j]) < base
    ensures Digits(s, i, base, Positional(s[k..i], base)) == (Positional(s[k..e], base), e)
    decreases e - i
  {
    if i < e {
      assert s[k..i + 1][..i - k] == s[k..i] && s[k..i + 1][i - k] == s[i];
      PositionalDigits(s, k, i + 1, e, base);
    } else if e < |s| {
      assert s[e..][0] == s[e];
    }
  }

  /** White space up to i, a sign or none up to j, a prefix or none up to k, digits up to e, and no more of them. */
  predicate Written(s: seq<byte>, i: nat, j: nat, k: nat, e: nat, base: nat) {
    && i <= j <= k < e <= |s| && (forall x :: 0 <= x < i ==> IsSpace(s[x]))
    && (j == i || (j == i + 1 && (s[i] == 43 || s[i] == 45)))
    && (forall x :: k <= x < e ==> DigitOf(s[x]) < base) && NoMore(s[e..], base)
    && match base
       case 10 => k == j && s[j] != 48
       case 8 => k == j && s[j] == 48 && !HexFollows(s, j)
       case 16 => k == j + 2 && s[j] == 48 && (s[j + 1] == 120 || s[j + 1] == 88)
       case _ => false
  }

  /** An x and a digit behind the zero. */
  predicate HexFollows(s: seq<byte>, j: nat) {
    j + 2 < |s| && (s[j + 1] == 120 || s[j + 1] == 88) && DigitOf(s[j + 2]) < 16
  }

  lemma {:induction false} SpacesSkipped(s: seq<byte>, i: nat, n: nat)
    requires i <= n <= |s| && (forall j :: i <= j < n ==> IsSpace(s[j])) && (n < |s| ==> !IsSpace(s[n]))
    ensures SkipSpaces(s, i) == n
    decreases n - i
  {
    if i < n {
      SpacesSkipped(s, i + 1, n);
    }
  }

  /** Decimal without a leading zero, octal with one, hexadecimal behind 0x: read by their places, and clamped. */
  lemma ReadsByPlaces(s: seq<byte>, i: nat, j: nat, k: nat, e: nat, base: nat)
    requires Written(s, i, j, k, e, base)
    ensures var n := Positional(s[k..e], base);
            StrToInt64(s) == (Clamp(if s[i] == 45 then 0 - n else n), e)
  {
    SpacesSkipped(s, 0, i);
    assert s[k..k] == [];
    PositionalDigits(s, k, k, e, base);
  }

  // ----- which digits are read as their decimal value -----

  /** At least one decimal digit. */
  predicate AllDigits(t: seq<byte>) {
    t != [] && forall i :: 0 <= i < |t| ==> IsDigit(t[i])
  }

  function DecimalNat(t: seq<byte>): nat {
    Positional(t, 10)
  }

  /** The digits behind an optional minus sign. */
  function Unsigned(s: seq<byte>): seq<byte> {
    if s != [] && s[0] == 45 then s[1..] else s
  }

  function DecimalInt(s: seq<byte>): int
    requires AllDigits(Unsigned(s))
  {
    if s[0] == 45 then 0 - DecimalNat(Unsigned(s)) else DecimalNat(Unsigned(s))
  }

  /** No leading zero, unless all is zero but a last digit below eight. */
  predicate NotOctal(t: seq<byte>)
    requires t != []
  {
    t[0] != 48 || ((forall i :: 0 <= i < |t| - 1 ==> t[i] == 48) && t[|t| - 1] < 56)
  }

  /** In octal the digits give no more than in decimal, and less once the value before them is not zero. */
  lemma {:induction false} OctalIsLess(s: seq<byte>, i: nat, a: nat, b: nat)
    requires i <= |s| && a <= b && forall j :: i <= j < |s| ==> IsDigit(s[j])
    ensures var o, d := Digits(s, i, 8, a), Digits(s, i, 10, b);
            o.0 <= d.0 && (a < b || (0 < b && i < |s|) ==> o.1 < |s| || o.0 < d.0)
    decreases |s| - i
  {
    if i < |s| && s[i] < 56 {
      OctalIsLess(s, i + 1, a * 8 + DigitOf(s[i]), b * 10 + DigitOf(s[i]));
    } else if i < |s| {
      DigitsGrow(s, i, b);
    }
  }

  lemma {:induction false} DigitsGrow(s: seq<byte>, i: nat, b: nat)
    requires i <= |s|
    ensures Digits(s, i, 10, b).0 >= b
    decreases |s| - i
  {
    if i < |s| && IsDigit(s[i]) {
      DigitsGrow(s, i + 1, b * 10 + DigitOf(s[i]));
    }
  }

  /** Digits with a leading zero have their decimal value in octal exactly if only the last one counts and is octal. */
  lemma {:induction false} OctalIsDecimalIff(s: seq<byte>, i: nat)
    requires i < |s| && forall j :: i <= j < |s| ==> IsDigit(s[j])
    ensures var o, d := Digits(s, i, 8, 0), Digits(s, i, 10, 0);
            o == (d.0, |s|) <==> (forall j :: i <= j < |s| - 1 ==> s[j] == 48) && s[|s| - 1] < 56
    decreases |s| - i
  {
    var c := DigitOf(s[i]);
    if i + 1 == |s| {
    } else if c == 0 {
      OctalIsDecimalIff(s, i + 1);
    } else if c < 8 {
      OctalIsLess(s, i + 1, c, c);
    }
  }

  lemma ClampTells(n: nat, m: nat, negative: bool)
    requires n <= m
    ensures var signed: int := if negative then 0 - m else m;
            Clamp(if negative then 0 - n else n) == signed <==> n == m && Clamp(signed) == signed
  {
  }

  lemma DigitsFrom(s: seq<byte>, k: nat)
    requires k < |s| && AllDigits(s[k..])
    ensures forall j :: k <= j < |s| ==> IsDigit(s[j])
  {
    forall j | k <= j < |s| ensures IsDigit(s[j]) {
      assert s[k..][j - k] == s[j];
    }
  }

  lemma NotOctalFrom(s: seq<byte>, k: nat)
    requires k < |s| && s[k] == 48
    ensures NotOctal(s[k..]) <==> (forall j :: k <= j < |s| - 1 ==> s[j] == 48) && s[|s| - 1] < 56
  {
    var t := s[k..];
    assert t[|t| - 1] == s[|s| - 1] && t[0] == 48;
    if NotOctal(t) {
      forall j | k <= j < |s| - 1 ensures s[j] == 48 {
        assert t[j - k] == s[j];
      }
    }
  }

  /** What the base makes of digits from k on. */
  lemma BaseDecides(s: seq<byte>, k: nat)
    requires k < |s| && AllDigits(s[k..])
    ensures var r, n := Digits(s, k, if s[k] == 48 then 8 else 10, 0), DecimalNat(s[k..]);
            r.0 <= n && (r == (n, |s|) <==> NotOctal(s[k..]))
  {
    DigitsFrom(s, k);
    assert s[k..k] == [];
    PositionalDigits(s, k, k, |s|, 10);
    assert s[k..|s|] == s[k..];
    if s[k] == 48 {
      OctalIsDecimalIff(s, k);
      OctalIsLess(s, k, 0, 0);
      NotOctalFrom(s, k);
    }
  }

  lemma ReadFrom(s: seq<byte>, k: nat)
    requires s != [] && k == (if s[0] == 45 then 1 else 0) && AllDigits(s[k..])
    ensures var r := Digits(s, k, if s[k] == 48 then 8 else 10, 0);
            StrToInt64(s) == (Clamp(if k == 1 then 0 - r.0 else r.0), r.1)
  {
    assert IsDigit(s[k..][0]);
    assert k + 1 < |s| ==> IsDigit(s[k..][1]);
  }

  /** Digits, signed or not, are read to their end as their decimal value exactly if it fits and they are not octal. */
  lemma ReadAsDecimalIff(s: seq<byte>)
    requires AllDigits(Unsigned(s))
    ensures StrToInt64(s) == (DecimalInt(s), |s|) <==> Clamp(DecimalInt(s)) == DecimalInt(s) && NotOctal(Unsigned(s))
  {
    var k := if s[0] == 45 then 1 else 0;
    assert s[k..] == Unsigned(s);
    ReadFrom(s, k);
    BaseDecides(s, k);
    ClampTells(Digits(s, k, if s[k] == 48 then 8 else 10, 0).0, DecimalNat(s[k..]), k == 1);
  }

  /** 010 is read as eight, and of 08 only the zero is read. */
  lemma LeadingZero()
    ensures StrToInt64([48, 49, 48]) == (8, 3) && DecimalInt([48, 49, 48]) == 10
    ensures StrToInt64([48, 56]) == (0, 1)
  {
    var s: seq<byte> := [48, 49, 48];
    assert s[..2] == [48, 49] && s[..2][..1] == [48] && s[..2][..1][..0] == [];
    assert DecimalNat([48]) == 0 && DecimalNat([48, 49]) == 1;
    assert Digits(s, 1, 8, 0) == Digits(s, 2, 8, 1) == Digits(s, 3, 8, 8) == (8, 3);
  }
}
