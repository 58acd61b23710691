/**
 * `int.TryParse(string, out int)` under its default number style, and `int.ToString()`,
 * as used for population values (Program.cs, lines 215, 263, 309 and 353).
 */
module IntParse {
  import opened Wrappers
  import opened Text

  const MinInt32: int := -0x8000_0000
  const MaxInt32: int := 0x7FFF_FFFF

  predicate InInt32(n: int)
  {
    MinInt32 <= n <= MaxInt32
  }

  predicate IsDigit(c: char)
  {
    '0' <= c <= '9'
  }

  predicate AllDigits(s: string)
  {
    forall k :: 0 <= k < |s| ==> IsDigit(s[k])
  }

  /** The value of a run of decimal digits, most significant first. */
  function DigitsValue(s: string): nat
    requires AllDigits(s)
  {
    if s == [] then 0 else 10 * DigitsValue(s[..|s| - 1]) + (s[|s| - 1] as int - '0' as int)
  }

  /**
   * `int.TryParse`: optional white space, an optional '+' or '-', one or more decimal
   * digits, optional white space; the value must fit in 32 bits. Anything else gives `None`.
   */
  function ParseInt32(s: string): (r: Option<int>)
    ensures r.Some? ==> InInt32(r.value)
  {
    ParseSignedDigits(Trim(s, IsNumberWhite))
  }

  /** The number between the white space: an optional sign, then digits, within 32 bits. */
  function ParseSignedDigits(t: string): (r: Option<int>)
    ensures r.Some? ==> InInt32(r.value)
    ensures r.Some? ==> forall k :: 0 <= k < |t| ==> IsDigit(t[k]) || t[k] == '+' || t[k] == '-'
  {
    var signed := |t| > 0 && (t[0] == '-' || t[0] == '+');
    var digits := if signed then t[1..] else t;
    if digits == [] || !AllDigits(digits) then None
    else
      var magnitude: int := DigitsValue(digits);
      var n := if signed && t[0] == '-' then -magnitude else magnitude;
      assert forall k :: 0 <= k < |t| ==> IsDigit(t[k]) || t[k] == '+' || t[k] == '-' by {
        assert forall k :: 0 <= k < |digits| ==> digits[k] == t[if signed then k + 1 else k];
      }
      if InInt32(n) then Some(n) else None
  }

  function DigitChar(d: nat): (c: char)
    requires d < 10
    ensures IsDigit(c) && c as int - '0' as int == d
  {
    ('0' as int + d) as char
  }

  /** Decimal digits of `n`, without leading zeros. */
  function FormatNat(n: nat): (s: string)
    ensures s != [] && AllDigits(s)
    ensures |s| > 1 ==> s[0] != '0'
  {
    if n < 10 then [DigitChar(n)] else FormatNat(n / 10) + [DigitChar(n % 10)]
  }

  /** `int.ToString()` with the invariant culture: a '-' for negative values, then the digits. */
  function FormatInt(n: int): string
  {
    if n < 0 then "-" + FormatNat(-n) else FormatNat(n)
  }

  lemma {:induction false} DigitsValueOfFormat(n: nat)
    ensures DigitsValue(FormatNat(n)) == n
  {
    if n >= 10 {
      var s := FormatNat(n);
      assert s[..|s| - 1] == FormatNat(n / 10);
      DigitsValueOfFormat(n / 10);
    }
  }

  /**
   * Round trip: parsing what `ToString` prints gives the number back when it fits in 32 bits,
   * negative numbers included, and fails for every number outside that range.
   */
  lemma ParseFormatRoundTrip(n: int)
    ensures ParseInt32(FormatInt(n)) == if InInt32(n) then Some(n) else None
  {
    var s := FormatInt(n);
    SignedDigitsOfFormat(n);
    assert s[0] == '-' || IsDigit(s[0]);
    assert IsDigit(s[|s| - 1]);
    TrimUnique(s, IsNumberWhite, 0, |s|);
    assert s[0..|s|] == s;
  }

  /** The printed number, read without the white-space step. */
  lemma SignedDigitsOfFormat(n: int)
    ensures ParseSignedDigits(FormatInt(n)) == if InInt32(n) then Some(n) else None
  {
    var m := if n < 0 then -n else n;
    DigitsValueOfFormat(m);
    if n < 0 {
      assert FormatInt(n)[1..] == FormatNat(m);
    }
  }

  /** The value of an optional sign followed by decimal digits. */
  function SignedValue(sign: string, digits: string): int
    requires AllDigits(digits)
  {
    var magnitude: int := DigitsValue(digits);
    if sign == "-" then -magnitude else magnitude
  }

  /**
   * The accepted grammar, read forwards: one optional '+' or '-' and a non-empty run of
   * digits (leading zeros allowed) give their signed decimal value, when it fits in 32 bits.
   */
  lemma SignedDigitsGrammar(sign: string, digits: string)
    requires sign == "" || sign == "+" || sign == "-"
    requires digits != [] && AllDigits(digits)
    ensures ParseSignedDigits(sign + digits)
            == if InInt32(SignedValue(sign, digits)) then Some(SignedValue(sign, digits)) else None
  {
    var t := sign + digits;
    if sign == "" {
      assert t == digits;
    } else {
      assert t[0] == sign[0] && t[1..] == digits;
    }
  }

  /**
   * `int.TryParse` on padded text: white space, an optional sign and decimal digits, white
   * space, read as the signed value when it fits in 32 bits and as no value otherwise.
   */
  lemma ParseGrammar(pre: string, sign: string, digits: string, post: string)
    requires AllWhite(pre, IsNumberWhite) && AllWhite(post, IsNumberWhite)
    requires sign == "" || sign == "+" || sign == "-"
    requires digits != [] && AllDigits(digits)
    ensures ParseInt32(pre + (sign + digits) + post)
            == if InInt32(SignedValue(sign, digits)) then Some(SignedValue(sign, digits)) else None
  {
    var t := sign + digits;
    ParseIgnoresPadding(pre, t, post);
    assert IsDigit(t[|t| - 1]);
    assert t[0] == '+' || t[0] == '-' || IsDigit(t[0]);
    TrimUnique(t, IsNumberWhite, 0, |t|);
    assert t[0..|t|] == t;
    SignedDigitsGrammar(sign, digits);
  }

  /**
   * The accepted grammar, read backwards: text that `int.TryParse` accepts is, between its
   * white space, an optional sign and a non-empty run of digits, and the value read is theirs.
   */
  lemma ParsedShape(s: string) returns (sign: string, digits: string)
    requires ParseInt32(s).Some?
    ensures sign == "" || sign == "+" || sign == "-"
    ensures digits != [] && AllDigits(digits)
    ensures Trim(s, IsNumberWhite) == sign + digits
    ensures ParseInt32(s) == Some(SignedValue(sign, digits))
  {
    var t := Trim(s, IsNumberWhite);
    if |t| > 0 && (t[0] == '-' || t[0] == '+') {
      sign, digits := t[..1], t[1..];
    } else {
      sign, digits := "", t;
    }
    assert t == sign + digits;
  }

  /** White space around a number does not change what `int.TryParse` reads. */
  lemma ParseIgnoresPadding(pre: string, s: string, post: string)
    requires AllWhite(pre, IsNumberWhite) && AllWhite(post, IsNumberWhite)
    ensures ParseInt32(pre + s + post) == ParseInt32(s)
  {
    TrimAbsorbsPadding(pre, s, post, IsNumberWhite);
    assert Trim(pre + s + post, IsNumberWhite) == Trim(s, IsNumberWhite);
  }
}
