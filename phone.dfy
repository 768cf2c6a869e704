/**
 * Phone normalisation: keep the digits, take the last ten, prefix "7".
 * Malformed input has no error path; a number with fewer than ten digits
 * yields a shorter value.
 */
module Phone {

  /** Country prefix prepended to every normalised number. */
  const CountryPrefix: char := '7'

  /** Number of trailing digits kept from the source number. */
  const NationalLength: nat := 10

  predicate IsDigit(c: char) {
    '0' <= c <= '9'
  }

  predicate AllDigits(s: string) {
    forall i :: 0 <= i < |s| ==> IsDigit(s[i])
  }

  function Min(a: nat, b: nat): nat {
    if a <= b then a else b
  }

  /** The digits of `s`, in order; every other character is removed. */
  function DigitsOnly(s: string): (d: string)
    ensures AllDigits(d)
    ensures |d| <= |s|
  {
    if s == [] then []
    else DigitsOnly(s[..|s| - 1]) + (if IsDigit(s[|s| - 1]) then [s[|s| - 1]] else [])
  }

  /** Appending one character appends it to the digits exactly when it is a digit. */
  lemma DigitsOnlySnoc(s: string, c: char)
    ensures DigitsOnly(s + [c]) == DigitsOnly(s) + (if IsDigit(c) then [c] else [])
  {
    assert (s + [c])[..|s|] == s;
  }

  /** The last `n` characters of `s`, or all of `s` when it is shorter. */
  function TakeLast(s: string, n: nat): (t: string)
    ensures |t| == Min(n, |s|)
    ensures s == s[..|s| - |t|] + t
  {
    s[|s| - Min(n, |s|)..]
  }

  /** The normalised form of a raw phone number. */
  function NormalizePhone(raw: string): (p: string)
    ensures |p| == 1 + Min(NationalLength, |DigitsOnly(raw)|)
    ensures p[0] == CountryPrefix && AllDigits(p)
    ensures DigitsOnly(raw) == DigitsOnly(raw)[..|DigitsOnly(raw)| - (|p| - 1)] + p[1..]
  {
    [CountryPrefix] + TakeLast(DigitsOnly(raw), NationalLength)
  }

  /** Removing non-digits distributes over concatenation (it keeps the digits in order). */
  lemma {:induction false} DigitsOnlyAppend(a: string, b: string)
    ensures DigitsOnly(a + b) == DigitsOnly(a) + DigitsOnly(b)
  {
    if b == [] {
      assert a + b == a;
    } else {
      var b' := b[..|b| - 1];
      assert a + b == (a + b') + [b[|b| - 1]];
      assert b == b' + [b[|b| - 1]];
      DigitsOnlyAppend(a, b');
      DigitsOnlySnoc(a + b', b[|b| - 1]);
      DigitsOnlySnoc(b', b[|b| - 1]);
    }
  }

  /** A string of digits is left unchanged. */
  lemma {:induction false} DigitsOnlyOfDigits(s: string)
    requires AllDigits(s)
    ensures DigitsOnly(s) == s
  {
    if s != [] {
      DigitsOnlyOfDigits(s[..|s| - 1]);
    }
  }

  /** Every digit of the input is kept, as often as it occurs. */
  lemma {:induction false} DigitsOnlyKeepsDigits(s: string, c: char)
    requires IsDigit(c)
    ensures multiset(DigitsOnly(s))[c] == multiset(s)[c]
  {
    if s != [] {
      DigitsOnlyKeepsDigits(s[..|s| - 1], c);
      assert s == s[..|s| - 1] + [s[|s| - 1]];
    }
  }

  /** With at least ten digits available the result is the prefix plus exactly ten digits. */
  lemma NormalizeConformant(raw: string)
    requires |DigitsOnly(raw)| >= NationalLength
    ensures |NormalizePhone(raw)| == 11
    ensures NormalizePhone(raw) == [CountryPrefix] + DigitsOnly(raw)[|DigitsOnly(raw)| - 10..]
  {
  }

  /** Normalising a conformant number again changes nothing. */
  lemma NormalizeIdempotent(raw: string)
    requires |DigitsOnly(raw)| >= NationalLength
    ensures NormalizePhone(NormalizePhone(raw)) == NormalizePhone(raw)
  {
    var p := NormalizePhone(raw);
    assert |p| == 1 + NationalLength;
    DigitsOnlyOfDigits(p);
    assert TakeLast(p, NationalLength) == p[1..];
    assert [CountryPrefix] + p[1..] == p;
  }

  /** Two spellings with the same last ten digits normalise to the same number. */
  lemma NormalizeSameLastDigits(a: string, b: string)
    requires TakeLast(DigitsOnly(a), NationalLength) == TakeLast(DigitsOnly(b), NationalLength)
    ensures NormalizePhone(a) == NormalizePhone(b)
  {
  }

  /** The area-code part of an international spelling. */
  lemma DigitsExampleHead()
    ensures DigitsOnly("+7 (916) ") == "7916"
  {
    var s: string := [];
    DigitsOnlySnoc(s, '+'); s := s + ['+'];
    DigitsOnlySnoc(s, '7'); s := s + ['7'];
    DigitsOnlySnoc(s, ' '); s := s + [' '];
    DigitsOnlySnoc(s, '('); s := s + ['('];
    DigitsOnlySnoc(s, '9'); s := s + ['9'];
    DigitsOnlySnoc(s, '1'); s := s + ['1'];
    DigitsOnlySnoc(s, '6'); s := s + ['6'];
    DigitsOnlySnoc(s, ')'); s := s + [')'];
    DigitsOnlySnoc(s, ' '); s := s + [' '];
    assert s == "+7 (916) ";
  }

  /** The subscriber part, with dashes. */
  lemma DigitsExampleTail()
    ensures DigitsOnly("123-45-67") == "1234567"
  {
    var s: string := [];
    DigitsOnlySnoc(s, '1'); s := s + ['1'];
    DigitsOnlySnoc(s, '2'); s := s + ['2'];
    DigitsOnlySnoc(s, '3'); s := s + ['3'];
    DigitsOnlySnoc(s, '-'); s := s + ['-'];
    DigitsOnlySnoc(s, '4'); s := s + ['4'];
    DigitsOnlySnoc(s, '5'); s := s + ['5'];
    DigitsOnlySnoc(s, '-'); s := s + ['-'];
    DigitsOnlySnoc(s, '6'); s := s + ['6'];
    DigitsOnlySnoc(s, '7'); s := s + ['7'];
    assert s == "123-45-67";
  }

  /** The digits of an international spelling of a Russian mobile number. */
  lemma DigitsExample()
    ensures DigitsOnly("+7 (916) 123-45-67") == "79161234567"
  {
    DigitsExampleHead();
    DigitsExampleTail();
    DigitsOnlyAppend("+7 (916) ", "123-45-67");
    assert "+7 (916) " + "123-45-67" == "+7 (916) 123-45-67";
    assert "7916" + "1234567" == "79161234567";
  }

  /** The trunk prefix and area code of a domestic spelling. */
  lemma DigitsTrunkHead()
    ensures DigitsOnly("8 916 ") == "8916"
  {
    var s: string := [];
    DigitsOnlySnoc(s, '8'); s := s + ['8'];
    DigitsOnlySnoc(s, ' '); s := s + [' '];
    DigitsOnlySnoc(s, '9'); s := s + ['9'];
    DigitsOnlySnoc(s, '1'); s := s + ['1'];
    DigitsOnlySnoc(s, '6'); s := s + ['6'];
    DigitsOnlySnoc(s, ' '); s := s + [' '];
    assert s == "8 916 ";
  }

  /** The subscriber part, with spaces. */
  lemma DigitsTrunkTail()
    ensures DigitsOnly("123 45 67") == "1234567"
  {
    var s: string := [];
    DigitsOnlySnoc(s, '1'); s := s + ['1'];
    DigitsOnlySnoc(s, '2'); s := s + ['2'];
    DigitsOnlySnoc(s, '3'); s := s + ['3'];
    DigitsOnlySnoc(s, ' '); s := s + [' '];
    DigitsOnlySnoc(s, '4'); s := s + ['4'];
    DigitsOnlySnoc(s, '5'); s := s + ['5'];
    DigitsOnlySnoc(s, ' '); s := s + [' '];
    DigitsOnlySnoc(s, '6'); s := s + ['6'];
    DigitsOnlySnoc(s, '7'); s := s + ['7'];
    assert s == "123 45 67";
  }

  /** The digits of the same number written with the domestic trunk prefix 8. */
  lemma DigitsTrunkExample()
    ensures DigitsOnly("8 916 123 45 67") == "89161234567"
  {
    DigitsTrunkHead();
    DigitsTrunkTail();
    DigitsOnlyAppend("8 916 ", "123 45 67");
    assert "8 916 " + "123 45 67" == "8 916 123 45 67";
    assert "8916" + "1234567" == "89161234567";
  }

  /** Both spellings of a Russian mobile number normalise to the same value. */
  lemma NormalizeExample()
    ensures NormalizePhone("+7 (916) 123-45-67") == "79161234567"
    ensures NormalizePhone("8 916 123 45 67") == "79161234567"
  {
    DigitsExample();
    DigitsTrunkExample();
  }

  /** The digits of a short extension-like number. */
  lemma ShortDigits()
    ensures DigitsOnly("12-34") == "1234"
  {
    var s: string := [];
    DigitsOnlySnoc(s, '1'); s := s + ['1'];
    DigitsOnlySnoc(s, '2'); s := s + ['2'];
    DigitsOnlySnoc(s, '-'); s := s + ['-'];
    DigitsOnlySnoc(s, '3'); s := s + ['3'];
    DigitsOnlySnoc(s, '4'); s := s + ['4'];
    assert s == "12-34";
  }

  /** A short number keeps all its digits behind the prefix. */
  lemma ShortNormalized()
    ensures NormalizePhone("12-34") == "71234"
  {
    ShortDigits();
    assert TakeLast("1234", NationalLength) == "1234";
    assert [CountryPrefix] + "1234" == "71234";
  }

  /** The digits of an already short-normalised value are the value itself. */
  lemma ShortRenormalized()
    ensures NormalizePhone("71234") == "771234"
  {
    assert AllDigits("71234");
    DigitsOnlyOfDigits("71234");
    assert TakeLast("71234", NationalLength) == "71234";
    assert [CountryPrefix] + "71234" == "771234";
  }

  /** A short number is not conformant, and normalising it again prepends a second "7". */
  lemma NormalizeShortNumber()
    ensures NormalizePhone("12-34") == "71234"
    ensures NormalizePhone(NormalizePhone("12-34")) == "771234"
  {
    ShortNormalized();
    ShortRenormalized();
  }
}
