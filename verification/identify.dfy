/** Ids for manifest items (`xml_identify` in epubuilder/public/epub.py) and the decimal
    numerals (`str(i)`) used to disambiguate colliding ids. */
module XmlIds {
  import opened Wrappers

  /** `str.isalpha()`, restricted to ASCII letters. */
  predicate IsLetter(c: char) {
    'a' <= c <= 'z' || 'A' <= c <= 'Z'
  }

  /** `str.isdigit()`, restricted to ASCII digits. */
  predicate IsDigit(c: char) {
    '0' <= c <= '9'
  }

  /** The characters `xml_identify` keeps: letters, digits, `:`, `.`, `_` and `-`. */
  predicate IsIdChar(c: char) {
    IsLetter(c) || IsDigit(c) || c == ':' || c == '.' || c == '_' || c == '-'
  }

  /** True when every character of `s` is one `xml_identify` keeps. */
  predicate AllIdChars(s: string) {
    forall i :: 0 <= i < |s| ==> IsIdChar(s[i])
  }

  /** One step of the loop of `xml_identify`: a kept character, or `:` in its place. */
  function SanitizeChar(c: char): char {
    if IsIdChar(c) then c else ':'
  }

  /** The string the loop of `xml_identify` accumulates, one character appended per step.
      Its contract describes it position by position. */
  function Sanitize(s: string): (r: string)
    ensures |r| == |s|
    ensures forall i :: 0 <= i < |s| ==> r[i] == SanitizeChar(s[i])
    ensures AllIdChars(r)
    ensures AllIdChars(s) ==> r == s
  {
    if s == [] then [] else Sanitize(s[..|s| - 1]) + [SanitizeChar(s[|s| - 1])]
  }

  /** `xml_identify(s)`. `None` stands for the IndexError that `new_string[0]` raises on
      the empty string. */
  function Identify(s: string): (r: Option<string>)
    ensures r.None? <==> s == []
    ensures r.Some? ==> r.value != [] && IsLetter(r.value[0]) && AllIdChars(r.value)
    ensures r.Some? && IsLetter(SanitizeChar(s[0])) ==>
      |r.value| == |s| && forall i :: 0 <= i < |s| ==> r.value[i] == SanitizeChar(s[i])
    ensures r.Some? && !IsLetter(SanitizeChar(s[0])) ==>
      |r.value| == |s| + 2 && r.value[..2] == "P_" &&
      forall i :: 0 <= i < |s| ==> r.value[i + 2] == SanitizeChar(s[i])
  {
    if s == [] then None
    else
      var t := Sanitize(s);
      if IsLetter(t[0]) then Some(t) else Some("P_" + t)
  }

  /** `xml_identify` is idempotent: an id it produced is a fixed point. */
  lemma IdentifyIdempotent(s: string)
    requires Identify(s).Some?
    ensures Identify(Identify(s).value) == Identify(s)
  {
    var t := Identify(s).value;
    assert Sanitize(t) == t;
  }

  /** The loop of `xml_identify`, building the string character by character. */
  method XmlIdentify(s: string) returns (r: Option<string>)
    ensures r == Identify(s)
  {
    var newString := "";
    var i := 0;
    while i < |s|
      invariant 0 <= i <= |s|
      invariant newString == Sanitize(s[..i])
    {
      var c := s[i];
      if IsLetter(c) || IsDigit(c) || c == ':' || c == '.' || c == '_' || c == '-' {
        newString := newString + [c];
      } else {
        newString := newString + [':'];
      }
      assert s[..i + 1][..i] == s[..i];
      i := i + 1;
    }
    assert s[..i] == s;
    if newString == [] {
      return None;
    }
    if !IsLetter(newString[0]) {
      newString := "P_" + newString;
    }
    return Some(newString);
  }

  /** The numeral of one decimal digit. */
  function DigitChar(d: nat): (c: char)
    requires d < 10
    ensures IsDigit(c) && c as int - '0' as int == d
  {
    (d + '0' as int) as char
  }

  /** `str(n)` for a natural number: its decimal numeral, without leading zeros. */
  function NatToString(n: nat): (r: string)
    ensures r != [] && (forall i :: 0 <= i < |r| ==> IsDigit(r[i]))
    ensures r[0] == '0' ==> n == 0
  {
    if n < 10 then [DigitChar(n)] else NatToString(n / 10) + [DigitChar(n % 10)]
  }

  /** The value of a decimal numeral; the reading that `str` is the inverse of. */
  function DecimalValue(s: string): nat
    requires forall i :: 0 <= i < |s| ==> IsDigit(s[i])
  {
    if s == [] then 0
    else
      assert IsDigit(s[|s| - 1]);
      10 * DecimalValue(s[..|s| - 1]) + (s[|s| - 1] as int - '0' as int)
  }

  /** Reading back the numeral `str(n)` gives `n`. */
  lemma {:induction false} NatToStringRoundTrip(n: nat)
    ensures DecimalValue(NatToString(n)) == n
  {
    if n >= 10 {
      NatToStringRoundTrip(n / 10);
      var s := NatToString(n);
      assert s[..|s| - 1] == NatToString(n / 10);
    }
  }

  /** 10 to the power `k`. */
  function Pow10(k: nat): (r: nat)
    ensures r >= 1
  {
    if k == 0 then 1 else 10 * Pow10(k - 1)
  }

  /** A number of at least `Pow10(k)` has more than `k` digits. */
  lemma {:induction false} NatToStringLength(n: nat, k: nat)
    ensures n >= Pow10(k) ==> |NatToString(n)| > k
  {
    if k > 0 && n >= Pow10(k) {
      assert n >= 10;
      assert n / 10 >= Pow10(k - 1);
      NatToStringLength(n / 10, k - 1);
    }
  }
}
