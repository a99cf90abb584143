/**
 The parts of the .NET base class library the appender relies on, each written
 out with its documented meaning: null-aware strings, string.IsNullOrEmpty,
 String.Trim, Dictionary.Add, and the invariant-culture rendering and parsing
 of integers used by the attribute builder's fixture.
 */
module Platform {
  import opened Wrappers

  newtype byte = x: int | 0 <= x < 0x100

  /** A .NET string reference; None stands for null. */
  type NString = Option<string>

  /** The exceptions raised along the modelled paths. */
  datatype Error =
    | ArgumentNull(paramName: NString)             // ArgumentNullException
    | Argument(reason: Reason, paramName: NString) // ArgumentException
    | NullReference                                // NullReferenceException
    | Serialization                                // SerializationException from the binary formatter
    | Service                                      // any exception raised by the table service client

  /** Why an ArgumentException was raised. */
  datatype Reason = StringCannotBeEmpty | ItemNotNumeric | DuplicateKey

  /** The text a string reference contributes to string.Concat, where null counts as "". */
  function Text(s: NString): string {
    if s.Some? then s.value else ""
  }

  /** string.IsNullOrEmpty */
  predicate IsNullOrEmpty(s: NString) {
    s.None? || s.value == ""
  }

  /**
   Char.IsWhiteSpace: the Unicode space, line and paragraph separators plus
   the control characters U+0009 to U+000D and U+0085.
   */
  predicate IsWhiteSpace(c: char) {
    || c == ' '
    || '\t' <= c <= '\r'
    || c == '\U{85}'
    || c == '\U{A0}'
    || c == '\U{1680}'
    || '\U{2000}' <= c <= '\U{200A}'
    || c == '\U{2028}'
    || c == '\U{2029}'
    || c == '\U{202F}'
    || c == '\U{205F}'
    || c == '\U{3000}'
  }

  predicate AllWhiteSpace(s: string) {
    forall k :: 0 <= k < |s| ==> IsWhiteSpace(s[k])
  }

  /** Length of the longest whitespace prefix of s. */
  function LeadingWhiteSpace(s: string): (i: nat)
    ensures i <= |s|
    ensures AllWhiteSpace(s[..i])
    ensures i < |s| ==> !IsWhiteSpace(s[i])
    decreases |s|
  {
    if s == [] || !IsWhiteSpace(s[0]) then 0
    else
      var i := 1 + LeadingWhiteSpace(s[1..]);
      assert s[..i] == [s[0]] + s[1..][..i - 1];
      i
  }

  /** Index where the longest whitespace suffix of s begins. */
  function TrailingWhiteSpace(s: string): (j: nat)
    ensures j <= |s|
    ensures AllWhiteSpace(s[j..])
    ensures 0 < j ==> !IsWhiteSpace(s[j - 1])
    decreases |s|
  {
    if s == [] || !IsWhiteSpace(s[|s| - 1]) then |s|
    else
      var j := TrailingWhiteSpace(s[..|s| - 1]);
      assert s[j..] == s[..|s| - 1][j..] + [s[|s| - 1]];
      j
  }

  /** String.Trim(): removes leading and trailing white-space characters. */
  function Trim(s: string): (r: string)
    ensures |r| <= |s|
    ensures r == [] <==> AllWhiteSpace(s)
    ensures r != [] ==> !IsWhiteSpace(r[0]) && !IsWhiteSpace(r[|r| - 1])
  {
    var i := LeadingWhiteSpace(s);
    var t := s[i..];
    var j := TrailingWhiteSpace(t);
    assert t[0..] == t;
    assert forall k :: i <= k < |s| ==> s[k] == t[k - i];
    assert forall k :: 0 <= k < i ==> s[k] == s[..i][k];
    t[..j]
  }

  /** Trim removes exactly a whitespace prefix and a whitespace suffix, nothing from the middle. */
  lemma TrimIsInfix(s: string)
    ensures exists i :: 0 <= i <= i + |Trim(s)| <= |s|
                        && s[i..i + |Trim(s)|] == Trim(s)
                        && AllWhiteSpace(s[..i])
                        && AllWhiteSpace(s[i + |Trim(s)|..])
  {
    var i := LeadingWhiteSpace(s);
    var t := s[i..];
    var j := TrailingWhiteSpace(t);
    assert s[i..i + j] == t[..j];
    assert s[i + j..] == t[j..];
  }

  /**
   Dictionary<string, V>.Add: a null key raises ArgumentNullException("key"),
   an existing key raises ArgumentException, otherwise exactly one entry is added.
   */
  function DictionaryAdd<V>(m: map<string, V>, key: NString, v: V): (r: Result<map<string, V>, Error>)
    ensures key.None? ==> r == Failure(ArgumentNull(Some("key")))
    ensures key.Some? && key.value in m ==> r == Failure(Argument(DuplicateKey, None))
    ensures r.Success? <==> key.Some? && key.value !in m
    ensures r.Success? ==> r.value.Keys == m.Keys + {key.value}
                           && r.value[key.value] == v
                           && forall k :: k in m ==> r.value[k] == m[k]
  {
    if key.None? then Failure(ArgumentNull(Some("key")))
    else if key.value in m then Failure(Argument(DuplicateKey, None))
    else Success(m[key.value := v])
  }

  predicate IsDigit(c: char) {
    '0' <= c <= '9'
  }

  predicate AllDigits(s: string) {
    forall k :: 0 <= k < |s| ==> IsDigit(s[k])
  }

  function DigitChar(d: nat): (c: char)
    requires d < 10
    ensures IsDigit(c)
  {
    ('0' as int + d) as char
  }

  function DigitValue(c: char): (d: nat)
    requires IsDigit(c)
    ensures d < 10 && DigitChar(d) == c
  {
    c as int - '0' as int
  }

  /** Decimal digits of n, most significant first, without leading zeros. */
  function NatToText(n: nat): (s: string)
    ensures s != [] && AllDigits(s)
    decreases n
  {
    if n < 10 then [DigitChar(n)] else NatToText(n / 10) + [DigitChar(n % 10)]
  }

  /** Int32.ToString(CultureInfo.InvariantCulture) */
  function IntToText(n: int): string {
    if n < 0 then "-" + NatToText(-n) else NatToText(n)
  }

  /** The value of a non-empty run of decimal digits. */
  function DigitsValue(s: string): nat
    requires AllDigits(s)
    decreases |s|
  {
    if s == [] then 0 else 10 * DigitsValue(s[..|s| - 1]) + DigitValue(s[|s| - 1])
  }

  /** int.Parse on an optional minus sign followed by decimal digits; None where it would throw. */
  function ParseInt(s: string): Option<int> {
    if s != [] && s[0] == '-' && |s| > 1 && AllDigits(s[1..]) then Some(-(DigitsValue(s[1..]) as int))
    else if s != [] && AllDigits(s) then Some(DigitsValue(s))
    else None
  }

  lemma {:induction false} DigitsValueOfNatToText(n: nat)
    ensures DigitsValue(NatToText(n)) == n
    decreases n
  {
    if n >= 10 {
      var s := NatToText(n);
      assert s[..|s| - 1] == NatToText(n / 10);
      DigitsValueOfNatToText(n / 10);
    }
  }

  /** Rendering an integer and parsing the text back gives the integer. */
  lemma ParseIntRoundTrip(n: int)
    ensures ParseInt(IntToText(n)) == Some(n)
  {
    if n < 0 {
      var s := IntToText(n);
      assert s[1..] == NatToText(-n);
      DigitsValueOfNatToText(-n);
    } else {
      DigitsValueOfNatToText(n);
    }
  }
}
