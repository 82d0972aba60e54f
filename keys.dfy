/**
 * Keys of the indents map: an indentation type and the size of an indent or
 * unindent. The source stores them as strings such as `s4` or `t1`
 * (`encodeIndentsKey`) and reads them back with `decodeIndentsKey`.
 */
module Keys {
  import opened Style

  datatype Key = Key(indentType: IndentType, amount: nat)

  function DigitChar(d: nat): (c: char)
    requires d < 10
    ensures '0' <= c <= '9'
  {
    "0123456789"[d]
  }

  predicate IsDigit(c: char)
  {
    '0' <= c <= '9'
  }

  /** PHP's decimal rendering of a non-negative `int`. */
  function Decimal(n: nat): (r: string)
    ensures |r| >= 1
    ensures forall k :: 0 <= k < |r| ==> IsDigit(r[k])
    ensures n >= 10 ==> r[0] != '0'
  {
    if n < 10 then [DigitChar(n)] else Decimal(n / 10) + [DigitChar(n % 10)]
  }

  /** Value of a string of decimal digits. */
  function DigitsValue(d: string): nat
    requires forall k :: 0 <= k < |d| ==> IsDigit(d[k])
  {
    if |d| == 0 then 0
    else
      assert IsDigit(d[|d| - 1]);
      DigitsValue(d[..|d| - 1]) * 10 + (d[|d| - 1] as int - '0' as int)
  }

  /** Number of leading decimal digits. */
  function LeadingDigits(s: string): (n: nat)
    ensures n <= |s|
    ensures forall k :: 0 <= k < n ==> IsDigit(s[k])
    ensures n < |s| ==> !IsDigit(s[n])
  {
    if |s| == 0 || !IsDigit(s[0]) then 0 else 1 + LeadingDigits(s[1..])
  }

  /** `intval` of a string that holds an unsigned decimal number, possibly
      followed by other characters: the value of its leading digits. */
  function IntVal(s: string): nat
  {
    DigitsValue(s[..LeadingDigits(s)])
  }

  /** `encodeIndentsKey`: `s` for space and `t` otherwise, then the amount. */
  function EncodeKey(k: Key): (r: string)
    ensures |r| >= 2 && (r[0] == 's' || r[0] == 't')
    ensures r[0] == 's' <==> k.indentType == Space
    ensures forall i :: 1 <= i < |r| ==> IsDigit(r[i])
  {
    [if k.indentType == Space then 's' else 't'] + Decimal(k.amount)
  }

  /** `decodeIndentsKey`: the amount and the type of a key string. Reading
      the first character of an empty string gives the empty string in PHP,
      which is not `s`, so the type is then tab. */
  function DecodeKey(s: string): (r: (nat, IndentType))
    ensures r.1 != Unknown
    ensures |s| <= 1 || !IsDigit(s[1]) ==> r.0 == 0
  {
    (if |s| == 0 then 0 else IntVal(s[1..]), if |s| > 0 && s[0] == 's' then Space else Tab)
  }

  lemma {:induction false} DecimalValue(n: nat)
    ensures DigitsValue(Decimal(n)) == n
  {
    if n >= 10 {
      var d := Decimal(n);
      assert d[..|d| - 1] == Decimal(n / 10);
      DecimalValue(n / 10);
    }
  }

  /** The key codec round-trips for the two types a key is ever made of. */
  lemma KeyRoundTrip(k: Key)
    requires k.indentType != Unknown
    ensures DecodeKey(EncodeKey(k)) == (k.amount, k.indentType)
  {
    var e := EncodeKey(k);
    assert e[1..] == Decimal(k.amount);
    assert LeadingDigits(e[1..]) == |e[1..]| by {
      AllDigits(e[1..]);
    }
    assert e[1..][..|e[1..]|] == e[1..];
    DecimalValue(k.amount);
  }

  lemma {:induction false} AllDigits(s: string)
    requires forall k :: 0 <= k < |s| ==> IsDigit(s[k])
    ensures LeadingDigits(s) == |s|
  {
    if |s| > 0 {
      AllDigits(s[1..]);
    }
  }

  /** Distinct keys have distinct strings, so a map keyed by the strings and
      a map keyed by `Key` values agree. */
  lemma EncodeKeyInjective(a: Key, b: Key)
    requires a.indentType != Unknown && b.indentType != Unknown
    requires EncodeKey(a) == EncodeKey(b)
    ensures a == b
  {
    KeyRoundTrip(a);
    KeyRoundTrip(b);
  }
}
