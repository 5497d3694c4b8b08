/** The device file of an endpoint: `/dev/gadget/ep<n>out`, where `<n>` is
    the endpoint number written in decimal as Rust's `{}` formats a `u8`. */
module EndpointPath {
  import opened UsbTypes

  const EP_PATH_PREFIX: string := "/dev/gadget/ep"
  const EP_PATH_SUFFIX: string := "out"

  predicate IsDigit(c: char) {
    '0' <= c <= '9'
  }

  function DigitChar(d: nat): (c: char)
    requires d < 10
    ensures IsDigit(c)
  {
    ('0' as int + d) as char
  }

  function DigitValue(c: char): (d: nat)
    requires IsDigit(c)
    ensures d < 10
  {
    c as int - '0' as int
  }

  /** A canonical decimal numeral: digits only, and no leading zero unless
      the numeral is "0" itself. */
  predicate IsCanonicalDecimal(s: string) {
    |s| >= 1 && (forall i :: 0 <= i < |s| ==> IsDigit(s[i])) && (s[0] == '0' ==> |s| == 1)
  }

  /** Decimal formatting of a natural number, most significant digit first. */
  function Decimal(n: nat): (s: string)
    ensures IsCanonicalDecimal(s)
    ensures |s| == 1 <==> n < 10
    ensures n > 0 ==> s[0] != '0'
    ensures n < 100 ==> |s| <= 2
    ensures n < 1000 ==> |s| <= 3
  {
    if n < 10 then [DigitChar(n)] else Decimal(n / 10) + [DigitChar(n % 10)]
  }

  /** The value of a string of digits. */
  function DecimalValue(s: string): nat
    requires forall i :: 0 <= i < |s| ==> IsDigit(s[i])
  {
    if s == [] then 0 else 10 * DecimalValue(s[..|s| - 1]) + DigitValue(s[|s| - 1])
  }

  /** Reads a canonical decimal numeral; anything else is rejected. */
  function ParseDecimal(s: string): Option<nat> {
    if IsCanonicalDecimal(s) then Some(DecimalValue(s)) else None
  }

  lemma {:induction false} DecimalValueOfDecimal(n: nat)
    ensures DecimalValue(Decimal(n)) == n
  {
    if n >= 10 {
      var s := Decimal(n);
      assert s[..|s| - 1] == Decimal(n / 10);
      DecimalValueOfDecimal(n / 10);
    }
  }

  /** A canonical numeral is the decimal formatting of its value. */
  lemma {:induction false} DecimalOfValue(s: string)
    requires IsCanonicalDecimal(s)
    ensures Decimal(DecimalValue(s)) == s
    decreases |s|
  {
    if |s| > 1 {
      var init := s[..|s| - 1];
      assert init[0] == s[0];
      DecimalOfValue(init);
      var v := DecimalValue(init);
      assert Decimal(0) == "0";
      assert v > 0;
      var n := DecimalValue(s);
      assert n / 10 == v && n % 10 == DigitValue(s[|s| - 1]);
      assert n >= 10;
    }
  }

  /** Formatting and parsing numerals are inverse to each other. */
  lemma DecimalRoundTrip(n: nat, s: string)
    ensures ParseDecimal(Decimal(n)) == Some(n)
    ensures ParseDecimal(s).Some? ==> Decimal(ParseDecimal(s).value) == s
  {
    DecimalValueOfDecimal(n);
    if IsCanonicalDecimal(s) {
      DecimalOfValue(s);
    }
  }

  /** The device file `init_ep` opens for endpoint `n`. */
  function EpPath(n: u8): (p: string)
    ensures 18 <= |p| <= 20
  {
    EP_PATH_PREFIX + Decimal(n) + EP_PATH_SUFFIX
  }

  /** Reads an endpoint number back from a device-file name. */
  function ParseEpPath(p: string): Option<u8> {
    if |p| < |EP_PATH_PREFIX| + |EP_PATH_SUFFIX| then None
    else if p[..|EP_PATH_PREFIX|] != EP_PATH_PREFIX || p[|p| - |EP_PATH_SUFFIX|..] != EP_PATH_SUFFIX then None
    else
      match ParseDecimal(p[|EP_PATH_PREFIX|..|p| - |EP_PATH_SUFFIX|])
      case Some(v) => if v < 0x100 then Some(v) else None
      case None => None
  }

  /** Every endpoint's device file names that endpoint and no other, so
      distinct endpoints never share a device file. */
  lemma EpPathRoundTrip(n: u8)
    ensures ParseEpPath(EpPath(n)) == Some(n)
  {
    var d := Decimal(n);
    var p := EpPath(n);
    assert p[..|EP_PATH_PREFIX|] == EP_PATH_PREFIX;
    assert p[|p| - |EP_PATH_SUFFIX|..] == EP_PATH_SUFFIX;
    assert p[|EP_PATH_PREFIX|..|p| - |EP_PATH_SUFFIX|] == d;
    DecimalRoundTrip(n, d);
  }

  lemma EpPathInjective(m: u8, n: u8)
    ensures EpPath(m) == EpPath(n) <==> m == n
  {
    EpPathRoundTrip(m);
    EpPathRoundTrip(n);
  }
}
