/**
 JavaScript's global `parseInt(string)` called without a radix, as the
 symptom checker applies it to the age field (the `parseInt` operation of the
 ECMAScript language specification, ECMA-262, section "parseInt ( string, radix )"):
 leading whitespace is skipped, one sign is accepted, a `0x`/`0X` prefix selects
 radix 16 (otherwise radix 10), and the longest run of digits that follows is
 read; text after that run is ignored. With no digit at all the result is NaN,
 shown here as `None`.

 The mathematical value is kept exactly. JavaScript rounds it to the nearest
 double and keeps at most 20 significant decimal digits; both only change values
 far above 120, which the age check rejects either way. A `-0` result is shown
 as 0.
 */
module JsParseInt {
  import opened Wrappers
  import opened Text

  /** Radix 10 or radix 16: the only two `parseInt` selects without a radix argument. */
  type Radix = r: nat | r == 10 || r == 16 witness 10

  /** The value of `c` as a digit of `radix`, if it is one: a hexadecimal
      digit whose value is below the radix. */
  function DigitValue(c: char, radix: Radix): (r: Option<nat>)
    ensures r.Some? ==> r.value < radix
    ensures r.Some? <==> '0' <= c <= '9' || (radix == 16 && HexValue(c).Some?)
  {
    match HexValue(c)
    case Some(v) => if v < radix then Some(v) else None
    case None => None
  }

  predicate IsDigit(c: char, radix: Radix) {
    DigitValue(c, radix).Some?
  }

  predicate AllDigits(s: string, radix: Radix) {
    forall i :: 0 <= i < |s| ==> IsDigit(s[i], radix)
  }

  /** The longest prefix of `s` made of digits of `radix`. */
  function DigitRun(s: string, radix: Radix): (r: string)
    ensures r <= s
    ensures AllDigits(r, radix)
    ensures |r| == |s| || !IsDigit(s[|r|], radix)
  {
    if |s| > 0 && IsDigit(s[0], radix) then [s[0]] + DigitRun(s[1..], radix) else []
  }

  /** The number that a run of digits denotes, most significant digit first. */
  function ValueOf(ds: string, radix: Radix): nat
    requires AllDigits(ds, radix)
  {
    if ds == [] then 0
    else ValueOf(ds[..|ds| - 1], radix) * radix + DigitValue(ds[|ds| - 1], radix).value
  }

  /** `parseInt(s)`. Text that is empty or all whitespace never parses. */
  function ParseInt(s: string): (r: Option<int>)
    ensures AllWs(s) ==> r.None?
  {
    TrimStartSuffix(s);
    ParseSigned(TrimStart(s))
  }

  /** Reads an optional sign, then an unsigned numeral. */
  function ParseSigned(t: string): Option<int> {
    if |t| > 0 && t[0] == '-' then
      match ParseUnsigned(t[1..])
      case None => None
      case Some(v) => Some(-(v as int))
    else if |t| > 0 && t[0] == '+' then
      match ParseUnsigned(t[1..])
      case None => None
      case Some(v) => Some(v)
    else
      match ParseUnsigned(t)
      case None => None
      case Some(v) => Some(v)
  }

  /** Reads a `0x`-prefixed hexadecimal or a decimal digit run. */
  function ParseUnsigned(u: string): Option<nat> {
    var hex := |u| >= 2 && u[0] == '0' && (u[1] == 'x' || u[1] == 'X');
    var radix: Radix := if hex then 16 else 10;
    var z := DigitRun(if hex then u[2..] else u, radix);
    if z == [] then None else Some(ValueOf(z, radix))
  }

  // ---------------------------------------------------------------------------
  // Decimal numerals
  // ---------------------------------------------------------------------------

  function DigitChar(d: nat): char
    requires d < 10
  {
    ('0' as nat + d) as char
  }

  /** The shortest decimal numeral of `n`. */
  function Decimal(n: nat): (r: string)
    ensures |r| > 0 && AllDigits(r, 10)
    ensures n > 0 ==> r[0] != '0'
  {
    if n < 10 then [DigitChar(n)] else Decimal(n / 10) + [DigitChar(n % 10)]
  }

  lemma {:induction false} DecimalValue(n: nat)
    ensures ValueOf(Decimal(n), 10) == n
    decreases n
  {
    if n >= 10 {
      var ds := Decimal(n);
      assert ds[..|ds| - 1] == Decimal(n / 10);
      DecimalValue(n / 10);
    }
  }

  lemma {:induction false} DigitRunStops(ds: string, rest: string, radix: Radix)
    requires AllDigits(ds, radix)
    requires rest == [] || !IsDigit(rest[0], radix)
    ensures DigitRun(ds + rest, radix) == ds
    decreases |ds|
  {
    if ds == [] {
      assert ds + rest == rest;
    } else {
      assert (ds + rest)[0] == ds[0];
      assert (ds + rest)[1..] == ds[1..] + rest;
      DigitRunStops(ds[1..], rest, radix);
      assert ds == [ds[0]] + ds[1..];
    }
  }

  /** Reading a decimal numeral gives back its number, and whatever text follows
      the digits is ignored (`parseInt("32abc")` is 32). */
  lemma {:induction false} ParseDecimal(n: nat, rest: string)
    requires rest == [] || !IsDigit(rest[0], 10)
    requires n > 0 || rest == [] || (rest[0] != 'x' && rest[0] != 'X')
    ensures ParseInt(Decimal(n) + rest) == Some(n)
  {
    var s := Decimal(n) + rest;
    assert s[0] == Decimal(n)[0];
    assert IsDigit(Decimal(n)[0], 10);
    UnsignedStart(s);
    ReadDecimal(n, rest);
  }

  /** Text that starts with a decimal digit is read as an unsigned numeral. */
  lemma UnsignedStart(s: string)
    requires |s| > 0 && '0' <= s[0] <= '9'
    ensures ParseInt(s) == ParseUnsigned(s)
  {
    assert !IsWs(s[0]);
    assert TrimStart(s) == s;
  }

  lemma ReadDecimal(n: nat, rest: string)
    requires rest == [] || !IsDigit(rest[0], 10)
    requires n > 0 || rest == [] || (rest[0] != 'x' && rest[0] != 'X')
    ensures ParseUnsigned(Decimal(n) + rest) == Some(n)
  {
    var s := Decimal(n) + rest;
    assert s[0] == Decimal(n)[0];
    if |s| >= 2 && s[0] == '0' {
      assert |Decimal(n)| == 1;
      assert s[1] == rest[0];
    }
    DigitRunStops(Decimal(n), rest, 10);
    DecimalValue(n);
  }

  /** A minus sign negates the number read. */
  lemma ParseNegative(n: nat)
    ensures ParseInt(['-'] + Decimal(n)) == Some(0 - n)
  {
    var s := ['-'] + Decimal(n);
    assert s[0] == '-' && s[1..] == Decimal(n);
    assert TrimStart(s) == s;
    assert Decimal(n) + [] == Decimal(n);
    ReadDecimal(n, []);
  }

  /** Leading whitespace never changes the result. */
  lemma ParseSkipsLeadingWs(w: string, s: string)
    requires AllWs(w)
    ensures ParseInt(w + s) == ParseInt(s)
  {
    TrimStartWsPrefix(w, s);
  }
}
