/** cmd/nyctal-dri/evdev/consts.go: the names of relative and absolute axis
    codes, as printed by `Rel.String` and `Abs.String`.  Both types are uint16. */
module Evdev {
  import opened Wrappers
  import opened Ints

  /** The name table of `relToString`. */
  function RelName(code: int): Option<string>
  {
    match code
    case 0x00 => Some("X")
    case 0x01 => Some("Y")
    case 0x02 => Some("Z")
    case 0x03 => Some("RX")
    case 0x04 => Some("RY")
    case 0x05 => Some("RZ")
    case 0x06 => Some("HWHEEL")
    case 0x07 => Some("DIAL")
    case 0x08 => Some("WHEEL")
    case 0x09 => Some("MISC")
    case 0x0a => Some("RESERVED")
    case 0x0b => Some("WHEEL_HI_RES")
    case 0x0c => Some("HWHEEL_HI_RES")
    case _ => None
  }

  /** The same table read backwards. */
  function RelCode(name: string): Option<int>
  {
    match name
    case "X" => Some(0x00)
    case "Y" => Some(0x01)
    case "Z" => Some(0x02)
    case "RX" => Some(0x03)
    case "RY" => Some(0x04)
    case "RZ" => Some(0x05)
    case "HWHEEL" => Some(0x06)
    case "DIAL" => Some(0x07)
    case "WHEEL" => Some(0x08)
    case "MISC" => Some(0x09)
    case "RESERVED" => Some(0x0a)
    case "WHEEL_HI_RES" => Some(0x0b)
    case "HWHEEL_HI_RES" => Some(0x0c)
    case _ => None
  }

  /** The name table of `absToString`. */
  function AbsName(code: int): Option<string>
  {
    match code
    case 0x00 => Some("X")
    case 0x01 => Some("Y")
    case 0x02 => Some("Z")
    case 0x03 => Some("RX")
    case 0x04 => Some("RY")
    case 0x05 => Some("RZ")
    case 0x06 => Some("THROTTLE")
    case 0x07 => Some("RUDDER")
    case 0x08 => Some("WHEEL")
    case 0x09 => Some("GAS")
    case 0x0a => Some("BRAKE")
    case 0x10 => Some("HAT0X")
    case 0x11 => Some("HAT0Y")
    case 0x12 => Some("HAT1X")
    case 0x13 => Some("HAT1Y")
    case 0x14 => Some("HAT2X")
    case 0x15 => Some("HAT2Y")
    case 0x16 => Some("HAT3X")
    case 0x17 => Some("HAT3Y")
    case 0x18 => Some("PRESSURE")
    case 0x19 => Some("DISTANCE")
    case 0x1a => Some("TILT_X")
    case 0x1b => Some("TILT_Y")
    case 0x1c => Some("TOOL_WIDTH")
    case 0x20 => Some("VOLUME")
    case 0x28 => Some("MISC")
    case 0x2e => Some("RESERVED")
    case 0x2f => Some("MT_SLOT")
    case 0x30 => Some("MT_TOUCH_MAJOR")
    case 0x31 => Some("MT_TOUCH_MINOR")
    case 0x32 => Some("MT_WIDTH_MAJOR")
    case 0x33 => Some("MT_WIDTH_MINOR")
    case 0x34 => Some("MT_ORIENTATION")
    case 0x35 => Some("MT_POSITION_X")
    case 0x36 => Some("MT_POSITION_Y")
    case 0x37 => Some("MT_TOOL_TYPE")
    case 0x38 => Some("MT_BLOB_ID")
    case 0x39 => Some("MT_TRACKING_ID")
    case 0x3a => Some("MT_PRESSURE")
    case 0x3b => Some("MT_DISTANCE")
    case 0x3c => Some("MT_TOOL_X")
    case 0x3d => Some("MT_TOOL_Y")
    case _ => None
  }

  /** The same table read backwards. */
  function AbsCode(name: string): Option<int>
  {
    match name
    case "X" => Some(0x00)
    case "Y" => Some(0x01)
    case "Z" => Some(0x02)
    case "RX" => Some(0x03)
    case "RY" => Some(0x04)
    case "RZ" => Some(0x05)
    case "THROTTLE" => Some(0x06)
    case "RUDDER" => Some(0x07)
    case "WHEEL" => Some(0x08)
    case "GAS" => Some(0x09)
    case "BRAKE" => Some(0x0a)
    case "HAT0X" => Some(0x10)
    case "HAT0Y" => Some(0x11)
    case "HAT1X" => Some(0x12)
    case "HAT1Y" => Some(0x13)
    case "HAT2X" => Some(0x14)
    case "HAT2Y" => Some(0x15)
    case "HAT3X" => Some(0x16)
    case "HAT3Y" => Some(0x17)
    case "PRESSURE" => Some(0x18)
    case "DISTANCE" => Some(0x19)
    case "TILT_X" => Some(0x1a)
    case "TILT_Y" => Some(0x1b)
    case "TOOL_WIDTH" => Some(0x1c)
    case "VOLUME" => Some(0x20)
    case "MISC" => Some(0x28)
    case "RESERVED" => Some(0x2e)
    case "MT_SLOT" => Some(0x2f)
    case "MT_TOUCH_MAJOR" => Some(0x30)
    case "MT_TOUCH_MINOR" => Some(0x31)
    case "MT_WIDTH_MAJOR" => Some(0x32)
    case "MT_WIDTH_MINOR" => Some(0x33)
    case "MT_ORIENTATION" => Some(0x34)
    case "MT_POSITION_X" => Some(0x35)
    case "MT_POSITION_Y" => Some(0x36)
    case "MT_TOOL_TYPE" => Some(0x37)
    case "MT_BLOB_ID" => Some(0x38)
    case "MT_TRACKING_ID" => Some(0x39)
    case "MT_PRESSURE" => Some(0x3a)
    case "MT_DISTANCE" => Some(0x3b)
    case "MT_TOOL_X" => Some(0x3c)
    case "MT_TOOL_Y" => Some(0x3d)
    case _ => None
  }

  predicate IsDigit(c: char) { '0' <= c <= '9' }

  predicate AllDigits(s: string) { forall i :: 0 <= i < |s| ==> IsDigit(s[i]) }

  function DigitChar(d: nat): (c: char)
    requires d < 10
    ensures IsDigit(c) && c as int - '0' as int == d
  {
    ('0' as int + d) as char
  }

  /** `%d` of a non-negative integer: shortest decimal, no sign. */
  function Decimal(n: nat): (s: string)
    ensures 1 <= |s| && AllDigits(s)
    ensures n < 10 <==> |s| == 1
    decreases n
  {
    if n < 10 then [DigitChar(n)] else Decimal(n / 10) + [DigitChar(n % 10)]
  }

  function ParseDecimal(s: string): nat
    requires AllDigits(s)
    decreases |s|
  {
    if |s| == 0 then 0 else 10 * ParseDecimal(s[..|s| - 1]) + (s[|s| - 1] as int - '0' as int)
  }

  lemma {:induction false} DecimalRoundTrip(n: nat)
    ensures ParseDecimal(Decimal(n)) == n
    decreases n
  {
    if n >= 10 {
      var s := Decimal(n);
      assert s[..|s| - 1] == Decimal(n / 10);
      DecimalRoundTrip(n / 10);
    }
  }

  function Unknown(n: nat): string { "Unknown(" + Decimal(n) + ")" }

  /** `Rel.String`: the listed name, or "Unknown(n)". */
  function RelString(r: int): string
    requires IsU16(r)
  {
    match RelName(r)
    case Some(name) => name
    case None => Unknown(r)
  }

  /** `Abs.String`: the listed name, or "Unknown(n)". */
  function AbsString(a: int): string
    requires IsU16(a)
  {
    match AbsName(a)
    case Some(name) => name
    case None => Unknown(a)
  }

  /** Reads back "Unknown(" digits ")". */
  function UnknownCode(s: string): (r: Option<int>)
  {
    if 10 <= |s| && s[..8] == "Unknown(" && s[|s| - 1] == ')' && AllDigits(s[8..|s| - 1]) then
      Some(ParseDecimal(s[8..|s| - 1]))
    else None
  }

  lemma UnknownRoundTrip(n: nat)
    ensures UnknownCode(Unknown(n)) == Some(n)
    ensures Unknown(n)[0] == 'U'
  {
    var s := Unknown(n);
    assert s[8..|s| - 1] == Decimal(n);
    assert s[..8] == "Unknown(";
    DecimalRoundTrip(n);
  }

  /** The inverse of `Rel.String` over all uint16 codes. */
  function RelFromString(s: string): Option<int>
  {
    if RelCode(s).Some? then RelCode(s) else UnknownCode(s)
  }

  /** The inverse of `Abs.String` over all uint16 codes. */
  function AbsFromString(s: string): Option<int>
  {
    if AbsCode(s).Some? then AbsCode(s) else UnknownCode(s)
  }

  /** Every Rel code, listed or not, can be read back from its string. */
  lemma RelStringRoundTrip(r: int)
    requires IsU16(r)
    ensures RelFromString(RelString(r)) == Some(r)
  {
    if RelName(r).None? {
      UnknownRoundTrip(r);
      var s := Unknown(r);
      assert s[0] == 'U';
    }
  }

  /** Every Abs code, listed or not, can be read back from its string. */
  lemma AbsStringRoundTrip(a: int)
    requires IsU16(a)
    ensures AbsFromString(AbsString(a)) == Some(a)
  {
    if AbsName(a).None? {
      AbsUnknownRoundTrip(a);
    } else if a < 0x18 {
      AbsLowNamed(a);
    } else {
      AbsHighNamed(a);
    }
  }

  lemma AbsUnknownRoundTrip(a: nat)
    requires AbsName(a).None?
    ensures AbsFromString(Unknown(a)) == Some(a)
  {
    UnknownRoundTrip(a);
    var s := Unknown(a);
    if AbsCode(s).Some? {
      AbsCodeNotU(s);
      assert false;
    }
  }

  /** No name in the Abs table starts with 'U', so none is confused with "Unknown(n)". */
  lemma AbsCodeNotU(s: string)
    requires AbsCode(s).Some?
    ensures |s| > 0 && s[0] != 'U'
  {
  }

  lemma AbsLowNamed(a: int)
    requires AbsName(a).Some? && a < 0x18
    ensures AbsCode(AbsName(a).value) == Some(a)
  {
  }

  lemma AbsHighNamed(a: int)
    requires AbsName(a).Some? && a >= 0x18
    ensures AbsCode(AbsName(a).value) == Some(a)
  {
  }

  /** `Rel.String` is one-to-one over all uint16 codes. */
  lemma RelStringInjective(a: int, b: int)
    requires IsU16(a) && IsU16(b) && RelString(a) == RelString(b)
    ensures a == b
  {
    RelStringRoundTrip(a);
    RelStringRoundTrip(b);
  }

  /** `Abs.String` is one-to-one over all uint16 codes. */
  lemma AbsStringInjective(a: int, b: int)
    requires IsU16(a) && IsU16(b) && AbsString(a) == AbsString(b)
    ensures a == b
  {
    AbsStringRoundTrip(a);
    AbsStringRoundTrip(b);
  }

  /** Codes 0x00-0x0c have names; every other code prints as Unknown. */
  lemma RelStringCases(r: int)
    requires IsU16(r)
    ensures r <= 0x0c ==> RelName(r).Some? && RelString(r) == RelName(r).value
    ensures r > 0x0c ==> RelString(r) == Unknown(r)
  {
  }

  /** The gaps in the absolute-axis table print as Unknown. */
  lemma AbsStringGaps(a: int)
    requires 0x0b <= a <= 0x0f || 0x1d <= a <= 0x1f || 0x21 <= a <= 0x27 || 0x29 <= a <= 0x2d || 0x3e <= a < U16
    ensures AbsString(a) == Unknown(a)
  {
  }
}
