/** USB string descriptors (section 9.6.7 of USB 2.0): a length byte, the
    STRING descriptor type and the text in UTF-16LE, with UTF-16 as in
    section 2.1 of RFC 2781. Identifier 0 holds the supported language
    (0x0409, US English); identifiers 1..6 hold the gadget's names. */
module StringTable {
  import opened UsbTypes
  import opened Descriptors

  // ---------------------------------------------------------------------
  // UTF-16 (RFC 2781, section 2.1), as `str::encode_utf16`

  /** The code units of one Unicode scalar value: itself below 0x10000,
      otherwise a high surrogate carrying the top ten bits of
      `c - 0x10000` and a low surrogate carrying the bottom ten. */
  function CharUnits(c: char): (u: seq<u16>)
    ensures 1 <= |u| <= 2
    ensures |u| == 1 <==> (c as int) < 0x1_0000
  {
    var v := c as int;
    if v < 0x1_0000 then [v]
    else
      var w := v - 0x1_0000;
      [0xD800 + w / 0x400, 0xDC00 + w % 0x400]
  }

  function Utf16Units(s: string): (u: seq<u16>)
    ensures |s| <= |u| <= 2 * |s|
  {
    if s == [] then [] else CharUnits(s[0]) + Utf16Units(s[1..])
  }

  /** Decoding per RFC 2781, section 2.2; an unpaired surrogate is an error. */
  function DecodeUtf16(u: seq<u16>): Option<string>
    decreases |u|
  {
    if u == [] then Some("")
    else if u[0] < 0xD800 || 0xE000 <= u[0] then
      match DecodeUtf16(u[1..])
      case Some(t) => Some([u[0] as char] + t)
      case None => None
    else if u[0] < 0xDC00 && |u| >= 2 && 0xDC00 <= u[1] < 0xE000 then
      match DecodeUtf16(u[2..])
      case Some(t) => Some([(0x1_0000 + (u[0] as int - 0xD800) * 0x400 + (u[1] as int - 0xDC00)) as char] + t)
      case None => None
    else None
  }

  lemma CharUnitsDecode(c: char, rest: seq<u16>)
    ensures DecodeUtf16(CharUnits(c) + rest) ==
      match DecodeUtf16(rest)
      case Some(t) => Some([c] + t)
      case None => None
  {
    var u := CharUnits(c) + rest;
    if (c as int) < 0x1_0000 {
      assert u[1..] == rest;
    } else {
      assert u[2..] == rest;
    }
  }

  /** Decoding undoes encoding, for every string. */
  lemma {:induction false} Utf16RoundTrip(s: string)
    ensures DecodeUtf16(Utf16Units(s)) == Some(s)
  {
    if s != [] {
      Utf16RoundTrip(s[1..]);
      CharUnitsDecode(s[0], Utf16Units(s[1..]));
      assert [s[0]] + s[1..] == s;
    }
  }

  // ---------------------------------------------------------------------
  // Little-endian code units, as `make_utf16le`

  /** Each code unit as its low byte followed by its high byte. */
  function LeBytes(u: seq<u16>): (b: seq<u8>)
    ensures |b| == 2 * |u|
    decreases |u|
  {
    if u == [] then [] else LeBytes(u[..|u| - 1]) + [Lo(u[|u| - 1]), Hi(u[|u| - 1])]
  }

  /** Pairs bytes back into code units (a trailing odd byte is ignored). */
  function FromLeBytes(b: seq<u8>): (u: seq<u16>)
    ensures |u| == |b| / 2
    decreases |b|
  {
    if |b| < 2 then [] else FromLeBytes(b[..|b| - 2]) + [FromLe16(b[|b| - 2], b[|b| - 1])]
  }

  lemma {:induction false} LeBytesRoundTrip(u: seq<u16>)
    ensures FromLeBytes(LeBytes(u)) == u
    decreases |u|
  {
    if u != [] {
      var b := LeBytes(u);
      var init := u[..|u| - 1];
      LeBytesRoundTrip(init);
      assert b[..|b| - 2] == LeBytes(init);
      Le16RoundTrip(u[|u| - 1], 0, 0);
      assert u == init + [u[|u| - 1]];
    }
  }

  /** Byte 2j is the low byte and byte 2j + 1 the high byte of unit j. */
  lemma {:induction false} LeBytesAt(u: seq<u16>, j: int)
    requires 0 <= j < |u|
    ensures LeBytes(u)[2 * j] == Lo(u[j]) && LeBytes(u)[2 * j + 1] == Hi(u[j])
    decreases |u|
  {
    if j < |u| - 1 {
      LeBytesAt(u[..|u| - 1], j);
    }
  }

  /** The UTF-16LE payload of a string. */
  function Utf16Le(s: string): seq<u8> {
    LeBytes(Utf16Units(s))
  }

  function DecodeUtf16Le(b: seq<u8>): Option<string> {
    DecodeUtf16(FromLeBytes(b))
  }

  lemma Utf16LeRoundTrip(s: string)
    ensures DecodeUtf16Le(Utf16Le(s)) == Some(s)
  {
    LeBytesRoundTrip(Utf16Units(s));
    Utf16RoundTrip(s);
  }

  /** Pushes the two bytes of every code unit, in order. */
  method MakeUtf16Le(s: string) returns (result: seq<u8>)
    ensures result == Utf16Le(s)
    ensures |result| == 2 * |Utf16Units(s)|
    ensures forall j :: 0 <= j < |Utf16Units(s)| ==>
              result[2 * j] == Lo(Utf16Units(s)[j]) && result[2 * j + 1] == Hi(Utf16Units(s)[j])
  {
    var units := Utf16Units(s);
    result := [];
    for j := 0 to |units|
      invariant result == LeBytes(units[..j])
    {
      var chunk := units[j];
      assert units[..j + 1][..j] == units[..j];
      result := result + [chunk % 0x100];
      result := result + [chunk / 0x100];
    }
    assert units[..|units|] == units;
    forall j | 0 <= j < |units|
      ensures result[2 * j] == Lo(units[j]) && result[2 * j + 1] == Hi(units[j])
    {
      LeBytesAt(units, j);
    }
  }

  // ---------------------------------------------------------------------
  // String descriptors, as `make_usb_string` and `usb_gadget_get_string`

  /** `len as u8 + 2`: the length byte, with 8-bit wrap-around. */
  function UsbStringLength(len: nat): (b: u8)
    ensures len + 2 <= 0xFF ==> b as int == len + 2
  {
    (len % 0x100 + 2) % 0x100
  }

  function MakeUsbString(s: string): (r: seq<u8>)
    ensures |r| == 2 + 2 * |Utf16Units(s)|
    ensures r[1] == USB_DT_STRING && r[2..] == Utf16Le(s)
    ensures 2 + 2 * |Utf16Units(s)| <= 0xFF ==> r[0] as int == |r|
  {
    var payload := Utf16Le(s);
    [UsbStringLength(|payload|), USB_DT_STRING] + payload
  }

  /** The host's reading of a string descriptor: a length byte that matches,
      the STRING type, and well-formed UTF-16LE. */
  function ParseStringDescriptor(b: seq<u8>): Option<string> {
    if |b| < 2 || b[0] as int != |b| || b[1] != USB_DT_STRING || |b| % 2 != 0 then None
    else DecodeUtf16Le(b[2..])
  }

  /** A descriptor that fits its length byte reads back as its string. */
  lemma MakeUsbStringParses(s: string)
    requires 2 + 2 * |Utf16Units(s)| <= 0xFF
    ensures ParseStringDescriptor(MakeUsbString(s)) == Some(s)
  {
    var r := MakeUsbString(s);
    assert |r| % 2 == 0 && r[0] as int == |r| && r[1] == USB_DT_STRING;
    assert ParseStringDescriptor(r) == DecodeUtf16Le(Utf16Le(s));
    Utf16LeRoundTrip(s);
  }

  /** Characters below 0x80 are single code units with a zero high byte. */
  lemma {:induction false} AsciiUtf16Le(s: string)
    requires IsAscii(s)
    ensures |Utf16Units(s)| == |s| && |Utf16Le(s)| == 2 * |s|
    ensures forall j :: 0 <= j < |s| ==> Utf16Le(s)[2 * j] == s[j] as int && Utf16Le(s)[2 * j + 1] == 0
  {
    AsciiUnits(s);
    forall j | 0 <= j < |s|
      ensures Utf16Le(s)[2 * j] == s[j] as int && Utf16Le(s)[2 * j + 1] == 0
    {
      LeBytesAt(Utf16Units(s), j);
    }
  }

  lemma {:induction false} AsciiUnits(s: string)
    requires IsAscii(s)
    ensures |Utf16Units(s)| == |s|
    ensures forall j :: 0 <= j < |s| ==> Utf16Units(s)[j] == s[j] as int
  {
    if s != [] {
      AsciiUnits(s[1..]);
      assert Utf16Units(s) == [s[0] as int] + Utf16Units(s[1..]);
    }
  }

  const MANUFACTURER_NAME: string := "Antoni Przybylik"
  const PRODUCT_NAME: string := "Bionik Hexapod PWM Gadget"
  const SERIAL_NUMBER: string := "0001"
  const CONFIG_HS_NAME: string := "High speed configuration"
  const CONFIG_LS_NAME: string := "Low speed configuration"
  const INTERFACE_NAME: string := "PWM control interface"

  /** The name each string identifier 1..6 stands for. */
  function StringName(id: u8): (name: string)
    requires STRINGID_MANUFACTURER <= id <= STRINGID_INTERFACE
    ensures 4 <= |name| <= 25
  {
    match id
    case 1 => MANUFACTURER_NAME
    case 2 => PRODUCT_NAME
    case 3 => SERIAL_NUMBER
    case 4 => CONFIG_HS_NAME
    case 5 => CONFIG_LS_NAME
    case 6 => INTERFACE_NAME
  }

  /** The string table: LANGID entry for 0, the names for 1..6, nothing
      else. Every entry is a descriptor of type STRING. */
  function GetString(id: u8): (r: Option<seq<u8>>)
    ensures r.Some? <==> id <= STRINGID_INTERFACE
    ensures r.Some? ==> |r.value| >= 2 && r.value[1] == USB_DT_STRING
  {
    if id == STRINGID_LANGID then Some([4, USB_DT_STRING, 0x09, 0x04])
    else if id <= STRINGID_INTERFACE then Some(MakeUsbString(StringName(id)))
    else None
  }

  /** Entry 0 is a well-formed descriptor whose one 16-bit LANGID, read
      little-endian, is 0x0409 (US English). */
  lemma LangIdEntry()
    ensures var v := GetString(STRINGID_LANGID).value;
      |v| == 4 && v[0] as int == |v| && v[1] == USB_DT_STRING && FromLe16(v[2], v[3]) == 0x0409
  {
  }

  predicate IsAscii(s: string) {
    forall i :: 0 <= i < |s| ==> (s[i] as int) < 0x80
  }

  /** The gadget's names are short ASCII strings. */
  lemma NamesAreAscii(id: u8)
    requires STRINGID_MANUFACTURER <= id <= STRINGID_INTERFACE
    ensures IsAscii(StringName(id)) && |StringName(id)| <= 126
  {
    match id
    case 1 => assert IsAscii(MANUFACTURER_NAME);
    case 2 => assert IsAscii(PRODUCT_NAME);
    case 3 => assert IsAscii(SERIAL_NUMBER);
    case 4 => assert IsAscii(CONFIG_HS_NAME);
    case 5 => assert IsAscii(CONFIG_LS_NAME);
    case 6 => assert IsAscii(INTERFACE_NAME);
  }

  /** Every named entry is a well-formed string descriptor: its length byte
      is its length, its type is STRING, and each character is one
      little-endian code unit with a zero high byte. */
  lemma NameEntryLayout(id: u8)
    requires STRINGID_MANUFACTURER <= id <= STRINGID_INTERFACE
    ensures GetString(id).Some?
    ensures var v, name := GetString(id).value, StringName(id);
      |v| == 2 + 2 * |name| && v[0] as int == |v| && v[1] == USB_DT_STRING &&
      forall j :: 0 <= j < |name| ==> v[2 + 2 * j] == name[j] as int && v[3 + 2 * j] == 0
  {
    var name := StringName(id);
    NamesAreAscii(id);
    AsciiUtf16Le(name);
    var v := MakeUsbString(name);
    forall j | 0 <= j < |name|
      ensures v[2 + 2 * j] == name[j] as int && v[3 + 2 * j] == 0
    {
      assert v[2 + 2 * j] == v[2..][2 * j];
      assert v[3 + 2 * j] == v[2..][2 * j + 1];
    }
  }

  /** A host reading any named entry gets the name back. */
  lemma StringTableReadsBack(id: u8)
    requires STRINGID_MANUFACTURER <= id <= STRINGID_INTERFACE
    ensures GetString(id).Some?
    ensures ParseStringDescriptor(GetString(id).value) == Some(StringName(id))
  {
    NamesAreAscii(id);
    AsciiUnits(StringName(id));
    MakeUsbStringParses(StringName(id));
  }
}
