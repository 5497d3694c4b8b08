/** Fixed-width integers, little-endian 16-bit packing and the USB 2.0
    chapter 9 constants the gadget server uses (Tables 9-4 and 9-5 of the
    USB 2.0 specification, and the gadgetfs event codes). */
module UsbTypes {

  type u8 = x: int | 0 <= x < 0x100
  type u16 = x: int | 0 <= x < 0x1_0000
  type u32 = x: int | 0 <= x < 0x1_0000_0000

  datatype Option<+T> = None | Some(value: T)

  // Descriptor types (Table 9-5)
  const USB_DT_DEVICE: u8 := 1
  const USB_DT_CONFIG: u8 := 2
  const USB_DT_STRING: u8 := 3
  const USB_DT_INTERFACE: u8 := 4
  const USB_DT_ENDPOINT: u8 := 5

  // Serialised descriptor sizes (sections 9.6.1, 9.6.3, 9.6.5, 9.6.6)
  const USB_DT_DEVICE_SIZE: u8 := 18
  const USB_DT_CONFIG_SIZE: u8 := 9
  const USB_DT_INTERFACE_SIZE: u8 := 9
  const USB_DT_ENDPOINT_SIZE: u8 := 7
  /** In-memory size of the endpoint record, including the two audio bytes. */
  const USB_DT_ENDPOINT_AUDIO_SIZE: nat := 9

  // Standard request codes (Table 9-4)
  const USB_REQ_GET_DESCRIPTOR: u8 := 6
  const USB_REQ_SET_CONFIGURATION: u8 := 9
  const USB_REQ_GET_INTERFACE: u8 := 10
  const USB_REQ_SET_INTERFACE: u8 := 11

  // Direction bit of bmRequestType and bEndpointAddress
  const USB_DIR_OUT: u8 := 0
  const USB_DIR_IN: u8 := 0x80

  const USB_CLASS_COMM: u8 := 2
  const USB_ENDPOINT_XFER_BULK: u8 := 2
  const USB_CONFIG_ATT_ONE: u8 := 0x80
  const USB_CONFIG_ATT_SELFPOWER: u8 := 0x40

  // gadgetfs event types
  const GADGETFS_NOP: u32 := 0
  const GADGETFS_CONNECT: u32 := 1
  const GADGETFS_DISCONNECT: u32 := 2
  const GADGETFS_SETUP: u32 := 3
  const GADGETFS_SUSPEND: u32 := 4

  /** Low byte of a 16-bit value (`x as u8` in the source). */
  function Lo(x: u16): u8 { x % 0x100 }

  /** High byte of a 16-bit value (`(x >> 8) as u8`). */
  function Hi(x: u16): u8 { x / 0x100 }

  /** Reassembles a 16-bit value from its little-endian bytes. */
  function FromLe16(lo: u8, hi: u8): u16 {
    lo + 0x100 * hi
  }

  /** Splitting a 16-bit value into its bytes and reassembling it are
      inverse to each other. (Kept out of the functions' own contracts so
      that the division facts are only in scope where they are needed.) */
  lemma Le16RoundTrip(x: u16, lo: u8, hi: u8)
    ensures FromLe16(Lo(x), Hi(x)) == x
    ensures Lo(FromLe16(lo, hi)) == lo && Hi(FromLe16(lo, hi)) == hi
  {
  }

  /** Bitwise OR of two bytes, as `|` / `|=` on `u8`. */
  function Or8(a: u8, b: u8): u8 {
    ((a as bv8) | (b as bv8)) as u8
  }

  /** Bitwise AND of two bytes, as `&` on `u8`. */
  function And8(a: u8, b: u8): u8 {
    ((a as bv8) & (b as bv8)) as u8
  }

  /** OR with the OUT direction (zero) leaves an endpoint number unchanged. */
  lemma OrOutIsIdentity(n: u8)
    ensures Or8(USB_DIR_OUT, n) == n
  {
    assert (0 as bv8) | (n as bv8) == n as bv8;
  }

  /** The IN bit of a byte is set exactly when the byte is at least 0x80. */
  lemma AndInIsHighBit(t: u8)
    ensures And8(t, USB_DIR_IN) != 0 <==> t >= 0x80
  {
    var b := t as bv8;
    assert (b & 0x80 != 0) <==> b >= 0x80;
  }
}
