/** The four fixed-layout USB 2.0 descriptors the gadget announces, each as a
    record with an explicit little-endian field-by-field serialiser (the
    source reinterprets the packed C structs as bytes instead) and a parser
    that reads the same layout back. */
module Descriptors {
  import opened UsbTypes

  /** Device descriptor, section 9.6.1 of USB 2.0 (18 bytes). */
  datatype DeviceDescriptor = DeviceDescriptor(
    bLength: u8, bDescriptorType: u8, bcdUSB: u16,
    bDeviceClass: u8, bDeviceSubClass: u8, bDeviceProtocol: u8, bMaxPacketSize0: u8,
    idVendor: u16, idProduct: u16, bcdDevice: u16,
    iManufacturer: u8, iProduct: u8, iSerialNumber: u8, bNumConfigurations: u8)

  /** Configuration descriptor, section 9.6.3 (9 bytes). */
  datatype ConfigDescriptor = ConfigDescriptor(
    bLength: u8, bDescriptorType: u8, wTotalLength: u16,
    bNumInterfaces: u8, bConfigurationValue: u8, iConfiguration: u8,
    bmAttributes: u8, bMaxPower: u8)

  /** Interface descriptor, section 9.6.5 (9 bytes). */
  datatype InterfaceDescriptor = InterfaceDescriptor(
    bLength: u8, bDescriptorType: u8, bInterfaceNumber: u8, bAlternateSetting: u8,
    bNumEndpoints: u8, bInterfaceClass: u8, bInterfaceSubClass: u8,
    bInterfaceProtocol: u8, iInterface: u8)

  /** Endpoint descriptor, section 9.6.6, as the kernel's record holds it: the
      7 standard bytes followed by the two audio-class extension bytes. */
  datatype EndpointDescriptor = EndpointDescriptor(
    bLength: u8, bDescriptorType: u8, bEndpointAddress: u8, bmAttributes: u8,
    wMaxPacketSize: u16, bInterval: u8, bRefresh: u8, bSynchAddress: u8)

  // String identifiers the descriptors refer to
  const STRINGID_LANGID: u8 := 0
  const STRINGID_MANUFACTURER: u8 := 1
  const STRINGID_PRODUCT: u8 := 2
  const STRINGID_SERIAL: u8 := 3
  const STRINGID_CONFIG_HS: u8 := 4
  const STRINGID_CONFIG_LS: u8 := 5
  const STRINGID_INTERFACE: u8 := 6

  /** The gadget's device descriptor: USB 2.0, communications class,
      pid.codes test vendor/product, one configuration. */
  const DEVICE_DESCRIPTOR := DeviceDescriptor(
    USB_DT_DEVICE_SIZE, USB_DT_DEVICE, 0x0200,
    USB_CLASS_COMM, 0, 0, 255,
    0x1209, 0x0001, 0x0100,
    STRINGID_MANUFACTURER, STRINGID_PRODUCT, STRINGID_SERIAL, 1)

  /** Template for every endpoint: OUT direction, bulk, 512-byte packets;
      the endpoint number is OR-ed into the address per endpoint. */
  const BASIC_EP_DESCRIPTOR := EndpointDescriptor(
    USB_DT_ENDPOINT_SIZE, USB_DT_ENDPOINT, USB_DIR_OUT, USB_ENDPOINT_XFER_BULK,
    512, 0, 0, 0)

  /** Template for the single interface; bNumEndpoints is set per call. */
  const IF_DESCRIPTOR := InterfaceDescriptor(
    USB_DT_INTERFACE_SIZE, USB_DT_INTERFACE, 0, 0, 0,
    USB_CLASS_COMM, 0, 0, STRINGID_INTERFACE)

  /** Low/full-speed configuration template; wTotalLength is computed per call. */
  const CONFIG := ConfigDescriptor(
    USB_DT_CONFIG_SIZE, USB_DT_CONFIG, 0, 1, 2, STRINGID_CONFIG_LS,
    0xC0, 1)

  /** High-speed configuration template; it differs from CONFIG only in its
      string identifier. */
  const CONFIG_HS := ConfigDescriptor(
    USB_DT_CONFIG_SIZE, USB_DT_CONFIG, 0, 1, 2, STRINGID_CONFIG_HS,
    0xC0, 1)

  /** The configuration attribute byte is "reserved one" plus "self-powered". */
  lemma ConfigAttributes()
    ensures CONFIG.bmAttributes == Or8(USB_CONFIG_ATT_ONE, USB_CONFIG_ATT_SELFPOWER)
    ensures CONFIG_HS.bmAttributes == CONFIG.bmAttributes
  {
    assert (0x80 as bv8) | (0x40 as bv8) == 0xC0;
  }

  // ---- Serialisers: fields in declaration order, 16-bit fields little-endian

  function DeviceBytes(d: DeviceDescriptor): (b: seq<u8>)
    ensures |b| == USB_DT_DEVICE_SIZE as int
  {
    [d.bLength, d.bDescriptorType, Lo(d.bcdUSB), Hi(d.bcdUSB),
     d.bDeviceClass, d.bDeviceSubClass, d.bDeviceProtocol, d.bMaxPacketSize0,
     Lo(d.idVendor), Hi(d.idVendor), Lo(d.idProduct), Hi(d.idProduct),
     Lo(d.bcdDevice), Hi(d.bcdDevice),
     d.iManufacturer, d.iProduct, d.iSerialNumber, d.bNumConfigurations]
  }

  function ConfigBytes(c: ConfigDescriptor): (b: seq<u8>)
    ensures |b| == USB_DT_CONFIG_SIZE as int
  {
    [c.bLength, c.bDescriptorType, Lo(c.wTotalLength), Hi(c.wTotalLength),
     c.bNumInterfaces, c.bConfigurationValue, c.iConfiguration, c.bmAttributes, c.bMaxPower]
  }

  function InterfaceBytes(i: InterfaceDescriptor): (b: seq<u8>)
    ensures |b| == USB_DT_INTERFACE_SIZE as int
  {
    [i.bLength, i.bDescriptorType, i.bInterfaceNumber, i.bAlternateSetting,
     i.bNumEndpoints, i.bInterfaceClass, i.bInterfaceSubClass, i.bInterfaceProtocol,
     i.iInterface]
  }

  /** The whole in-memory endpoint record, audio bytes included. */
  function EndpointRecordBytes(e: EndpointDescriptor): (b: seq<u8>)
    ensures |b| == USB_DT_ENDPOINT_AUDIO_SIZE
  {
    [e.bLength, e.bDescriptorType, e.bEndpointAddress, e.bmAttributes,
     Lo(e.wMaxPacketSize), Hi(e.wMaxPacketSize), e.bInterval, e.bRefresh, e.bSynchAddress]
  }

  /** The endpoint descriptor as it is sent: the record without its two
      trailing audio-extension bytes. */
  function EndpointBytes(e: EndpointDescriptor): (b: seq<u8>)
    ensures |b| == USB_DT_ENDPOINT_SIZE as int
  {
    var r := EndpointRecordBytes(e);
    r[..|r| - 2]
  }

  // ---- Parsers: the host's view of the same layouts

  function ParseDevice(b: seq<u8>): DeviceDescriptor
    requires |b| == USB_DT_DEVICE_SIZE as int
  {
    DeviceDescriptor(b[0], b[1], FromLe16(b[2], b[3]), b[4], b[5], b[6], b[7],
      FromLe16(b[8], b[9]), FromLe16(b[10], b[11]), FromLe16(b[12], b[13]),
      b[14], b[15], b[16], b[17])
  }

  function ParseConfig(b: seq<u8>): ConfigDescriptor
    requires |b| == USB_DT_CONFIG_SIZE as int
  {
    ConfigDescriptor(b[0], b[1], FromLe16(b[2], b[3]), b[4], b[5], b[6], b[7], b[8])
  }

  function ParseInterface(b: seq<u8>): InterfaceDescriptor
    requires |b| == USB_DT_INTERFACE_SIZE as int
  {
    InterfaceDescriptor(b[0], b[1], b[2], b[3], b[4], b[5], b[6], b[7], b[8])
  }

  /** Reads a 7-byte endpoint descriptor; the audio bytes are not on the wire
      and read as zero. */
  function ParseEndpoint(b: seq<u8>): EndpointDescriptor
    requires |b| == USB_DT_ENDPOINT_SIZE as int
  {
    EndpointDescriptor(b[0], b[1], b[2], b[3], FromLe16(b[4], b[5]), b[6], 0, 0)
  }

  // ---- Round trips: each serialiser is a bijection onto its byte strings

  lemma DeviceRoundTrip(d: DeviceDescriptor, b: seq<u8>)
    requires |b| == USB_DT_DEVICE_SIZE as int
    ensures ParseDevice(DeviceBytes(d)) == d
    ensures DeviceBytes(ParseDevice(b)) == b
  {
    Le16RoundTrip(d.bcdUSB, b[2], b[3]);
    Le16RoundTrip(d.idVendor, b[8], b[9]);
    Le16RoundTrip(d.idProduct, b[10], b[11]);
    Le16RoundTrip(d.bcdDevice, b[12], b[13]);
  }

  lemma ConfigRoundTrip(c: ConfigDescriptor, b: seq<u8>)
    requires |b| == USB_DT_CONFIG_SIZE as int
    ensures ParseConfig(ConfigBytes(c)) == c
    ensures ConfigBytes(ParseConfig(b)) == b
  {
    Le16RoundTrip(c.wTotalLength, b[2], b[3]);
  }

  lemma InterfaceRoundTrip(i: InterfaceDescriptor, b: seq<u8>)
    requires |b| == USB_DT_INTERFACE_SIZE as int
    ensures ParseInterface(InterfaceBytes(i)) == i
    ensures InterfaceBytes(ParseInterface(b)) == b
  {
  }

  /** Trimming loses exactly the audio bytes: an endpoint whose extension
      bytes are zero survives the trip, and every 7-byte string does. */
  lemma EndpointRoundTrip(e: EndpointDescriptor, b: seq<u8>)
    requires |b| == USB_DT_ENDPOINT_SIZE as int
    ensures ParseEndpoint(EndpointBytes(e)) == e.(bRefresh := 0, bSynchAddress := 0)
    ensures EndpointBytes(ParseEndpoint(b)) == b
  {
    Le16RoundTrip(e.wMaxPacketSize, b[4], b[5]);
  }

  /** The endpoint descriptor for 1-based endpoint number `n`: the template
      with address `USB_DIR_OUT | n`, which is `n` itself because the OUT
      direction bit is zero (the builders compute the OR; see
      `OrOutIsIdentity`). */
  function EndpointFor(n: u8): (e: EndpointDescriptor)
    ensures e.bEndpointAddress == n
    ensures e == BASIC_EP_DESCRIPTOR.(bEndpointAddress := e.bEndpointAddress)
  {
    BASIC_EP_DESCRIPTOR.(bEndpointAddress := n)
  }

  /** What every serialised endpoint descriptor of the gadget looks like. */
  lemma EndpointForBytes(n: u8)
    ensures EndpointBytes(EndpointFor(n)) == [7, USB_DT_ENDPOINT, n, USB_ENDPOINT_XFER_BULK, 0x00, 0x02, 0]
  {
  }

  /** wTotalLength for `epsCnt` endpoints: configuration, interface and the
      trimmed endpoint descriptors. It never overflows 16 bits for a u8 count. */
  function TotalLength(epsCnt: u8): (t: u16)
    ensures t as int == 9 + 9 + 7 * epsCnt as int
    ensures t <= 18 + 7 * 255
  {
    CONFIG.bLength as u16 + IF_DESCRIPTOR.bLength as u16 + BASIC_EP_DESCRIPTOR.bLength as u16 * epsCnt as u16
  }
}
