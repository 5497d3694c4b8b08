/** The two gadgetfs initialisation packages: the one written to the
    control file at start-up (`format_init_package`) and the one written to
    each endpoint file when it is enabled (`format_ep_init_package`). Each is
    specified by a function over the descriptor records, built by a method
    that appends to the package the way the source grows its vector, and
    described byte by byte by layout lemmas and by a parser. */
module InitPackage {
  import opened UsbTypes
  import opened Descriptors

  /** Tag that opens an endpoint-enable package (format version 1). */
  const EP_INIT_TAG: seq<u8> := [1, 0, 0, 0]
  /** Tag that opens the control-file initialisation package. */
  const INIT_TAG: seq<u8> := [0, 0, 0, 0]

  // ---------------------------------------------------------------------
  // Endpoint-enable package

  /** Tag, then the endpoint descriptor twice: once for full speed, once
      for high speed. */
  function EpInitPackage(epNum: u8): (p: seq<u8>)
    ensures |p| == |EP_INIT_TAG| + 2 * USB_DT_ENDPOINT_SIZE as int
  {
    EP_INIT_TAG + EndpointBytes(EndpointFor(epNum)) + EndpointBytes(EndpointFor(epNum))
  }

  method FormatEpInitPackage(epNum: u8) returns (package: seq<u8>)
    ensures package == EpInitPackage(epNum)
  {
    package := [];
    package := package + [1, 0, 0, 0];
    var ep := BASIC_EP_DESCRIPTOR.(bEndpointAddress := Or8(BASIC_EP_DESCRIPTOR.bEndpointAddress, epNum));
    OrOutIsIdentity(epNum);
    var rec := EndpointRecordBytes(ep);
    // the two audio-extension bytes are not copied
    package := package + rec[..|rec| - 2];
    package := package + rec[..|rec| - 2];
  }

  /** The enable package is 18 bytes: tag `[1,0,0,0]` and two identical
      descriptors for an OUT bulk endpoint with 512-byte packets whose
      address byte is the endpoint number. */
  lemma EpInitPackageLayout(n: u8)
    ensures |EpInitPackage(n)| == 4 + 2 * USB_DT_ENDPOINT_SIZE as int == 18
    ensures EpInitPackage(n)[..4] == [1, 0, 0, 0]
    ensures EpInitPackage(n)[4..11] == EpInitPackage(n)[11..18]
    ensures EpInitPackage(n)[4..11] == [USB_DT_ENDPOINT_SIZE, USB_DT_ENDPOINT, n, USB_ENDPOINT_XFER_BULK, 0x00, 0x02, 0]
    ensures EpInitPackage(n)[6] == Or8(USB_DIR_OUT, n) == n
    ensures ParseEndpoint(EpInitPackage(n)[4..11]).wMaxPacketSize == 512
  {
    var p := EpInitPackage(n);
    var e := EndpointBytes(EndpointFor(n));
    EndpointForBytes(n);
    OrOutIsIdentity(n);
    assert p == EP_INIT_TAG + e + e;
    assert p[4..11] == e;
    assert p[11..18] == e;
  }

  // ---------------------------------------------------------------------
  // Control-file initialisation package

  /** The interface descriptor announcing `epsCnt` endpoints. */
  function Interface(epsCnt: u8): (i: InterfaceDescriptor)
    ensures i.bNumEndpoints == epsCnt
    ensures i == IF_DESCRIPTOR.(bNumEndpoints := i.bNumEndpoints)
  {
    IF_DESCRIPTOR.(bNumEndpoints := epsCnt)
  }

  /** Full/low-speed configuration with its computed total length. */
  function ConfigLs(epsCnt: u8): (c: ConfigDescriptor)
    ensures c.wTotalLength as int == 9 + 9 + 7 * epsCnt as int
    ensures c == CONFIG.(wTotalLength := c.wTotalLength)
  {
    CONFIG.(wTotalLength := TotalLength(epsCnt))
  }

  /** High-speed configuration with its computed total length. */
  function ConfigHs(epsCnt: u8): (c: ConfigDescriptor)
    ensures c.wTotalLength as int == 9 + 9 + 7 * epsCnt as int
    ensures c == CONFIG_HS.(wTotalLength := c.wTotalLength)
  {
    CONFIG_HS.(wTotalLength := TotalLength(epsCnt))
  }

  /** Trimmed endpoint descriptors for endpoints 1..n, in ascending order. */
  function EndpointRun(n: u8): (r: seq<u8>)
    ensures |r| == 7 * n as int
    decreases n
  {
    if n == 0 then [] else EndpointRun(n - 1) + EndpointBytes(EndpointFor(n))
  }

  /** One speed's block: configuration, interface, endpoints; exactly as
      long as its wTotalLength field says. */
  function SpeedBlock(c: ConfigDescriptor, epsCnt: u8): (r: seq<u8>)
    ensures |r| == TotalLength(epsCnt) as int
  {
    ConfigBytes(c) + InterfaceBytes(Interface(epsCnt)) + EndpointRun(epsCnt)
  }

  /** Zero tag, full/low-speed block, high-speed block, device descriptor. */
  function InitPackage(epsCnt: u8): (r: seq<u8>)
    ensures |r| == 4 + 2 * (9 + 9 + 7 * epsCnt as int) + 18
  {
    INIT_TAG + SpeedBlock(ConfigLs(epsCnt), epsCnt) + SpeedBlock(ConfigHs(epsCnt), epsCnt)
    + DeviceBytes(DEVICE_DESCRIPTOR)
  }

  /** Appends the descriptors of endpoints 1..epsCnt, one per iteration of
      the source's `for i in 1..=eps_cnt`. */
  method AppendEndpoints(package: seq<u8>, epsCnt: u8) returns (package': seq<u8>)
    ensures package' == package + EndpointRun(epsCnt)
  {
    package' := package;
    for i := 1 to epsCnt as int + 1
      invariant package' == package + EndpointRun((i - 1) as u8)
    {
      var ep := BASIC_EP_DESCRIPTOR.(bEndpointAddress := Or8(BASIC_EP_DESCRIPTOR.bEndpointAddress, i as u8));
      var rec := EndpointRecordBytes(ep);
      AppendedEndpoint(package, i as u8, rec[..|rec| - 2]);
      package' := package' + rec[..|rec| - 2];
    }
  }

  /** One iteration appends endpoint `i`'s trimmed record: the run grows
      by one descriptor. */
  lemma AppendedEndpoint(package: seq<u8>, i: u8, trimmed: seq<u8>)
    requires i >= 1
    requires var rec := EndpointRecordBytes(BASIC_EP_DESCRIPTOR.(bEndpointAddress := Or8(BASIC_EP_DESCRIPTOR.bEndpointAddress, i)));
      trimmed == rec[..|rec| - 2]
    ensures package + EndpointRun(i - 1) + trimmed == package + EndpointRun(i)
  {
    OrOutIsIdentity(i);
    assert trimmed == EndpointBytes(EndpointFor(i));
    assert package + EndpointRun(i - 1) + trimmed == package + (EndpointRun(i - 1) + trimmed);
  }

  method FormatInitPackage(epsCnt: u8) returns (package: seq<u8>)
    ensures package == InitPackage(epsCnt)
  {
    var ifDescriptor := IF_DESCRIPTOR.(bNumEndpoints := epsCnt);
    var total := TotalLength(epsCnt);
    var config := CONFIG.(wTotalLength := total);
    var configHs := CONFIG_HS.(wTotalLength := total);

    package := [];
    package := package + [0, 0, 0, 0];
    package := package + ConfigBytes(config);
    package := package + InterfaceBytes(ifDescriptor);
    package := AppendEndpoints(package, epsCnt);
    package := package + ConfigBytes(configHs);
    package := package + InterfaceBytes(ifDescriptor);
    package := AppendEndpoints(package, epsCnt);
    package := package + DeviceBytes(DEVICE_DESCRIPTOR);
  }

  // ---------------------------------------------------------------------
  // Layout facts

  lemma Concat3Slices(a: seq<u8>, b: seq<u8>, c: seq<u8>)
    ensures (a + b + c)[..|a|] == a
    ensures (a + b + c)[|a|..|a| + |b|] == b
    ensures (a + b + c)[|a| + |b|..] == c
  {
    var s := a + b + c;
    assert s[..|a|] == a;
    assert s[|a|..|a| + |b|] == b;
    assert s[|a| + |b|..] == c;
  }

  lemma Concat4Slices(a: seq<u8>, b: seq<u8>, c: seq<u8>, d: seq<u8>)
    ensures (a + b + c + d)[..|a|] == a
    ensures (a + b + c + d)[|a|..|a| + |b|] == b
    ensures (a + b + c + d)[|a| + |b|..|a| + |b| + |c|] == c
    ensures (a + b + c + d)[|a| + |b| + |c|..] == d
  {
    Concat3Slices(a + b, c, d);
    Concat3Slices(a, b, c + d);
    var s := a + b + c + d;
    assert s[|a| + |b|..|a| + |b| + |c|] == (a + b + c)[|a| + |b|..];
    Concat3Slices(a, b, c);
  }

  lemma SubSlice(s: seq<u8>, a: int, b: int, lo: int, hi: int)
    requires 0 <= a <= b <= |s| && 0 <= lo <= hi <= b - a
    ensures s[a..b][lo..hi] == s[a + lo..a + hi]
  {
    assert forall k :: 0 <= k < hi - lo ==> s[a..b][lo..hi][k] == s[a + lo + k];
  }

  /** Where the fields the builder computes lie in a configuration and an
      interface descriptor. */
  lemma ComputedFieldOffsets(c: ConfigDescriptor, i: InterfaceDescriptor)
    ensures ConfigBytes(c)[2] == Lo(c.wTotalLength) && ConfigBytes(c)[3] == Hi(c.wTotalLength)
    ensures ConfigBytes(c)[6] == c.iConfiguration
    ensures InterfaceBytes(i)[4] == i.bNumEndpoints
  {
  }

  /** Endpoint `i` (1-based) occupies bytes 7(i-1) .. 7i of the run. */
  lemma {:induction false} EndpointRunAt(n: u8, i: int)
    requires 1 <= i <= n as int
    ensures EndpointRun(n)[7 * (i - 1) .. 7 * i] == EndpointBytes(EndpointFor(i as u8))
    decreases n
  {
    var prev := EndpointRun(n - 1);
    var last := EndpointBytes(EndpointFor(n));
    assert EndpointRun(n) == prev + last;
    if i < n as int {
      EndpointRunAt(n - 1, i);
      assert EndpointRun(n)[..|prev|] == prev;
      assert EndpointRun(n)[7 * (i - 1) .. 7 * i] == EndpointRun(n)[..|prev|][7 * (i - 1) .. 7 * i];
    } else {
      assert EndpointRun(n)[|prev|..] == last;
    }
  }

  /** The full/low-speed and high-speed blocks have the same length, and
      differ only in the iConfiguration byte (5 against 4). */
  lemma SpeedBlocksDiffer(n: u8)
    ensures |SpeedBlock(ConfigLs(n), n)| == |SpeedBlock(ConfigHs(n), n)|
    ensures SpeedBlock(ConfigLs(n), n)[6] == STRINGID_CONFIG_LS
    ensures SpeedBlock(ConfigHs(n), n)[6] == STRINGID_CONFIG_HS
    ensures forall j :: 0 <= j < |SpeedBlock(ConfigLs(n), n)| && j != 6 ==>
              SpeedBlock(ConfigLs(n), n)[j] == SpeedBlock(ConfigHs(n), n)[j]
  {
    var tail := InterfaceBytes(Interface(n)) + EndpointRun(n);
    var ls := ConfigBytes(ConfigLs(n));
    var hs := ConfigBytes(ConfigHs(n));
    assert SpeedBlock(ConfigLs(n), n) == ls + tail;
    assert SpeedBlock(ConfigHs(n), n) == hs + tail;
    ComputedFieldOffsets(ConfigLs(n), Interface(n));
    ComputedFieldOffsets(ConfigHs(n), Interface(n));
    forall j | 0 <= j < |SpeedBlock(ConfigLs(n), n)| && j != 6
      ensures SpeedBlock(ConfigLs(n), n)[j] == SpeedBlock(ConfigHs(n), n)[j]
    {
      if j < 9 {
        assert ls[j] == hs[j];
      }
    }
  }

  /** Where each descriptor of one speed block lies, the block starting at 0. */
  lemma SpeedBlockLayout(c: ConfigDescriptor, n: u8)
    ensures SpeedBlock(c, n)[..9] == ConfigBytes(c)
    ensures SpeedBlock(c, n)[9..18] == InterfaceBytes(Interface(n))
    ensures SpeedBlock(c, n)[18..] == EndpointRun(n)
  {
    Concat3Slices(ConfigBytes(c), InterfaceBytes(Interface(n)), EndpointRun(n));
  }

  /** The start-up package of `n` endpoints, piece by piece: zero tag, the
      full/low-speed block, the high-speed block, the device descriptor. */
  lemma InitPackageLayout(n: u8)
    ensures var t := TotalLength(n) as int;
      var p := InitPackage(n);
      && p[..4] == INIT_TAG
      && p[4..4 + t] == SpeedBlock(ConfigLs(n), n)
      && p[4 + t..4 + 2 * t] == SpeedBlock(ConfigHs(n), n)
      && p[4 + 2 * t..] == DeviceBytes(DEVICE_DESCRIPTOR)
  {
    Concat4Slices(INIT_TAG, SpeedBlock(ConfigLs(n), n), SpeedBlock(ConfigHs(n), n),
      DeviceBytes(DEVICE_DESCRIPTOR));
  }

  /** The fields the builder computes, at their absolute offsets: both
      wTotalLength fields are 9 + 9 + 7n in little-endian order, both
      interface descriptors announce n endpoints, and the iConfiguration
      bytes are 5 (full/low speed) and 4 (high speed). */
  lemma InitPackageComputedFields(n: u8)
    ensures var t := 9 + 9 + 7 * n as int;
      var p := InitPackage(n);
      && p[4 + 2] == t % 256 && p[4 + 3] == t / 256
      && p[4 + t + 2] == t % 256 && p[4 + t + 3] == t / 256
      && p[4 + 9 + 4] == n && p[4 + t + 9 + 4] == n
      && p[4 + 6] == STRINGID_CONFIG_LS && p[4 + t + 6] == STRINGID_CONFIG_HS
  {
    var t := TotalLength(n) as int;
    var p := InitPackage(n);
    var ls := SpeedBlock(ConfigLs(n), n);
    var hs := SpeedBlock(ConfigHs(n), n);
    InitPackageLayout(n);
    SpeedBlockLayout(ConfigLs(n), n);
    SpeedBlockLayout(ConfigHs(n), n);
    ComputedFieldOffsets(ConfigLs(n), Interface(n));
    ComputedFieldOffsets(ConfigHs(n), Interface(n));
    assert p[4 + 2] == ls[2] && p[4 + 3] == ls[3] && p[4 + 6] == ls[6] && p[4 + 9 + 4] == ls[9 + 4];
    assert ls[2] == ls[..9][2] && ls[3] == ls[..9][3] && ls[6] == ls[..9][6];
    assert ls[9 + 4] == ls[9..18][4];
    assert p[4 + t + 2] == hs[2] && p[4 + t + 3] == hs[3] && p[4 + t + 6] == hs[6] && p[4 + t + 9 + 4] == hs[9 + 4];
    assert hs[2] == hs[..9][2] && hs[3] == hs[..9][3] && hs[6] == hs[..9][6];
    assert hs[9 + 4] == hs[9..18][4];
  }

  /** Endpoint `i` (1-based) within one speed block. */
  lemma SpeedBlockEndpointAt(c: ConfigDescriptor, n: u8, i: int)
    requires 1 <= i <= n as int
    ensures SpeedBlock(c, n)[18 + 7 * (i - 1) .. 18 + 7 * i] == EndpointBytes(EndpointFor(i as u8))
  {
    var b := SpeedBlock(c, n);
    SpeedBlockLayout(c, n);
    EndpointRunAt(n, i);
    SubSlice(b, 18, |b|, 7 * (i - 1), 7 * i);
  }

  /** Endpoint `i` of a speed block that sits at offset `off` of `p`. */
  lemma EmbeddedEndpointAt(p: seq<u8>, off: int, c: ConfigDescriptor, n: u8, i: int)
    requires 1 <= i <= n as int
    requires 0 <= off && off + TotalLength(n) as int <= |p|
    requires p[off..off + TotalLength(n) as int] == SpeedBlock(c, n)
    ensures p[off + 18 + 7 * (i - 1) .. off + 18 + 7 * i] == EndpointBytes(EndpointFor(i as u8))
  {
    SpeedBlockEndpointAt(c, n, i);
    SubSlice(p, off, off + TotalLength(n) as int, 18 + 7 * (i - 1), 18 + 7 * i);
  }

  /** Endpoint descriptor `i` of each speed block, at its absolute offset:
      endpoints follow each interface in ascending order of address. */
  lemma InitPackageEndpointAt(n: u8, i: int)
    requires 1 <= i <= n as int
    ensures var t := 9 + 9 + 7 * n as int;
      && InitPackage(n)[4 + 18 + 7 * (i - 1) .. 4 + 18 + 7 * i] == EndpointBytes(EndpointFor(i as u8))
      && InitPackage(n)[4 + t + 18 + 7 * (i - 1) .. 4 + t + 18 + 7 * i] == EndpointBytes(EndpointFor(i as u8))
      && InitPackage(n)[4 + 18 + 7 * (i - 1) + 2] == i
  {
    InitPackageLayout(n);
    AssembledEndpointAt(InitPackage(n), n, i);
  }

  /** The same, for any byte string laid out as a start-up package. */
  lemma AssembledEndpointAt(p: seq<u8>, n: u8, i: int)
    requires 1 <= i <= n as int
    requires |p| == 4 + 2 * TotalLength(n) as int + 18
    requires p[4..4 + TotalLength(n) as int] == SpeedBlock(ConfigLs(n), n)
    requires p[4 + TotalLength(n) as int..4 + 2 * TotalLength(n) as int] == SpeedBlock(ConfigHs(n), n)
    ensures var t := 9 + 9 + 7 * n as int;
      && p[4 + 18 + 7 * (i - 1) .. 4 + 18 + 7 * i] == EndpointBytes(EndpointFor(i as u8))
      && p[4 + t + 18 + 7 * (i - 1) .. 4 + t + 18 + 7 * i] == EndpointBytes(EndpointFor(i as u8))
      && p[4 + 18 + 7 * (i - 1) + 2] == i
  {
    var t := TotalLength(n) as int;
    EmbeddedEndpointAt(p, 4, ConfigLs(n), n, i);
    EmbeddedEndpointAt(p, 4 + t, ConfigHs(n), n, i);
    EndpointForBytes(i as u8);
    assert p[4 + 18 + 7 * (i - 1) + 2] == p[4 + 18 + 7 * (i - 1) .. 4 + 18 + 7 * i][2];
  }

  /** The package for two endpoints, exactly, descriptor by descriptor. */
  lemma InitPackageTwoEndpoints()
    ensures InitPackage(2) ==
      [0, 0, 0, 0]
      + ([9, 2, 32, 0, 1, 2, 5, 0xC0, 1]
         + [9, 4, 0, 0, 2, 2, 0, 0, 6]
         + ([7, 5, 1, 2, 0x00, 0x02, 0]
            + [7, 5, 2, 2, 0x00, 0x02, 0]))
      + ([9, 2, 32, 0, 1, 2, 4, 0xC0, 1]
         + [9, 4, 0, 0, 2, 2, 0, 0, 6]
         + ([7, 5, 1, 2, 0x00, 0x02, 0]
            + [7, 5, 2, 2, 0x00, 0x02, 0]))
      + [18, 1, 0x00, 0x02, 2, 0, 0, 255, 0x09, 0x12, 0x01, 0x00, 0x00, 0x01, 1, 2, 3, 1]
  {
    assert TotalLength(2) == 32;
    EndpointForBytes(1);
    EndpointForBytes(2);
    assert EndpointRun(1) == EndpointRun(0) + EndpointBytes(EndpointFor(1));
    assert EndpointRun(1) == [7, 5, 1, 2, 0x00, 0x02, 0];
  }

  // ---------------------------------------------------------------------
  // Reading the package back: the descriptor set it announces

  datatype SpeedConfig = SpeedConfig(
    config: ConfigDescriptor, iface: InterfaceDescriptor, endpoints: seq<EndpointDescriptor>)

  datatype GadgetDescriptors = GadgetDescriptors(
    fullSpeed: SpeedConfig, highSpeed: SpeedConfig, device: DeviceDescriptor)

  /** Reads consecutive 7-byte endpoint descriptors, the last one last;
      bytes short of a whole descriptor at the front are ignored. */
  function ParseEndpoints(b: seq<u8>): (eps: seq<EndpointDescriptor>)
    ensures |eps| == |b| / 7
    decreases |b|
  {
    if |b| < 7 then []
    else ParseEndpoints(b[..|b| - 7]) + [ParseEndpoint(b[|b| - 7..])]
  }

  function ParseSpeedConfig(b: seq<u8>): SpeedConfig
    requires |b| >= 18
  {
    SpeedConfig(ParseConfig(b[..9]), ParseInterface(b[9..18]), ParseEndpoints(b[18..]))
  }

  /** Splits a start-up package the way its length fields say: the first
      configuration's wTotalLength gives both block sizes; the second must
      agree, and exactly a device descriptor must follow. */
  function ParseInitPackage(b: seq<u8>): Option<GadgetDescriptors> {
    if |b| < 13 || b[..4] != INIT_TAG then None
    else
      var t := FromLe16(b[6], b[7]) as int;
      if t < 18 || (t - 18) % 7 != 0 || |b| != 4 + 2 * t + USB_DT_DEVICE_SIZE as int then None
      else if FromLe16(b[4 + t + 2], b[4 + t + 3]) as int != t then None
      else Some(GadgetDescriptors(
        ParseSpeedConfig(b[4..4 + t]), ParseSpeedConfig(b[4 + t..4 + 2 * t]),
        ParseDevice(b[4 + 2 * t..])))
  }

  /** The descriptors of endpoints 1..n, in order. */
  function EndpointsUpTo(n: u8): (eps: seq<EndpointDescriptor>)
    ensures |eps| == n as int
    decreases n
  {
    if n == 0 then [] else EndpointsUpTo(n - 1) + [EndpointFor(n)]
  }

  /** Entry k of EndpointsUpTo(n) is endpoint k + 1. */
  lemma {:induction false} EndpointsUpToAt(n: u8, k: int)
    requires 0 <= k < n as int
    ensures EndpointsUpTo(n)[k] == EndpointFor((k + 1) as u8)
    decreases n
  {
    if k < n as int - 1 {
      EndpointsUpToAt(n - 1, k);
    }
  }

  /** Parsing one more trailing descriptor yields one more record. */
  lemma ParseEndpointsSnoc(prev: seq<u8>, last: seq<u8>)
    requires |prev| % 7 == 0 && |last| == 7
    ensures ParseEndpoints(prev + last) == ParseEndpoints(prev) + [ParseEndpoint(last)]
  {
    var r := prev + last;
    assert r[..|r| - 7] == prev;
    assert r[|r| - 7..] == last;
  }

  lemma {:induction false} ParseEndpointRun(n: u8)
    ensures ParseEndpoints(EndpointRun(n)) == EndpointsUpTo(n)
    decreases n
  {
    if n > 0 {
      ParseEndpointRun(n - 1);
      var last := EndpointBytes(EndpointFor(n));
      ParseEndpointsSnoc(EndpointRun(n - 1), last);
      EndpointRoundTrip(EndpointFor(n), last);
    }
  }

  lemma ParseSpeedBlock(c: ConfigDescriptor, n: u8)
    ensures ParseSpeedConfig(SpeedBlock(c, n)) == SpeedConfig(c, Interface(n), EndpointsUpTo(n))
  {
    SpeedBlockLayout(c, n);
    ParseEndpointRun(n);
    var b := SpeedBlock(c, n);
    ConfigRoundTrip(c, b[..9]);
    InterfaceRoundTrip(Interface(n), b[9..18]);
  }

  /** Reading the start-up package back yields the full/low-speed and
      high-speed configuration (each with its interface and endpoints 1..n
      in ascending order) and the device descriptor. */
  lemma InitPackageParses(n: u8)
    ensures ParseInitPackage(InitPackage(n)) == Some(GadgetDescriptors(
      SpeedConfig(ConfigLs(n), Interface(n), EndpointsUpTo(n)),
      SpeedConfig(ConfigHs(n), Interface(n), EndpointsUpTo(n)),
      DEVICE_DESCRIPTOR))
  {
    var t := TotalLength(n);
    InitPackageLayout(n);
    InitPackageComputedFields(n);
    Le16RoundTrip(t, 0, 0);
    ParseSpeedBlock(ConfigLs(n), n);
    ParseSpeedBlock(ConfigHs(n), n);
    DeviceRoundTrip(DEVICE_DESCRIPTOR, DeviceBytes(DEVICE_DESCRIPTOR));
    var p := InitPackage(n);
    MultipleOfSeven(n as int, t as int - 18);
    assert FromLe16(p[6], p[7]) == t;
    assert FromLe16(p[4 + t + 2], p[4 + t + 3]) == t;
    ParseAssembled(p, t as int, SpeedBlock(ConfigLs(n), n), SpeedBlock(ConfigHs(n), n),
      DeviceBytes(DEVICE_DESCRIPTOR));
  }

  lemma MultipleOfSeven(k: int, m: int)
    requires m == 7 * k
    ensures m % 7 == 0
  {
  }

  /** How the parser splits any byte string laid out as a start-up package
      whose two length fields both say `t`. */
  lemma ParseAssembled(p: seq<u8>, t: int, ls: seq<u8>, hs: seq<u8>, dev: seq<u8>)
    requires 18 <= t && (t - 18) % 7 == 0 && |p| == 4 + 2 * t + 18
    requires p[..4] == INIT_TAG && p[4..4 + t] == ls && p[4 + t..4 + 2 * t] == hs && p[4 + 2 * t..] == dev
    requires FromLe16(p[6], p[7]) as int == t && FromLe16(p[4 + t + 2], p[4 + t + 3]) as int == t
    ensures ParseInitPackage(p) == Some(GadgetDescriptors(ParseSpeedConfig(ls), ParseSpeedConfig(hs), ParseDevice(dev)))
  {
  }

  /** In what the package announces, the lengths and counts agree with what
      follows them: wTotalLength covers the configuration, the interface and
      every endpoint, bNumEndpoints is the number of endpoints, and the
      endpoint addresses are 1..n in ascending order. */
  lemma AnnouncedCountsAgree(n: u8)
    ensures ConfigLs(n).wTotalLength as int == ConfigHs(n).wTotalLength as int
            == USB_DT_CONFIG_SIZE as int + USB_DT_INTERFACE_SIZE as int + 7 * |EndpointsUpTo(n)|
    ensures Interface(n).bNumEndpoints as int == |EndpointsUpTo(n)|
    ensures forall k :: 0 <= k < n as int ==> EndpointsUpTo(n)[k].bEndpointAddress == k + 1
  {
    forall k | 0 <= k < n as int
      ensures EndpointsUpTo(n)[k].bEndpointAddress == k + 1
    {
      EndpointsUpToAt(n, k);
    }
  }
}
