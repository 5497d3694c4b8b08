# hpg-server core, modelled in Dafny

hpg-server is a gadgetfs USB gadget server. It makes a Linux board appear to a
USB host as a communications-class device, the "Bionik Hexapod PWM Gadget".
Each bulk OUT endpoint `n` of the gadget forwards what the host sends to the
`n`-th sink file given on the command line.

This project models the logic of `src/lib.rs` in seven modules:

- `UsbTypes`: fixed-width integers, the USB 2.0 chapter 9 constants the
  server uses (request codes from Table 9-4, descriptor types from Table 9-5,
  direction bits) and the gadgetfs event codes. It also holds the
  little-endian 16-bit packing and the byte OR/AND the source applies.
- `Descriptors`: the four fixed-layout descriptors of sections 9.6.1, 9.6.3,
  9.6.5 and 9.6.6 of USB 2.0. Each is a record with a field-by-field
  little-endian serialiser and a parser; both directions of every round trip
  are proved. This module also holds the descriptor templates of the source.
- `InitPackage`: two byte packages.
  - The endpoint-enable package that `init_ep` writes to an endpoint file.
  - The start-up package written to the control file: a zero tag, the
    full/low-speed configuration block, the high-speed block, and the device
    descriptor.

  Both are built by methods that append to a sequence the way the source
  grows its `Vec<u8>`, and each method is proved equal to a specification
  function. Lemmas give the byte layout: offsets, computed length fields, and
  endpoint order. A parser reads the whole package back as the descriptor set
  it announces.
- `StringTable`: UTF-16 encoding as in section 2.1 of RFC 2781 (`encode_utf16`),
  its little-endian byte form (`make_utf16le`, a loop), string descriptors
  (section 9.6.7 of USB 2.0, `make_usb_string`), and the seven-entry string
  table (`usb_gadget_get_string`). Decoding (section 2.2 of RFC 2781) is the
  partner of encoding. Entries 1..6 are proved to read back as their names,
  and entry 0 is proved to be the US English LANGID descriptor.
- `EndpointPath`: the endpoint device file name `/dev/gadget/ep<n>out`. The
  decimal formatter and its parser are proved inverse, so distinct endpoints
  never share a file.
- `Dispatcher`: `handle_setup_request`, as a function from the SETUP packet,
  the sink-file list and the kernel's answers to a sequence of effects.
  - Control-file writes; a zero-length read; endpoint opens and writes;
    worker spawns; panics.
  - `init_ep`, with its three endings.
  - The SET_CONFIGURATION endpoint loop, as a `while` method proved equal
    to its specification.
- `EventLoop`: the body of `server_loop`.
  - The event buffer is an `array` of five events.
  - Each read delivers whole events into the front of the buffer.
  - `ServeBatch` is the `for` loop with its `break`.
  - `ServerLoop` runs a finite history of reads. Each read is a byte count,
    the events it delivered, and the kernel's answers during that batch.

Behaviour of the code worth stating explicitly:

- An unknown string index in GET_DESCRIPTOR gets no answer at all, not even
  a stall (`src/lib.rs:321-326`).
- Every event type other than CONNECT, DISCONNECT and SETUP ends the batch:
  NOP, SUSPEND and unknown codes alike (`src/lib.rs:435`).
- The stall is a zero-length read when the IN bit of bRequestType is set,
  and a zero-length write otherwise (`src/lib.rs:382-387`).
- `init_ep` unwraps the result of opening the endpoint file, so an open
  error panics the server thread. It does not skip the endpoint
  (`src/lib.rs:235-240`). A non-positive descriptor or a failed enable-write
  does skip it.
- GET_DESCRIPTOR is answered only when bRequestType is exactly `0x80`, and
  SET_CONFIGURATION only when it is exactly `0`. GET_INTERFACE answers `[0]`
  in any direction.

Constants taken from USB 2.0, because the generated bindings are not part of
this model:
- request codes 6/9/10/11;
- descriptor types 1..5;
- `USB_DIR_IN` = 0x80 and `USB_DIR_OUT` = 0;
- communications class 2 and bulk transfer 2;
- configuration attributes 0x80 | 0x40.

The size of a gadgetfs event is 12 bytes: the 8-byte SETUP packet in the
union plus the 4-byte type. The model assumes a little-endian host, as the
`transmute` of the packed descriptor structs does.

## Model

| member | source | states |
|---|---|---|
| Descriptors.ConfigAttributes | src/lib.rs:76 | both configurations' attribute byte is "reserved one" OR "self-powered" (0xC0) |
| Descriptors.DeviceRoundTrip | src/lib.rs:22-38 | the 18-byte device descriptor serialisation and parse are inverse in both directions |
| Descriptors.ConfigRoundTrip | src/lib.rs:67-91 | the 9-byte configuration descriptor serialisation and parse are inverse in both directions |
| Descriptors.InterfaceRoundTrip | src/lib.rs:54-65 | the 9-byte interface descriptor serialisation and parse are inverse in both directions |
| Descriptors.EndpointRoundTrip | src/lib.rs:101-107 | trimming the endpoint record to 7 bytes loses exactly the two audio bytes; every 7-byte string survives parse-then-serialise |
| Descriptors.DeviceBytes | src/lib.rs:186-190 | the `transmute` of the packed device descriptor: 18 bytes, fields in declaration order, 16-bit fields little-endian; `DeviceRoundTrip` proves `ParseDevice` its inverse |
| Descriptors.ConfigBytes | src/lib.rs:140-142 | the `transmute` of a packed configuration descriptor (also lines 163-165): 9 bytes, wTotalLength little-endian; `ConfigRoundTrip` proves `ParseConfig` its inverse |
| Descriptors.InterfaceBytes | src/lib.rs:143-147 | the `transmute` of the packed interface descriptor (also lines 166-170): 9 bytes; `InterfaceRoundTrip` proves `ParseInterface` its inverse |
| Descriptors.EndpointRecordBytes | src/lib.rs:103-106 | the `transmute` of the whole in-memory endpoint record: 9 bytes, audio-extension bytes included |
| Descriptors.EndpointFor | src/lib.rs:98-99 | the cloned endpoint template with `bEndpointAddress \|= n` (also lines 150-151 and 173-174): address n, every other field the template's |
| Descriptors.EndpointBytes | src/lib.rs:101-107 | the endpoint descriptor on the wire is `USB_DT_ENDPOINT_SIZE` (7) bytes |
| Descriptors.EndpointForBytes | src/lib.rs:40-52 | an endpoint descriptor is `[7, ENDPOINT, n, BULK, 0x00, 0x02, 0]`: OUT, bulk, 512-byte packets little-endian |
| Descriptors.TotalLength | src/lib.rs:126-131 | wTotalLength is 9 + 9 + 7·n and fits in 16 bits for every u8 count |
| InitPackage.EpInitPackage | src/lib.rs:93-118 | the enable package for endpoint n: the tag and the endpoint descriptor twice, 4 + 2·7 bytes |
| InitPackage.FormatEpInitPackage | src/lib.rs:93-118 | the appending builder produces exactly the specified enable package |
| InitPackage.EpInitPackageLayout | src/lib.rs:93-118 | the enable package is 18 bytes: tag `[1,0,0,0]`, then two identical descriptors whose address byte is `OUT \| n` = n, bulk, wMaxPacketSize 512 |
| InitPackage.AppendEndpoints | src/lib.rs:149-161 | the `for i in 1..=eps_cnt` loop appends exactly the descriptors of endpoints 1..n in order |
| InitPackage.FormatInitPackage | src/lib.rs:120-192 | the appending builder produces exactly the specified start-up package |
| InitPackage.Interface | src/lib.rs:121-125 | the cloned interface template with bNumEndpoints set to n, every other field the template's |
| InitPackage.ConfigLs | src/lib.rs:122-128 | the cloned full/low-speed configuration with wTotalLength 9 + 9 + 7n, every other field the template's |
| InitPackage.ConfigHs | src/lib.rs:123-131 | the cloned high-speed configuration with wTotalLength 9 + 9 + 7n, every other field the template's |
| InitPackage.InitPackage | src/lib.rs:133-137 | the start-up package is 4 + 2·(9 + 9 + 7n) + 18 bytes long |
| InitPackage.InitPackageLayout | src/lib.rs:139-190 | the package is the zero tag, the low-speed block, the high-speed block and the device descriptor, at offsets 0, 4, 4 + t and 4 + 2t |
| InitPackage.InitPackageComputedFields | src/lib.rs:120-131 | both wTotalLength fields hold 9 + 9 + 7n little-endian, both interfaces announce n endpoints, and iConfiguration is 5 and 4 |
| InitPackage.SpeedBlocksDiffer | src/lib.rs:67-91 | the two speed blocks have the same length and differ only at byte 6 (iConfiguration 5 against 4) |
| InitPackage.EndpointRunAt | src/lib.rs:149-161 | endpoint i occupies bytes 7(i-1)..7i of the endpoint run |
| InitPackage.InitPackageEndpointAt | src/lib.rs:149-184 | in both blocks endpoint i sits at its absolute offset after the interface, with address byte i, so the addresses ascend |
| InitPackage.InitPackageTwoEndpoints | src/lib.rs:120-192 | the package for two endpoints, byte for byte |
| InitPackage.InitPackageParses | src/lib.rs:120-192 | reading the start-up package back gives both configurations, their interface, endpoints 1..n in order, and the device descriptor |
| InitPackage.AnnouncedCountsAgree | src/lib.rs:125-131 | wTotalLength covers configuration, interface and every endpoint; bNumEndpoints is the endpoint count; addresses are 1..n |
| StringTable.CharUnits | src/lib.rs:271 | one or two UTF-16 code units per character, one exactly below U+10000 |
| StringTable.Utf16Units | src/lib.rs:271 | `encode_utf16` of a string of k characters has between k and 2k code units |
| StringTable.Utf16RoundTrip | src/lib.rs:271 | decoding UTF-16 undoes `encode_utf16` for every string |
| StringTable.LeBytesRoundTrip | src/lib.rs:271-274 | pairing the bytes back up gives the code units |
| StringTable.LeBytesAt | src/lib.rs:272-273 | byte 2j is the low byte and byte 2j+1 the high byte of unit j |
| StringTable.MakeUtf16Le | src/lib.rs:268-277 | the push loop yields the little-endian code units: 2k bytes, low byte then high byte for each unit |
| StringTable.Utf16LeRoundTrip | src/lib.rs:268-277 | decoding the UTF-16LE bytes gives the string back |
| StringTable.UsbStringLength | src/lib.rs:283 | the length byte is the payload length + 2 whenever that fits in a byte |
| StringTable.MakeUsbString | src/lib.rs:279-288 | a string descriptor has 2 + 2k bytes, type STRING, the UTF-16LE payload, and its own length in byte 0 when that fits |
| StringTable.MakeUsbStringParses | src/lib.rs:279-288 | a descriptor that fits its length byte reads back as its string |
| StringTable.AsciiUtf16Le | src/lib.rs:268-277 | an ASCII string is encoded as (c, 0) byte pairs |
| StringTable.GetString | src/lib.rs:290-301 | the string table: an entry exactly for identifiers 0..6, each a descriptor of type STRING (entry 0 the LANGID list, entries 1..6 the names) |
| StringTable.LangIdEntry | src/lib.rs:292 | entry 0 is the 4-byte descriptor whose LANGID is 0x0409 |
| StringTable.StringName | src/lib.rs:293-298 | the name literal each identifier 1..6 stands for, 4 to 25 characters long |
| StringTable.NamesAreAscii | src/lib.rs:293-298 | the six names are ASCII and short enough for a length byte |
| StringTable.NameEntryLayout | src/lib.rs:293-298 | entries 1..6 are well-formed descriptors of their names: correct length byte, type STRING, (c, 0) pairs |
| StringTable.StringTableReadsBack | src/lib.rs:293-298 | a host reading entry 1..6 gets its name back |
| EndpointPath.Decimal | src/lib.rs:234 | `{}` formatting of the number is a canonical decimal numeral (digits only, no leading zero) |
| EndpointPath.DecimalRoundTrip | src/lib.rs:234 | formatting and parsing numerals are inverse in both directions |
| EndpointPath.EpPath | src/lib.rs:234 | the endpoint file name: the fixed prefix and suffix around the endpoint number's 1 to 3 digits, 18 to 20 characters |
| EndpointPath.EpPathRoundTrip | src/lib.rs:234 | the endpoint file name `/dev/gadget/ep<n>out` parses back to n |
| EndpointPath.EpPathInjective | src/lib.rs:234 | two endpoints share a file name exactly when they are the same endpoint |
| Dispatcher.InitEp | src/lib.rs:233-266 | open first; panic exactly on an open error; a non-positive descriptor ends it after the open, with no write; ready exactly when the descriptor is positive and the enable-write succeeds, and then on that descriptor |
| Dispatcher.InitEpTargetsItsEndpoint | src/lib.rs:233-266 | an opened endpoint's file names that endpoint, and the package written to it carries its address |
| Dispatcher.EpNumber | src/lib.rs:342 | file position i gets endpoint number i + 1 for every position below 255 |
| Dispatcher.ConfigureFrom | src/lib.rs:341-354 | the endpoint loop from position i: initialise each endpoint in order, spawn a worker for each ready one, stop at a panic; it has effects exactly when a position is left |
| Dispatcher.ConfigureEndpoints | src/lib.rs:340-355 | the `enumerate` loop produces exactly the specified effects, stopping at a panic |
| Dispatcher.ConfigureSpawns | src/lib.rs:340-355 | before the first failed open, workers are spawned for exactly the ready positions, in position order |
| Dispatcher.ConfigurePanics | src/lib.rs:235-240 | the endpoint loop panics exactly when some endpoint file fails to open |
| Dispatcher.ConfigurePanicIsLast | src/lib.rs:235-240 | a panic is the last effect of the loop and occurs once |
| Dispatcher.ExpectedSpawnsMember | src/lib.rs:340-355 | a worker is spawned exactly for a ready position, with that position's endpoint number, descriptor and file |
| Dispatcher.ExpectedSpawnsAscend | src/lib.rs:340-355 | with fewer than 255 files, the workers' endpoint numbers lie in 1..\|files\| and strictly ascend |
| Dispatcher.StallEffect | src/lib.rs:382-387 | the stall is a zero-length read exactly when the IN bit is set, otherwise a zero-length write |
| Dispatcher.GetStringDescriptor | src/lib.rs:305-327 | a standard IN string request writes exactly the table entry of the low byte of wValue; an unknown index gets no answer and no stall |
| Dispatcher.GetOtherDescriptorStalls | src/lib.rs:305-333 | other descriptor types, and any other bRequestType, are stalled |
| Dispatcher.HandleSetupRequest | src/lib.rs:303-388 | the dispatcher: the effects of one control request; only SET_CONFIGURATION 2 has more than one effect |
| Dispatcher.OnlyUnknownStringsGoUnanswered | src/lib.rs:303-388 | a request gets no answer, stall or panic exactly when it is a standard IN string request for an index outside 0..6 |
| Dispatcher.DescriptorSelector | src/lib.rs:307-326 | `GetStringDescriptor` restated for a wValue built as the host builds it, type STRING in the high byte and index i in the low byte: the answer is exactly table entry i, or nothing when the table lacks i |
| Dispatcher.SetConfigurationTwo | src/lib.rs:334-365 | configuration 2 spawns the expected workers, then ends with the status read, its only occurrence, when no open fails; otherwise it ends with the panic; it never writes on the control file |
| Dispatcher.SetConfigurationOtherValues | src/lib.rs:334-369 | configuration 0 panics; any other value except 2 gives only the status read; a wrong direction is stalled |
| Dispatcher.SetConfigurationWrongDirectionStalls | src/lib.rs:366-369 | SET_CONFIGURATION with bRequestType other than 0 is stalled |
| Dispatcher.GetInterfaceAnswersZero | src/lib.rs:370-374 | GET_INTERFACE always writes the single byte 0 |
| Dispatcher.SetInterfacePanics | src/lib.rs:375-378 | SET_INTERFACE panics |
| Dispatcher.OtherRequestsStall | src/lib.rs:379-387 | any other request code is stalled, with a read exactly when bRequestType ≥ 0x80 |
| Dispatcher.OnlySetConfigurationTwoTouchesEndpoints | src/lib.rs:303-388 | only SET_CONFIGURATION 2 opens, writes or spawns anything on endpoints |
| EventLoop.EventCount | src/lib.rs:419-421 | the number of whole events in a read: a partial event is dropped, and at most 5 fit in the 60 bytes read |
| EventLoop.BatchFrom | src/lib.rs:423-436 | the batch walk from slot i: dispatch SETUP events, skip connection events, stop at any other type or at a panic; its properties are the batch lemmas below |
| EventLoop.ServeBatch | src/lib.rs:423-436 | the `for` loop over the buffer produces exactly the specified batch effects |
| EventLoop.Deliver | src/lib.rs:403-409 | a read fills the front of the buffer with the delivered events and leaves the other slots as they were |
| EventLoop.LoopFrom | src/lib.rs:400-437 | the loop from read k: it ends with ReadFailed only if some later read failed, and runs out of reads only if none did |
| EventLoop.LoopStep | src/lib.rs:403-437 | the one-step unfolding of `LoopFrom`, a proof helper: a failed read ends the loop with no effect; a good read serves its batch and goes on unless the batch panicked |
| EventLoop.ServerLoop | src/lib.rs:390-437 | the loop over a history of reads produces exactly the specified effects and outcome |
| EventLoop.BatchStopsAtUnhandled | src/lib.rs:435 | events after one of a type other than CONNECT, DISCONNECT and SETUP are never visited |
| EventLoop.NoSetupNoEffects | src/lib.rs:424-434 | a batch without SETUP events has no effects |
| EventLoop.HandledBatchDispatchesSetups | src/lib.rs:423-436 | a batch of handled events is the dispatch of its SETUP events in slot order, up to a panic |
| EventLoop.BatchPanicIsLast | src/lib.rs:423-436 | a panic is the last effect of a batch |
| EventLoop.HandlerPanicIsLast | src/lib.rs:303-388 | a dispatcher answer that panics ends with the panic |
| EventLoop.LoopStopsAtFailedRead | src/lib.rs:410-416 | the loop ends at the first failed read: nothing after it is ever read |
| EventLoop.LoopPanicIsLast | src/lib.rs:390-437 | the loop ends in a panic exactly when its effects contain one, and the panic is the last of them |

## Left out

- `src/main.rs` (argument parsing, process exit) is not part of this model.
- The layout of the generated bindings is not part of this model. The
  descriptor sizes and constants come from USB 2.0, and the event codes 0–4
  come from the gadgetfs header.
- `start_server` is not modelled: checking the control file, opening it,
  writing the start-up package, and exiting on failure are all system calls
  and glue. The package it writes is modelled, as `FormatInitPackage`.
- `ep_io_thread` is not modelled. It is concurrent I/O forwarding from an
  endpoint to its sink file; its start is modelled as the `Spawn` effect.
- `read`, `write`, `open` and `thread::spawn` are not executed. They
  become effects, and their results are inputs: per file position for
  endpoint set-up, and per read and event slot in the loop.
- `poll` is not modelled at all: no effect or input stands for it. The
  source calls it with a zero timeout before every read and unwraps its
  result (`src/lib.rs:401`), so the server thread's panic on a failed
  `poll` is not captured either.
- All `println!`/`eprintln!` logging is left out. The `transmute` of packed
  structs is replaced by explicit little-endian serialisation, and the event
  union by a record of the type and the SETUP packet.
- ServerLoop: models a finite history of reads; the source loops until a read
  fails or a panic. A read returning more than the 60 bytes asked for is
  excluded by `ValidRead`, as read(2) guarantees.
- UsbStringLength: models `len as u8 + 2` with release-build wrap-around of
  the `+ 2`. The `as u8` cast truncates in every build; a debug build would
  instead panic on the `+ 2` when the payload length is 254 or 255 modulo
  256 (for the always even payload: 254, 510, 766, … bytes). The gadget's
  own names are all far shorter.
- A panic is modelled as the last effect of the server thread. What the rest
  of the process does afterwards is not modelled.
- The contents of `wIndex` and `wLength` are carried but never inspected,
  as in the source.
