/** The control-request dispatcher `handle_setup_request`: the standard
    requests of section 9.4 of USB 2.0 that the gadget answers on endpoint
    0, and the endpoint set-up that SET_CONFIGURATION 2 triggers. The
    system calls it makes become a sequence of effects; what the kernel
    answers to the endpoint calls is an input. */
module Dispatcher {
  import opened UsbTypes
  import opened Descriptors
  import opened InitPackage
  import opened StringTable
  import opened EndpointPath

  /** The 8-byte SETUP packet of section 9.3 of USB 2.0. */
  datatype SetupRequest = SetupRequest(
    bRequestType: u8, bRequest: u8, wValue: u16, wIndex: u16, wLength: u16)

  /** What opening an endpoint file gives: an error (which the source
      unwraps, so it panics) or a descriptor number. */
  datatype OpenResult = OpenFailed | Opened(fd: int)

  /** The kernel's answers while one endpoint is initialised: the open, and
      the byte count (negative on error) of the enable-package write. */
  datatype EpSyscalls = EpSyscalls(open: OpenResult, written: int)

  /** One observable action of the dispatcher, in the order it happens. */
  datatype Effect =
    | Ep0Write(data: seq<u8>)          // write on the control file
    | Ep0ZeroRead                      // zero-length read on the control file
    | EpOpen(path: string)             // open of an endpoint file
    | EpWrite(fd: int, data: seq<u8>)  // write on an endpoint file
    | Spawn(ep: u8, fd: int, file: string) // start of a forwarding worker
    | Panic                            // the server thread panics

  /** How `init_ep` ends. */
  datatype InitOutcome = InitPanicked | InitSkipped | InitReady(fd: int)

  /** `init_ep(n)`: open the endpoint file (panicking on an error), give up
      on a non-positive descriptor, write the enable package, and give up
      if that write fails. */
  function InitEp(n: u8, s: EpSyscalls): (r: (seq<Effect>, InitOutcome))
    ensures r.1 == InitPanicked <==> s.open == OpenFailed
    ensures r.1.InitReady? <==> s.open.Opened? && s.open.fd > 0 && s.written >= 0
    ensures r.1.InitReady? ==> r.1.fd == s.open.fd
    ensures s.open.Opened? && s.open.fd <= 0 ==> r.0 == [EpOpen(EpPath(n))]
    ensures |r.0| >= 1 && r.0[0] == EpOpen(EpPath(n))
    ensures forall k :: 1 <= k < |r.0| ==>
      r.0[k] == Panic || (s.open.Opened? && r.0[k] == EpWrite(s.open.fd, EpInitPackage(n)))
    ensures Panic in r.0 <==> r.1 == InitPanicked
  {
    var open := EpOpen(EpPath(n));
    match s.open
    case OpenFailed => ([open, Panic], InitPanicked)
    case Opened(fd) =>
      if fd <= 0 then ([open], InitSkipped)
      else if s.written < 0 then ([open, EpWrite(fd, EpInitPackage(n))], InitSkipped)
      else ([open, EpWrite(fd, EpInitPackage(n))], InitReady(fd))
  }

  /** `(i+1) as u8`: the endpoint number of file position `i`, wrapping
      after 255. */
  function EpNumber(i: nat): (n: u8)
    ensures i < 0xFF ==> n as int == i + 1
  {
    (i + 1) % 0x100
  }

  /** The system-call answers are given per file position: `sys(i)` is
      what the kernel answers while position `i` is initialised. */
  type EpOracle = nat -> EpSyscalls

  /** Initialises the endpoints for file positions `i..` in order, spawning
      a worker for each one that is ready, until a panic. */
  function ConfigureFrom(files: seq<string>, sys: EpOracle, i: nat): (r: seq<Effect>)
    requires i <= |files|
    ensures r == [] <==> i == |files|
    decreases |files| - i
  {
    if i == |files| then []
    else
      var n := EpNumber(i);
      var (effs, out) := InitEp(n, sys(i));
      match out
      case InitPanicked => effs
      case InitSkipped => effs + ConfigureFrom(files, sys, i + 1)
      case InitReady(fd) => effs + [Spawn(n, fd, files[i])] + ConfigureFrom(files, sys, i + 1)
  }

  /** The `for (i, filename) in files.into_iter().enumerate()` loop. */
  method ConfigureEndpoints(files: seq<string>, sys: EpOracle) returns (effects: seq<Effect>)
    ensures effects == ConfigureFrom(files, sys, 0)
  {
    effects := [];
    var i := 0;
    while i < |files|
      invariant 0 <= i <= |files|
      invariant effects + ConfigureFrom(files, sys, i) == ConfigureFrom(files, sys, 0)
    {
      ConfigureStep(files, sys, i);
      var n := EpNumber(i);
      var (effs, out) := InitEp(n, sys(i));
      match out {
        case InitPanicked =>
          effects := effects + effs;
          return;
        case InitSkipped =>
          effects := effects + effs;
        case InitReady(fd) =>
          effects := effects + effs + [Spawn(n, fd, files[i])];
      }
      i := i + 1;
    }
  }

  /** The stall that ends an unhandled request: a zero-length read when the
      IN bit of bRequestType is set, a zero-length write otherwise. */
  function StallEffect(requestType: u8): (e: Effect)
    ensures e == Ep0ZeroRead <==> requestType >= 0x80
    ensures e != Ep0ZeroRead ==> e == Ep0Write([])
  {
    AndInIsHighBit(requestType);
    if And8(requestType, USB_DIR_IN) != 0 then Ep0ZeroRead else Ep0Write([])
  }

  /** The full dispatcher. Every request but SET_CONFIGURATION 2 has at
      most one effect. */
  function HandleSetupRequest(setup: SetupRequest, files: seq<string>, sys: EpOracle): (r: seq<Effect>)
    ensures |r| > 1 ==>
      (setup.bRequest == USB_REQ_SET_CONFIGURATION && setup.bRequestType == USB_DIR_OUT && setup.wValue == 2)
  {
    var stall := [StallEffect(setup.bRequestType)];
    if setup.bRequest == USB_REQ_GET_DESCRIPTOR then
      if setup.bRequestType == USB_DIR_IN && Hi(setup.wValue) == USB_DT_STRING then
        match GetString(Lo(setup.wValue))
        case Some(s) => [Ep0Write(s)]
        case None => []
      else stall
    else if setup.bRequest == USB_REQ_SET_CONFIGURATION then
      if setup.bRequestType == USB_DIR_OUT then
        if setup.wValue == 2 then
          var c := ConfigureFrom(files, sys, 0);
          if Panic in c then c else c + [Ep0ZeroRead]
        else if setup.wValue == 0 then [Panic]
        else [Ep0ZeroRead]
      else stall
    else if setup.bRequest == USB_REQ_GET_INTERFACE then [Ep0Write([0])]
    else if setup.bRequest == USB_REQ_SET_INTERFACE then [Panic]
    else stall
  }

  /** Every request gets an answer, a stall or a panic, except a string
      request for an index the table lacks. */
  lemma OnlyUnknownStringsGoUnanswered(setup: SetupRequest, files: seq<string>, sys: EpOracle)
    ensures HandleSetupRequest(setup, files, sys) == [] <==>
      setup.bRequest == USB_REQ_GET_DESCRIPTOR && setup.bRequestType == USB_DIR_IN &&
      Hi(setup.wValue) == USB_DT_STRING && Lo(setup.wValue) > STRINGID_INTERFACE
  {
  }

  // ---------------------------------------------------------------------
  // GET_DESCRIPTOR (section 9.4.3)

  /** A device-to-host request for a string descriptor writes the table
      entry for the low byte of wValue and nothing else; an unknown index
      gets no answer at all, not even a stall. */
  lemma GetStringDescriptor(setup: SetupRequest, files: seq<string>, sys: EpOracle)
    requires setup.bRequest == USB_REQ_GET_DESCRIPTOR && setup.bRequestType == USB_DIR_IN
    requires Hi(setup.wValue) == USB_DT_STRING
    ensures Lo(setup.wValue) <= STRINGID_INTERFACE ==>
      HandleSetupRequest(setup, files, sys) == [Ep0Write(GetString(Lo(setup.wValue)).value)]
    ensures Lo(setup.wValue) > STRINGID_INTERFACE ==> HandleSetupRequest(setup, files, sys) == []
  {
  }

  /** Any other descriptor type, or a GET_DESCRIPTOR whose bRequestType is
      not exactly "standard, device, IN", is stalled. */
  lemma GetOtherDescriptorStalls(setup: SetupRequest, files: seq<string>, sys: EpOracle)
    requires setup.bRequest == USB_REQ_GET_DESCRIPTOR
    requires setup.bRequestType != USB_DIR_IN || Hi(setup.wValue) != USB_DT_STRING
    ensures HandleSetupRequest(setup, files, sys) == [StallEffect(setup.bRequestType)]
  {
  }

  /** A host asking for string `index` puts the descriptor type in the high
      byte of wValue and the index in the low byte (section 9.4.3); the
      dispatcher answers with exactly that table entry, or not at all. */
  lemma DescriptorSelector(setup: SetupRequest, index: u8, files: seq<string>, sys: EpOracle)
    requires setup.bRequest == USB_REQ_GET_DESCRIPTOR && setup.bRequestType == USB_DIR_IN
    requires setup.wValue == FromLe16(index, USB_DT_STRING)
    ensures index <= STRINGID_INTERFACE ==>
      HandleSetupRequest(setup, files, sys) == [Ep0Write(GetString(index).value)]
    ensures index > STRINGID_INTERFACE ==> HandleSetupRequest(setup, files, sys) == []
  {
    assert Lo(setup.wValue) == index && Hi(setup.wValue) == USB_DT_STRING by {
      Le16RoundTrip(0, index, USB_DT_STRING);
    }
    GetStringDescriptor(setup, files, sys);
  }

  // ---------------------------------------------------------------------
  // SET_CONFIGURATION (section 9.4.7)

  /** Configuration 0 panics, a configuration other than 0 and 2 does
      nothing but the status-stage read, and a request that is not exactly
      "standard, device, OUT" is stalled. */
  lemma SetConfigurationOtherValues(setup: SetupRequest, files: seq<string>, sys: EpOracle)
    requires setup.bRequest == USB_REQ_SET_CONFIGURATION && setup.wValue != 2
    ensures setup.bRequestType == USB_DIR_OUT && setup.wValue == 0 ==> HandleSetupRequest(setup, files, sys) == [Panic]
    ensures setup.bRequestType == USB_DIR_OUT && setup.wValue != 0 ==> HandleSetupRequest(setup, files, sys) == [Ep0ZeroRead]
    ensures setup.bRequestType != USB_DIR_OUT ==> HandleSetupRequest(setup, files, sys) == [StallEffect(setup.bRequestType)]
  {
  }

  lemma SetConfigurationWrongDirectionStalls(setup: SetupRequest, files: seq<string>, sys: EpOracle)
    requires setup.bRequest == USB_REQ_SET_CONFIGURATION && setup.bRequestType != USB_DIR_OUT
    ensures HandleSetupRequest(setup, files, sys) == [StallEffect(setup.bRequestType)]
  {
  }

  /** Whether the kernel lets position `i`'s endpoint be used. */
  predicate Ready(s: EpSyscalls) {
    s.open.Opened? && s.open.fd > 0 && s.written >= 0
  }

  /** The worker position `i` gets, if it is ready. */
  function StepSpawn(files: seq<string>, sys: EpOracle, i: nat): seq<Effect>
    requires i < |files|
  {
    if Ready(sys(i)) then [Spawn(EpNumber(i), sys(i).open.fd, files[i])] else []
  }

  /** One step of the configuration loop: position `i`'s set-up, its
      worker, and, unless it panicked, the remaining positions. */
  lemma ConfigureStep(files: seq<string>, sys: EpOracle, i: nat)
    requires i < |files|
    ensures sys(i).open == OpenFailed ==> ConfigureFrom(files, sys, i) == InitEp(EpNumber(i), sys(i)).0
    ensures sys(i).open != OpenFailed ==>
      ConfigureFrom(files, sys, i) == InitEp(EpNumber(i), sys(i)).0 + StepSpawn(files, sys, i) + ConfigureFrom(files, sys, i + 1)
  {
  }

  /** Reference definition of the workers started for positions `i..end`:
      one per ready position, in position order. */
  function ExpectedSpawns(files: seq<string>, sys: EpOracle, i: nat, end: nat): seq<Effect>
    requires i <= end <= |files|
    decreases end - i
  {
    if i == end then [] else StepSpawn(files, sys, i) + ExpectedSpawns(files, sys, i + 1, end)
  }

  /** The spawn effects of an effect sequence, in order. */
  function Spawns(effs: seq<Effect>): (r: seq<Effect>)
    ensures forall k :: 0 <= k < |r| ==> r[k].Spawn?
  {
    if effs == [] then []
    else (if effs[0].Spawn? then [effs[0]] else []) + Spawns(effs[1..])
  }

  lemma {:induction false} SpawnsAppend(a: seq<Effect>, b: seq<Effect>)
    ensures Spawns(a + b) == Spawns(a) + Spawns(b)
  {
    if a == [] {
      assert a + b == b;
    } else {
      assert (a + b)[0] == a[0];
      assert (a + b)[1..] == a[1..] + b;
      SpawnsAppend(a[1..], b);
      var h := if a[0].Spawn? then [a[0]] else [];
      assert Spawns(a + b) == h + Spawns(a[1..] + b);
      assert Spawns(a) == h + Spawns(a[1..]);
    }
  }

  lemma {:induction false} NoSpawns(effs: seq<Effect>)
    requires forall k :: 0 <= k < |effs| ==> !effs[k].Spawn?
    ensures Spawns(effs) == []
  {
    if effs != [] {
      NoSpawns(effs[1..]);
    }
  }

  lemma SpawnsOfStep(files: seq<string>, sys: EpOracle, i: nat)
    requires i < |files|
    ensures Spawns(InitEp(EpNumber(i), sys(i)).0) == []
    ensures Spawns(StepSpawn(files, sys, i)) == StepSpawn(files, sys, i)
  {
    NoSpawns(InitEp(EpNumber(i), sys(i)).0);
    if Ready(sys(i)) {
      var sp := StepSpawn(files, sys, i);
      assert sp[1..] == [];
    }
  }

  /** Up to the first position whose open fails (or to the end), the loop
      spawns exactly the workers of the reference definition. */
  lemma {:induction false} ConfigureSpawns(files: seq<string>, sys: EpOracle, i: nat, end: nat)
    requires i <= end <= |files|
    requires forall j :: i <= j < end ==> sys(j).open != OpenFailed
    requires end < |files| ==> sys(end).open == OpenFailed
    ensures Spawns(ConfigureFrom(files, sys, i)) == ExpectedSpawns(files, sys, i, end)
    decreases end - i
  {
    if i < |files| {
      ConfigureStep(files, sys, i);
      SpawnsOfStep(files, sys, i);
      if i < end {
        ConfigureSpawns(files, sys, i + 1, end);
        var effs := InitEp(EpNumber(i), sys(i)).0;
        var step := StepSpawn(files, sys, i);
        SpawnsAppend(effs + step, ConfigureFrom(files, sys, i + 1));
        SpawnsAppend(effs, step);
      }
    }
  }

  /** The loop panics exactly when some position's open fails. */
  lemma {:induction false} ConfigurePanics(files: seq<string>, sys: EpOracle, i: nat, end: nat)
    requires i <= end <= |files|
    requires forall j :: i <= j < end ==> sys(j).open != OpenFailed
    requires end < |files| ==> sys(end).open == OpenFailed
    ensures Panic in ConfigureFrom(files, sys, i) <==> end < |files|
    decreases end - i
  {
    if i < |files| {
      ConfigureStep(files, sys, i);
      if i < end {
        ConfigurePanics(files, sys, i + 1, end);
        var effs := InitEp(EpNumber(i), sys(i)).0;
        var step := StepSpawn(files, sys, i);
        assert Panic !in effs + step;
      }
    }
  }

  /** A worker for endpoint `n` on descriptor `fd` and sink `f` is among
      the expected ones exactly when some position in range with that file
      has endpoint number `n` and was ready on `fd`. */
  lemma {:induction false} ExpectedSpawnsMember(files: seq<string>, sys: EpOracle, i: nat, end: nat, e: Effect)
    requires i <= end <= |files|
    ensures e in ExpectedSpawns(files, sys, i, end) <==>
      exists j :: i <= j < end && Ready(sys(j)) && e == Spawn(EpNumber(j), sys(j).open.fd, files[j])
    decreases end - i
  {
    if i < end {
      ExpectedSpawnsMember(files, sys, i + 1, end, e);
      assert ExpectedSpawns(files, sys, i, end) == StepSpawn(files, sys, i) + ExpectedSpawns(files, sys, i + 1, end);
    }
  }

  /** Spawn effects whose endpoint numbers lie in `lo..hi` and strictly
      ascend. */
  predicate AscendingSpawns(sp: seq<Effect>, lo: int, hi: int) {
    (forall k :: 0 <= k < |sp| ==> sp[k].Spawn? && lo <= sp[k].ep as int <= hi) &&
    (forall j, k :: 0 <= j < k < |sp| ==> sp[j].ep < sp[k].ep)
  }

  /** With fewer than 255 files the endpoint numbers of the workers are
      distinct, lie in 1..|files| and ascend. */
  lemma {:induction false} ExpectedSpawnsAscend(files: seq<string>, sys: EpOracle, i: nat, end: nat)
    requires i <= end <= |files| < 0xFF
    ensures AscendingSpawns(ExpectedSpawns(files, sys, i, end), i + 1, end)
    decreases end - i
  {
    if i < end {
      ExpectedSpawnsAscend(files, sys, i + 1, end);
      var step := StepSpawn(files, sys, i);
      var rest := ExpectedSpawns(files, sys, i + 1, end);
      assert ExpectedSpawns(files, sys, i, end) == step + rest;
      if step != [] {
        assert step == [Spawn(i + 1, sys(i).open.fd, files[i])];
        PrependAscending(step[0], rest, i + 1, end);
      }
    }
  }

  lemma PrependAscending(e: Effect, rest: seq<Effect>, lo: int, hi: int)
    requires e.Spawn? && e.ep as int == lo <= hi
    requires AscendingSpawns(rest, lo + 1, hi)
    ensures AscendingSpawns([e] + rest, lo, hi)
  {
    var sp := [e] + rest;
    forall j, k | 0 <= j < k < |sp|
      ensures sp[j].ep < sp[k].ep
    {
      assert sp[k] == rest[k - 1];
      if j > 0 {
        assert sp[j] == rest[j - 1];
      }
    }
  }

  /** A panicking configuration ends at the panic: it is the last effect
      and occurs only once. */
  lemma {:induction false} ConfigurePanicIsLast(files: seq<string>, sys: EpOracle, i: nat)
    requires i <= |files|
    ensures var c := ConfigureFrom(files, sys, i);
      Panic in c ==> c[|c| - 1] == Panic && Panic !in c[..|c| - 1]
    decreases |files| - i
  {
    if i < |files| {
      ConfigureStep(files, sys, i);
      ConfigurePanicIsLast(files, sys, i + 1);
      var effs := InitEp(EpNumber(i), sys(i)).0;
      var c := ConfigureFrom(files, sys, i);
      if sys(i).open == OpenFailed {
        assert effs == [EpOpen(EpPath(EpNumber(i))), Panic];
      } else if Panic in c {
        var head := effs + StepSpawn(files, sys, i);
        var rest := ConfigureFrom(files, sys, i + 1);
        assert Panic !in head;
        assert Panic in rest;
        assert c[..|c| - 1] == head + rest[..|rest| - 1];
      }
    }
  }

  /** SET_CONFIGURATION 2 (standard, device, OUT): when every endpoint file
      opens, it spawns exactly the expected workers and ends with one
      status-stage read; when one does not, the thread panics, after the
      workers of the positions before it, and nothing follows. It never
      writes on the control file, so it never stalls. */
  lemma SetConfigurationTwo(setup: SetupRequest, files: seq<string>, sys: EpOracle, end: nat)
    requires setup.bRequest == USB_REQ_SET_CONFIGURATION && setup.bRequestType == USB_DIR_OUT
    requires setup.wValue == 2
    requires end <= |files|
    requires forall j :: 0 <= j < end ==> sys(j).open != OpenFailed
    requires end < |files| ==> sys(end).open == OpenFailed
    ensures var r := HandleSetupRequest(setup, files, sys);
      Spawns(r) == ExpectedSpawns(files, sys, 0, end) &&
      (end == |files| ==> |r| >= 1 && r[|r| - 1] == Ep0ZeroRead && Panic !in r) &&
      (end == |files| ==> forall k :: 0 <= k < |r| - 1 ==> r[k] != Ep0ZeroRead) &&
      (end < |files| ==> |r| >= 1 && r[|r| - 1] == Panic) &&
      (forall k :: 0 <= k < |r| ==> !r[k].Ep0Write?)
  {
    SetConfigurationTwoRuns(setup, files, sys);
    var c := ConfigureFrom(files, sys, 0);
    ConfigureSpawns(files, sys, 0, end);
    ConfigurePanics(files, sys, 0, end);
    ConfigurePanicIsLast(files, sys, 0);
    ConfigureNeverWritesEp0(files, sys, 0);
    if Panic !in c {
      SpawnsAppend(c, [Ep0ZeroRead]);
      assert Spawns([Ep0ZeroRead]) == [];
    }
  }

  /** SET_CONFIGURATION 2 runs the configuration loop and, unless it
      panicked, the status-stage read. */
  lemma SetConfigurationTwoRuns(setup: SetupRequest, files: seq<string>, sys: EpOracle)
    requires setup.bRequest == USB_REQ_SET_CONFIGURATION && setup.bRequestType == USB_DIR_OUT
    requires setup.wValue == 2
    ensures var c := ConfigureFrom(files, sys, 0);
      HandleSetupRequest(setup, files, sys) == if Panic in c then c else c + [Ep0ZeroRead]
  {
  }

  lemma {:induction false} ConfigureNeverWritesEp0(files: seq<string>, sys: EpOracle, i: nat)
    requires i <= |files|
    ensures var c := ConfigureFrom(files, sys, i);
      forall k :: 0 <= k < |c| ==> !c[k].Ep0Write? && c[k] != Ep0ZeroRead
    decreases |files| - i
  {
    if i < |files| {
      ConfigureStep(files, sys, i);
      ConfigureNeverWritesEp0(files, sys, i + 1);
    }
  }

  // ---------------------------------------------------------------------
  // GET_INTERFACE, SET_INTERFACE and the rest

  /** GET_INTERFACE answers the single alternate setting 0, whatever the
      direction bits say. */
  lemma GetInterfaceAnswersZero(setup: SetupRequest, files: seq<string>, sys: EpOracle)
    requires setup.bRequest == USB_REQ_GET_INTERFACE
    ensures HandleSetupRequest(setup, files, sys) == [Ep0Write([0])]
  {
  }

  /** SET_INTERFACE is not implemented and panics. */
  lemma SetInterfacePanics(setup: SetupRequest, files: seq<string>, sys: EpOracle)
    requires setup.bRequest == USB_REQ_SET_INTERFACE
    ensures HandleSetupRequest(setup, files, sys) == [Panic]
  {
  }

  /** Every other request code is stalled, in the direction of the
      request. */
  lemma OtherRequestsStall(setup: SetupRequest, files: seq<string>, sys: EpOracle)
    requires setup.bRequest !in {USB_REQ_GET_DESCRIPTOR, USB_REQ_SET_CONFIGURATION,
                                 USB_REQ_GET_INTERFACE, USB_REQ_SET_INTERFACE}
    ensures HandleSetupRequest(setup, files, sys) == [StallEffect(setup.bRequestType)]
    ensures HandleSetupRequest(setup, files, sys) == [Ep0ZeroRead] <==> setup.bRequestType >= 0x80
  {
  }

  /** Endpoint set-up only happens for SET_CONFIGURATION 2 (standard,
      device, OUT); every other request leaves the endpoints alone. */
  lemma OnlySetConfigurationTwoTouchesEndpoints(setup: SetupRequest, files: seq<string>, sys: EpOracle)
    requires !(setup.bRequest == USB_REQ_SET_CONFIGURATION && setup.bRequestType == USB_DIR_OUT && setup.wValue == 2)
    ensures var r := HandleSetupRequest(setup, files, sys);
      forall k :: 0 <= k < |r| ==> r[k].Ep0Write? || r[k] == Ep0ZeroRead || r[k] == Panic
  {
  }

  /** What an endpoint's set-up writes: its own enable package, on
      the descriptor its file opened as, after opening its own file. */
  lemma InitEpTargetsItsEndpoint(n: u8, s: EpSyscalls)
    requires s.open.Opened? && s.open.fd > 0
    ensures var effs := InitEp(n, s).0;
      |effs| == 2 && ParseEpPath(effs[0].path) == Some(n) &&
      effs[1].EpWrite? && effs[1].fd == s.open.fd && effs[1].data[6] == n
  {
    EpPathRoundTrip(n);
    EpInitPackageLayout(n);
  }
}
