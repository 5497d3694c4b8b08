/** The event loop of `server_loop`: each read of the control file fills a
    buffer of five gadgetfs events; the whole events it delivered are
    visited in order, SETUP events are dispatched, connection events are
    only logged, and any other event type ends the batch. A failed read
    ends the loop; so does a panic of the dispatcher. */
module EventLoop {
  import opened UsbTypes
  import opened Dispatcher

  /** `size_of::<usb_gadgetfs_event>()`: the 8-byte SETUP packet (the larger
      member of the event union) and the 4-byte event type. */
  const EVENT_SIZE: nat := 12
  /** Capacity of the event buffer. */
  const MAX_EVENTS: nat := 5
  /** Bytes requested by each read: the whole buffer. */
  const READ_SIZE: nat := 60

  /** One gadgetfs event: its type code and the SETUP packet it carries
      (meaningful for SETUP events only). */
  datatype GadgetEvent = GadgetEvent(eventType: u32, setup: SetupRequest)

  /** The buffer starts out as zero bytes: NOP events with an all-zero
      SETUP packet. */
  const ZERO_EVENT := GadgetEvent(GADGETFS_NOP, SetupRequest(0, 0, 0, 0, 0))

  /** `bytes_cnt.div_euclid(size_of::<usb_gadgetfs_event>())`: the number
      of whole events in a read; a trailing partial event is ignored. */
  function EventCount(bytesCnt: nat): (r: nat)
    ensures r * 12 <= bytesCnt < r * 12 + 12
    ensures bytesCnt <= READ_SIZE ==> r <= MAX_EVENTS
  {
    bytesCnt / EVENT_SIZE
  }

  /** The event types a batch goes on after. */
  predicate Handled(t: u32) {
    t == GADGETFS_CONNECT || t == GADGETFS_DISCONNECT || t == GADGETFS_SETUP
  }

  /** What the kernel answers during one batch: `sys(i)` for the request in
      slot `i`. */
  type BatchOracle = nat -> EpOracle

  /** The effects of visiting events `i..` of a batch. */
  function BatchFrom(evs: seq<GadgetEvent>, files: seq<string>, sys: BatchOracle, i: nat): seq<Effect>
    requires i <= |evs|
    decreases |evs| - i
  {
    if i == |evs| then []
    else if evs[i].eventType == GADGETFS_SETUP then
      var r := HandleSetupRequest(evs[i].setup, files, sys(i));
      if Panic in r then r else r + BatchFrom(evs, files, sys, i + 1)
    else if Handled(evs[i].eventType) then BatchFrom(evs, files, sys, i + 1)
    else []
  }

  /** The `for i in 0..events_cnt` loop over the buffer, with its `break`. */
  method ServeBatch(events: array<GadgetEvent>, bytesCnt: nat, files: seq<string>, sys: BatchOracle)
    returns (effects: seq<Effect>)
    requires events.Length == MAX_EVENTS && bytesCnt <= READ_SIZE
    ensures effects == BatchFrom(events[..EventCount(bytesCnt)], files, sys, 0)
  {
    var count := bytesCnt / EVENT_SIZE;
    ghost var evs := events[..count];
    effects := [];
    for i := 0 to count
      invariant effects + BatchFrom(evs, files, sys, i) == BatchFrom(evs, files, sys, 0)
    {
      var ev := events[i];
      assert ev == evs[i];
      if ev.eventType == GADGETFS_CONNECT || ev.eventType == GADGETFS_DISCONNECT {
        // logged only
      } else if ev.eventType == GADGETFS_SETUP {
        var r := HandleSetupRequest(ev.setup, files, sys(i));
        effects := effects + r;
        if Panic in r {
          return;
        }
      } else {
        assert BatchFrom(evs, files, sys, i) == [];
        break;
      }
    }
  }

  /** The result of one read of the control file: its byte count (negative
      on error), the whole events it delivered, and the kernel's answers
      during the batch. */
  datatype Read = Read(bytesCnt: int, delivered: seq<GadgetEvent>, sys: BatchOracle)

  /** What read(2) guarantees: it delivers at most the 60 bytes asked for,
      and the whole events among them. */
  predicate ValidRead(r: Read) {
    r.bytesCnt < 0 || (r.bytesCnt <= READ_SIZE && |r.delivered| == EventCount(r.bytesCnt))
  }

  /** Why the loop stopped: a failed read, a panic, or (for a finite run)
      no further reads. */
  datatype Outcome = ReadFailed | Panicked | OutOfReads

  /** Whether some read from the `k`-th on failed. */
  predicate FailedReadFrom(history: seq<Read>, k: nat)
    requires k <= |history|
    decreases |history| - k
  {
    k < |history| && (history[k].bytesCnt < 0 || FailedReadFrom(history, k + 1))
  }

  /** The effects and the outcome of serving reads `k..` of the history.
      The loop ends on a failed read only if one of them failed, and runs
      out of reads only if none did. */
  function LoopFrom(history: seq<Read>, files: seq<string>, k: nat): (r: (seq<Effect>, Outcome))
    requires k <= |history|
    requires forall j :: 0 <= j < |history| ==> ValidRead(history[j])
    ensures r.1 == ReadFailed ==> FailedReadFrom(history, k)
    ensures r.1 == OutOfReads ==> !FailedReadFrom(history, k)
    decreases |history| - k
  {
    if k == |history| then ([], OutOfReads)
    else if history[k].bytesCnt < 0 then ([], ReadFailed)
    else
      var b := BatchFrom(history[k].delivered, files, history[k].sys, 0);
      if Panic in b then (b, Panicked)
      else
        var rest := LoopFrom(history, files, k + 1);
        (b + rest.0, rest.1)
  }

  /** One step of the loop: a failed read ends it, a successful one serves
      its batch and goes on unless the batch panicked. */
  lemma LoopStep(history: seq<Read>, files: seq<string>, k: nat)
    requires forall j :: 0 <= j < |history| ==> ValidRead(history[j])
    requires k < |history|
    ensures history[k].bytesCnt < 0 ==> LoopFrom(history, files, k) == ([], ReadFailed)
    ensures history[k].bytesCnt >= 0 ==>
      var b := BatchFrom(history[k].delivered, files, history[k].sys, 0);
      var rest := LoopFrom(history, files, k + 1);
      LoopFrom(history, files, k) == if Panic in b then (b, Panicked) else (b + rest.0, rest.1)
  {
  }

  /** The read copies the delivered events into the front of the buffer;
      the slots after them keep what earlier reads left there. */
  method Deliver(events: array<GadgetEvent>, delivered: seq<GadgetEvent>)
    requires |delivered| <= events.Length
    modifies events
    ensures events[..|delivered|] == delivered
    ensures events[|delivered|..] == old(events[|delivered|..])
  {
    for j := 0 to |delivered|
      invariant events[..j] == delivered[..j]
      invariant events[j..] == old(events[j..])
    {
      events[j] := delivered[j];
    }
  }

  /** `server_loop` over a finite run of reads. */
  method ServerLoop(history: seq<Read>, files: seq<string>) returns (effects: seq<Effect>, outcome: Outcome)
    requires forall j :: 0 <= j < |history| ==> ValidRead(history[j])
    ensures (effects, outcome) == LoopFrom(history, files, 0)
  {
    var events := new GadgetEvent[MAX_EVENTS](_ => ZERO_EVENT);
    effects := [];
    var k := 0;
    assert effects + LoopFrom(history, files, 0).0 == LoopFrom(history, files, 0).0;
    while k < |history|
      invariant 0 <= k <= |history|
      invariant events.Length == MAX_EVENTS
      invariant effects + LoopFrom(history, files, k).0 == LoopFrom(history, files, 0).0
      invariant LoopFrom(history, files, k).1 == LoopFrom(history, files, 0).1
    {
      var r := history[k];
      LoopStep(history, files, k);
      if r.bytesCnt < 0 {
        assert effects + [] == effects;
        outcome := ReadFailed;
        return;
      }
      Deliver(events, r.delivered);
      var batch := ServeBatch(events, r.bytesCnt, files, r.sys);
      assert events[..EventCount(r.bytesCnt)] == r.delivered;
      assert batch == BatchFrom(r.delivered, files, r.sys, 0);
      effects := effects + batch;
      if Panic in batch {
        outcome := Panicked;
        return;
      }
      k := k + 1;
    }
    assert effects + [] == effects;
    outcome := OutOfReads;
  }

  // ---------------------------------------------------------------------
  // Properties of a batch

  /** A batch ends at any event type other than CONNECT, DISCONNECT and
      SETUP: the events after it are never visited. */
  lemma {:induction false} BatchStopsAtUnhandled(evs: seq<GadgetEvent>, files: seq<string>, sys: BatchOracle, i: nat, j: nat)
    requires i <= j < |evs| && !Handled(evs[j].eventType)
    ensures BatchFrom(evs, files, sys, i) == BatchFrom(evs[..j], files, sys, i)
    decreases j - i
  {
    if i < j {
      assert evs[..j][i] == evs[i];
      BatchStopsAtUnhandled(evs, files, sys, i + 1, j);
    }
  }

  /** Only SETUP events cause effects: a batch without one has none. */
  lemma {:induction false} NoSetupNoEffects(evs: seq<GadgetEvent>, files: seq<string>, sys: BatchOracle, i: nat)
    requires i <= |evs|
    requires forall j :: i <= j < |evs| ==> evs[j].eventType != GADGETFS_SETUP
    ensures BatchFrom(evs, files, sys, i) == []
    decreases |evs| - i
  {
    if i < |evs| {
      NoSetupNoEffects(evs, files, sys, i + 1);
    }
  }

  /** Reference definition for a batch of handled events: the dispatcher's
      effects for its SETUP events, in slot order, up to the first panic. */
  function SetupEffects(evs: seq<GadgetEvent>, files: seq<string>, sys: BatchOracle, i: nat): seq<Effect>
    requires i <= |evs|
    decreases |evs| - i
  {
    if i == |evs| then []
    else
      var here := if evs[i].eventType == GADGETFS_SETUP then HandleSetupRequest(evs[i].setup, files, sys(i)) else [];
      if Panic in here then here else here + SetupEffects(evs, files, sys, i + 1)
  }

  /** When every event is of a handled type, the batch is exactly the
      dispatch of its SETUP events in order: connection events contribute
      nothing, and nothing is skipped or reordered. */
  lemma {:induction false} HandledBatchDispatchesSetups(evs: seq<GadgetEvent>, files: seq<string>, sys: BatchOracle, i: nat)
    requires i <= |evs|
    requires forall j :: i <= j < |evs| ==> Handled(evs[j].eventType)
    ensures BatchFrom(evs, files, sys, i) == SetupEffects(evs, files, sys, i)
    decreases |evs| - i
  {
    if i < |evs| {
      HandledBatchDispatchesSetups(evs, files, sys, i + 1);
      if evs[i].eventType != GADGETFS_SETUP {
        assert Panic !in [];
        assert [] + SetupEffects(evs, files, sys, i + 1) == SetupEffects(evs, files, sys, i + 1);
      }
    }
  }

  /** A panic ends the batch: nothing follows it. */
  lemma {:induction false} BatchPanicIsLast(evs: seq<GadgetEvent>, files: seq<string>, sys: BatchOracle, i: nat)
    requires i <= |evs|
    ensures var b := BatchFrom(evs, files, sys, i);
      Panic in b ==> b[|b| - 1] == Panic
    decreases |evs| - i
  {
    if i < |evs| {
      BatchPanicIsLast(evs, files, sys, i + 1);
      if evs[i].eventType == GADGETFS_SETUP {
        var r := HandleSetupRequest(evs[i].setup, files, sys(i));
        HandlerPanicIsLast(evs[i].setup, files, sys(i));
        if Panic !in r {
          PanicInAppend(r, BatchFrom(evs, files, sys, i + 1));
        }
      }
    }
  }

  /** Where a panic can be in a concatenation, and what its last effect is. */
  lemma PanicInAppend(a: seq<Effect>, b: seq<Effect>)
    ensures Panic in a + b <==> Panic in a || Panic in b
    ensures b != [] ==> (a + b)[|a + b| - 1] == b[|b| - 1]
  {
  }

  /** A dispatcher answer that panics ends with the panic. */
  lemma HandlerPanicIsLast(setup: SetupRequest, files: seq<string>, sys: EpOracle)
    ensures var r := HandleSetupRequest(setup, files, sys);
      Panic in r ==> r[|r| - 1] == Panic
  {
    ConfigurePanicIsLast(files, sys, 0);
    var r := HandleSetupRequest(setup, files, sys);
    if setup.bRequest == USB_REQ_SET_CONFIGURATION && setup.bRequestType == USB_DIR_OUT && setup.wValue == 2 {
      var c := ConfigureFrom(files, sys, 0);
      if Panic !in c {
        assert r == c + [Ep0ZeroRead];
        assert Panic !in r;
      }
    }
  }

  // ---------------------------------------------------------------------
  // Properties of the loop

  /** The loop stops at the first failed read: whatever follows it is never
      read, and the outcome says the read failed. */
  lemma {:induction false} LoopStopsAtFailedRead(history: seq<Read>, files: seq<string>, k: nat, j: nat)
    requires forall m :: 0 <= m < |history| ==> ValidRead(history[m])
    requires k <= j < |history| && history[j].bytesCnt < 0
    ensures LoopFrom(history, files, k).0 == LoopFrom(history[..j], files, k).0
    ensures LoopFrom(history, files, k).1 == ReadFailed || LoopFrom(history, files, k).1 == Panicked
    decreases j - k
  {
    if k < j {
      assert history[..j][k] == history[k];
      LoopStopsAtFailedRead(history, files, k + 1, j);
    }
  }

  /** The loop ends with a panic exactly when its effects contain one, and
      then the panic is the last of them. */
  lemma {:induction false} LoopPanicIsLast(history: seq<Read>, files: seq<string>, k: nat)
    requires forall m :: 0 <= m < |history| ==> ValidRead(history[m])
    requires k <= |history|
    ensures var (effs, out) := LoopFrom(history, files, k);
      (out == Panicked <==> Panic in effs) && (Panic in effs ==> effs[|effs| - 1] == Panic)
    decreases |history| - k
  {
    if k < |history| && history[k].bytesCnt >= 0 {
      LoopPanicIsLast(history, files, k + 1);
      var b := BatchFrom(history[k].delivered, files, history[k].sys, 0);
      BatchPanicIsLast(history[k].delivered, files, history[k].sys, 0);
      if Panic !in b {
        PanicInAppend(b, LoopFrom(history, files, k + 1).0);
      }
    }
  }
}
