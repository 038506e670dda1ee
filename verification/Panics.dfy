/** When the firmware does not panic. */
module Panics {
  import opened Bytes
  import opened Dfu
  import opened Platform
  import opened FlashSpec
  import opened ProgramSpec
  import opened Session
  import opened SessionSteps
  import opened Download
  import opened HandlerSpec
  import opened HandlerSteps
  import opened ClassSpec
  import opened Device

  /** A data block the firmware can cope with: the data the request announces, at most one
      transfer, and ending at an address that is not 3 modulo 4. */
  predicate Polite(dev: Device, ev: Event) {
    ev.Out? && ev.request == DFU_DNLOAD && ev.length > 0 ==>
      var before := if dev.handler.phase.Resting? then 0 else |dev.received|;
      ev.length == |ev.data| <= TRANSFER_SIZE && (before + |ev.data|) % 4 != 3
  }

  predicate PoliteRun(d: Digest, caps: Capabilities, dev: Device, run: seq<Stimulus>) {
    forall i :: 0 <= i < |run| ==> Polite(Run(d, caps, dev, run[..i]), run[i].ev)
  }

  /** No session holds an empty or an uncuttable block. */
  predicate Steady(h: Handler) {
    h.phase.Downloading? ==>
      && |h.phase.prog.hist.accepted| % 4 != 3
      && (h.phase.prog.state.AwaitData? || PendingBytes(h.phase.prog) != [])
  }

  lemma PendingEnd(d: Digest, m: Mem, p: Prog)
    requires InSession(d, m, p) && Receiving(p)
    ensures p.addr + |PendingBytes(p)| == APPLICATION_REGION_START + |p.hist.accepted|
  {
  }

  lemma {:induction false} SteadyPoll(d: Digest, m: Mem, p: Prog, env: Env)
    requires InSession(d, m, p) && Receiving(p)
    requires |p.hist.accepted| % 4 != 3 && (p.state.AwaitData? || PendingBytes(p) != [])
    ensures var t := PollProgram(d, m, p, env.reply, env.unlocked);
      && !t.out.Panicked? && t.prog.hist == p.hist
      && (t.out.Pending? ==> t.prog.state.AwaitData? || PendingBytes(t.prog) != [])
  {
    hide InSession, PollProgram, Chunkable;
    PollKeeps(d, m, p, env.reply, env.unlocked);
    PendingEnd(d, m, p);
    if PendingBytes(p) != [] { ChunkableIff(p.addr, |PendingBytes(p)|); }
    var t := PollProgram(d, m, p, env.reply, env.unlocked);
    if t.out.Pending? { PollStaysFilled(d, m, p, env); }
  }

  lemma {:induction false} PollStaysFilled(d: Digest, m: Mem, p: Prog, env: Env)
    requires InSession(d, m, p) && Receiving(p) && (p.state.AwaitData? || PendingBytes(p) != [])
    ensures var t := PollProgram(d, m, p, env.reply, env.unlocked);
      t.out.Pending? ==> t.prog.state.AwaitData? || PendingBytes(t.prog) != []
  {
  }

  lemma {:induction false} SteadyUpdate(d: Digest, m: Mem, p: Prog, buf: seq<Byte>, env: Env)
    requires InSession(d, m, p) && Receiving(p) && 0 < |buf| <= TRANSFER_SIZE
    requires (|p.hist.accepted| + |buf|) % 4 != 3
    ensures !Update(m, p, buf, env.unlocked).out.Panicked?
  {
    UpdateKeeps(d, m, p, buf, env.unlocked);
    if p.state.AwaitData? && p.addr < MANIFEST_REGION_START { UncuttableEnd(p.addr, |buf|); }
  }

  lemma {:induction false} SteadyDownload(d: Digest, h: Handler, data: seq<Byte>, env: Env)
    requires Coherent(d, h) && Steady(h) && 0 < |data| <= TRANSFER_SIZE
    requires ((if h.phase.Downloading? then |h.phase.prog.hist.accepted| else 0) + |data|) % 4 != 3
    ensures var r := DownloadBlock(h, data, env); !r.answer.Panics? && Steady(r.handler)
  {
    hide InSession, Update, New, AllConfined;
    if h.phase.Resting? { NewOpens(d, h.mem, data, env.unlocked); SmallNew(h.mem, data, env.unlocked); }
    if h.phase.Downloading? {
      SteadyUpdate(d, h.mem, h.phase.prog, data, env);
      UpdateKeeps(d, h.mem, h.phase.prog, data, env.unlocked);
    }
  }

  lemma SmallNew(m: Mem, buf: seq<Byte>, unlocked: bool)
    requires |buf| <= TRANSFER_SIZE
    ensures !New(m, buf, unlocked).Crashed?
  {
  }

  lemma {:induction false} SteadyMove(d: Digest, caps: Capabilities, dev: Device, st: Stimulus)
    requires !dev.halted && Sound(d, dev) && Steady(dev.handler) && Polite(dev, st.ev)
    ensures var after := Move(d, caps, dev, st).dev; !after.halted && Steady(after.handler)
  {
    hide InSession, Update, New, AllConfined, PollProgram, Finalize, Recorded, Resume, Coupled;
    var h, call := dev.handler, CallOf(caps, dev.cls, st.ev);
    match call
    case AskManifest => ManifestationKeeps(d, h, st.env); FinalizeSteady(d, h, st.env);
    case CallPoll =>
      if h.phase.Downloading? { SteadyPoll(d, h.mem, h.phase.prog, st.env); }
      else if h.phase.Manifesting? { PollKeeps(d, h.mem, h.phase.prog, st.env.reply, st.env.unlocked); }
    case CallDownload(_, data) =>
      assert (if h.phase.Downloading? then |h.phase.prog.hist.accepted| + |data| else 0) % 4 != 3 by {
        RecordedLength(d, dev);
      }
      if h.phase.Resting? || h.phase.Downloading? { SteadyDownload(d, h, data, st.env); }
    case _ =>
  }

  lemma RecordedLength(d: Digest, dev: Device)
    requires Recorded(d, dev)
    ensures dev.handler.phase.Downloading? ==> dev.handler.phase.prog.hist.accepted == dev.received
  {
  }

  lemma {:induction false} FinalizeSteady(d: Digest, h: Handler, env: Env)
    requires Coherent(d, h)
    ensures !ManifestationInProgress(d, h, env).handler.phase.Downloading?
  {
    hide InSession, PollProgram, AllConfined;
    if h.phase.Downloading? { FinalizeKeeps(d, h.mem, h.phase.prog, env.unlocked); }
  }

  /** A host whose blocks are polite never makes the firmware panic, whatever else it sends
      and however the flash controller behaves. */
  lemma {:induction false} PoliteRunsDoNotPanic(
    d: Digest, caps: Capabilities, flash: Flash, pin: bool, run: seq<Stimulus>)
    requires PoliteRun(d, caps, PowerOn(d, flash, pin), run)
    ensures var dev := Run(d, caps, PowerOn(d, flash, pin), run); !dev.halted && Steady(dev.handler)
  {
    if run != [] {
      hide Move, Sound, Safe, Steady, Polite;
      var start, before := PowerOn(d, flash, pin), run[..|run| - 1];
      assert PoliteRun(d, caps, start, before) by {
        forall i | 0 <= i < |before| ensures Polite(Run(d, caps, start, before[..i]), before[i].ev) {
          assert before[..i] == run[..i];
          assert Polite(Run(d, caps, start, run[..i]), run[i].ev);
        }
      }
      PoliteRunsDoNotPanic(d, caps, flash, pin, before);
      RunKeeps(d, caps, flash, pin, before);
      assert Polite(Run(d, caps, start, run[..|run| - 1]), run[|run| - 1].ev);
      SteadyMove(d, caps, Run(d, caps, start, before), run[|run| - 1]);
    }
  }

  // ---- exactly when ----

  /** A poll finds the operation finished and verified, and the next piece of the block cannot be
      cut. */
  predicate CutFails(m: Mem, p: Prog, env: Env) {
    var q := PollDriver(m, env.reply);
    && q.out.Ready? && env.unlocked
    && match p.state {
         case AwaitEraseBeforeProgram(_, _) => Uncuttable(p.addr, |PendingBytes(p)|)
         case AwaitProgram(_, _) =>
           q.out.n < |PendingBytes(p)| && PanicsOn(p.(addr := p.addr + q.out.n), |PendingBytes(p)| - q.out.n, true)
         case _ => false
       }
  }

  lemma {:induction false} PollPanicsIff(d: Digest, m: Mem, p: Prog, env: Env)
    requires InSession(d, m, p) && Receiving(p)
    ensures PollProgram(d, m, p, env.reply, env.unlocked).out.Panicked? <==> CutFails(m, p, env)
  {
    hide Kept, Chunkable, EraseOrProgram, EraseOrProgramManifest, StartProgram, Surroundings, Ordered,
      Conserved, Positioned;
    if !p.state.AwaitData? {
      PollVerified(m, env.reply);
      var q := PollDriver(m, env.reply);
      if q.out.Ready? {
        if p.state.AwaitEraseBeforeProgram? { PollBlockErased(d, m, p, q.mem, env.unlocked); }
        else {
          var n := q.out.n;
          assert n == ChunkSize(p.addr, |PendingBytes(p)|);
          if n == |PendingBytes(p)| { PollLastChunk(d, m, p, q.mem, n, env.unlocked); }
          else { PollMoreChunks(d, m, p, q.mem, n, env.unlocked); }
        }
      }
    }
  }

  /** The events that make the firmware panic: a first block of another length than announced; a
      block larger than the buffer; a block whose first piece cannot be cut, or a poll that finds
      the next piece cannot. */
  predicate MakesPanic(caps: Capabilities, dev: Device, st: Stimulus) {
    var phase := dev.handler.phase;
    match CallOf(caps, dev.cls, st.ev)
    case AssertFails => true
    case CallDownload(_, data) =>
      (match phase
       case Resting => TRANSFER_SIZE < |data| < APPLICATION_LENGTH
       case Downloading(p) =>
         p.state.AwaitData? && (|data| > TRANSFER_SIZE || PanicsOn(p, |data|, st.env.unlocked))
       case _ => false)
    case CallPoll => phase.Downloading? && CutFails(dev.handler.mem, phase.prog, st.env)
    case _ => false
  }

  lemma NewPanicsIff(m: Mem, buf: seq<Byte>, unlocked: bool)
    ensures New(m, buf, unlocked).Crashed? <==> TRANSFER_SIZE < |buf| < APPLICATION_LENGTH
  {
  }

  lemma {:induction false} UpdatePanicsIff(d: Digest, m: Mem, p: Prog, buf: seq<Byte>, unlocked: bool)
    requires InSession(d, m, p)
    ensures Update(m, p, buf, unlocked).out.Panicked?
            <==> p.state.AwaitData? && (|buf| > TRANSFER_SIZE || PanicsOn(p, |buf|, unlocked))
  {
    UpdateKeeps(d, m, p, buf, unlocked);
  }

  /** One event makes a running device panic exactly if it is one of these. */
  lemma {:induction false} PanicIff(d: Digest, caps: Capabilities, dev: Device, st: Stimulus)
    requires !dev.halted && Sound(d, dev)
    ensures Move(d, caps, dev, st).dev.halted <==> MakesPanic(caps, dev, st)
  {
    hide InSession, Update, New, AllConfined, PollProgram, Finalize, Recorded, Resume, Coupled, CutFails, PanicsOn;
    var h, call := dev.handler, CallOf(caps, dev.cls, st.ev);
    match call
    case AskManifest => ManifestationKeeps(d, h, st.env);
    case CallPoll =>
      if h.phase.Downloading? { PollPanicsIff(d, h.mem, h.phase.prog, st.env); }
      else if h.phase.Manifesting? { PollKeeps(d, h.mem, h.phase.prog, st.env.reply, st.env.unlocked); }
    case CallDownload(_, data) =>
      NewPanicsIff(h.mem, data, st.env.unlocked);
      if h.phase.Downloading? { UpdatePanicsIff(d, h.mem, h.phase.prog, data, st.env.unlocked); }
    case _ =>
  }

  predicate PanicsAt(d: Digest, caps: Capabilities, dev: Device, run: seq<Stimulus>, i: nat)
    requires i < |run|
  {
    var before := Run(d, caps, dev, run[..i]); !before.halted && MakesPanic(caps, before, run[i])
  }

  /** Some event of the run makes the device panic. */
  predicate SomePanic(d: Digest, caps: Capabilities, dev: Device, run: seq<Stimulus>) {
    exists i: nat :: i < |run| && PanicsAt(d, caps, dev, run, i)
  }

  lemma SomePanicSnoc(d: Digest, caps: Capabilities, dev: Device, run: seq<Stimulus>)
    requires run != []
    ensures SomePanic(d, caps, dev, run)
            <==> SomePanic(d, caps, dev, run[..|run| - 1]) || PanicsAt(d, caps, dev, run, |run| - 1)
  {
    hide PanicsAt;
    var before := run[..|run| - 1];
    forall i: nat | i < |before| ensures PanicsAt(d, caps, dev, before, i) == PanicsAt(d, caps, dev, run, i) {
      SamePanic(d, caps, dev, run, i);
    }
    if i: nat :| i < |before| && PanicsAt(d, caps, dev, before, i) {
      assert PanicsAt(d, caps, dev, run, i);
    }
    if i: nat :| i < |run| && PanicsAt(d, caps, dev, run, i) {
      if i < |before| { assert PanicsAt(d, caps, dev, before, i); }
    }
  }

  lemma SamePanic(d: Digest, caps: Capabilities, dev: Device, run: seq<Stimulus>, i: nat)
    requires i + 1 < |run|
    ensures PanicsAt(d, caps, dev, run[..|run| - 1], i) == PanicsAt(d, caps, dev, run, i)
  {
    hide Run, MakesPanic;
    assert run[..|run| - 1][..i] == run[..i];
  }

  /** A run from power-on ends in a panic exactly if it contains such an event. */
  lemma {:induction false} RunPanicsIff(d: Digest, caps: Capabilities, flash: Flash, pin: bool, run: seq<Stimulus>)
    ensures Run(d, caps, PowerOn(d, flash, pin), run).halted <==> SomePanic(d, caps, PowerOn(d, flash, pin), run)
  {
    if run != [] {
      hide Move, Sound, Safe, MakesPanic, PowerOn, SomePanic;
      var start, before := PowerOn(d, flash, pin), run[..|run| - 1];
      RunPanicsIff(d, caps, flash, pin, before);
      RunKeeps(d, caps, flash, pin, before);
      SomePanicSnoc(d, caps, start, run);
      var dev := Run(d, caps, start, before);
      if dev.halted { HaltedMove(d, caps, dev, run[|run| - 1]); } else { PanicIff(d, caps, dev, run[|run| - 1]); }
    } else {
      hide FirmwareValid;
    }
  }

  lemma HaltedMove(d: Digest, caps: Capabilities, dev: Device, st: Stimulus)
    requires dev.halted
    ensures Move(d, caps, dev, st).dev == dev
  {
  }
}
