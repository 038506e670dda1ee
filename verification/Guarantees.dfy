/** What holds at every moment of every run from power-on, under any requests and any
    behaviour of the flash controller, spelled out from the device invariant. */
module Guarantees {
  import opened Bytes
  import opened Dfu
  import opened Platform
  import opened FlashSpec
  import opened ProgramSpec
  import opened Session
  import opened Install
  import opened SessionSteps
  import opened Download
  import opened HandlerSpec
  import opened HandlerSteps
  import opened ClassSpec
  import opened ClassRuns
  import opened Device
  import opened Firmware

  /** The program of the session under way, if there is one. */
  predicate Under(dev: Device, p: Prog) {
    !dev.halted && (dev.handler.phase == Downloading(p) || dev.handler.phase == Manifesting(p))
  }

  lemma {:induction false} SessionOf(
    d: Digest, caps: Capabilities, flash: Flash, pin: bool, run: seq<Stimulus>, p: Prog)
    requires Under(Run(d, caps, PowerOn(d, flash, pin), run), p)
    ensures var dev := Run(d, caps, PowerOn(d, flash, pin), run);
      && InSession(d, dev.handler.mem, p)
      && p.hist.accepted == dev.received && p.hist.origin == dev.origin
  {
    hide InSession, Safe, Run, PowerOn;
    RunKeeps(d, caps, flash, pin, run);
  }

  /** No accepted byte is lost, duplicated or moved: during a download, flash up to the write
      address followed by the bytes still pending is what the host has sent. */
  lemma {:induction false} EveryByteAccounted(
    d: Digest, caps: Capabilities, flash: Flash, pin: bool, run: seq<Stimulus>, p: Prog)
    requires Under(Run(d, caps, PowerOn(d, flash, pin), run), p) && Receiving(p)
    ensures var dev := Run(d, caps, PowerOn(d, flash, pin), run);
      && p.addr <= MANIFEST_REGION_START
      && ApplicationBytes(dev.handler.mem.flash, p.addr - APPLICATION_REGION_START) + PendingBytes(p) == dev.received
  {
    SessionOf(d, caps, flash, pin, run, p);
    var dev := Run(d, caps, PowerOn(d, flash, pin), run);
    AccountedFor(d, dev.handler.mem, p);
    hide InSession, Run, PowerOn;
  }

  lemma {:induction false} AccountedFor(d: Digest, m: Mem, p: Prog)
    requires InSession(d, m, p) && Receiving(p)
    ensures p.addr <= MANIFEST_REGION_START
    ensures ApplicationBytes(m.flash, p.addr - APPLICATION_REGION_START) + PendingBytes(p) == p.hist.accepted
  {
    var written := p.addr - APPLICATION_REGION_START;
    HeldApplication(m.flash, p.hist.accepted[..written]);
    assert p.hist.accepted == p.hist.accepted[..written] + p.hist.accepted[written..];
  }

  /** Whenever a write is in flight in a session, the cells it is aimed at still read blank, lie in
      the last sector erased, and are where the write address points. */
  lemma {:induction false} WritesMeetBlankCells(
    d: Digest, caps: Capabilities, flash: Flash, pin: bool, run: seq<Stimulus>, p: Prog)
    requires Under(Run(d, caps, PowerOn(d, flash, pin), run), p)
    ensures var m := Run(d, caps, PowerOn(d, flash, pin), run).handler.mem;
      m.state.Programming? ==>
        && m.state.addr == p.addr
        && Blank(m.flash, TargetLo(m.state), TargetHi(m.state))
        && SectorStart(p.sector) <= TargetLo(m.state) && TargetHi(m.state) <= SectorEnd(p.sector)
  {
    SessionOf(d, caps, flash, pin, run, p);
    var m := Run(d, caps, PowerOn(d, flash, pin), run).handler.mem;
    if m.state.Programming? { BlankTarget(d, m, p); }
    hide InSession, Run, PowerOn;
  }

  lemma {:induction false} BlankTarget(d: Digest, m: Mem, p: Prog)
    requires InSession(d, m, p) && m.state.Programming?
    ensures m.state.addr == p.addr && Blank(m.flash, TargetLo(m.state), TargetHi(m.state))
    ensures SectorStart(p.sector) <= TargetLo(m.state) && TargetHi(m.state) <= SectorEnd(p.sector)
  {
    ManifestRegion(d);
    if p.state.AwaitProgram? { ChunkAligned(p.addr, |PendingBytes(p)|); }
  }

  // ---- the manifest region ----

  /** While a session is under way the manifest region is the old one until sector 7 is erased,
      then a prefix of the new manifest in front of blank cells, however the controller behaves. */
  lemma {:induction false} ManifestInSession(
    d: Digest, caps: Capabilities, flash: Flash, pin: bool, run: seq<Stimulus>, p: Prog)
    requires Under(Run(d, caps, PowerOn(d, flash, pin), run), p)
    ensures var dev := Run(d, caps, PowerOn(d, flash, pin), run);
      var f := dev.handler.mem.flash;
      if LastSectorErased(p) then PartlyWritten(d, f, dev.received, ManifestProgress(d, p))
      else SameOn(f, dev.origin, MANIFEST_REGION_START, FLASH_END)
  {
    hide Run, PowerOn;
    SessionOf(d, caps, flash, pin, run, p);
    ManifestConsistent(d, Run(d, caps, PowerOn(d, flash, pin), run).handler.mem, p);
    hide InSession;
  }

  /** The first k bytes of the manifest of `image`, in whole words, and blank cells behind. */
  predicate PartlyWritten(d: Digest, f: Flash, image: seq<Byte>, k: nat) {
    && k % 4 == 0 && k <= ManifestSize(d)
    && Holds(f, MANIFEST_REGION_START, Prefix(ManifestBytes(d, |image|, image), k))
    && Blank(f, MANIFEST_REGION_START + k, FLASH_END)
  }

  ghost predicate ManifestSound(d: Digest, f: Flash, origin: Flash, image: seq<Byte>) {
    || SameOn(f, origin, MANIFEST_REGION_START, FLASH_END)
    || exists k: nat :: PartlyWritten(d, f, image, k)
  }

  lemma SessionManifest(d: Digest, m: Mem, p: Prog)
    requires InSession(d, m, p)
    ensures ManifestSound(d, m.flash, p.hist.origin, p.hist.accepted)
  {
    ManifestConsistent(d, m, p);
    hide InSession;
    if LastSectorErased(p) { assert PartlyWritten(d, m.flash, p.hist.accepted, ManifestProgress(d, p)); }
  }

  /** The region right after an operation has succeeded, before the next one is started. */
  lemma {:induction false} CompletedManifest(d: Digest, m: Mem, m1: Mem, p: Prog)
    requires InSession(d, m, p) && Completed(m, m1)
    ensures m.state != DriverIdle ==> ManifestSound(d, m1.flash, p.hist.origin, p.hist.accepted)
  {
    SectorsTile(p.sector);
    ManifestRegion(d);
    var image := p.hist.accepted;
    match p.state
    case AwaitProgramManifest(data, wr) =>
      ManifestGrows(d, m, m1, p);
      assert PartlyWritten(d, m1.flash, image, wr + 4);
    case AwaitProgram(_, _) =>
      ChunkAligned(p.addr, |PendingBytes(p)|);
      if p.sector == 7 { assert PartlyWritten(d, m1.flash, image, 0); }
    case AwaitEraseBeforeProgram(_, _) =>
      if p.sector == 7 { assert PartlyWritten(d, m1.flash, image, 0); }
    case AwaitErase =>
      if p.sector == 7 { assert PartlyWritten(d, m1.flash, image, 0); }
    case _ =>
  }

  lemma ContinueLeavesFlash(d: Digest, m: Mem, p: Prog, n: nat, unlocked: bool)
    requires !p.state.AwaitData?
    ensures Continue(d, m, p, n, unlocked).mem.flash == m.flash
  {
  }

  lemma {:induction false} PollManifest(d: Digest, m: Mem, p: Prog, env: Env)
    requires InSession(d, m, p) && !p.state.Done? && !env.reply.Fault?
    ensures ManifestSound(d, PollProgram(d, m, p, env.reply, env.unlocked).mem.flash, p.hist.origin, p.hist.accepted)
  {
    SessionManifest(d, m, p);
    if env.reply.Busy? {
      BusyWaits(d, m, p, env.unlocked);
    } else if !p.state.AwaitData? {
      CleanReady(d, m, p);
      var q := PollDriver(m, Clean);
      CompletedManifest(d, m, q.mem, p);
      ContinueLeavesFlash(d, q.mem, p, q.out.n, env.unlocked);
      hide InSession, Continue, ManifestSound;
    }
  }

  lemma {:induction false} ReactManifest(
    d: Digest, h: Handler, call: Call, env: Env, origin: Flash, received: seq<Byte>)
    requires Coherent(d, h) && InSessionWith(h.phase, origin, received) && !env.reply.Fault?
    requires ManifestSound(d, h.mem.flash, origin, received)
    ensures ManifestSound(d, React(d, h, call, env).handler.mem.flash, origin, received)
  {
    hide InSession, PollProgram, Finalize, Update, New, AllConfined, ManifestSound;
    match call
    case AskManifest =>
      if h.phase.Downloading? { FinalizeKeeps(d, h.mem, h.phase.prog, env.unlocked); }
      else if h.phase.Manifesting? { PollManifest(d, h.mem, h.phase.prog, env); }
    case CallPoll =>
      if h.phase.Downloading? || h.phase.Manifesting? { PollManifest(d, h.mem, h.phase.prog, env); }
    case CallDownload(_, data) =>
      if h.phase.Downloading? { UpdateKeeps(d, h.mem, h.phase.prog, data, env.unlocked); }
      else if h.phase.Resting? { NewLeavesFlash(d, h.mem, data, env.unlocked); }
    case _ =>
  }

  lemma NewLeavesFlash(d: Digest, m: Mem, buf: seq<Byte>, unlocked: bool)
    ensures New(m, buf, unlocked).mem.flash == m.flash
  {
    NewOpens(d, m, buf, unlocked);
  }

  lemma {:induction false} MoveManifest(d: Digest, caps: Capabilities, dev: Device, st: Stimulus, boot: Flash)
    requires Safe(dev, boot) && Sound(d, dev) && !st.env.reply.Fault?
    requires ManifestSound(d, dev.handler.mem.flash, dev.origin, dev.received)
    ensures var after := Move(d, caps, dev, st).dev;
      ManifestSound(d, after.handler.mem.flash, after.origin, after.received)
  {
    if !dev.halted {
      hide InSession, React, Resume, AllConfined, ManifestSound, Coupled, Safe;
      var call := CallOf(caps, dev.cls, st.ev);
      MoveKeeps(d, caps, dev, st, boot);
      ReactManifest(d, dev.handler, call, st.env, dev.origin, dev.received);
      var after := Move(d, caps, dev, st).dev;
      var r := React(d, dev.handler, call, st.env);
      if !after.halted && call.CallDownload? && !r.answer.Fails? {
        ReactMoves(d, dev.handler, call, st.env);
        SessionManifest(d, after.handler.mem, after.handler.phase.prog);
      }
    }
  }

  /** In every run in which the flash works - though it may refuse to unlock - the manifest region
      is at every moment the one the last session found, or whole words of a prefix of that
      session's manifest in front of blank cells: also when the handler has failed, and when the
      firmware has panicked. */
  lemma {:induction false} ManifestInEveryRun(
    d: Digest, caps: Capabilities, flash: Flash, pin: bool, run: seq<Stimulus>)
    requires forall i :: 0 <= i < |run| ==> !run[i].env.reply.Fault?
    ensures var dev := Run(d, caps, PowerOn(d, flash, pin), run);
      ManifestSound(d, dev.handler.mem.flash, dev.origin, dev.received)
  {
    if run != [] {
      hide Move, Sound, Safe, ManifestSound;
      var before := run[..|run| - 1];
      ManifestInEveryRun(d, caps, flash, pin, before);
      RunKeeps(d, caps, flash, pin, before);
      MoveManifest(d, caps, Run(d, caps, PowerOn(d, flash, pin), before), run[|run| - 1], flash);
    }
  }

  // ---- one operation at a time ----

  /** The call reads the status register. */
  predicate ReadsStatus(h: Handler, call: Call) {
    || (call.CallPoll? && (h.phase.Downloading? || h.phase.Manifesting?) && !h.phase.prog.state.AwaitData?)
    || (call.AskManifest? && h.phase.Manifesting?)
  }

  /** If a step started an operation, it was one, and the controller was idle, or this very step had
      read that the previous operation is finished. */
  predicate StartsAlone(m: Mem, finished: bool, m1: Mem) {
    && m.log <= m1.log && |m1.log| <= |m.log| + 1
    && (|m1.log| > |m.log| ==> m.state == DriverIdle || finished)
  }

  lemma StartsOne(m: Mem, p: Prog, data: seq<Byte>, wr: nat, d: Digest, unlocked: bool)
    requires wr <= |data|
    ensures var t := EraseOrProgram(m, p, data, wr, unlocked); m.log <= t.mem.log && |t.mem.log| <= |m.log| + 1
    ensures var t := EraseOrProgramManifest(d, m, p, unlocked); m.log <= t.mem.log && |t.mem.log| <= |m.log| + 1
  {
  }

  lemma {:induction false} PollStartsAlone(d: Digest, m: Mem, p: Prog, env: Env)
    requires InSession(d, m, p) && !p.state.Done?
    ensures StartsAlone(m, !p.state.AwaitData? && !env.reply.Busy?, PollProgram(d, m, p, env.reply, env.unlocked).mem)
  {
    if !p.state.AwaitData? {
      var q := PollDriver(m, env.reply);
      if q.out.Ready? { ContinueStartsOne(d, q.mem, p, q.out.n, env.unlocked); }
      hide InSession, Continue;
    }
  }

  lemma ContinueStartsOne(d: Digest, m: Mem, p: Prog, n: nat, unlocked: bool)
    requires !p.state.AwaitData?
    ensures var t := Continue(d, m, p, n, unlocked); m.log <= t.mem.log && |t.mem.log| <= |m.log| + 1
  {
    match p.state
    case AwaitProgram(data, wr) =>
      if wr + n < |data| { StartsOne(m, p.(addr := p.addr + n), data, wr + n, d, unlocked); }
    case AwaitErase => StartsOne(m, p, [], 0, d, unlocked);
    case _ =>
  }

  lemma {:induction false} IdleStartsAlone(d: Digest, m: Mem, p: Prog, buf: seq<Byte>, env: Env)
    requires InSession(d, m, p)
    ensures StartsAlone(m, false, Update(m, p, buf, env.unlocked).mem)
    ensures StartsAlone(m, false, Finalize(d, m, p, env.unlocked).mem)
  {
    StartsOne(m, p, buf, 0, d, env.unlocked);
    hide EraseOrProgram, EraseOrProgramManifest;
  }

  /** In every run no flash operation is started while another is in flight. */
  lemma {:induction false} OneAtATime(
    d: Digest, caps: Capabilities, flash: Flash, pin: bool, run: seq<Stimulus>, st: Stimulus)
    ensures var dev := Run(d, caps, PowerOn(d, flash, pin), run);
      var finished := ReadsStatus(dev.handler, CallOf(caps, dev.cls, st.ev)) && !st.env.reply.Busy?;
      StartsAlone(dev.handler.mem, finished, Move(d, caps, dev, st).dev.handler.mem)
  {
    var dev := Run(d, caps, PowerOn(d, flash, pin), run);
    RunKeeps(d, caps, flash, pin, run);
    hide Run, PowerOn;
    if !dev.halted { ReactStartsAlone(d, dev.handler, CallOf(caps, dev.cls, st.ev), st.env); }
    hide React, Resume, Coherent, Coupled, Recorded, Safe;
  }

  lemma {:induction false} ReactStartsAlone(d: Digest, h: Handler, call: Call, env: Env)
    requires Coherent(d, h)
    ensures StartsAlone(h.mem, ReadsStatus(h, call) && !env.reply.Busy?, React(d, h, call, env).handler.mem)
  {
    hide InSession, AllConfined, PollProgram, Update, Finalize;
    if h.phase.Downloading? || h.phase.Manifesting? {
      PollStartsAlone(d, h.mem, h.phase.prog, env);
      IdleStartsAlone(d, h.mem, h.phase.prog, if call.CallDownload? then call.data else [], env);
    }
  }

  // ---- a start ----

  /** On any flash the device starts in dfuIDLE exactly if the boot pin is high, both boot words are in
      range and the manifest describes the application; and otherwise in dfuERROR with errFIRMWARE. */
  lemma {:induction false} StartShows(d: Digest, flash: Flash, pin: bool)
    ensures var s := PowerOn(d, flash, pin).cls;
      && Initial(s)
      && (s == DfuIdle <==> !pin && Boots(flash) && exists image :: Described(d, flash, image))
  {
    hide FirmwareValid, Boots, Described;
    FlashValidIff(d, Handler(Resting, Mem(flash, DriverIdle, [])), pin);
  }

  /** A session that is interrupted in any run after sector 7 was erased and before a manifest word is
      in place leaves a flash that starts in dfuIDLE only if the digest of the whole region
      happens to be all 0xFF. */
  lemma {:induction false} InterruptedStart(
    d: Digest, caps: Capabilities, flash: Flash, pin: bool, run: seq<Stimulus>, p: Prog, restartPin: bool)
    requires Under(Run(d, caps, PowerOn(d, flash, pin), run), p)
    requires LastSectorErased(p) && ManifestProgress(d, p) == 0
    ensures var f := Run(d, caps, PowerOn(d, flash, pin), run).handler.mem.flash;
      PowerOn(d, f, restartPin).cls == DfuIdle
      <==> !restartPin && Boots(f) && d.Of(f[0x8000..0x7_FF80]) == Blanks(d.Length())
  {
    hide Run, FirmwareValid, Boots;
    ManifestInSession(d, caps, flash, pin, run, p);
    var f := Run(d, caps, PowerOn(d, flash, pin), run).handler.mem.flash;
    BlankManifestValidIff(d, Handler(Resting, Mem(f, DriverIdle, [])), restartPin);
  }

  // ---- errors of the flash ----

  /** In dfuDNBUSY and dfuMANIFEST a poll that finds an operation finished with an error bit set, or
      its target not as asked for, shows the host exactly that, and the handler fails. */
  lemma {:induction false} FlashErrorShows(
    d: Digest, caps: Capabilities, dev: Device, elapsed: nat, env: Env, p: Prog)
    requires Sound(d, dev) && Under(dev, p) && (dev.cls.DfuDnloadBusy? || dev.cls.DfuManifest?)
    requires !p.state.AwaitData? && !env.reply.Busy?
    ensures var after := Move(d, caps, dev, Stimulus(Tick(elapsed), env)).dev;
      var st := dev.handler.mem.state;
      var wrperr, operr := env.reply.Fault? && env.reply.wrperr, env.reply.Fault? && env.reply.operr;
      && (st.Erasing? || st.Programming?)
      && (wrperr || operr || !ReadsAsAsked(after.handler.mem.flash, st) ==>
            && !after.halted && after.cls == DfuError(Complaint(st, wrperr, operr))
            && after.handler.phase.Failing? && after.handler.mem.state == DriverIdle)
  {
    UnderSession(d, dev, p);
    hide InSession, Sound, Move, ReadsAsAsked, Complaint, PollProgram;
    PollFails(d, dev.handler.mem, p, env);
    PollShows(d, caps, dev, elapsed, env, p);
  }

  lemma UnderSession(d: Digest, dev: Device, p: Prog)
    requires Sound(d, dev) && Under(dev, p)
    ensures InSession(d, dev.handler.mem, p) && !p.state.Done?
  {
  }

  lemma PollShows(d: Digest, caps: Capabilities, dev: Device, elapsed: nat, env: Env, p: Prog)
    requires Under(dev, p) && (dev.cls.DfuDnloadBusy? || dev.cls.DfuManifest?)
    ensures var after := Move(d, caps, dev, Stimulus(Tick(elapsed), env)).dev;
      var t := PollProgram(d, dev.handler.mem, p, env.reply, env.unlocked);
      && after.handler.mem == t.mem
      && (t.out.Failed? ==> !after.halted && after.cls == DfuError(t.out.error) && after.handler.phase.Failing?)
  {
    hide PollProgram;
  }

  lemma {:induction false} PollFails(d: Digest, m: Mem, p: Prog, env: Env)
    requires InSession(d, m, p) && !p.state.AwaitData? && !p.state.Done? && !env.reply.Busy?
    ensures m.state.Erasing? || m.state.Programming?
    ensures var t := PollProgram(d, m, p, env.reply, env.unlocked);
      var wrperr, operr := env.reply.Fault? && env.reply.wrperr, env.reply.Fault? && env.reply.operr;
      wrperr || operr || !ReadsAsAsked(t.mem.flash, m.state) ==>
        t.out == Failed(Complaint(m.state, wrperr, operr)) && t.mem.state == DriverIdle
  {
    PollVerdict(m, env.reply);
    var q := PollDriver(m, env.reply);
    if q.out.Ready? { ContinueLeavesFlash(d, q.mem, p, q.out.n, env.unlocked); }
    hide PollDriver, ReadsAsAsked, Complaint, Continue, InSession;
  }

  // ---- the class in front of this handler ----

  /** The answers the handler gives in a run. */
  function StepsOf(d: Digest, caps: Capabilities, dev: Device, run: seq<Stimulus>): seq<Step> {
    if run == [] then []
    else
      var before := Run(d, caps, dev, run[..|run| - 1]);
      var last := run[|run| - 1];
      StepsOf(d, caps, dev, run[..|run| - 1])
      + [Step(last.ev, React(d, before.handler, CallOf(caps, before.cls, last.ev), last.env).answer)]
  }

  /** Until it panics, a device run is a run of the class: what holds of the class with any handler
      holds of it. */
  lemma {:induction false} DeviceIsClassRun(d: Digest, caps: Capabilities, dev: Device, run: seq<Stimulus>)
    ensures |StepsOf(d, caps, dev, run)| == |run|
    ensures !Run(d, caps, dev, run).halted ==>
              After(caps, dev.cls, StepsOf(d, caps, dev, run)) == Run(d, caps, dev, run).cls
  {
    if run != [] {
      hide React, Resume, CallOf;
      var before := run[..|run| - 1];
      DeviceIsClassRun(d, caps, dev, before);
      var steps := StepsOf(d, caps, dev, run);
      assert steps[..|steps| - 1] == StepsOf(d, caps, dev, before);
    }
  }

  /** One more event of a device run is one more of the class. */
  lemma {:induction false} NextStep(d: Digest, caps: Capabilities, dev: Device, run: seq<Stimulus>, st: Stimulus)
    requires !Run(d, caps, dev, run + [st]).halted && !Run(d, caps, dev, run).halted
    ensures var before := Run(d, caps, dev, run);
      var a := React(d, before.handler, CallOf(caps, before.cls, st.ev), st.env).answer;
      var steps := StepsOf(d, caps, dev, run + [st]);
      && |steps| == |run| + 1 && steps[|run|] == Step(st.ev, a)
      && After(caps, dev.cls, steps[..|run|]) == before.cls
      && After(caps, dev.cls, steps[..|run| + 1]) == Move(d, caps, before, st).dev.cls
      && Move(d, caps, before, st).xfer == Resume(caps, before.cls, st.ev, a).xfer
  {
    hide React, Resume, CallOf;
    assert (run + [st])[..|run|] == run;
    DeviceIsClassRun(d, caps, dev, run);
    DeviceIsClassRun(d, caps, dev, run + [st]);
    var steps := StepsOf(d, caps, dev, run + [st]);
    assert steps[..|run|] == StepsOf(d, caps, dev, run) && steps[..|run| + 1] == steps;
  }

  lemma {:induction false} AskingIsSafe(d: Digest, caps: Capabilities, dev: Device, st: Stimulus)
    requires Sound(d, dev) && !dev.halted && st.ev.In?
    ensures !Move(d, caps, dev, st).dev.halted
  {
    hide InSession, Finalize, PollProgram, AllConfined, Resume;
    ManifestationKeeps(d, dev.handler, st.env);
  }

  lemma SilentStatus(d: Digest, caps: Capabilities, dev: Device, value: nat, length: nat, env: Env)
    requires !dev.halted && dev.cls.DfuManifestWaitReset?
    ensures Move(d, caps, dev, Stimulus(In(3, value, length), env)) == Moved(dev, Accept([]))
  {
  }

  /** In every run of the device a status request is answered - with silence in
      dfuMANIFEST-WAIT-RESET, with six true bytes everywhere else - unless it finds a manifestation
      failed. */
  lemma {:induction false} StatusInEveryRun(
    d: Digest, caps: Capabilities, flash: Flash, pin: bool, run: seq<Stimulus>, value: nat, length: nat, env: Env)
    requires !Run(d, caps, PowerOn(d, flash, pin), run).halted
    ensures var before := Run(d, caps, PowerOn(d, flash, pin), run);
      var moved := Move(d, caps, before, Stimulus(In(3, value, length), env));
      if before.cls.DfuManifestWaitReset? then moved == Moved(before, Accept([]))
      else
        || (moved.xfer.Accept? && TellsStatus(moved.xfer.bytes, moved.dev.cls, Advertised(caps, before.cls)))
        || (moved.xfer == Reject && moved.dev.cls == DfuError(StalledPkt)
            && (before.cls.DfuManifestSync? || before.cls.DfuManifest?))
  {
    hide Sound, Safe, PowerOn, TellsStatus, Advertised, Initial, After;
    var start, st := PowerOn(d, flash, pin), Stimulus(In(3, value, length), env);
    var before := Run(d, caps, start, run);
    RunKeeps(d, caps, flash, pin, run);
    StartShows(d, flash, pin);
    AskingIsSafe(d, caps, before, st);
    if before.cls.DfuManifestWaitReset? {
      SilentStatus(d, caps, before, value, length, env);
    } else {
      assert (run + [st])[..|run|] == run;
      hide React, Move, Resume, CallOf;
      NextStep(d, caps, start, run, st);
      StatusTellsTruth(caps, start.cls, StepsOf(d, caps, start, run + [st]), |run|);
    }
  }
}
