/** The class, the handler, the programming machine and the flash together, over every run
    of requests, polls and answers of the flash controller. */
module Device {
  import opened Bytes
  import opened Dfu
  import opened Platform
  import opened FlashSpec
  import opened ProgramSpec
  import opened Session
  import opened SessionSteps
  import opened Install
  import opened HandlerSpec
  import opened HandlerSteps
  import opened ClassSpec

  /** The length of the USB stack's control buffer. */
  const CONTROL_BUFFER: nat := 128

  /** `origin` and `received` are history: the flash when the handler last left its resting
      phase for a download, and every byte handed to it with success since. */
  datatype Device = Device(cls: State, handler: Handler, halted: bool, origin: Flash, received: seq<Byte>)

  datatype Stimulus = Stimulus(ev: Event, env: Env)

  datatype Moved = Moved(dev: Device, xfer: Xfer)

  function React(d: Digest, h: Handler, call: Call, env: Env): Reaction {
    match call
    case NoCall => Reaction(h, Okay)
    case AssertFails => Reaction(h, Panics)
    case AskComplete => TransferComplete(h)
    case AskManifest => ManifestationInProgress(d, h, env)
    case CallPoll => PollHandler(d, h, env)
    case CallUpload(_) => UploadBlock(h, CONTROL_BUFFER)
    case CallDownload(_, data) => DownloadBlock(h, data, env)
  }

  /** One event. A panic stops the device for good. */
  function Move(d: Digest, caps: Capabilities, dev: Device, st: Stimulus): Moved {
    if dev.halted then Moved(dev, NoXfer)
    else
      var call := CallOf(caps, dev.cls, st.ev);
      var r := React(d, dev.handler, call, st.env);
      if r.answer.Panics? then Moved(dev.(handler := r.handler, halted := true), NoXfer)
      else
        var o := Resume(caps, dev.cls, st.ev, r.answer);
        var taken := call.CallDownload? && !r.answer.Fails?;
        var opening := taken && dev.handler.phase.Resting?;
        Moved(Device(o.state, r.handler, false,
                     if opening then dev.handler.mem.flash else dev.origin,
                     if opening then call.data else if taken then dev.received + call.data else dev.received),
              o.xfer)
  }

  function Run(d: Digest, caps: Capabilities, dev: Device, run: seq<Stimulus>): Device {
    if run == [] then dev
    else Move(d, caps, Run(d, caps, dev, run[..|run| - 1]), run[|run| - 1]).dev
  }

  // ---- the invariant ----

  /** The state the class shows the host and the phase the handler is in. */
  predicate Coupled(s: State, phase: Phase) {
    match s
    case DfuDnloadSync => phase.Downloading?
    case DfuDnloadBusy(_) => phase.Downloading?
    case DfuDnloadIdle => phase.Downloading? && phase.prog.state.AwaitData?
    case DfuManifestSync =>
      (phase.Downloading? && phase.prog.state.AwaitData?) || phase.Manifesting? || phase.Resting?
    case DfuManifest(_) => phase.Manifesting? || phase.Resting?
    case DfuManifestWaitReset => phase.Manifesting? || phase.Resting?
    case DfuUploadIdle => phase.Uploading? || phase.Resting?
    case AppIdle => false
    case AppDetach(_) => false
    case _ => true
  }

  /** The states from the end of a download on. */
  predicate Manifested(s: State) {
    s.DfuManifestSync? || s.DfuManifest? || s.DfuManifestWaitReset?
  }

  /** The handler's session is the one the host's blocks went to; and once it rests after a
      manifestation, exactly these blocks are installed. */
  predicate Recorded(d: Digest, dev: Device) {
    && (dev.handler.phase.Downloading? || dev.handler.phase.Manifesting? ==>
        && dev.handler.phase.prog.hist.origin == dev.origin
        && dev.handler.phase.prog.hist.accepted == dev.received)
    && (Manifested(dev.cls) && dev.handler.phase.Resting? ==> InstalledNow(d, dev))
  }

  predicate InstalledNow(d: Digest, dev: Device) {
    |dev.received| <= APPLICATION_LENGTH && dev.handler.mem.flash == Installed(d, dev.origin, dev.received)
  }

  predicate Safe(dev: Device, boot: Flash) {
    && SameOn(dev.handler.mem.flash, boot, FLASH_BASE, APPLICATION_REGION_START)
    && AllConfined(dev.handler.mem.log)
    && AimedAtApplication(dev.handler.mem.state)
  }

  predicate Sound(d: Digest, dev: Device) {
    dev.halted || (Coherent(d, dev.handler) && Coupled(dev.cls, dev.handler.phase) && Recorded(d, dev))
  }

  // ---- one event ----

  lemma ReactGuarded(d: Digest, h: Handler, call: Call, env: Env)
    requires Coherent(d, h)
    ensures Guarded(d, h, React(d, h, call, env))
  {
    match call
    case AskManifest => ManifestationKeeps(d, h, env);
    case CallPoll => PollHandlerKeeps(d, h, env);
    case CallUpload(_) => UploadKeeps(d, h, CONTROL_BUFFER);
    case CallDownload(_, data) => DownloadKeeps(d, h, data, env);
    case _ => CoherentAim(d, h);
  }

  /** What a call does to the phase, as far as the class relies on it. */
  predicate PhaseMoves(h: Handler, call: Call, r: Reaction) {
    match call
    case AskComplete => r.handler == h && (r.answer.Yes? ==> h.phase.Downloading? && h.phase.prog.state.AwaitData?)
                        && (h.phase.Downloading? ==> !r.answer.Fails?)
    case AskManifest => (r.answer.Yes? ==> r.handler.phase.Manifesting?)
    case CallPoll =>
      && (h.phase.Downloading? && !r.answer.Fails? ==> r.handler.phase.Downloading?)
      && (h.phase.Manifesting? && !r.answer.Fails? ==> r.handler.phase.Manifesting? || r.handler.phase.Resting?)
      && (h.phase.Resting? ==> r.handler == h)
    case CallUpload(_) => !r.answer.Fails? ==> r.handler.phase.Uploading? || r.handler.phase.Resting?
    case CallDownload(_, _) => !r.answer.Fails? ==> r.handler.phase.Downloading?
    case _ => r.handler == h
  }

  lemma ReactMoves(d: Digest, h: Handler, call: Call, env: Env)
    requires Coherent(d, h) && !React(d, h, call, env).answer.Panics?
    ensures PhaseMoves(h, call, React(d, h, call, env))
  {
    hide InSession, PollProgram, Finalize, Update, New, AllConfined;
    if call.CallPoll? { PollHandlerKeeps(d, h, env); }
  }

  lemma CouplingKept(caps: Capabilities, s: State, h: Handler, ev: Event, r: Reaction)
    requires Coupled(s, h.phase) && PhaseMoves(h, CallOf(caps, s, ev), r) && !r.answer.Panics?
    requires CallOf(caps, s, ev) != AssertFails
    ensures Coupled(Resume(caps, s, ev, r.answer).state, r.handler.phase)
  {
  }

  predicate InSessionWith(phase: Phase, origin: Flash, received: seq<Byte>) {
    phase.Downloading? || phase.Manifesting? ==>
      phase.prog.hist.origin == origin && phase.prog.hist.accepted == received
  }

  lemma {:induction false} PollInstalls(d: Digest, m: Mem, p: Prog, env: Env)
    requires InSession(d, m, p) && !p.state.Done?
    ensures var t := PollProgram(d, m, p, env.reply, env.unlocked);
      && t.prog.hist == p.hist
      && (t.out.Ready? ==> |p.hist.accepted| <= APPLICATION_LENGTH
                           && t.mem.flash == Installed(d, p.hist.origin, p.hist.accepted))
  {
    hide InSession, PollProgram, Installed;
    PollKeeps(d, m, p, env.reply, env.unlocked);
    var t := PollProgram(d, m, p, env.reply, env.unlocked);
    if t.out.Ready? { DoneInstalled(d, t.mem, t.prog); }
  }

  /** Asking for manifestation, or polling it, only ever ends in the resting phase with the
      session's bytes installed. */
  lemma {:induction false} ManifestationInstalls(d: Digest, h: Handler, call: Call, env: Env)
    requires Coherent(d, h) && (call.AskManifest? || call.CallPoll?)
    requires h.phase.Downloading? || h.phase.Manifesting?
    ensures var r := React(d, h, call, env);
      var hist := h.phase.prog.hist;
      && InSessionWith(r.handler.phase, hist.origin, hist.accepted)
      && (r.handler.phase.Resting? ==> |hist.accepted| <= APPLICATION_LENGTH
                                       && r.handler.mem.flash == Installed(d, hist.origin, hist.accepted))
      && !r.handler.phase.Uploading?
  {
    hide InSession, PollProgram, Finalize, Installed, AllConfined;
    PollInstalls(d, h.mem, h.phase.prog, env);
    FinalizeKeeps(d, h.mem, h.phase.prog, env.unlocked);
  }

  lemma {:induction false} DownloadRecords(
    d: Digest, h: Handler, data: seq<Byte>, env: Env, origin: Flash, received: seq<Byte>)
    requires Coherent(d, h) && InSessionWith(h.phase, origin, received)
    ensures var r := DownloadBlock(h, data, env);
      r.answer == Okay ==>
        if h.phase.Resting? then InSessionWith(r.handler.phase, h.mem.flash, data)
        else InSessionWith(r.handler.phase, origin, received + data)
    ensures var r := DownloadBlock(h, data, env);
      r.answer.Fails? ==> InSessionWith(r.handler.phase, origin, received)
    ensures var r := DownloadBlock(h, data, env); r.answer.Fails? || r.answer.Panics? || r.answer == Okay
  {
    hide InSession, New, Update, AllConfined;
    if h.phase.Resting? { NewOpens(d, h.mem, data, env.unlocked); }
    if h.phase.Downloading? { UpdateKeeps(d, h.mem, h.phase.prog, data, env.unlocked); }
  }

  lemma {:induction false} RecordKept(d: Digest, caps: Capabilities, dev: Device, st: Stimulus)
    requires !dev.halted && Sound(d, dev) && !Move(d, caps, dev, st).dev.halted
    ensures Recorded(d, Move(d, caps, dev, st).dev)
  {
    hide Installed, InSession, PollProgram, Finalize, Update, New, AllConfined;
    var call := CallOf(caps, dev.cls, st.ev);
    match call
    case AskManifest => RecordManifest(d, caps, dev, st);
    case CallPoll => RecordManifest(d, caps, dev, st);
    case CallDownload(_, data) => DownloadRecords(d, dev.handler, data, st.env, dev.origin, dev.received);
    case _ =>
  }

  lemma {:induction false} RecordManifest(d: Digest, caps: Capabilities, dev: Device, st: Stimulus)
    requires !dev.halted && Sound(d, dev) && !Move(d, caps, dev, st).dev.halted
    requires var call := CallOf(caps, dev.cls, st.ev); call.AskManifest? || call.CallPoll?
    ensures Recorded(d, Move(d, caps, dev, st).dev)
  {
    hide Installed, InSession, PollProgram, Finalize, Update, New, AllConfined;
    if dev.handler.phase.Downloading? || dev.handler.phase.Manifesting? {
      ManifestationInstalls(d, dev.handler, CallOf(caps, dev.cls, st.ev), st.env);
    }
  }

  /** One event keeps the device safe, and sound as long as it does not panic, whatever the
      event and whatever the flash controller answers. */
  lemma {:induction false} MoveKeeps(d: Digest, caps: Capabilities, dev: Device, st: Stimulus, boot: Flash)
    requires Safe(dev, boot) && Sound(d, dev)
    ensures Safe(Move(d, caps, dev, st).dev, boot) && Sound(d, Move(d, caps, dev, st).dev)
  {
    if !dev.halted {
      hide AllConfined, AimedAtApplication, Recorded, Coupled, React, Resume;
      var call := CallOf(caps, dev.cls, st.ev);
      var r := React(d, dev.handler, call, st.env);
      ReactGuarded(d, dev.handler, call, st.env);
      if !r.answer.Panics? {
        ReactMoves(d, dev.handler, call, st.env);
        AssertPanics(d, dev.handler, call, st.env);
        CouplingKept(caps, dev.cls, dev.handler, st.ev, r);
        RecordKept(d, caps, dev, st);
      }
    }
  }

  lemma AssertPanics(d: Digest, h: Handler, call: Call, env: Env)
    ensures call == AssertFails ==> React(d, h, call, env).answer.Panics?
  {
  }

  // ---- runs ----

  /** The device after reset, on any flash. */
  function PowerOn(d: Digest, flash: Flash, bootPinLow: bool): Device {
    var h := Handler(Resting, Mem(flash, DriverIdle, []));
    Device(if FirmwareValid(d, h, bootPinLow) then DfuIdle else DfuError(Firmware), h, false, flash, [])
  }

  /** Any requests in any order, any polls, any behaviour of the flash controller. */
  lemma {:induction false} RunKeepsOn(d: Digest, caps: Capabilities, dev: Device, run: seq<Stimulus>, boot: Flash)
    requires Safe(dev, boot) && Sound(d, dev)
    ensures Safe(Run(d, caps, dev, run), boot) && Sound(d, Run(d, caps, dev, run))
  {
    if run != [] {
      hide Safe, Sound, Move;
      RunKeepsOn(d, caps, dev, run[..|run| - 1], boot);
      MoveKeeps(d, caps, Run(d, caps, dev, run[..|run| - 1]), run[|run| - 1], boot);
    }
  }

  /** In every run from power-on the two bootloader sectors keep their contents and no operation
      on them is ever started; and class, handler, program and driver stay in agreement. */
  lemma {:induction false} RunKeeps(d: Digest, caps: Capabilities, flash: Flash, pin: bool, run: seq<Stimulus>)
    ensures var dev := Run(d, caps, PowerOn(d, flash, pin), run);
      Safe(dev, flash) && Sound(d, dev)
  {
    hide Run, FirmwareValid;
    RunKeepsOn(d, caps, PowerOn(d, flash, pin), run, flash);
  }

  /** In every run: when the class answers a status request of dfuMANIFEST-SYNC or dfuMANIFEST
      by going idle, flash holds exactly the bytes the host had sent, with their length and
      digest in the manifest and everything else blank or as it was - however the flash
      controller behaved on the way. */
  lemma {:induction false} IdleAfterManifestMeansInstalled(
    d: Digest, caps: Capabilities, flash: Flash, pin: bool, run: seq<Stimulus>, st: Stimulus)
    ensures var dev := Run(d, caps, PowerOn(d, flash, pin), run);
      var after := Move(d, caps, dev, st).dev;
      !dev.halted && (dev.cls.DfuManifestSync? || dev.cls.DfuManifest?) && after.cls.DfuIdle? ==>
        InstalledNow(d, after) && after.received == dev.received && after.origin == dev.origin
  {
    hide Installed, InSession, PollProgram, Finalize, Update, New, AllConfined, Safe, UploadBlock, DownloadBlock,
      PollHandler, StatusBytes;
    RunKeeps(d, caps, flash, pin, run);
    var dev := Run(d, caps, PowerOn(d, flash, pin), run);
    if !dev.halted && (dev.handler.phase.Downloading? || dev.handler.phase.Manifesting?) {
      ManifestationInstalls(d, dev.handler, AskManifest, st.env);
    }
  }
}
