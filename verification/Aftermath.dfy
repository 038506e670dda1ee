/** Where the firmware falls short of what its protocol suggests, with the exact condition
    in each case and an input that shows it. */
module Aftermath {
  import opened Bytes
  import opened Dfu
  import opened Platform
  import opened FlashSpec
  import opened ProgramSpec
  import opened Session
  import opened SessionSteps
  import opened Download
  import opened Install
  import opened HandlerSpec
  import opened HandlerSteps
  import opened HandlerAnswers
  import opened ClassSpec
  import opened Device
  import opened Waiting
  import opened Protocol
  import opened Upload

  // ---- after a failure ----

  /** What the class shows while its handler has failed. */
  predicate OutOfPlay(dev: Device) {
    dev.handler.phase.Failing? && (dev.halted || dev.cls.DfuIdle? || dev.cls.DfuError?)
  }

  lemma OutOfPlayStep(d: Digest, caps: Capabilities, dev: Device, st: Stimulus)
    requires OutOfPlay(dev)
    ensures var after := Move(d, caps, dev, st).dev; OutOfPlay(after) && after.handler == dev.handler
  {
  }

  lemma {:induction false} StaysOutOfPlay(d: Digest, caps: Capabilities, dev: Device, more: seq<Stimulus>)
    requires OutOfPlay(dev)
    ensures var after := Run(d, caps, dev, more); OutOfPlay(after) && after.handler == dev.handler
  {
    if more != [] {
      hide Move, OutOfPlay;
      StaysOutOfPlay(d, caps, dev, more[..|more| - 1]);
      OutOfPlayStep(d, caps, Run(d, caps, dev, more[..|more| - 1]), more[|more| - 1]);
    }
  }

  /** Once a flash operation, or a request out of turn, has made the handler fail, nothing but a
      reset brings it back: in every run the class then shows dfuIDLE or dfuERROR at most, and
      nothing that follows changes the handler or the flash. */
  lemma {:induction false} FailureIsFinal(
    d: Digest, caps: Capabilities, flash: Flash, pin: bool, run: seq<Stimulus>, more: seq<Stimulus>)
    requires Run(d, caps, PowerOn(d, flash, pin), run).handler.phase.Failing?
    ensures var dev := Run(d, caps, PowerOn(d, flash, pin), run);
      OutOfPlay(dev) && Run(d, caps, dev, more).handler == dev.handler
  {
    hide Move, PowerOn, Coherent, Recorded, Safe;
    RunKeeps(d, caps, flash, pin, run);
    StaysOutOfPlay(d, caps, Run(d, caps, PowerOn(d, flash, pin), run), more);
  }

  // ---- an error during manifestation ----

  /** An error of the handler during manifestation reaches the host under its own code if and
      only if a poll of the class finds it; a status request that finds it reports
      errSTALLEDPKT. */
  lemma ManifestErrorIff(d: Digest, caps: Capabilities, dev: Device, st: Stimulus, e: Error)
    requires !dev.halted && (dev.cls.DfuManifestSync? || dev.cls.DfuManifest?)
    requires var call := CallOf(caps, dev.cls, st.ev);
      (call.AskManifest? || call.CallPoll?) && React(d, dev.handler, call, st.env).answer == Fails(e)
    ensures var after := Move(d, caps, dev, st).dev;
      && (after.cls == DfuError(e) <==> st.ev.Tick? || e == StalledPkt)
      && (after.cls == DfuError(e) || after.cls == DfuError(StalledPkt))
  {
    hide React;
  }

  /** For example, a write error while the manifest is written. */
  lemma {:induction false} WriteErrorHidden(
    d: Digest, caps: Capabilities, dev: Device, p: Prog, m: Mem, timeout: nat, cells: nat -> Byte)
    requires Standing(dev, DfuManifest(timeout), Manifesting(p), m)
    requires InSession(d, m, p) && p.state.AwaitProgramManifest?
    ensures var env := Env(Fault(true, false, cells), true);
      && Move(d, caps, dev, Stimulus(In(DFU_GETSTATUS, 0, 6), env)).dev.cls == DfuError(StalledPkt)
      && Move(d, caps, dev, Stimulus(Tick(0), env)).dev.cls == DfuError(Write)
  {
    WriteErrorFails(d, m, p, cells);
    hide PollProgram, InSession;
  }

  lemma {:induction false} WriteErrorFails(d: Digest, m: Mem, p: Prog, cells: nat -> Byte)
    requires InSession(d, m, p) && p.state.AwaitProgramManifest?
    ensures PollProgram(d, m, p, Fault(true, false, cells), true).out == Failed(Write)
  {
    assert m.state.Programming?;
    hide InSession;
  }

  // ---- a download from dfuIDLE ----

  /** What the first block sent in dfuIDLE joins: a session of its own exactly if the handler
      rests and the controller unlocks. If a session was left it is appended to the blocks sent
      before, exactly if the program waits for data and the block can be started. After anything
      else it fails. */
  lemma {:induction false} NextDownload(
    d: Digest, caps: Capabilities, dev: Device, number: nat, block: seq<Byte>, env: Env)
    requires !dev.halted && dev.cls.DfuIdle? && caps.canDownload
    requires Coherent(d, dev.handler) && 0 < |block| <= TRANSFER_SIZE
    ensures var h := dev.handler;
      var after := Move(d, caps, dev, Block(number, block, env)).dev;
      match h.phase
      case Resting =>
        && !after.halted
        && (env.unlocked ==>
              && after.cls == DfuDnloadSync && after.handler.phase.Downloading?
              && after.handler.phase.prog.hist == History(h.mem.flash, |h.mem.log|, block))
        && (!env.unlocked ==> after.cls == DfuError(Write) && after.handler == h)
      case Downloading(p) =>
        && (!after.halted && after.cls == DfuDnloadSync <==>
              && p.state.AwaitData? && p.addr < MANIFEST_REGION_START && env.unlocked
              && !PanicsOn(p, |block|, env.unlocked))
        && (after.halted <==> p.state.AwaitData? && PanicsOn(p, |block|, env.unlocked))
        && (!after.halted && after.cls == DfuDnloadSync ==>
              after.handler.phase.Downloading? && after.handler.phase.prog.hist == Accepting(p.hist, block))
        && (!after.halted && after.cls != DfuDnloadSync ==>
              && after.handler.phase.Failing?
              && after.cls == DfuError(if !p.state.AwaitData? then Unknown
                                       else if p.addr == MANIFEST_REGION_START then Address else Write))
      case _ => !after.halted && after.cls == DfuError(Unknown) && after.handler.phase.Failing?
  {
    hide InSession, Update, New, AllConfined, PanicsOn;
    match dev.handler.phase
    case Resting =>
      NewOpens(d, dev.handler.mem, block, env.unlocked);
      NewLocked(dev.handler.mem, block);
    case Downloading(p) => UpdateExactly(d, dev.handler.mem, p, block, env.unlocked);
    case _ =>
  }

  lemma NewLocked(m: Mem, block: seq<Byte>)
    requires |block| <= TRANSFER_SIZE
    ensures New(m, block, false) == Refused(m, Write)
  {
    TryFromRefinesTable(APPLICATION_REGION_START);
  }

  lemma {:induction false} UpdateExactly(d: Digest, m: Mem, p: Prog, block: seq<Byte>, unlocked: bool)
    requires InSession(d, m, p) && |block| <= TRANSFER_SIZE
    ensures var t := Update(m, p, block, unlocked);
      && !t.out.Ready?
      && (t.out.Pending? <==> && p.state.AwaitData? && p.addr < MANIFEST_REGION_START && unlocked
                              && !PanicsOn(p, |block|, unlocked))
      && (t.out.Panicked? <==> p.state.AwaitData? && PanicsOn(p, |block|, unlocked))
      && (t.out.Pending? ==> t.prog.hist == Accepting(p.hist, block))
      && (t.out.Failed? ==> t.out.error == if !p.state.AwaitData? then Unknown
                                           else if p.addr == MANIFEST_REGION_START then Address else Write)
  {
    UpdateKeeps(d, m, p, block, unlocked);
    if p.state.AwaitData? { AtMostFull(d, m, p); }
  }

  const CLEAR_STATUS: Stimulus := Stimulus(Out(DFU_CLRSTATUS, 0, 0, []), Env(Busy, true))

  /** A host that aborts a download and clears the error that earns it finds the class in dfuIDLE,
      but the handler still in its session. */
  lemma AbandonKeepsSession(d: Digest, caps: Capabilities, dev: Device, p: Prog, m: Mem)
    requires Standing(dev, DfuDnloadIdle, Downloading(p), m)
    ensures Standing(Run(d, caps, dev, [ABORT, CLEAR_STATUS]), DfuIdle, Downloading(p), m)
  {
    var run := [ABORT, CLEAR_STATUS];
    assert run[..1] == [ABORT] && [ABORT][..0] == [];
    assert Standing(Run(d, caps, dev, [ABORT]), DfuError(StalledPkt), Downloading(p), m);
  }

  /** Its next download, if it goes well, ends in dfuIDLE with the abandoned blocks installed in
      front of its own. */
  lemma {:induction false} AbandonedIsPrepended(
    d: Digest, caps: Capabilities, dev: Device, p: Prog, m: Mem, ships: seq<Shipment>, closing: seq<Stimulus>)
    requires Standing(dev, DfuDnloadIdle, Downloading(p), m) && p.state.AwaitData? && Coherent(d, dev.handler)
    requires caps.canDownload && caps.manifestationTolerant
    requires ships != [] && Shippable(caps, ships) && Closing(caps, closing)
    requires Through(d, caps, Run(d, caps, dev, [ABORT, CLEAR_STATUS]), ships, closing)
    requires FateOf(p.addr, Feeds(caps, ships)).GoesWell?
    ensures var after := HostDownload(d, caps, Run(d, caps, dev, [ABORT, CLEAR_STATUS]), ships, closing);
      var all := p.hist.accepted + Image(Feeds(caps, ships));
      && Standing(after, DfuIdle, Resting, after.handler.mem)
      && |all| <= APPLICATION_LENGTH && after.handler.mem.flash == Installed(d, p.hist.origin, all)
  {
    hide InSession, Run, HostDownload, Feeds, FateOf, Installed, AllConfined, Image, Closing, Shippable, Through, Full;
    AbandonKeepsSession(d, caps, dev, p, m);
    AwaitDataAddr(d, m, p);
    HostDownloadFate(d, caps, Run(d, caps, dev, [ABORT, CLEAR_STATUS]), ships, closing);
  }

  /** Sending blocks is a run: it keeps the device safe and sound. */
  lemma {:induction false} SendKeeps(d: Digest, caps: Capabilities, dev: Device, ships: seq<Shipment>, boot: Flash)
    requires Safe(dev, boot) && Sound(d, dev)
    ensures Safe(SendBlocks(d, caps, dev, ships), boot) && Sound(d, SendBlocks(d, caps, dev, ships))
    decreases |ships|
  {
    if ships != [] {
      hide Safe, Sound, Move, Run;
      var sent := Block(ships[0].number, ships[0].block);
      MoveKeeps(d, caps, dev, sent, boot);
      RunKeepsOn(d, caps, Move(d, caps, dev, sent).dev, ships[0].beats, boot);
      SendKeeps(d, caps, SendOne(d, caps, dev, ships[0]), ships[1..], boot);
    }
  }

  /** For example: four bytes are sent, abandoned, and four others downloaded. The device ends
      idle, with all eight installed. */
  lemma {:induction false} AbandonedExample(
    d: Digest, caps: Capabilities, dev: Device, m: Mem, beats: seq<Stimulus>, closing: seq<Stimulus>)
    requires Standing(dev, DfuIdle, Resting, m) && Coherent(d, dev.handler)
    requires caps.canDownload && caps.manifestationTolerant
    requires AllPatient(beats) && AskedLast(beats)
    requires FaultFree(Polled(caps, DfuDnloadSync, beats)) && Completions(Polled(caps, DfuDnloadSync, beats)) > 8
    requires Closing(caps, closing) && Completions(ManifestPolls(caps, closing)) >= 14 && AskedLast(closing)
    ensures var sent := SendBlocks(d, caps, dev, [Shipment(0, [1, 2, 3, 4], beats)]);
      var after := HostDownload(d, caps, Run(d, caps, sent, [ABORT, CLEAR_STATUS]),
                                [Shipment(0, [5, 6, 7, 8], beats)], closing);
      && Standing(after, DfuIdle, Resting, after.handler.mem)
      && after.handler.mem.flash == Installed(d, m.flash, [1, 2, 3, 4, 5, 6, 7, 8])
  {
    hide InSession, Run, HostDownload, Installed, AllConfined, Closing, Full, SendBlocks, WaitedOut, ManifestPolls,
      Completions, FaultFree, Polled, Through, Feeds, Image, FateOf, Delivered, AllPatient;
    var first, second := [Shipment(0, [1, 2, 3, 4], beats)], [Shipment(0, [5, 6, 7, 8], beats)];
    OneShipment(caps, first[0]);
    OneShipment(caps, second[0]);
    var t := SendFate(d, caps, dev, first);
    DeliveredDecides(d, caps, dev, first, t);
    SendKeeps(d, caps, dev, first, m.flash);
    var sent := SendBlocks(d, caps, dev, first);
    assert [] + [1, 2, 3, 4] == [1, 2, 3, 4];
    AwaitDataAddr(d, t.mem, t.prog);
    AbandonKeepsSession(d, caps, sent, t.prog, t.mem);
    TimelyIsThrough(d, caps, Run(d, caps, sent, [ABORT, CLEAR_STATUS]), second, closing);
    AbandonedIsPrepended(d, caps, sent, t.prog, t.mem, second, closing);
    assert [1, 2, 3, 4] + [5, 6, 7, 8] == [1, 2, 3, 4, 5, 6, 7, 8];
  }

  // ---- after an upload ----

  /** After the host has read to the end with any wLength but 0, whether from the start or from
      what an earlier upload had left, its next download is accepted exactly if the last, short
      block was empty and the controller unlocks: otherwise the handler has not noticed the end of
      the upload, and fails. */
  lemma {:induction false} DownloadAfterUpload(
    d: Digest, caps: Capabilities, dev: Device, length: nat, reading: Env, rest: seq<Byte>, tries: nat,
    number: nat, block: seq<Byte>, env: Env)
    requires Offers(caps, dev, rest) && Admits(caps, dev, length) && caps.canDownload
    requires Coherent(d, dev.handler) && length > 0
    requires tries > Buffers(|rest|) && 0 < |block| <= TRANSFER_SIZE
    ensures var read := ReadBack(d, caps, dev, length, reading, tries).dev;
      var after := Move(d, caps, read, Block(number, block, env)).dev;
      && (after.cls == DfuDnloadSync <==> Notices(length, |rest|) && env.unlocked)
      && (!Notices(length, |rest|) ==> after.cls == DfuError(Unknown) && after.handler.phase.Failing?)
      && (Notices(length, |rest|) && !env.unlocked ==> after.cls == DfuError(Write) && after.handler.phase.Resting?)
  {
    hide Move, ReadBack, Left, Notices;
    ReadBackEnds(d, caps, dev, length, reading, rest, tries);
    NextDownload(d, caps, ReadBack(d, caps, dev, length, reading, tries).dev, number, block, env);
  }

  /** After an upload is aborted the next download fails, unless the handler has come to rest: in
      dfuUPLOAD-IDLE it rests only if the last request took nothing off it. */
  lemma {:induction false} DownloadAfterAbort(
    d: Digest, caps: Capabilities, dev: Device, number: nat, block: seq<Byte>, env: Env)
    requires !dev.halted && dev.cls.DfuUploadIdle? && Sends(dev.handler) && caps.canDownload
    requires Coherent(d, dev.handler) && 0 < |block| <= TRANSFER_SIZE
    ensures var aborted := Move(d, caps, dev, ABORT).dev;
      var after := Move(d, caps, aborted, Block(number, block, env)).dev;
      && aborted == dev.(cls := DfuIdle)
      && (after.cls == DfuDnloadSync <==> dev.handler.phase.Resting? && env.unlocked)
      && (dev.handler.phase.Uploading? ==> after.cls == DfuError(Unknown) && after.handler.phase.Failing?)
  {
    AbortKeepsUpload(d, caps, dev);
    hide Move;
    NextDownload(d, caps, dev.(cls := DfuIdle), number, block, env);
  }

  /** For example, after a firmware of 100 bytes was read back: with wLength 128 the handler is still
      uploading, with 64 it rests again. */
  lemma {:induction false} HundredBytesBlockDownload(
    d: Digest, caps: Capabilities, dev: Device, env: Env, app: seq<Byte>)
    requires ReadyToSend(caps, dev, app) && CONTROL_BUFFER <= caps.transferSize && caps.canDownload
    requires Coherent(d, dev.handler) && |app| == 100
    ensures var full := ReadBack(d, caps, dev, 128, env, 2).dev;
      var half := ReadBack(d, caps, dev, 64, env, 2).dev;
      && Move(d, caps, full, Block(0, [1, 2, 3, 4])).dev.cls == DfuError(Unknown)
      && Move(d, caps, half, Block(0, [1, 2, 3, 4])).dev.cls == DfuDnloadSync
  {
    hide Move, ReadBack, Left;
    DownloadAfterUpload(d, caps, dev, 128, env, app, 2, 0, [1, 2, 3, 4], Env(Busy, true));
    DownloadAfterUpload(d, caps, dev, 64, env, app, 2, 0, [1, 2, 3, 4], Env(Busy, true));
  }

  /** And 256 bytes, of which one block is read before ABORT, keep the next download out. */
  lemma {:induction false} AbortBlocksDownload(
    d: Digest, caps: Capabilities, dev: Device, env: Env, app: seq<Byte>)
    requires ReadyToSend(caps, dev, app) && CONTROL_BUFFER <= caps.transferSize && caps.canDownload
    requires Coherent(d, dev.handler) && |app| == 256
    ensures var begun := Move(d, caps, dev, UploadRequest(0, CONTROL_BUFFER, env)).dev;
      var aborted := Move(d, caps, begun, ABORT).dev;
      Move(d, caps, aborted, Block(0, [1, 2, 3, 4])).dev.cls == DfuError(Unknown)
  {
    hide Move, Left;
    UploadMove(d, caps, dev, 0, CONTROL_BUFFER, env, app);
    var begun := Move(d, caps, dev, UploadRequest(0, CONTROL_BUFFER, env)).dev;
    DownloadAfterAbort(d, caps, begun, 0, [1, 2, 3, 4], Env(Busy, true));
  }

  // ---- a device that is not manifestation-tolerant ----

  /** A manifestation whose first poll finds the flash busy for the whole timeout ends in
      dfuMANIFEST-WAIT-RESET without being finished. */
  lemma WaitResetTooEarly(d: Digest, caps: Capabilities, dev: Device, p: Prog, m: Mem, timeout: nat)
    requires !caps.manifestationTolerant && Standing(dev, DfuManifest(timeout), Manifesting(p), m)
    requires InSession(d, m, p) && !p.state.Done?
    ensures Standing(Move(d, caps, dev, Stimulus(Tick(timeout), Env(Busy, true))).dev,
                     DfuManifestWaitReset, Manifesting(p), m)
  {
    BusyWaits(d, m, p, true);
    hide PollProgram, InSession;
  }

  // ---- a block the firmware cannot cut ----

  /** A download of a single block of three bytes makes the firmware panic. */
  lemma {:induction false} ThreeBytesPanic(
    d: Digest, caps: Capabilities, dev: Device, m: Mem, beats: seq<Stimulus>, closing: seq<Stimulus>)
    requires Standing(dev, DfuIdle, Resting, m) && Coherent(d, dev.handler)
    requires caps.canDownload && caps.manifestationTolerant
    requires var ships := [Shipment(0, [1, 2, 3], beats)]; Shippable(caps, ships) && Timely(caps, ships)
    requires Closing(caps, closing) && Completions(ManifestPolls(caps, closing)) >= 14 && AskedLast(closing)
    ensures HostDownload(d, caps, dev, [Shipment(0, [1, 2, 3], beats)], closing).halted
  {
    hide HostDownload, Completions, Shippable, Timely, Closing, ManifestPolls, Coherent, Through, Feeds, FateOf, Image;
    var ships := [Shipment(0, [1, 2, 3], beats)];
    OneShipment(caps, ships[0]);
    TimelyIsThrough(d, caps, dev, ships, closing);
    HostDownloadFate(d, caps, dev, ships, closing);
  }

  lemma OneShipment(caps: Capabilities, ship: Shipment)
    ensures Feeds(caps, [ship]) == [FeedOf(caps, ship)]
    ensures Image(Feeds(caps, [ship])) == ship.block
    ensures forall start :: FateOf(start, Feeds(caps, [ship])) == FateAt(start + |ship.block|)
  {
    assert Feeds(caps, [ship]) == [FeedOf(caps, ship)] + Feeds(caps, []);
    assert [FeedOf(caps, ship)][1..] == [];
  }
}
