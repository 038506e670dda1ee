/** What a host can rely on when it downloads and reads back, from whatever the device was
    doing before. */
module Exchange {
  import opened Bytes
  import opened Dfu
  import opened Platform
  import opened FlashSpec
  import opened ProgramSpec
  import opened Session
  import opened Download
  import opened Counts
  import opened Install
  import opened HandlerSpec
  import opened HandlerSteps
  import opened ClassSpec
  import opened Device
  import opened Firmware
  import opened Waiting
  import opened Protocol
  import opened Upload

  // ---- does a download install its own blocks? ----

  /** Idle, with exactly `image` installed over the flash `before`. */
  predicate InstalledOver(d: Digest, before: Flash, image: seq<Byte>, dev: Device) {
    && !dev.halted && dev.cls.DfuIdle?
    && |image| <= APPLICATION_LENGTH && dev.handler.mem.flash == Installed(d, before, image)
  }

  /** Two flashes with the same bootloader and the same image installed are the same, and an
      installed flash tells its image. */
  lemma InstalledSame(d: Digest, f: Flash, g: Flash, a: seq<Byte>, b: seq<Byte>)
    requires |a| <= APPLICATION_LENGTH && |b| <= APPLICATION_LENGTH
    requires SameOn(f, g, FLASH_BASE, APPLICATION_REGION_START)
    ensures Installed(d, f, a) == Installed(d, g, b) <==> a == b
  {
    InstalledReads(d, f, a);
    InstalledReads(d, g, b);
    var n := APPLICATION_REGION_START - FLASH_BASE;
    assert f[..n] == g[..n];
  }

  lemma SessionOrigin(d: Digest, h: Handler)
    requires Coherent(d, h) && Takes(h)
    ensures SameOn(Before(h).origin, h.mem.flash, FLASH_BASE, APPLICATION_REGION_START)
  {
  }

  /** A download that is through has installed its own blocks if and only if the handler started
      with nothing accepted, every block fits, and none ends 3 modulo 4. */
  lemma {:induction false} OwnBlocksIff(
    d: Digest, caps: Capabilities, dev: Device, ships: seq<Shipment>, closing: seq<Stimulus>)
    requires !dev.halted && dev.cls.DfuIdle? && caps.canDownload && caps.manifestationTolerant
    requires Coherent(d, dev.handler) && ships != [] && Shippable(caps, ships) && Closing(caps, closing)
    requires Through(d, caps, dev, ships, closing)
    ensures var feeds := Feeds(caps, ships);
      InstalledOver(d, dev.handler.mem.flash, Image(feeds), HostDownload(d, caps, dev, ships, closing))
      <==> Takes(dev.handler) && Before(dev.handler).accepted == []
           && FateOf(APPLICATION_REGION_START, feeds).GoesWell?
  {
    hide InSession, HostDownload, Feeds, FateOf, Full, Installed, Coherent, Image, Closing, Shippable, Through;
    HostDownloadFate(d, caps, dev, ships, closing);
    if Takes(dev.handler) {
      var h, image := Before(dev.handler), Image(Feeds(caps, ships));
      SessionOrigin(d, dev.handler);
      var all := h.accepted + image;
      assert |all| == |h.accepted| + |image|;
      if |all| <= APPLICATION_LENGTH { InstalledSame(d, h.origin, dev.handler.mem.flash, all, image); }
      if h.accepted == [] { assert all == image; }
    }
  }

  /** No session is ever open without a byte accepted. */
  lemma {:induction false} SessionsAreNotEmpty(
    d: Digest, caps: Capabilities, flash: Flash, pin: bool, run: seq<Stimulus>)
    ensures var dev := Run(d, caps, PowerOn(d, flash, pin), run);
      !dev.halted && (dev.handler.phase.Downloading? || dev.handler.phase.Manifesting?) ==> dev.received != []
  {
    if run != [] {
      hide Safe, Move, Sound;
      SessionsAreNotEmpty(d, caps, flash, pin, run[..|run| - 1]);
      RunKeeps(d, caps, flash, pin, run[..|run| - 1]);
      var dev := Run(d, caps, PowerOn(d, flash, pin), run[..|run| - 1]);
      StaysNotEmpty(d, caps, dev, run[|run| - 1]);
    }
  }

  lemma {:induction false} StaysNotEmpty(d: Digest, caps: Capabilities, dev: Device, st: Stimulus)
    requires Sound(d, dev)
    requires !dev.halted && (dev.handler.phase.Downloading? || dev.handler.phase.Manifesting?) ==> dev.received != []
    ensures var after := Move(d, caps, dev, st).dev;
      !after.halted && (after.handler.phase.Downloading? || after.handler.phase.Manifesting?) ==> after.received != []
  {
    hide InSession, PollProgram, Finalize, Update, New, AllConfined, Recorded, Resume;
  }

  /** In every run, a download from dfuIDLE that is through has installed its own blocks if and
      only if the handler was resting, every block fits, and none ends 3 modulo 4. */
  lemma {:induction false} OwnBlocksInEveryRun(
    d: Digest, caps: Capabilities, flash: Flash, pin: bool, run: seq<Stimulus>,
    ships: seq<Shipment>, closing: seq<Stimulus>)
    requires caps.canDownload && caps.manifestationTolerant
    requires ships != [] && Shippable(caps, ships) && Closing(caps, closing)
    requires var dev := Run(d, caps, PowerOn(d, flash, pin), run);
      !dev.halted && dev.cls.DfuIdle? && Through(d, caps, dev, ships, closing)
    ensures var dev := Run(d, caps, PowerOn(d, flash, pin), run);
      var feeds := Feeds(caps, ships);
      InstalledOver(d, dev.handler.mem.flash, Image(feeds), HostDownload(d, caps, dev, ships, closing))
      <==> dev.handler.phase.Resting? && FateOf(APPLICATION_REGION_START, feeds).GoesWell?
  {
    hide InSession, HostDownload, Feeds, FateOf, Installed, AllConfined, Image, Closing, Shippable, Through, Run,
      PowerOn, Safe, InstalledOver, Coupled;
    RunKeeps(d, caps, flash, pin, run);
    SessionsAreNotEmpty(d, caps, flash, pin, run);
    OwnBlocksIff(d, caps, Run(d, caps, PowerOn(d, flash, pin), run), ships, closing);
  }

  // ---- reading back ----

  /** What a host downloads it reads back, behind what it had left in an unfinished session: an
      upload of full control buffers after a download that went well returns exactly the accepted
      bytes, in one short request after the full ones. */
  lemma {:induction false} DownloadThenUpload(
    d: Digest, caps: Capabilities, dev: Device, ships: seq<Shipment>, closing: seq<Stimulus>, env: Env, tries: nat)
    requires !dev.halted && dev.cls.DfuIdle? && caps.canDownload && caps.manifestationTolerant
    requires Coherent(d, dev.handler) && ships != [] && Shippable(caps, ships) && Closing(caps, closing)
    requires Through(d, caps, dev, ships, closing)
    requires caps.canUpload && CONTROL_BUFFER <= caps.transferSize && Takes(dev.handler)
    requires FateOf(APPLICATION_REGION_START + |Before(dev.handler).accepted|, Feeds(caps, ships)).GoesWell?
    requires tries > (|Before(dev.handler).accepted| + |Image(Feeds(caps, ships))|) / CONTROL_BUFFER
    ensures var all := Before(dev.handler).accepted + Image(Feeds(caps, ships));
      var r := ReadBack(d, caps, HostDownload(d, caps, dev, ships, closing), CONTROL_BUFFER, env, tries);
      && r.bytes == all && r.requests == |all| / CONTROL_BUFFER + 1 && r.dev.cls == DfuIdle
  {
    hide InSession, HostDownload, Feeds, FateOf, Full, Installed, Coherent, Image, Closing, Shippable, Through,
      ReadBack, ManifestLength, ApplicationBytes;
    HostDownloadFate(d, caps, dev, ships, closing);
    var after := HostDownload(d, caps, dev, ships, closing);
    var h := Before(dev.handler);
    var all := h.accepted + Image(Feeds(caps, ships));
    InstalledReads(d, h.origin, all);
    assert ReadyToSend(caps, after, all);
    ReadBackAll(d, caps, after, env, all, tries);
  }

  // ---- the next start ----

  /** After a download that went well the device starts with a valid firmware exactly if the boot pin
      is high and the first two words of what it accepted are in range. */
  lemma {:induction false} StartsAfterDownload(
    d: Digest, caps: Capabilities, dev: Device, ships: seq<Shipment>, closing: seq<Stimulus>, pin: bool)
    requires !dev.halted && dev.cls.DfuIdle? && caps.canDownload && caps.manifestationTolerant
    requires Coherent(d, dev.handler) && ships != [] && Shippable(caps, ships) && Closing(caps, closing)
    requires Through(d, caps, dev, ships, closing) && Takes(dev.handler)
    requires FateOf(APPLICATION_REGION_START + |Before(dev.handler).accepted|, Feeds(caps, ships)).GoesWell?
    ensures var after := HostDownload(d, caps, dev, ships, closing);
      PowerOn(d, after.handler.mem.flash, pin).cls == DfuIdle
      <==> !pin && Bootable(Before(dev.handler).accepted + Image(Feeds(caps, ships)))
  {
    hide InSession, HostDownload, Feeds, FateOf, Full, Installed, Coherent, Image, Closing, Shippable, Through,
      FirmwareValid, Bootable;
    HostDownloadFate(d, caps, dev, ships, closing);
    var after, h := HostDownload(d, caps, dev, ships, closing), Before(dev.handler);
    var started := Handler(Resting, Mem(after.handler.mem.flash, DriverIdle, []));
    ImageValidIff(d, started, h.origin, h.accepted + Image(Feeds(caps, ships)), pin);
  }

  // ---- a device that is not manifestation-tolerant ----

  /** In every run, dfuMANIFEST-WAIT-RESET means that the session's blocks are installed if the
      handler rests, and otherwise that the session has not finished; either way nothing but a
      reset changes anything any more. */
  lemma {:induction false} WaitResetMeans(
    d: Digest, caps: Capabilities, flash: Flash, pin: bool, run: seq<Stimulus>, more: seq<Stimulus>)
    requires var dev := Run(d, caps, PowerOn(d, flash, pin), run); !dev.halted && dev.cls.DfuManifestWaitReset?
    ensures var dev := Run(d, caps, PowerOn(d, flash, pin), run);
      && (if dev.handler.phase.Resting? then InstalledNow(d, dev)
          else dev.handler.phase.Manifesting? && !dev.handler.phase.prog.state.Done?)
      && Run(d, caps, dev, more) == dev
  {
    hide InSession, AllConfined, Installed, Safe, PowerOn;
    RunKeeps(d, caps, flash, pin, run);
    WaitResetStands(d, caps, Run(d, caps, PowerOn(d, flash, pin), run), more);
  }

  lemma {:induction false} WaitResetStands(d: Digest, caps: Capabilities, dev: Device, more: seq<Stimulus>)
    requires dev.cls.DfuManifestWaitReset?
    ensures Run(d, caps, dev, more) == dev
  {
    if more != [] { WaitResetStands(d, caps, dev, more[..|more| - 1]); }
  }

  /** On working flash the handler rests in dfuMANIFEST-WAIT-RESET, with the session installed, if
      and only if the polls and status requests in dfuMANIFEST completed as many operations as
      the manifestation had left. The time that passed does not matter. */
  lemma {:induction false} WaitResetInstalledIff(
    d: Digest, caps: Capabilities, dev: Device, p: Prog, m: Mem, beats: seq<Stimulus>)
    requires !caps.manifestationTolerant && AllPatient(beats) && FaultFree(Polled(caps, dev.cls, beats))
    requires ManifestingAt(dev, p, m) && OnCourse(d, m, p) && !p.state.Done?
    requires Run(d, caps, dev, beats).cls.DfuManifestWaitReset?
    ensures var after := Run(d, caps, dev, beats);
      && (after.handler.phase.Resting? <==> Completions(Polled(caps, dev.cls, beats)) >= Remaining(d, p))
      && (after.handler.phase.Resting? ==>
            && |p.hist.accepted| <= APPLICATION_LENGTH
            && after.handler.mem.flash == Installed(d, p.hist.origin, p.hist.accepted))
      && (!after.handler.phase.Resting? ==> after.handler.phase.Manifesting?)
  {
    hide OnCourse, Run, Drive, Polled, PaceAll, FaultFree, Completions, Remaining, Installed;
    var replies := Polled(caps, dev.cls, beats);
    var t := Drive(d, m, p, replies);
    AwaitManifestIsDrive(d, caps, dev, p, m, beats);
    DriveExact(d, m, p, replies);
    RemainingZero(d, t.mem, t.prog);
    DriveKeepsPhase(d, m, p, replies);
    if t.out.Ready? { CourseDone(d, t.mem, t.prog); }
  }

  lemma CourseDone(d: Digest, m: Mem, p: Prog)
    requires OnCourse(d, m, p) && p.state.Done?
    ensures |p.hist.accepted| <= APPLICATION_LENGTH && m.flash == Installed(d, p.hist.origin, p.hist.accepted)
  {
    DoneInstalled(d, m, p);
  }
}
