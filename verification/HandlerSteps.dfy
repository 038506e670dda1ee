/** What every call of the handler keeps, whatever the flash controller does and in
    whatever order the methods are called. */
module HandlerSteps {
  import opened Bytes
  import opened Platform
  import opened FlashSpec
  import opened ProgramSpec
  import opened Session
  import opened SessionSteps
  import opened Order
  import opened HandlerSpec

  /** An operation on the application's sectors, or a write into the application or
      manifest region. */
  predicate Confined(op: FlashOp) {
    match op
    case EraseOp(s) => s >= 2
    case WriteOp(a, bytes) =>
      && APPLICATION_REGION_START <= a && a + |bytes| <= FLASH_END
      && (a < MANIFEST_REGION_START ==> a + |bytes| <= MANIFEST_REGION_START)
  }

  predicate AllConfined(ops: seq<FlashOp>) {
    forall i :: 0 <= i < |ops| ==> Confined(ops[i])
  }

  predicate AimedAtApplication(st: DriverState) {
    st == DriverIdle || (APPLICATION_REGION_START <= TargetLo(st) && TargetHi(st) <= FLASH_END)
  }

  /** The phase, the program and the driver are in agreement. */
  predicate Coherent(d: Digest, h: Handler) {
    && AllConfined(h.mem.log)
    && match h.phase {
         case Downloading(p) => InSession(d, h.mem, p) && Receiving(p)
         case Manifesting(p) => InSession(d, h.mem, p) && !Receiving(p) && !p.state.Done?
         case Uploading(_) => h.mem.state == DriverIdle
         case Resting => h.mem.state == DriverIdle
         case Failing => AimedAtApplication(h.mem.state)
       }
  }

  lemma {:induction false} OrderedConfined(ops: seq<FlashOp>)
    requires Replay(ops).Front?
    ensures AllConfined(ops)
  {
    if ops != [] {
      OrderedConfined(ops[..|ops| - 1]);
      ReplayBounds(ops[..|ops| - 1]);
      var fr := Replay(ops[..|ops| - 1]);
      SectorsTile(fr.erased);
      if fr.erased == 1 && ops[|ops| - 1].WriteOp? { assert SectorEnd(1) == APPLICATION_REGION_START; }
      assert Confined(ops[|ops| - 1]);
    }
  }

  lemma SessionConfined(d: Digest, m: Mem, p: Prog)
    requires InSession(d, m, p) && AllConfined(m.log[..p.hist.mark])
    ensures AllConfined(m.log)
  {
    OrderedConfined(SessionOps(m, p.hist));
    forall i | 0 <= i < |m.log| ensures Confined(m.log[i]) {
      if i < p.hist.mark { assert m.log[i] == m.log[..p.hist.mark][i]; }
      else { assert m.log[i] == SessionOps(m, p.hist)[i - p.hist.mark]; }
    }
  }

  lemma SessionAim(d: Digest, m: Mem, p: Prog)
    requires InSession(d, m, p)
    ensures AimedAtApplication(m.state)
  {
    SectorsTile(p.sector);
    if p.state.AwaitProgram? { ChunkAligned(p.addr, |PendingBytes(p)|); }
    ManifestRegion(d);
  }

  /** What a handler call keeps: the bootloader sectors and coherence; and if it panics, no
      more than two application cells were handed to the controller. */
  predicate Guarded(d: Digest, h: Handler, r: Reaction) {
    && SameOn(r.handler.mem.flash, h.mem.flash, FLASH_BASE, APPLICATION_REGION_START)
    && AllConfined(r.handler.mem.log)
    && AimedAtApplication(r.handler.mem.state)
    && (!r.answer.Panics? ==> Coherent(d, r.handler))
  }

  lemma CoherentAim(d: Digest, h: Handler)
    requires Coherent(d, h)
    ensures AimedAtApplication(h.mem.state)
  {
    if h.phase.Downloading? || h.phase.Manifesting? { SessionAim(d, h.mem, h.phase.prog); }
  }

  lemma DoneIdle(d: Digest, m: Mem, p: Prog)
    requires InSession(d, m, p) && p.state.Done?
    ensures m.state == DriverIdle
  {
  }

  lemma {:induction false} KeptConfined(d: Digest, m: Mem, p: Prog, t: Turn)
    requires InSession(d, m, p) && AllConfined(m.log) && Kept(d, m, p.hist, t)
    ensures AllConfined(t.mem.log) && AimedAtApplication(t.mem.state)
  {
    SessionAim(d, m, p);
    if t.out.Pending? || t.out.Ready? {
      assert t.mem.log[..p.hist.mark] == m.log[..p.hist.mark];
      SessionConfined(d, t.mem, t.prog);
      SessionAim(d, t.mem, t.prog);
    }
  }

  lemma {:induction false} ManifestationKeeps(d: Digest, h: Handler, env: Env)
    requires Coherent(d, h)
    ensures Guarded(d, h, ManifestationInProgress(d, h, env))
    ensures !ManifestationInProgress(d, h, env).answer.Panics?
  {
    hide InSession, Finalize, PollProgram, AllConfined, AimedAtApplication, SameOn;
    SameOnSelf(h.mem.flash, FLASH_BASE, APPLICATION_REGION_START);
    CoherentAim(d, h);
    if h.phase.Downloading? {
      FinalizeKeeps(d, h.mem, h.phase.prog, env.unlocked);
      KeptConfined(d, h.mem, h.phase.prog, Finalize(d, h.mem, h.phase.prog, env.unlocked));
    } else if h.phase.Manifesting? {
      PollKeeps(d, h.mem, h.phase.prog, env.reply, env.unlocked);
      var t := PollProgram(d, h.mem, h.phase.prog, env.reply, env.unlocked);
      KeptConfined(d, h.mem, h.phase.prog, t);
      if t.out.Ready? { DoneIdle(d, t.mem, t.prog); }
    }
  }

  lemma {:induction false} PollHandlerKeeps(d: Digest, h: Handler, env: Env)
    requires Coherent(d, h)
    ensures Guarded(d, h, PollHandler(d, h, env))
    ensures h.phase.Downloading? ==>
      var r := PollHandler(d, h, env);
      r.answer.Panics? || r.handler.phase.Downloading? || (r.answer.Fails? && r.handler.phase.Failing?)
  {
    hide InSession, PollProgram, AllConfined, AimedAtApplication, SameOn;
    SameOnSelf(h.mem.flash, FLASH_BASE, APPLICATION_REGION_START);
    CoherentAim(d, h);
    if h.phase.Downloading? || h.phase.Manifesting? {
      PollKeeps(d, h.mem, h.phase.prog, env.reply, env.unlocked);
      var t := PollProgram(d, h.mem, h.phase.prog, env.reply, env.unlocked);
      KeptConfined(d, h.mem, h.phase.prog, t);
      if t.out.Ready? { DoneIdle(d, t.mem, t.prog); }
    }
  }

  lemma {:induction false} DownloadKeeps(d: Digest, h: Handler, buf: seq<Byte>, env: Env)
    requires Coherent(d, h)
    ensures Guarded(d, h, DownloadBlock(h, buf, env))
  {
    CoherentAim(d, h);
    match h.phase
    case Resting =>
      NewOpens(d, h.mem, buf, env.unlocked);
      var o := New(h.mem, buf, env.unlocked);
      if o.Opened? {
        assert o.mem.log[..|h.mem.log|] == h.mem.log;
        SessionConfined(d, o.mem, o.prog);
        SessionAim(d, o.mem, o.prog);
      }
    case Downloading(p) =>
      UpdateKeeps(d, h.mem, p, buf, env.unlocked);
      hide InSession, Update, New;
      KeptConfined(d, h.mem, p, Update(h.mem, p, buf, env.unlocked));
    case _ =>
  }

  lemma UploadKeeps(d: Digest, h: Handler, room: nat)
    requires Coherent(d, h)
    ensures Guarded(d, h, UploadBlock(h, room))
    ensures UploadBlock(h, room).handler.mem == h.mem
  {
    CoherentAim(d, h);
  }
}
