/** Every operation of the programming machine keeps the session invariant or stops with
    everything that matters untouched, whatever the flash controller answers. */
module SessionSteps {
  import opened Bytes
  import opened Dfu
  import opened Platform
  import opened FlashSpec
  import opened ProgramSpec
  import opened Session

  /** A stopped session has left the bootloader alone and has started nothing new; at
      worst two application cells were handed to the controller before a panic. */
  predicate StoppedSafely(m: Mem, t: Turn) {
    && t.mem.log == m.log
    && (t.mem.state == DriverIdle || t.mem.state == m.state
        || (t.out.Panicked? && t.mem.state.Stray?
            && APPLICATION_REGION_START <= t.mem.state.addr && t.mem.state.addr + 2 <= MANIFEST_REGION_START))
  }

  /** The outcome of one operation of a session. */
  predicate Kept(d: Digest, m: Mem, h: History, t: Turn) {
    && t.prog.hist.origin == h.origin && t.prog.hist.mark == h.mark
    && m.log <= t.mem.log
    && SameOn(t.mem.flash, m.flash, FLASH_BASE, APPLICATION_REGION_START)
    && (t.out.Pending? ==> InSession(d, t.mem, t.prog) && !t.prog.state.Done?)
    && (t.out.Ready? ==> InSession(d, t.mem, t.prog) && t.prog.state.Done?)
    && (t.out.Failed? || t.out.Panicked? ==> StoppedSafely(m, t))
  }

  /** The next piece cannot be cut from what is left. */
  predicate Uncuttable(addr: int, len: nat) {
    !(0 < ChunkSize(addr, len) <= len)
  }

  lemma PollBlockErased(d: Digest, m: Mem, p: Prog, m1: Mem, unlocked: bool)
    requires InSession(d, m, p) && p.state.AwaitEraseBeforeProgram? && Completed(m, m1)
    ensures var t := Continue(d, m1, p, 0, unlocked);
      && t.prog.hist == p.hist && Kept(d, m1, p.hist, t) && !t.out.Ready?
      && (t.out.Pending? ==> t.prog == p.(state := AwaitProgram(p.state.data, p.state.wr)))
      && (t.out.Failed? ==> !unlocked)
      && (t.out.Panicked? ==> !Chunkable(p.addr, |PendingBytes(p)|) || PendingBytes(p) == [])
      && (t.out.Panicked? <==> unlocked && Uncuttable(p.addr, |PendingBytes(p)|))
  {
    ErasedForBlock(d, m, m1, p);
    var t := Continue(d, m1, p, 0, unlocked);
    if t.out.Pending? {
      SectorsTile(p.sector);
      IssueProgram(d, m1, Written(p, 0), t.prog);
    }
  }

  lemma PollLastChunk(d: Digest, m: Mem, p: Prog, m1: Mem, n: nat, unlocked: bool)
    requires InSession(d, m, p) && p.state.AwaitProgram? && Completed(m, m1)
    requires n == ChunkSize(p.addr, |PendingBytes(p)|) == |PendingBytes(p)|
    ensures Continue(d, m1, p, n, unlocked) == Turn(m1, p.(addr := p.addr + n, state := AwaitData), Pending)
    ensures InSession(d, m1, p.(addr := p.addr + n, state := AwaitData))
    ensures Kept(d, m1, p.hist, Continue(d, m1, p, n, unlocked))
  {
    WrittenChunk(d, m, m1, p, n);
    assert p.hist.accepted[..p.addr + n - APPLICATION_REGION_START] == p.hist.accepted;
    assert p.(addr := p.addr + n, state := AwaitData) == Written(p, n);
  }

  /** len bytes at p.addr make the driver panic: there is room for them, no sector to be erased
      first, and no piece to be cut. */
  predicate PanicsOn(p: Prog, len: nat, unlocked: bool) {
    unlocked && p.addr < MANIFEST_REGION_START && TryFrom(p.addr) == Ok(p.sector) && Uncuttable(p.addr, len)
  }

  /** The outcome of going on with `rest` at p.addr, everything before being in place. */
  predicate Issued(d: Digest, m: Mem, p: Prog, rest: seq<Byte>, unlocked: bool, t: Turn) {
    && t.prog.hist == p.hist && Kept(d, m, p.hist, t) && !t.out.Ready? && t.mem.flash == m.flash
    && (t.out.Pending? ==> && Receiving(t.prog) && !t.prog.state.AwaitData?
                           && t.prog.addr == p.addr && PendingBytes(t.prog) == rest)
    && (t.out.Failed? <==> p.addr == MANIFEST_REGION_START || !unlocked)
    && (t.out.Failed? ==> t.mem == m && t.out.error == if p.addr == MANIFEST_REGION_START then Address else Write)
    && (t.out.Panicked? <==> PanicsOn(p, |rest|, unlocked))
  }

  lemma IssueTurn(d: Digest, m: Mem, idle: Prog, p: Prog, data: seq<Byte>, wr: nat, unlocked: bool)
    requires InSession(d, m, idle) && wr <= |data| <= TRANSFER_SIZE && Accepts(idle, p, data[wr..])
    ensures Issued(d, m, p, data[wr..], unlocked, EraseOrProgram(m, p, data, wr, unlocked))
  {
    IssueOutcome(m, p, data, wr, unlocked);
    var t := EraseOrProgram(m, p, data, wr, unlocked);
    if t.out.Pending? { IssueKeeps(d, m, idle, p, data, wr); }
  }

  lemma GoOn(d: Digest, m: Mem, idle: Prog, p: Prog, n: nat, unlocked: bool)
    requires InSession(d, m, idle) && p.state.AwaitProgram? && WellBuffered(p.state)
    requires n < |PendingBytes(p)| && Accepts(idle, p.(addr := p.addr + n), PendingBytes(p)[n..])
    ensures Issued(d, m, p.(addr := p.addr + n), PendingBytes(p)[n..], unlocked, Continue(d, m, p, n, unlocked))
  {
    hide InSession, Kept;
    assert p.state.data[p.state.wr + n..] == PendingBytes(p)[n..];
    IssueTurn(d, m, idle, p.(addr := p.addr + n), p.state.data, p.state.wr + n, unlocked);
  }

  lemma PollMoreChunks(d: Digest, m: Mem, p: Prog, m1: Mem, n: nat, unlocked: bool)
    requires InSession(d, m, p) && p.state.AwaitProgram? && Completed(m, m1)
    requires n == ChunkSize(p.addr, |PendingBytes(p)|) < |PendingBytes(p)|
    ensures Issued(d, m1, p.(addr := p.addr + n), PendingBytes(p)[n..], unlocked, Continue(d, m1, p, n, unlocked))
    ensures Continue(d, m1, p, n, unlocked).out.Panicked? ==> !Chunkable(p.addr, |PendingBytes(p)|)
  {
    assert WellBuffered(p.state);
    hide InSession, Kept;
    WrittenChunk(d, m, m1, p, n);
    GoOn(d, m1, Written(p, n), p, n, unlocked);
  }

  /** What a controller that stays locked leaves of the program: the next step was taken as far as the
      sector, and no further. */
  lemma LockedLeaves(d: Digest, m: Mem, p: Prog, data: seq<Byte>, wr: nat)
    requires wr <= |data| && p.addr < MANIFEST_REGION_START
    ensures EraseOrProgram(m, p, data, wr, false) == Turn(m, p.(sector := TryFrom(p.addr).value), Failed(Write))
    ensures EraseOrProgramManifest(d, m, p, false)
            == Turn(m, if p.sector < 7 then p.(sector := p.sector + 1, state := AwaitErase) else p, Failed(Write))
  {
    TryFromRefinesTable(p.addr);
  }

  /** Polling a program that is done is the one arm no run reaches: it panics. */
  lemma DonePanics(d: Digest, m: Mem, p: Prog, reply: Reply, unlocked: bool)
    requires InSession(d, m, p) && p.state.Done?
    ensures PollProgram(d, m, p, reply, unlocked) == Turn(m, p, Panicked)
  {
  }

  // ---- the operations ----

  lemma NewOpens(d: Digest, m: Mem, buf: seq<Byte>, unlocked: bool)
    ensures var o := New(m, buf, unlocked);
      && (o.Opened? <==> |buf| <= TRANSFER_SIZE && unlocked)
      && (o.Opened? ==> && InSession(d, o.mem, o.prog) && o.prog.state.AwaitEraseBeforeProgram?
                        && o.prog.hist == History(m.flash, |m.log|, buf) && PendingBytes(o.prog) == buf
                        && o.mem.flash == m.flash && o.mem.log == m.log + [EraseOp(2)])
      && (!o.Opened? ==> o.mem == m)
      && (o.Crashed? <==> TRANSFER_SIZE < |buf| < APPLICATION_LENGTH)
      && (o.Refused? ==> o.error == if |buf| >= APPLICATION_LENGTH then Address else Write)
  {
    NewShape(m, buf, unlocked);
    var o := New(m, buf, unlocked);
    if o.Opened? {
      hide New;
      NewInSession(d, m, buf, o.mem, o.prog);
    }
  }

  lemma NewShape(m: Mem, buf: seq<Byte>, unlocked: bool)
    ensures New(m, buf, unlocked)
            == if |buf| >= APPLICATION_LENGTH then Refused(m, Address)
               else if |buf| > TRANSFER_SIZE then Crashed(m)
               else if !unlocked then Refused(m, Write)
               else Opened(Mem(m.flash, Erasing(2), m.log + [EraseOp(2)]),
                           Prog(2, APPLICATION_REGION_START, AwaitEraseBeforeProgram(buf, 0),
                                History(m.flash, |m.log|, buf)))
  {
    TryFromRefinesTable(APPLICATION_REGION_START);
  }

  lemma NewInSession(d: Digest, m: Mem, buf: seq<Byte>, m1: Mem, p: Prog)
    requires m1 == Mem(m.flash, Erasing(2), m.log + [EraseOp(2)]) && |buf| <= TRANSFER_SIZE
    requires p == Prog(2, APPLICATION_REGION_START, AwaitEraseBeforeProgram(buf, 0), History(m.flash, |m.log|, buf))
    ensures InSession(d, m1, p)
  {
    hide Ordered, Conserved, Surroundings;
    NewOrdered(m, m1, p);
    NewConserves(m1, p);
    NewSurroundings(d, m1, p);
  }

  lemma NewSurroundings(d: Digest, m1: Mem, p: Prog)
    requires p.addr == APPLICATION_REGION_START && p.sector == 2 && p.state.AwaitEraseBeforeProgram?
    requires p.hist.origin == m1.flash
    ensures Surroundings(d, m1, p)
  {
    hide Holds, Manifest;
    SameOnSelf(m1.flash, FLASH_BASE, APPLICATION_REGION_START);
    SameOnSelf(m1.flash, BlankEnd(p), FLASH_END);
    NothingBlank(m1.flash, APPLICATION_REGION_START);
    hide SameOn, Blank;
  }

  lemma SameOnSelf(f: Flash, lo: int, hi: int)
    ensures SameOn(f, f, lo, hi)
  {
  }

  lemma NothingBlank(f: Flash, at: int)
    ensures Blank(f, at, at)
  {
  }

  lemma NewOrdered(m: Mem, m1: Mem, p: Prog)
    requires m1.log == m.log + [EraseOp(2)] && m1.state == Erasing(2)
    requires p.hist.mark == |m.log| && p.sector == 2 && p.addr == APPLICATION_REGION_START
    ensures Ordered(m1, p)
  {
    assert m1.log[|m.log|..] == [] + [EraseOp(2)];
    ReplaySnoc([], EraseOp(2));
  }

  lemma NewConserves(m1: Mem, p: Prog)
    requires p.addr == APPLICATION_REGION_START && p.state == AwaitEraseBeforeProgram(p.hist.accepted, 0)
    ensures Conserved(m1, p)
  {
    assert p.hist.accepted[..0] == [] && p.hist.accepted[0..] == p.hist.accepted;
  }

  /** A further block is accepted exactly when the machine is waiting for one, the block fits
      the buffer, there is room below the manifest, the controller unlocks, and - unless the
      block opens a new sector - its first piece can be cut. */
  lemma UpdateKeeps(d: Digest, m: Mem, p: Prog, buf: seq<Byte>, unlocked: bool)
    requires InSession(d, m, p)
    ensures var t := Update(m, p, buf, unlocked);
      && Kept(d, m, p.hist, t) && !t.out.Ready? && t.mem.flash == m.flash
      && (t.out.Pending? ==> && t.prog.hist.accepted == p.hist.accepted + buf && PendingBytes(t.prog) == buf
                             && Receiving(t.prog) && !t.prog.state.AwaitData?)
      && (!t.out.Pending? ==> t.prog.hist == p.hist)
      && (!p.state.AwaitData? ==> t == Turn(m, p, Failed(Unknown)))
      && (p.state.AwaitData? && |buf| > TRANSFER_SIZE ==> t == Turn(m, p, Panicked))
      && (p.state.AwaitData? && |buf| <= TRANSFER_SIZE ==>
          && (t.out.Failed? <==> p.addr == MANIFEST_REGION_START || !unlocked)
          && (t.out.Failed? ==>
                t.mem == m && t.out.error == (if p.addr == MANIFEST_REGION_START then Address else Write))
          && (t.out.Panicked? <==> PanicsOn(p, |buf|, unlocked)))
  {
    if p.state.AwaitData? && |buf| <= TRANSFER_SIZE {
      var p1 := p.(hist := p.hist.(accepted := p.hist.accepted + buf));
      assert buf[0..] == buf;
      IssueTurn(d, m, p, p1, buf, 0, unlocked);
      var t, t1 := Update(m, p, buf, unlocked), EraseOrProgram(m, p1, buf, 0, unlocked);
      assert t.out == t1.out && t.mem == t1.mem;
      assert t.out.Pending? ==> t == t1;
    }
  }

  /** Finalisation starts exactly from a machine that waits for data. */
  lemma FinalizeKeeps(d: Digest, m: Mem, p: Prog, unlocked: bool)
    requires InSession(d, m, p)
    ensures var t := Finalize(d, m, p, unlocked);
      && Kept(d, m, p.hist, t) && t.prog.hist == p.hist && t.mem.flash == m.flash
      && (t.out.Pending? <==> p.state.AwaitData? && unlocked)
      && (t.out.Pending? ==> !Receiving(t.prog))
      && (t.out.Failed? ==> t.mem == m && t.out.error == if p.state.AwaitData? then Write else Unknown)
      && !t.out.Ready? && !t.out.Panicked?
  {
    if p.state.AwaitData? {
      AwaitDataComplete(d, m, p);
      ManifestIssue(d, m, p, unlocked);
    }
  }

  /** The second half of a poll, after the driver has verified its operation. */
  lemma ContinueKeeps(d: Digest, m: Mem, p: Prog, m1: Mem, n: nat, unlocked: bool)
    requires InSession(d, m, p) && !p.state.AwaitData? && !p.state.Done? && Completed(m, m1)
    requires n == if m.state.Programming? then |m.state.src| else 0
    ensures var t := Continue(d, m1, p, n, unlocked);
      && Kept(d, m1, p.hist, t) && t.prog.hist == p.hist
      && (t.out.Pending? ==> (Receiving(t.prog) <==> Receiving(p)))
      && (t.out.Ready? ==> !Receiving(p))
      && (t.out.Panicked? ==> Receiving(p) && (!Chunkable(p.addr, |PendingBytes(p)|) || PendingBytes(p) == []))
  {
    hide Kept, Chunkable;
    match p.state
    case AwaitEraseBeforeProgram(_, _) => PollBlockErased(d, m, p, m1, unlocked);
    case AwaitProgram(_, _) =>
      if n == |PendingBytes(p)| { PollLastChunk(d, m, p, m1, n, unlocked); }
      else { PollMoreChunks(d, m, p, m1, n, unlocked); }
    case AwaitErase => PollSectorErased(d, m, p, m1, unlocked);
    case AwaitProgramManifest(data, wr) => PollManifestWord(d, m, p, m1, unlocked);
  }

  lemma PollSectorErased(d: Digest, m: Mem, p: Prog, m1: Mem, unlocked: bool)
    requires InSession(d, m, p) && p.state.AwaitErase? && Completed(m, m1)
    ensures var t := Continue(d, m1, p, 0, unlocked);
      && Kept(d, m1, p.hist, t) && t.prog.hist == p.hist && !t.out.Panicked? && !t.out.Ready?
      && (t.out.Pending? ==> !Receiving(t.prog))
  {
    hide InSession, Complete;
    ErasedComplete(d, m, m1, p);
    ManifestIssue(d, m1, p, unlocked);
  }

  lemma PollManifestWord(d: Digest, m: Mem, p: Prog, m1: Mem, unlocked: bool)
    requires InSession(d, m, p) && p.state.AwaitProgramManifest? && Completed(m, m1)
    ensures var t := Continue(d, m1, p, 4, unlocked);
      && Kept(d, m1, p.hist, t) && t.prog.hist == p.hist && !t.out.Panicked?
      && (t.out.Pending? ==> !Receiving(t.prog))
  {
    ManifestRegion(d);
    if p.state.wr + 4 == |p.state.data| { LastManifestWord(d, m, m1, p); }
    else if unlocked { NextManifestWord(d, m, m1, p); }
  }

  lemma BusyWaits(d: Digest, m: Mem, p: Prog, unlocked: bool)
    requires InSession(d, m, p) && !p.state.Done?
    ensures PollProgram(d, m, p, Busy, unlocked) == Turn(m, p, Pending)
  {
  }

  /** One poll of a session, under any answer of the controller. A panic means the pending
      bytes cannot be cut into whole pieces. */
  lemma PollKeeps(d: Digest, m: Mem, p: Prog, reply: Reply, unlocked: bool)
    requires InSession(d, m, p) && !p.state.Done?
    ensures var t := PollProgram(d, m, p, reply, unlocked);
      && Kept(d, m, p.hist, t) && t.prog.hist == p.hist
      && (t.out.Pending? ==> (Receiving(t.prog) <==> Receiving(p)))
      && (t.out.Ready? ==> !Receiving(p))
      && (p.state.AwaitData? ==> t == Turn(m, p, Pending))
      && (t.out.Panicked? ==> Receiving(p) && (!Chunkable(p.addr, |PendingBytes(p)|) || PendingBytes(p) == []))
  {
    if !p.state.AwaitData? {
      SectorsTile(p.sector);
      PollVerified(m, reply);
      PollFrame(m, reply, FLASH_BASE, APPLICATION_REGION_START);
      var q := PollDriver(m, reply);
      if q.out.Ready? { ContinueKeeps(d, m, p, q.mem, q.out.n, unlocked); }
    }
  }
}
