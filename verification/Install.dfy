/** From the first block to the last manifest word: what a whole download session on
    working flash leaves in flash, and how many operations each part takes. */
module Install {
  import opened Bytes
  import opened Dfu
  import opened Platform
  import opened FlashSpec
  import opened ProgramSpec
  import opened Session
  import opened SessionSteps
  import opened Download
  import opened Counts
  import opened Order

  // ---- the result ----

  function Blanks(n: nat): seq<Byte> { seq(n, _ => ERASED) }

  /** Flash with `image` installed over `origin`. */
  function Installed(d: Digest, origin: Flash, image: seq<Byte>): Flash
    requires |image| <= APPLICATION_LENGTH
  {
    origin[..APPLICATION_REGION_START - FLASH_BASE]
    + image + Blanks(APPLICATION_LENGTH - |image|)
    + ManifestBytes(d, |image|, image) + Blanks(128 - ManifestSize(d))
  }

  /** A session that is done has installed exactly what it accepted. This holds whatever the
      controller answered on the way. */
  lemma DoneInstalled(d: Digest, m: Mem, p: Prog)
    requires InSession(d, m, p) && p.state.Done?
    ensures |p.hist.accepted| <= APPLICATION_LENGTH
    ensures m.flash == Installed(d, p.hist.origin, p.hist.accepted)
    ensures m.state == DriverIdle
  {
    var image := p.hist.accepted;
    assert image[..|image|] == image;
    var f := Installed(d, p.hist.origin, image);
    forall i | 0 <= i < FLASH_SIZE ensures m.flash[i] == f[i] {
    }
    assert m.flash == f;
  }

  // ---- lists of blocks ----

  /** A block, and the answers of the controller while it is being written. */
  datatype Feed = Feed(block: seq<Byte>, replies: seq<Reply>)

  function Image(feeds: seq<Feed>): seq<Byte> {
    if feeds == [] then [] else feeds[0].block + Image(feeds[1..])
  }

  /** Blocks the class can hand over, on working flash. */
  predicate Feedable(feeds: seq<Feed>) {
    forall i :: 0 <= i < |feeds| ==> Feedable1(feeds[i])
  }

  predicate Feedable1(feed: Feed) {
    0 < |feed.block| <= TRANSFER_SIZE && FaultFree(feed.replies)
  }

  /** Polled for long enough, whatever becomes of the blocks. */
  predicate Ample(feeds: seq<Feed>) {
    forall i :: 0 <= i < |feeds| ==> Completions(feeds[i].replies) > 2 * |feeds[i].block|
  }

  /** What the first block in trouble, if any, comes to. */
  function FateOf(start: int, feeds: seq<Feed>): Fate
    decreases |feeds|
  {
    if feeds == [] then GoesWell
    else
      var end := start + |feeds[0].block|;
      if FateAt(end).GoesWell? then FateOf(end, feeds[1..]) else FateAt(end)
  }

  /** All goes well exactly when everything fits below the manifest and no block ends 3
      modulo 4. */
  lemma {:induction false} FateIff(start: int, feeds: seq<Feed>)
    ensures FateOf(start, feeds).GoesWell? <==>
      forall k :: 1 <= k <= |feeds| ==> FateAt(start + |Image(feeds[..k])|).GoesWell?
    decreases |feeds|
  {
    if feeds != [] {
      var end := start + |feeds[0].block|;
      FateIff(end, feeds[1..]);
      forall k | 1 <= k <= |feeds|
        ensures |Image(feeds[..k])| == |feeds[0].block| + |Image(feeds[1..][..k - 1])|
      {
        assert feeds[..k][1..] == feeds[1..][..k - 1];
      }
      if FateOf(start, feeds).GoesWell? {
        forall k | 1 <= k <= |feeds| ensures FateAt(start + |Image(feeds[..k])|).GoesWell? {
          if k > 1 { assert FateAt(end + |Image(feeds[1..][..k - 1])|).GoesWell?; }
        }
      } else if FateAt(end).GoesWell? {
        var k :| 1 <= k <= |feeds[1..]| && !FateAt(end + |Image(feeds[1..][..k])|).GoesWell?;
        assert !FateAt(start + |Image(feeds[..k + 1])|).GoesWell?;
      } else {
        assert |Image(feeds[..1])| == |feeds[0].block|;
      }
    }
  }

  /** The program has written its block and waits for the next. */
  predicate Waits(t: Turn) {
    t.out.Pending? && t.prog.state.AwaitData?
  }

  /** Update with a block and poll. */
  function FeedOne(d: Digest, m: Mem, p: Prog, feed: Feed): Turn {
    var t := Update(m, p, feed.block, true);
    if t.out.Pending? then Drive(d, t.mem, t.prog, feed.replies) else t
  }

  /** Each block in turn, as long as the one before is written. */
  function FeedAll(d: Digest, m: Mem, p: Prog, feeds: seq<Feed>): Turn
    decreases |feeds|
  {
    if feeds == [] then Turn(m, p, Pending)
    else
      var u := FeedOne(d, m, p, feeds[0]);
      if Waits(u) then FeedAll(d, u.mem, u.prog, feeds[1..]) else u
  }

  function Accepting(h: History, more: seq<Byte>): History {
    h.(accepted := h.accepted + more)
  }

  /** The outcome of feeding blocks on top of history h. */
  predicate Fed(d: Digest, h: History, feeds: seq<Feed>, fate: Fate, t: Turn) {
    match fate
    case GoesWell =>
      t.out.Pending? && InSession(d, t.mem, t.prog) && t.prog.state.AwaitData?
      && t.prog.hist == Accepting(h, Image(feeds))
    case Overflows => t.out == Failed(Address) && Full(d, t.mem, Accepting(h, Image(feeds)))
    case Breaks => t.out.Panicked?
  }

  lemma FullPrefix(d: Digest, m: Mem, h: History, more: seq<Byte>)
    requires Full(d, m, h)
    ensures Full(d, m, Accepting(h, more))
  {
    assert (h.accepted + more)[..APPLICATION_LENGTH] == h.accepted[..APPLICATION_LENGTH];
  }

  lemma NoRoom(d: Digest, m: Mem, p: Prog, more: seq<Byte>)
    requires InSession(d, m, p) && p.state.AwaitData? && p.addr == MANIFEST_REGION_START
    ensures Full(d, m, Accepting(p.hist, more))
  {
    SectorsTile(p.sector);
    assert (p.hist.accepted + more)[..APPLICATION_LENGTH] == p.hist.accepted;
  }

  /** The start of a block on a machine that waits for data. */
  lemma {:induction false} FeedStart(d: Digest, m: Mem, p: Prog, block: seq<Byte>)
    requires InSession(d, m, p) && p.state.AwaitData? && 0 < |block| <= TRANSFER_SIZE
    ensures var t := Update(m, p, block, true);
      if t.out.Pending? then
        && InSession(d, t.mem, t.prog) && Receiving(t.prog) && PendingBytes(t.prog) == block
        && t.prog.hist == Accepting(p.hist, block) && t.prog.addr == p.addr
        && Effort(t.prog) <= 2 * |block| + 1
      else if p.addr == MANIFEST_REGION_START
      then FateAt(p.addr + |block|) == Overflows && t.out == Failed(Address) && t.mem == m
      else FateAt(p.addr + |block|) == Breaks && t.out.Panicked?
  {
    UpdateKeeps(d, m, p, block, true);
    if p.addr < MANIFEST_REGION_START { UncuttableEnd(p.addr, |block|); }
    UpdateAddr(m, p, block);
    hide InSession, Update, Kept;
  }

  lemma UpdateAddr(m: Mem, p: Prog, block: seq<Byte>)
    ensures Update(m, p, block, true).prog.addr == p.addr
  {
  }

  /** One block from a machine that waits for data. */
  lemma {:induction false} FeedBlock(d: Digest, m: Mem, p: Prog, feed: Feed)
    requires InSession(d, m, p) && p.state.AwaitData? && Feedable1(feed)
    ensures var u := FeedOne(d, m, p, feed);
      && (Decided(u) ==> Fed(d, p.hist, [feed], FateAt(p.addr + |feed.block|), u))
      && (Completions(feed.replies) > 2 * |feed.block| ==> Decided(u))
  {
    hide InSession, Update, Drive, PendingBytes, Effort, FateAt, Receiving, FaultFree, Full;
    FeedStart(d, m, p, feed.block);
    assert Image([feed]) == feed.block;
    var t := Update(m, p, feed.block, true);
    if t.out.Pending? { DriveBlock(d, t.mem, t.prog, feed.replies); }
    else if t.out.Failed? { NoRoom(d, m, p, feed.block); }
  }

  /** A block is through - written, refused, or the end of the firmware - after exactly its cost in
      completions: its pieces below the manifest, and one erase if they end in a new sector. */
  lemma {:induction false} FeedDecided(d: Digest, m: Mem, p: Prog, feed: Feed)
    requires InSession(d, m, p) && p.state.AwaitData? && Feedable1(feed)
    ensures Decided(FeedOne(d, m, p, feed))
            <==> Completions(feed.replies) >= BlockCost(p.sector, p.addr, Room(p.addr, |feed.block|))
  {
    UpdateIssues(d, m, p, feed.block);
    hide InSession, Update, Drive, PendingBytes, BlockCost, Room, Receiving, FaultFree, Ahead;
    FeedStart(d, m, p, feed.block);
    var t := Update(m, p, feed.block, true);
    if t.out.Pending? { DriveDecided(d, t.mem, t.prog, feed.replies); }
  }

  lemma {:induction false} UpdateIssues(d: Digest, m: Mem, p: Prog, block: seq<Byte>)
    requires InSession(d, m, p) && p.state.AwaitData? && 0 < |block| <= TRANSFER_SIZE
    ensures var t := Update(m, p, block, true);
      var cost := BlockCost(p.sector, p.addr, Room(p.addr, |block|));
      if t.out.Pending? then Ahead(t.prog) == cost else cost == 0
  {
    hide BlockCost, Room, EraseOrProgram, ChunkSize;
    IssueAhead(m, p, block, 0);
    AheadOfHistory(EraseOrProgram(m, p, block, 0, true).prog, p.hist.(accepted := p.hist.accepted + block));
  }

  lemma AheadOfHistory(p: Prog, h: History)
    ensures Ahead(p.(hist := h)) == Ahead(p)
  {
  }

  /** The first block costs the erase of sector 2 on top. */
  lemma {:induction false} FirstDecided(d: Digest, m: Mem, feed: Feed)
    requires Feedable1(feed)
    ensures var o := New(m, feed.block, true);
      && o.Opened?
      && (Decided(Drive(d, o.mem, o.prog, feed.replies))
          <==> Completions(feed.replies) >= 1 + ChunkCount(APPLICATION_REGION_START, |feed.block|))
  {
    NewOpens(d, m, feed.block, true);
    NewAddr(m, feed.block);
    NewCost(d, m, feed.block);
    var o := New(m, feed.block, true);
    assert Ahead(o.prog) == Remaining(d, o.prog);
    hide InSession, New, Drive, Ahead, Remaining, ChunkCount;
    DriveDecided(d, o.mem, o.prog, feed.replies);
  }

  lemma FeedAllUnfolds(d: Digest, m: Mem, p: Prog, feeds: seq<Feed>)
    requires feeds != []
    ensures var u := FeedOne(d, m, p, feeds[0]);
      FeedAll(d, m, p, feeds) == if Waits(u) then FeedAll(d, u.mem, u.prog, feeds[1..]) else u
  {
  }

  lemma ImageSplits(h: History, feeds: seq<Feed>)
    requires feeds != []
    ensures Accepting(Accepting(h, Image([feeds[0]])), Image(feeds[1..])) == Accepting(h, Image(feeds))
  {
    assert Image([feeds[0]]) == feeds[0].block;
  }

  lemma {:induction false} FeedAllFate(d: Digest, m: Mem, p: Prog, feeds: seq<Feed>)
    requires InSession(d, m, p) && p.state.AwaitData? && Feedable(feeds)
    ensures var t := FeedAll(d, m, p, feeds);
      && (Decided(t) ==> Fed(d, p.hist, feeds, FateOf(p.addr, feeds), t))
      && (Ample(feeds) ==> Decided(t))
    decreases |feeds|
  {
    hide InSession, Full, FeedOne, Image;
    if feeds == [] {
      assert p.hist.accepted + Image([]) == p.hist.accepted by { EmptyImage(); }
    } else {
      FeedAllUnfolds(d, m, p, feeds);
      FeedBlock(d, m, p, feeds[0]);
      ImageSplits(p.hist, feeds);
      var u := FeedOne(d, m, p, feeds[0]);
      if Waits(u) {
        AwaitDataAddr(d, m, p);
        AwaitDataAddr(d, u.mem, u.prog);
        OneImage(feeds[0]);
        FeedAllFate(d, u.mem, u.prog, feeds[1..]);
      } else if u.out.Failed? {
        FullPrefix(d, u.mem, Accepting(p.hist, Image([feeds[0]])), Image(feeds[1..]));
      }
    }
  }

  lemma EmptyImage()
    ensures Image([]) == []
  {
  }

  lemma OneImage(feed: Feed)
    ensures Image([feed]) == feed.block
  {
  }

  lemma AwaitDataAddr(d: Digest, m: Mem, p: Prog)
    requires InSession(d, m, p) && p.state.AwaitData?
    ensures p.addr == APPLICATION_REGION_START + |p.hist.accepted|
  {
  }

  // ---- whole sessions ----

  datatype Ending =
    | Finished(mem: Mem)
    | Rejected(mem: Mem, error: Error)
    | Aborted(mem: Mem)
    | Unfinished(mem: Mem, prog: Prog)

  function EndOf(t: Turn): Ending {
    match t.out
    case Pending => Unfinished(t.mem, t.prog)
    case Ready(_) => Finished(t.mem)
    case Failed(e) => Rejected(t.mem, e)
    case Panicked => Aborted(t.mem)
  }

  /** Open a session with the first block, feed the others, finalise, and poll to the end. */
  function RunSession(d: Digest, m: Mem, feeds: seq<Feed>, closing: seq<Reply>): Ending
    requires feeds != []
  {
    match New(m, feeds[0].block, true)
    case Refused(m1, e) => Rejected(m1, e)
    case Crashed(m1) => Aborted(m1)
    case Opened(m1, p1) => EndOf(Close(d, Load(d, m1, p1, feeds), closing))
  }

  /** Poll the first block through and feed the others. */
  function Load(d: Digest, m: Mem, p: Prog, feeds: seq<Feed>): Turn
    requires feeds != []
  {
    var t := Drive(d, m, p, feeds[0].replies);
    if Waits(t) then FeedAll(d, t.mem, t.prog, feeds[1..]) else t
  }

  /** Finalise and poll the manifestation through. */
  function Close(d: Digest, u: Turn, closing: seq<Reply>): Turn {
    if !Waits(u) then u
    else
      var t := Finalize(d, u.mem, u.prog, true);
      if t.out.Pending? then Drive(d, t.mem, t.prog, closing) else t
  }

  lemma EffortBound(p: Prog)
    ensures Effort(p) <= 2 * |PendingBytes(p)| + 1
  {
  }

  /** A session that was just opened, up to its last block. */
  lemma {:induction false} LoadFate(d: Digest, m: Mem, p: Prog, h: History, feeds: seq<Feed>)
    requires feeds != [] && Feedable(feeds)
    requires InSession(d, m, p) && Receiving(p) && PendingBytes(p) == feeds[0].block
    requires p.addr == APPLICATION_REGION_START && h.accepted == [] && p.hist == Accepting(h, feeds[0].block)
    ensures var t := Load(d, m, p, feeds);
      && (Decided(t) ==> Fed(d, h, feeds, FateOf(APPLICATION_REGION_START, feeds), t))
      && (Ample(feeds) ==> Decided(t))
  {
    hide InSession, Drive, Full, PendingBytes, Effort, FaultFree, Completions, Image;
    EffortBound(p);
    DriveBlock(d, m, p, feeds[0].replies);
    OneImage(feeds[0]);
    ImageSplits(h, feeds);
    var t := Drive(d, m, p, feeds[0].replies);
    if Waits(t) {
      AwaitDataAddr(d, t.mem, t.prog);
      FeedAllFate(d, t.mem, t.prog, feeds[1..]);
    }
  }

  /** A program that is being finalised. */
  predicate Finalizing(d: Digest, m: Mem, p: Prog) {
    OnCourse(d, m, p) && !Receiving(p)
  }

  lemma {:induction false} FinalizePhase(d: Digest, m: Mem, p: Prog, reply: Reply)
    requires Finalizing(d, m, p) && !p.state.Done? && !reply.Fault?
    ensures var t := PollProgram(d, m, p, reply, true);
      t.out.Pending? ==> Finalizing(d, t.mem, t.prog) && !t.prog.state.Done?
    ensures !Receiving(PollProgram(d, m, p, reply, true).prog)
  {
    if reply.Busy? { OnCourseWaits(d, m, p); }
    else {
      CleanCounts(d, m, p);
      PollKeeps(d, m, p, reply, true);
      StaysFinal(d, m, p, reply);
    }
  }

  lemma StaysFinal(d: Digest, m: Mem, p: Prog, reply: Reply)
    requires !Receiving(p)
    ensures !Receiving(PollProgram(d, m, p, reply, true).prog)
  {
  }

  lemma {:induction false} DriveKeepsPhase(d: Digest, m: Mem, p: Prog, replies: seq<Reply>)
    requires Finalizing(d, m, p) && !p.state.Done? && FaultFree(replies)
    ensures !Receiving(Drive(d, m, p, replies).prog)
    decreases |replies|
  {
    if replies != [] {
      hide OnCourse, PollProgram;
      FinalizePhase(d, m, p, replies[0]);
      var t := PollProgram(d, m, p, replies[0], true);
      if t.out.Pending? { DriveKeepsPhase(d, t.mem, t.prog, replies[1..]); }
    }
  }

  lemma FinalizeStarts(d: Digest, m: Mem, p: Prog)
    requires InSession(d, m, p) && p.state.AwaitData?
    ensures var t := Finalize(d, m, p, true);
      && t.out.Pending? && Finalizing(d, t.mem, t.prog) && !t.prog.state.Done? && t.prog.hist == p.hist
      && Remaining(d, t.prog) == ManifestCost(d, p.sector)
  {
    FinalizeKeeps(d, m, p, true);
    FinalizeCost(d, m, p);
  }

  /** On working flash a manifestation is done after exactly as many completions as it costs. */
  lemma {:induction false} CloseInstalls(d: Digest, u: Turn, closing: seq<Reply>)
    requires Waits(u) && InSession(d, u.mem, u.prog) && FaultFree(closing)
    ensures var t := Close(d, u, closing);
      && InSession(d, t.mem, t.prog) && t.prog.hist == u.prog.hist && !Receiving(t.prog)
      && t.out == (if Completions(closing) >= ManifestCost(d, u.prog.sector) then Ready(0) else Pending)
      && (t.out.Ready? <==> t.prog.state.Done?)
  {
    hide Drive, Finalize, Remaining, ManifestCost, Completions, FaultFree;
    FinalizeStarts(d, u.mem, u.prog);
    var t := Finalize(d, u.mem, u.prog, true);
    var e := Drive(d, t.mem, t.prog, closing);
    DriveExact(d, t.mem, t.prog, closing);
    RemainingZero(d, e.mem, e.prog);
    DriveKeepsPhase(d, t.mem, t.prog, closing);
  }

  /** What a finished session leaves behind. */
  lemma DoneOrdered(d: Digest, m: Mem, p: Prog)
    requires InSession(d, m, p) && p.state.Done?
    ensures p.hist.mark <= |m.log| && Erases(m.log[p.hist.mark..]) == From2(6)
  {
    EraseOrder(SessionOps(m, p.hist));
  }

  /** What a session that ran out of room leaves behind: the region holds the image as far
      as it goes, and neither the bootloader nor the manifest region has been touched but for
      the erase of the last sector. */
  lemma FullMeans(d: Digest, m: Mem, h: History)
    requires Full(d, m, h)
    ensures ApplicationBytes(m.flash, APPLICATION_LENGTH) == h.accepted[..APPLICATION_LENGTH]
    ensures Blank(m.flash, MANIFEST_REGION_START, FLASH_END)
    ensures SameOn(m.flash, h.origin, FLASH_BASE, APPLICATION_REGION_START)
    ensures m.state == DriverIdle
    ensures forall i :: 0 <= i < |SessionOps(m, h)| && SessionOps(m, h)[i].WriteOp? ==>
              SessionOps(m, h)[i].addr < MANIFEST_REGION_START
  {
    var p := Prog(7, MANIFEST_REGION_START, AwaitData, h.(accepted := h.accepted[..APPLICATION_LENGTH]));
    AwaitDataComplete(d, m, p);
    HeldApplication(m.flash, p.hist.accepted);
    var ops := SessionOps(m, h);
    forall i | 0 <= i < |ops| && ops[i].WriteOp? ensures ops[i].addr < MANIFEST_REGION_START {
      StepAt(ops, i, i);
      FrontMonotone(ops, i + 1);
    }
  }

  lemma NewAddr(m: Mem, buf: seq<Byte>)
    ensures var o := New(m, buf, true);
      o.Opened? ==> o.prog.addr == APPLICATION_REGION_START && Receiving(o.prog)
  {
  }

  lemma Closed(d: Digest, u: Turn, closing: seq<Reply>)
    ensures !Waits(u) ==> Close(d, u, closing) == u
  {
  }

  lemma {:induction false} CloseEnds(d: Digest, u: Turn, closing: seq<Reply>)
    requires Waits(u) && InSession(d, u.mem, u.prog) && FaultFree(closing)
    ensures var e := EndOf(Close(d, u, closing));
      var h := u.prog.hist;
      && (e.Finished? <==> Completions(closing) >= ManifestCost(d, u.prog.sector))
      && (!e.Finished? ==> e.Unfinished?)
      && (e.Finished? ==>
        && |h.accepted| <= APPLICATION_LENGTH
        && e.mem.flash == Installed(d, h.origin, h.accepted) && e.mem.state == DriverIdle
        && h.mark <= |e.mem.log| && Erases(e.mem.log[h.mark..]) == From2(6))
  {
    hide Close, Installed, Erases, From2, Completions, FaultFree, ManifestCost;
    CloseInstalls(d, u, closing);
    var t := Close(d, u, closing);
    if t.out.Ready? {
      DoneInstalled(d, t.mem, t.prog);
      DoneOrdered(d, t.mem, t.prog);
    }
  }

  lemma CostBound(d: Digest, sector: SectorId)
    requires sector >= 2
    ensures ManifestCost(d, sector) <= 14
  {
  }

  /** The session from its first block to its last, on working flash, for every list of
      blocks and every schedule of polls, unless the polls stop too early:
      - if every block fits and none ends 3 modulo 4, flash ends up with exactly the
        concatenation of the blocks installed, and sectors 2 to 7 were erased once each,
        in order;
      - if the first trouble is a block that does not fit, the session fails with `Address`
        once the application region is full (see FullMeans);
      - if it is a block that ends 3 modulo 4, the firmware panics. */
  lemma {:induction false} SessionFate(d: Digest, m: Mem, feeds: seq<Feed>, closing: seq<Reply>)
    requires feeds != [] && Feedable(feeds) && FaultFree(closing)
    ensures var e := RunSession(d, m, feeds, closing);
      var image := Image(feeds);
      && (Ample(feeds) && Completions(closing) >= 14 ==> !e.Unfinished?)
      && (!e.Unfinished? ==>
        match FateOf(APPLICATION_REGION_START, feeds)
        case GoesWell =>
          && e.Finished? && |image| <= APPLICATION_LENGTH
          && e.mem.flash == Installed(d, m.flash, image) && e.mem.state == DriverIdle
          && |m.log| <= |e.mem.log| && Erases(e.mem.log[|m.log|..]) == From2(6)
        case Overflows => e.Rejected? && e.error == Address && Full(d, e.mem, History(m.flash, |m.log|, image))
        case Breaks => e.Aborted?)
  {
    hide InSession, Load, New, Full, Close, Installed, Erases, From2, Completions, FaultFree, PendingBytes, FateOf,
      ManifestCost, Feedable, Ample;
    FirstFeed(feeds);
    NewOpens(d, m, feeds[0].block, true);
    NewAddr(m, feeds[0].block);
    var o := New(m, feeds[0].block, true);
    var h := History(m.flash, |m.log|, []);
    assert [] + feeds[0].block == feeds[0].block;
    assert [] + Image(feeds) == Image(feeds);
    LoadFate(d, o.mem, o.prog, h, feeds);
    var u := Load(d, o.mem, o.prog, feeds);
    Closed(d, u, closing);
    if Waits(u) {
      CloseEnds(d, u, closing);
      SectorAbove(d, u.mem, u.prog);
      CostBound(d, u.prog.sector);
    }
  }

  lemma FirstFeed(feeds: seq<Feed>)
    requires feeds != [] && Feedable(feeds)
    ensures Feedable1(feeds[0])
  {
  }

  lemma SectorAbove(d: Digest, m: Mem, p: Prog)
    requires InSession(d, m, p)
    ensures p.sector >= 2
  {
  }
}
