/** Every answer of the handler, error codes included, told from the phase it is in, what the flash
    controller reports and what flash then holds. */
module HandlerAnswers {
  import opened Bytes
  import opened Dfu
  import opened Platform
  import opened FlashSpec
  import opened ProgramSpec
  import opened Session
  import opened SessionSteps
  import opened HandlerSpec
  import opened HandlerSteps

  /** The operation in flight has finished, without an error bit, and left its target as asked for. */
  predicate Succeeded(st: DriverState, reply: Reply, after: Flash)
    requires st.Erasing? || st.Programming?
  {
    !reply.Busy? && !(reply.Fault? && (reply.wrperr || reply.operr)) && ReadsAsAsked(after, st)
  }

  /** The bytes just written were the last of the manifest. */
  predicate LastWord(p: Prog) {
    p.state.AwaitProgramManifest? && p.state.wr + 4 == |p.state.data|
  }

  /** The bytes just written were the last of their block. */
  predicate LastPiece(m: Mem, p: Prog) {
    p.state.AwaitProgram? && m.state.Programming? && |m.state.src| == |PendingBytes(p)|
  }

  /** The block goes on, but flash does not. */
  predicate RanOut(m: Mem, p: Prog) {
    p.state.AwaitProgram? && !LastPiece(m, p) && TargetHi(m.state) == MANIFEST_REGION_START
  }

  /** What one poll of a session comes to. */
  predicate Comes(m: Mem, p: Prog, env: Env, t: Turn)
    requires m.state.Erasing? || m.state.Programming?
  {
    if env.reply.Busy? then t == Turn(m, p, Pending)
    else if !Succeeded(m.state, env.reply, t.mem.flash) then
      t.out == Failed(Complaint(m.state, env.reply.Fault? && env.reply.wrperr, env.reply.Fault? && env.reply.operr))
    else
      && (t.out.Ready? <==> LastWord(p))
      && (t.out.Failed? <==> RanOut(m, p) || (!env.unlocked && !LastPiece(m, p) && !LastWord(p)))
      && (t.out.Failed? ==> t.out.error == if RanOut(m, p) then Address else Write)
  }

  lemma {:induction false} SuccessComes(d: Digest, m: Mem, p: Prog, m1: Mem, env: Env, n: nat)
    requires InSession(d, m, p) && !p.state.AwaitData? && !p.state.Done? && Completed(m, m1)
    requires n == if m.state.Programming? then |m.state.src| else 0
    ensures var t := Continue(d, m1, p, n, env.unlocked);
      && (t.out.Ready? <==> LastWord(p))
      && (t.out.Failed? <==> RanOut(m, p) || (!env.unlocked && !LastPiece(m, p) && !LastWord(p)))
      && (t.out.Failed? ==> t.out.error == if RanOut(m, p) then Address else Write)
  {
    hide Kept, Chunkable;
    match p.state
    case AwaitEraseBeforeProgram(_, _) => PollBlockErased(d, m, p, m1, env.unlocked);
    case AwaitProgram(_, _) =>
      if n == |PendingBytes(p)| { PollLastChunk(d, m, p, m1, n, env.unlocked); }
      else { PollMoreChunks(d, m, p, m1, n, env.unlocked); }
    case AwaitErase =>
      ErasedComplete(d, m, m1, p);
      ManifestIssue(d, m1, p, env.unlocked);
    case AwaitProgramManifest(_, _) =>
      if LastWord(p) { LastManifestWord(d, m, m1, p); }
      else if env.unlocked { NextManifestWord(d, m, m1, p); }
  }

  lemma {:induction false} PollComes(d: Digest, m: Mem, p: Prog, env: Env)
    requires InSession(d, m, p) && !p.state.AwaitData? && !p.state.Done?
    ensures m.state.Erasing? || m.state.Programming?
    ensures Comes(m, p, env, PollProgram(d, m, p, env.reply, env.unlocked))
  {
    if env.reply.Busy? {
      BusyWaits(d, m, p, env.unlocked);
    } else {
      PollVerdict(m, env.reply);
      PollVerified(m, env.reply);
      var q := PollDriver(m, env.reply);
      if q.out.Ready? {
        SuccessComes(d, m, p, q.mem, env, q.out.n);
        ContinueKeepsCells(d, q.mem, p, q.out.n, env.unlocked);
      }
      hide InSession, Continue, PollDriver, Completed, ReadsAsAsked, LastWord, LastPiece, RanOut;
    }
  }

  lemma ContinueKeepsCells(d: Digest, m: Mem, p: Prog, n: nat, unlocked: bool)
    requires !p.state.AwaitData?
    ensures Continue(d, m, p, n, unlocked).mem.flash == m.flash
  {
  }

  // ---- the methods ----

  /** is_transfer_complete looks and changes nothing. */
  lemma TransferAnswers(h: Handler)
    ensures var r := TransferComplete(h);
      && r.handler == h
      && (r.answer == Yes <==> h.phase.Downloading? && h.phase.prog.state.AwaitData?)
      && (r.answer == No <==> h.phase.Downloading? && !h.phase.prog.state.AwaitData?)
      && (!h.phase.Downloading? ==> r.answer == Fails(Unknown))
  {
  }

  /** is_manifestation_in_progress starts the manifestation of a download that waits for data, polls one
      that is under way, and is through if there is none; anything else makes the handler fail. */
  lemma {:induction false} ManifestationAnswers(d: Digest, h: Handler, env: Env)
    requires Coherent(d, h)
    ensures var r := ManifestationInProgress(d, h, env);
      && (r.answer.Fails? <==> r.handler.phase.Failing?)
      && (r.answer == No <==> r.handler.phase.Resting?)
      && (r.answer == Yes <==> r.handler.phase.Manifesting?)
      && match h.phase
         case Downloading(p) =>
           && (r.answer == Yes <==> p.state.AwaitData? && env.unlocked)
           && (r.answer != Yes ==> r.handler.mem == h.mem
                                   && r.answer == Fails(if p.state.AwaitData? then Write else Unknown))
         case Manifesting(p) =>
           && (h.mem.state.Erasing? || h.mem.state.Programming?)
           && (if env.reply.Busy? then r == Reaction(h, Yes)
               else if !Succeeded(h.mem.state, env.reply, r.handler.mem.flash) then
                 r.answer == Fails(Complaint(h.mem.state, env.reply.Fault? && env.reply.wrperr,
                                             env.reply.Fault? && env.reply.operr))
               else if LastWord(p) then r.answer == No
               else r.answer == if env.unlocked then Yes else Fails(Write))
         case Resting => r == Reaction(h, No)
         case _ => r == Reaction(h.(phase := Failing), Fails(Unknown))
  {
    hide InSession, Finalize, PollProgram, AllConfined, ReadsAsAsked, Complaint, Receiving;
    ManifestationKeeps(d, h, env);
    match h.phase
    case Downloading(p) => FinalizeKeeps(d, h.mem, p, env.unlocked);
    case Manifesting(p) =>
      NotReceiving(d, h.mem, p);
      PollComes(d, h.mem, p, env);
      PollKeeps(d, h.mem, p, env.reply, env.unlocked);
    case _ =>
  }

  lemma NotReceiving(d: Digest, m: Mem, p: Prog)
    requires InSession(d, m, p) && !Receiving(p)
    ensures !p.state.AwaitData? && !RanOut(m, p) && !LastPiece(m, p)
  {
  }

  /** poll does nothing without a session, nor while the program waits for data; otherwise it passes on
      what becomes of the operation in flight. */
  lemma {:induction false} PollAnswers(d: Digest, h: Handler, env: Env)
    requires Coherent(d, h)
    ensures var r := PollHandler(d, h, env);
      && (r.answer.Fails? ==> r.handler.phase.Failing?)
      && (if (h.phase.Downloading? || h.phase.Manifesting?) && !h.phase.prog.state.AwaitData? then
            var m, p := h.mem, h.phase.prog;
            && (m.state.Erasing? || m.state.Programming?)
            && (if env.reply.Busy? then r == Reaction(h, Okay)
                else if !Succeeded(m.state, env.reply, r.handler.mem.flash) then
                  r.answer == Fails(Complaint(m.state, env.reply.Fault? && env.reply.wrperr,
                                              env.reply.Fault? && env.reply.operr))
                else
                  && (r.handler.phase.Resting? <==> LastWord(p))
                  && (r.answer.Fails? <==> RanOut(m, p) || (!env.unlocked && !LastPiece(m, p) && !LastWord(p)))
                  && (r.answer.Fails? ==> r.answer.error == if RanOut(m, p) then Address else Write))
          else r == Reaction(h, Okay))
  {
    hide InSession, PollProgram, AllConfined, ReadsAsAsked, Complaint, LastWord, LastPiece, RanOut, Receiving;
    if h.phase.Downloading? || h.phase.Manifesting? {
      var p := h.phase.prog;
      NotDone(p);
      PollKeeps(d, h.mem, p, env.reply, env.unlocked);
      if !p.state.AwaitData? { PollComes(d, h.mem, p, env); }
    }
  }

  lemma NotDone(p: Prog)
    ensures Receiving(p) ==> !p.state.Done?
  {
  }

  /** download, with a block of any size: what it opens, what it is appended to, and every way it is
      turned away. Only a session that cannot be opened leaves the handler at rest. */
  lemma {:induction false} DownloadAnswers(d: Digest, h: Handler, buf: seq<Byte>, env: Env)
    requires Coherent(d, h)
    ensures var r := DownloadBlock(h, buf, env);
      match h.phase
      case Resting =>
        && (r.answer == Okay <==> |buf| <= 128 && env.unlocked)
        && (r.answer == Panics <==> 128 < |buf| < 491_392)
        && (r.answer.Fails? ==> r == Reaction(h, Fails(if |buf| >= 491_392 then Address else Write)))
      case Downloading(p) =>
        && (r.answer == Panics <==> p.state.AwaitData? && (|buf| > 128 || PanicsOn(p, |buf|, env.unlocked)))
        && (r.answer == Okay <==> && p.state.AwaitData? && |buf| <= 128 && env.unlocked
                                  && p.addr < MANIFEST_REGION_START && !PanicsOn(p, |buf|, env.unlocked))
        && (r.answer.Fails? ==>
              r == Reaction(h.(phase := Failing),
                            Fails(if !p.state.AwaitData? then Unknown
                                  else if p.addr >= MANIFEST_REGION_START then Address else Write)))
      case _ => r == Reaction(h.(phase := Failing), Fails(Unknown))
  {
    hide InSession, New, Update, AllConfined, PanicsOn;
    match h.phase
    case Resting => NewOpens(d, h.mem, buf, env.unlocked);
    case Downloading(p) =>
      UpdateKeeps(d, h.mem, p, buf, env.unlocked);
      if p.state.AwaitData? { AtMostFull(d, h.mem, p); }
    case _ =>
  }

  lemma {:induction false} AtMostFull(d: Digest, m: Mem, p: Prog)
    requires InSession(d, m, p) && p.state.AwaitData?
    ensures p.addr <= MANIFEST_REGION_START
  {
  }
}
