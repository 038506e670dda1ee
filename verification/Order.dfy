/** What the order invariant of a session says about the operations it hands to the
    flash controller. */
module Order {
  import opened Platform
  import opened FlashSpec
  import opened Session

  function Erases(ops: seq<FlashOp>): seq<SectorId> {
    if ops == [] then []
    else
      var last := ops[|ops| - 1];
      Erases(ops[..|ops| - 1]) + if last.EraseOp? then [last.sector] else []
  }

  function From2(n: nat): seq<SectorId>
    requires n <= 6
  {
    seq(n, (i: nat) requires i < n => 2 + i)
  }

  lemma {:induction false} ReplayBounds(ops: seq<FlashOp>)
    ensures Replay(ops).Front? ==>
      1 <= Replay(ops).erased < 8 && APPLICATION_REGION_START <= Replay(ops).next
  {
    if ops != [] { ReplayBounds(ops[..|ops| - 1]); }
  }

  /** Sectors are erased one after the other from sector 2 on, each exactly once. */
  lemma {:induction false} EraseOrder(ops: seq<FlashOp>)
    requires Replay(ops).Front?
    ensures 1 <= Replay(ops).erased < 8
    ensures Erases(ops) == From2(Replay(ops).erased - 1)
  {
    if ops != [] {
      EraseOrder(ops[..|ops| - 1]);
    }
  }

  /** The front only moves up. */
  lemma {:induction false} FrontMonotone(ops: seq<FlashOp>, n: nat)
    requires Replay(ops).Front? && n <= |ops|
    ensures Replay(ops[..n]).Front?
    ensures Replay(ops[..n]).next <= Replay(ops).next && Replay(ops[..n]).erased <= Replay(ops).erased
    decreases |ops|
  {
    if n < |ops| {
      assert ops[..|ops| - 1][..n] == ops[..n];
      FrontMonotone(ops[..|ops| - 1], n);
    } else {
      assert ops[..n] == ops;
    }
  }

  /** Each operation advances the front it finds, which is no lower than earlier ones left it. */
  lemma StepAt(ops: seq<FlashOp>, i: nat, j: nat)
    requires Replay(ops).Front? && i <= j < |ops|
    ensures Replay(ops[..j]).Front? && Replay(ops[..i]).Front? && Replay(ops[..j + 1]).Front?
    ensures Replay(ops[..j + 1]) == Advance(Replay(ops[..j]), ops[j])
    ensures Replay(ops[..i]).next <= Replay(ops[..j]).next && Replay(ops[..i]).erased <= Replay(ops[..j]).erased
    ensures Replay(ops[..j + 1]).erased < 8
  {
    hide Advance;
    FrontMonotone(ops, j + 1);
    FrontMonotone(ops, j);
    ReplayBounds(ops[..j + 1]);
    assert ops[..j + 1][..j] == ops[..j];
    FrontMonotone(ops[..j], i);
    assert ops[..j][..i] == ops[..i];
  }

  /** Each byte is programmed at most once: writes never overlap, and go upwards. */
  lemma WritesOnce(ops: seq<FlashOp>, i: nat, j: nat)
    requires Replay(ops).Front? && i < j < |ops| && ops[i].WriteOp? && ops[j].WriteOp?
    ensures ops[i].addr + |ops[i].bytes| <= ops[j].addr
  {
    StepAt(ops, i, i);
    StepAt(ops, i + 1, j);
  }

  /** Every write lands in one sector, erased earlier in the session and not since; it is
      aligned and stays on its side of the manifest region. */
  lemma WriteErasedFirst(ops: seq<FlashOp>, j: nat)
    requires Replay(ops).Front? && j < |ops| && ops[j].WriteOp?
    ensures exists i: nat :: i < j && ops[i].EraseOp? && InSector(ops[j].addr, ops[i].sector)
                             && ops[j].addr + |ops[j].bytes| <= SectorEnd(ops[i].sector)
                             && (forall k :: i < k < j ==> !ops[k].EraseOp?)
    ensures ops[j].addr < MANIFEST_REGION_START ==> ops[j].addr + |ops[j].bytes| <= MANIFEST_REGION_START
    ensures Aligned(ops[j].addr, |ops[j].bytes|)
    ensures APPLICATION_REGION_START <= ops[j].addr
  {
    StepAt(ops, j, j);
    ReplayBounds(ops[..j]);
    var i := LastErase(ops[..j]);
  }

  lemma {:induction false} LastErase(ops: seq<FlashOp>) returns (i: nat)
    requires Replay(ops).Front? && (Replay(ops).erased > 1 || APPLICATION_REGION_START < Replay(ops).next)
    ensures i < |ops| && ops[i] == EraseOp(Replay(ops).erased)
    ensures forall k :: i < k < |ops| ==> !ops[k].EraseOp?
  {
    var last := ops[|ops| - 1];
    if last.EraseOp? {
      i := |ops| - 1;
    } else {
      ReplayBounds(ops[..|ops| - 1]);
      i := LastErase(ops[..|ops| - 1]);
    }
  }

  /** Once a manifest byte has been handed over, every sector is erased and only manifest
      bytes follow. */
  lemma ManifestLast(ops: seq<FlashOp>, i: nat, j: nat)
    requires Replay(ops).Front? && i < j < |ops|
    requires ops[i].WriteOp? && ops[i].addr >= MANIFEST_REGION_START
    ensures ops[j].WriteOp? && ops[j].addr > MANIFEST_REGION_START
    ensures Erases(ops[..i]) == From2(6)
  {
    StepAt(ops, i, i);
    StepAt(ops, i + 1, j);
    EraseOrder(ops[..i]);
    SectorsTile(Replay(ops[..i]).erased);
    hide Replay, Erases, From2;
  }
}
