/** The flash driver in its own form: an object over a mutable flash. */
module MemoryDriver {
  import opened Bytes
  import opened Dfu
  import opened Platform
  import opened FlashSpec

  /** A word reads as erased exactly if its four bytes do. */
  lemma BlankWord(b: seq<Byte>)
    requires |b| == 4
    ensures FromLe(b) == 0xFFFF_FFFF <==> b[0] == ERASED && b[1] == ERASED && b[2] == ERASED && b[3] == ERASED
  {
    var b1, b2 := b[1..], b[2..];
    assert b1[1..] == b2 && b2[1..] == b[3..] && b[3..][1..] == [];
    assert FromLe(b[3..]) == b[3];
    assert FromLe(b2) == b[2] + 256 * FromLe(b[3..]);
    assert FromLe(b1) == b[1] + 256 * FromLe(b2);
    assert FromLe(b) == b[0] + 256 * FromLe(b1);
  }

  /** The two low address bits, tested one at a time. */
  lemma LowBits(addr: int)
    ensures addr % 2 == 1 <==> addr % 4 == 1 || addr % 4 == 3
    ensures addr / 2 % 2 == 1 <==> addr % 4 == 2 || addr % 4 == 3
  {
    var q, r := addr / 4, addr % 4;
    assert addr == 4 * q + r;
    assert addr / 2 == 2 * q + r / 2;
  }

  class Memory {
    /** The flash cells from FLASH_BASE on. */
    const cells: array<Byte>
    var state: DriverState
    ghost var log: seq<FlashOp>

    ghost predicate Valid()
      reads this
    {
      cells.Length == FLASH_SIZE
    }

    ghost function View(): Mem
      requires Valid()
      reads this, cells
    {
      Mem(cells[..], state, log)
    }

    constructor (cells: array<Byte>)
      requires cells.Length == FLASH_SIZE
      ensures Valid() && this.cells == cells
      ensures View() == Mem(cells[..], DriverIdle, [])
    {
      this.cells := cells;
      state := DriverIdle;
      log := [];
    }

    /** Sector::is_erased: compares the sector word by word. */
    method IsErased(sector: SectorId) returns (erased: bool)
      requires Valid()
      ensures erased == Blank(cells[..], SectorStart(sector), SectorEnd(sector))
    {
      SectorsTile(sector);
      var lo, hi := SectorStart(sector) - FLASH_BASE, SectorEnd(sector) - FLASH_BASE;
      var i := lo;
      while i < hi
        invariant lo <= i <= hi && i % 4 == 0
        invariant forall k :: lo <= k < i ==> cells[k] == ERASED
      {
        BlankWord(cells[i..i + 4]);
        if FromLe(cells[i..i + 4]) != 0xFFFF_FFFF {
          return false;
        }
        i := i + 4;
      }
      return true;
    }

    /** The controller finishes the operation in flight: what it does to the cells. */
    method Settle(reply: Reply)
      requires Valid()
      modifies cells
      ensures cells[..] == Settled(old(View()), reply)
    {
      ghost var before := View();
      var lo, hi := TargetLo(state) - FLASH_BASE, TargetHi(state) - FLASH_BASE;
      match reply
      case Busy =>
      case Clean =>
        if state.Programming? {
          var at, src := lo, state.src;
          forall i | 0 <= i < FLASH_SIZE && lo <= i < hi {
            cells[i] := And(cells[i], src[i - at]);
          }
        } else {
          forall i | 0 <= i < FLASH_SIZE && lo <= i < hi {
            cells[i] := ERASED;
          }
        }
      case Fault(_, _, left) =>
        forall i | 0 <= i < FLASH_SIZE && lo <= i < hi {
          cells[i] := left(i);
        }
    }

    /** Memory::poll: one status read. */
    method Poll(reply: Reply) returns (out: FlashSpec.Poll)
      requires Valid()
      modifies this, cells
      ensures Valid()
      ensures Driven(View(), out) == PollDriver(old(View()), reply)
    {
      match state
      case DriverIdle => out := Ready(0);
      case Stray(_) => out := Ready(0);
      case Erasing(sector) =>
        if reply.Busy? {
          out := Pending;
        } else {
          Settle(reply);
          var erased := IsErased(sector);
          if reply.Fault? && reply.wrperr {
            out := Failed(Write);
          } else if reply.Fault? && reply.operr {
            out := Failed(Erase);
          } else if !erased {
            out := Failed(CheckErased);
          } else {
            out := Ready(0);
          }
          state := DriverIdle;
        }
      case Programming(addr, src) =>
        if reply.Busy? {
          out := Pending;
        } else {
          Settle(reply);
          if reply.Fault? && reply.wrperr {
            out := Failed(Write);
          } else if reply.Fault? && reply.operr {
            out := Failed(Error.Programming);
          } else if !Holds(cells[..], addr, src) {
            out := Failed(Verify);
          } else {
            out := Ready(|src|);
          }
          state := DriverIdle;
        }
    }

    /** Memory::erase: unlock and start. */
    method StartErase(sector: SectorId, unlocked: bool) returns (out: FlashSpec.Poll)
      requires Valid()
      modifies this
      ensures Valid()
      ensures Driven(View(), out) == FlashSpec.StartErase(old(View()), sector, unlocked)
    {
      if !unlocked {
        return Failed(Write);
      }
      state := Erasing(sector);
      log := log + [EraseOp(sector)];
      out := Pending;
    }

    /** Memory::program: pick the width, start the write, remember what was asked for. */
    method StartProgram(addr: int, src: seq<Byte>, unlocked: bool) returns (out: FlashSpec.Poll)
      requires Valid()
      modifies this
      ensures Valid()
      ensures Driven(View(), out) == FlashSpec.StartProgram(old(View()), addr, src, unlocked)
    {
      if !unlocked {
        return Failed(Write);
      }
      var toWrite;
      if addr % 2 == 1 {
        toWrite := 1;
      } else if (addr / 2) % 2 == 1 {
        toWrite := 2;
      } else {
        toWrite := if |src| < 4 then |src| else 4;
      }
      if toWrite == 3 {
        toWrite := 2;
      }
      assert toWrite == ChunkSize(addr, |src|) by { LowBits(addr); }
      if toWrite == 0 {
        return Panicked;
      }
      if toWrite > |src| {
        if toWrite == 2 {
          state := Stray(addr);
        }
        return Panicked;
      }
      state := DriverState.Programming(addr, src[..toWrite]);
      log := log + [WriteOp(addr, src[..toWrite])];
      out := Pending;
    }
  }
}
