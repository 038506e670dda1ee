/** The programming machine in its own form: an object that moves through a session in
    place, driving a Memory. */
module Programming {
  import opened Bytes
  import opened Dfu
  import opened Platform
  import opened FlashSpec
  import opened MemoryDriver
  import Spec = ProgramSpec

  class Program {
    var sector: SectorId
    var addr: Address
    var state: Spec.ProgramState
    ghost var hist: Spec.History

    ghost function View(): Spec.Prog
      reads this
    {
      Spec.Prog(sector, addr, state, hist)
    }

    constructor (sector: SectorId, data: seq<Byte>, ghost hist: Spec.History)
      ensures View() == Spec.Prog(sector, APPLICATION_REGION_START, Spec.AwaitEraseBeforeProgram(data, 0), hist)
    {
      this.sector := sector;
      addr := APPLICATION_REGION_START;
      state := Spec.AwaitEraseBeforeProgram(data, 0);
      this.hist := hist;
    }

    constructor Clone(p: Program)
      ensures View() == p.View()
    {
      sector := p.sector;
      addr := p.addr;
      state := p.state;
      hist := p.hist;
    }

    /** Program::new. The out-parameter is null unless the session was opened. */
    static method Open(memory: Memory, buf: seq<Byte>, unlocked: bool) returns (out: Poll, program: Program?)
      requires memory.Valid()
      modifies memory
      ensures memory.Valid() && (program != null ==> fresh(program))
      ensures match Spec.New(old(memory.View()), buf, unlocked)
              case Opened(m, p) =>
                memory.View() == m && out == Pending && program != null && program.View() == p
              case Refused(m, e) => memory.View() == m && out == Failed(e) && program == null
              case Crashed(m) => memory.View() == m && out == Panicked && program == null
    {
      program := null;
      if |buf| >= APPLICATION_LENGTH {
        return Failed(Address), null;
      }
      if |buf| > TRANSFER_SIZE {
        return Panicked, null;
      }
      ghost var origin, mark := memory.cells[..], |memory.log|;
      var first := TryFrom(APPLICATION_REGION_START).value; // the application starts in a sector
      out := memory.StartErase(first, unlocked);
      if out.Pending? {
        program := new Program(first, buf, Spec.History(origin, mark, buf));
      }
    }

    method Update(memory: Memory, buf: seq<Byte>, unlocked: bool) returns (out: Poll)
      requires memory.Valid()
      modifies this, memory
      ensures memory.Valid()
      ensures Spec.Turn(memory.View(), View(), out) == Spec.Update(old(memory.View()), old(View()), buf, unlocked)
    {
      if !state.AwaitData? {
        return Failed(Unknown);
      }
      if |buf| > TRANSFER_SIZE {
        return Panicked;
      }
      out := EraseOrProgram(memory, buf, 0, unlocked);
      if out.Pending? {
        hist := hist.(accepted := hist.accepted + buf);
      }
    }

    method Finalize(d: Digest, memory: Memory, unlocked: bool) returns (out: Poll)
      requires memory.Valid()
      modifies this, memory
      ensures memory.Valid()
      ensures Spec.Turn(memory.View(), View(), out) == Spec.Finalize(d, old(memory.View()), old(View()), unlocked)
    {
      if state.AwaitData? {
        out := EraseOrProgramManifest(d, memory, unlocked);
      } else {
        out := Failed(Unknown);
      }
    }

    method Poll(d: Digest, memory: Memory, reply: Reply, unlocked: bool) returns (out: FlashSpec.Poll)
      requires memory.Valid()
      modifies this, memory, memory.cells
      ensures memory.Valid()
      ensures Spec.Turn(memory.View(), View(), out)
              == Spec.PollProgram(d, old(memory.View()), old(View()), reply, unlocked)
    {
      hide PollDriver, Spec.Continue;
      if state.AwaitData? {
        return Pending;
      }
      out := memory.Poll(reply);
      if !out.Ready? {
        return;
      }
      out := Continue(d, memory, out.n, unlocked);
    }

    /** The rest of poll, once the driver has completed n bytes. */
    method Continue(d: Digest, memory: Memory, n: nat, unlocked: bool) returns (out: FlashSpec.Poll)
      requires memory.Valid() && !state.AwaitData?
      modifies this, memory
      ensures memory.Valid()
      ensures Spec.Turn(memory.View(), View(), out)
              == Spec.Continue(d, old(memory.View()), old(View()), n, unlocked)
    {
      hide FlashSpec.StartProgram, Spec.EraseOrProgram, Spec.EraseOrProgramManifest;
      match state
      case AwaitEraseBeforeProgram(data, wr) =>
        if wr > |data| {
          return Panicked;
        }
        out := memory.StartProgram(addr, data[wr..], unlocked);
        if out.Pending? {
          state := Spec.AwaitProgram(data, wr);
        }
      case AwaitProgram(data, wr) =>
        addr := addr + n;
        if wr + n > |data| {
          return Panicked;
        } else if wr + n == |data| {
          state := Spec.AwaitData;
          out := Pending;
        } else {
          out := EraseOrProgram(memory, data, wr + n, unlocked);
        }
      case AwaitErase =>
        out := EraseOrProgramManifest(d, memory, unlocked);
      case AwaitProgramManifest(data, wr) =>
        addr := addr + n;
        if wr + n > |data| {
          return Panicked;
        } else if wr + n == |data| {
          state := Spec.Done;
          out := Ready(0);
        } else {
          state := Spec.AwaitProgramManifest(data, wr + n);
          out := memory.StartProgram(addr, data[wr + n..], unlocked);
        }
      case Done =>
        out := Panicked;
    }

    /** Erase the sector of addr if it is a new one, or program the next piece of data[wr..]. */
    method EraseOrProgram(memory: Memory, data: seq<Byte>, wr: nat, unlocked: bool) returns (out: FlashSpec.Poll)
      requires memory.Valid() && wr <= |data|
      modifies this, memory
      ensures memory.Valid() && hist == old(hist)
      ensures Spec.Turn(memory.View(), View(), out)
              == Spec.EraseOrProgram(old(memory.View()), old(View()), data, wr, unlocked)
    {
      if addr >= MANIFEST_REGION_START {
        return Failed(Address);
      }
      match TryFrom(addr)
      case Err(e) => out := Failed(e);
      case Ok(found) =>
        if found != sector {
          sector := found;
          out := memory.StartErase(sector, unlocked);
          if out.Pending? {
            state := Spec.AwaitEraseBeforeProgram(data, wr);
          }
        } else {
          out := memory.StartProgram(addr, data[wr..], unlocked);
          if out.Pending? {
            state := Spec.AwaitProgram(data, wr);
          }
        }
    }

    /** Erase the next sector if there is one, or start the manifest. */
    method EraseOrProgramManifest(d: Digest, memory: Memory, unlocked: bool) returns (out: FlashSpec.Poll)
      requires memory.Valid()
      modifies this, memory
      ensures memory.Valid()
      ensures Spec.Turn(memory.View(), View(), out)
              == Spec.EraseOrProgramManifest(d, old(memory.View()), old(View()), unlocked)
    {
      if sector < 7 {
        sector := sector + 1;
        state := Spec.AwaitErase;
        out := memory.StartErase(sector, unlocked);
      } else {
        var length := addr - APPLICATION_REGION_START;
        var manifest := ManifestBytes(d, length, ApplicationBytes(memory.cells[..], length));
        out := memory.StartProgram(MANIFEST_REGION_START, manifest, unlocked);
        if out.Pending? {
          addr := MANIFEST_REGION_START;
          state := Spec.AwaitProgramManifest(manifest, 0);
        }
      }
    }
  }
}
