/** The DFU handler in its own form: an object that owns the flash driver and, during a
    session, a program. */
module DfuHandler {
  import opened Bytes
  import opened Dfu
  import opened Platform
  import opened MemoryDriver
  import opened Programming
  import ProgramSpec
  import Spec = HandlerSpec

  datatype ImplState =
    | Download(program: Program)
    | Manifestation(program: Program)
    | Upload(rest: Spec.AppSlice)
    | Idle
    | Faulted

  class DfuModeImpl {
    const memory: Memory
    const digest: Digest
    var state: ImplState

    ghost predicate Valid()
      reads this, memory
    {
      memory.Valid()
    }

    ghost function Owned(): set<Program>
      reads this
    {
      if state.Download? || state.Manifestation? then {state.program} else {}
    }

    ghost function View(): Spec.Handler
      requires Valid()
      reads this, memory, memory.cells, Owned()
    {
      Spec.Handler(
        match state
        case Download(p) => Spec.Downloading(p.View())
        case Manifestation(p) => Spec.Manifesting(p.View())
        case Upload(rest) => Spec.Uploading(rest)
        case Idle => Spec.Resting
        case Faulted => Spec.Failing,
        memory.View())
    }

    constructor (memory: Memory, digest: Digest)
      requires memory.Valid()
      ensures Valid() && this.memory == memory && this.digest == digest && Owned() == {}
      ensures View() == Spec.Handler(Spec.Resting, memory.View())
    {
      this.memory := memory;
      this.digest := digest;
      state := Idle;
    }

    method IsFirmwareValid(bootPinLow: bool) returns (valid: bool)
      requires Valid()
      ensures valid == Spec.FirmwareValid(digest, View(), bootPinLow)
    {
      if bootPinLow {
        return false;
      }
      var flash: Flash := memory.cells[..];
      var app := ApplicationBytes(flash, Spec.ManifestLength(flash));
      if digest.Of(app) == Spec.ManifestHash(digest, flash) {
        var sp := Spec.Word(flash, APPLICATION_REGION_START);
        var reset := Spec.Word(flash, APPLICATION_REGION_START + 4);
        valid := 0x2000_0000 <= sp < 0x2002_0000 && APPLICATION_REGION_START <= reset < MANIFEST_REGION_START;
      } else {
        valid := false;
      }
    }

    method IsTransferComplete() returns (answer: Spec.Answer)
      requires Valid()
      ensures Spec.Reaction(View(), answer) == Spec.TransferComplete(View())
    {
      if state.Download? {
        answer := if state.program.state.AwaitData? then Spec.Yes else Spec.No;
      } else {
        answer := Spec.Fails(Unknown);
      }
    }

    method IsManifestationInProgress(env: Spec.Env) returns (answer: Spec.Answer)
      requires Valid()
      modifies this, memory, memory.cells, Owned()
      ensures Valid() && fresh(Owned() - old(Owned()))
      ensures Spec.Reaction(View(), answer) == Spec.ManifestationInProgress(digest, old(View()), env)
    {
      hide ProgramSpec.Finalize, ProgramSpec.PollProgram;
      if state.Download? {
        var program := state.program;
        var out := program.Finalize(digest, memory, env.unlocked);
        if out.Failed? {
          answer := Spec.Fails(out.error);
        } else if out.Panicked? {
          answer := Spec.Panics;
        } else {
          var copy := new Program.Clone(program);
          state := Manifestation(copy);
          answer := Spec.Yes;
        }
      } else if state.Manifestation? {
        var out := state.program.Poll(digest, memory, env.reply, env.unlocked);
        match out {
          case Ready(_) =>
            state := Idle;
            answer := Spec.No;
          case Failed(e) => answer := Spec.Fails(e);
          case Pending => answer := Spec.Yes;
          case Panicked => answer := Spec.Panics;
        }
      } else if state.Idle? {
        answer := Spec.No;
      } else {
        answer := Spec.Fails(Unknown);
      }
      if answer.Fails? {
        state := Faulted;
      }
    }

    method Poll(env: Spec.Env) returns (answer: Spec.Answer)
      requires Valid()
      modifies this, memory, memory.cells, Owned()
      ensures Valid() && fresh(Owned() - old(Owned()))
      ensures Spec.Reaction(View(), answer) == Spec.PollHandler(digest, old(View()), env)
    {
      hide ProgramSpec.PollProgram;
      answer := Spec.Okay;
      if state.Download? || state.Manifestation? {
        var out := state.program.Poll(digest, memory, env.reply, env.unlocked);
        match out
        case Pending =>
        case Ready(_) => state := Idle;
        case Failed(e) =>
          state := Faulted;
          answer := Spec.Fails(e);
        case Panicked => answer := Spec.Panics;
      }
    }

    /** Fills the front of buf. */
    method Upload(block: nat, buf: array<Byte>) returns (answer: Result<nat>)
      requires Valid() && buf != memory.cells
      modifies this, buf
      ensures Valid() && fresh(Owned() - old(Owned())) && Owned() <= old(Owned())
      ensures var r := Spec.UploadBlock(old(View()), buf.Length);
        && View() == r.handler
        && (r.answer.Sent? ==> && answer == Ok(|r.answer.bytes|) && |r.answer.bytes| <= buf.Length
                               && buf[..] == r.answer.bytes + old(buf[..])[|r.answer.bytes|..])
        && (!r.answer.Sent? ==> r.answer.Fails? && answer == Err(r.answer.error) && buf[..] == old(buf[..]))
    {
      if state.Idle? {
        var app := ApplicationBytes(memory.cells[..], Spec.ManifestLength(memory.cells[..]));
        state := ImplState.Upload(Spec.Slice(APPLICATION_REGION_START, |app|));
      }
      if !state.Upload? {
        return Err(Unknown);
      }
      var rest := state.rest;
      var size := if buf.Length < rest.len then buf.Length else rest.len;
      var at := rest.from - FLASH_BASE;
      forall i | 0 <= i < size {
        buf[i] := memory.cells[at + i];
      }
      assert buf[..] == Spec.FlashBytes(memory.cells[..], rest.from, size) + old(buf[..])[size..];
      if size != 0 {
        state := ImplState.Upload(Spec.Slice(rest.from + size, rest.len - size));
      } else {
        state := Idle;
      }
      answer := Ok(size);
    }

    method Download(block: nat, buf: seq<Byte>, env: Spec.Env) returns (answer: Spec.Answer)
      requires Valid()
      modifies this, memory, memory.cells, Owned()
      ensures Valid() && fresh(Owned() - old(Owned()))
      ensures Spec.Reaction(View(), answer) == Spec.DownloadBlock(old(View()), buf, env)
    {
      hide ProgramSpec.New, ProgramSpec.Update;
      match state
      case Idle =>
        var out, program := Program.Open(memory, buf, env.unlocked);
        if program != null {
          state := ImplState.Download(program);
          answer := Spec.Okay;
        } else {
          answer := if out.Failed? then Spec.Fails(out.error) else Spec.Panics;
        }
      case Download(program) =>
        var out := program.Update(memory, buf, env.unlocked);
        if out.Failed? {
          answer := Spec.Fails(out.error);
          state := Faulted;
        } else {
          answer := if out.Panicked? then Spec.Panics else Spec.Okay;
        }
      case _ =>
        answer := Spec.Fails(Unknown);
        state := Faulted;
    }
  }
}
