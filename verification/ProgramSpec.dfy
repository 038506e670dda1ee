/** The programming machine of src/nucleo_f401re/dfu/mode.rs (`Program`), as functions
    on values. */
module ProgramSpec {
  import opened Bytes
  import opened Dfu
  import opened Platform
  import opened FlashSpec

  /** `data` is the filled part data[..data_len] of the source's buffer. */
  datatype ProgramState =
    | AwaitData
    | AwaitEraseBeforeProgram(data: seq<Byte>, wr: nat)
    | AwaitProgram(data: seq<Byte>, wr: nat)
    | AwaitErase
    | AwaitProgramManifest(data: seq<Byte>, wr: nat)
    | Done

  /** History of one session, never read by an operation: the flash and the length of the
      operation log when it started, and all bytes accepted since. */
  datatype History = History(origin: Flash, mark: nat, accepted: seq<Byte>)

  datatype Prog = Prog(sector: SectorId, addr: Address, state: ProgramState, hist: History)

  datatype Turn = Turn(mem: Mem, prog: Prog, out: Poll)

  /** What `Program::new` returns. */
  datatype Opened = Opened(mem: Mem, prog: Prog) | Refused(mem: Mem, error: Error) | Crashed(mem: Mem)

  function New(m: Mem, buf: seq<Byte>, unlocked: bool): Opened {
    if |buf| >= APPLICATION_LENGTH then Refused(m, Address)
    else if |buf| > TRANSFER_SIZE then Crashed(m)
    else
      match TryFrom(APPLICATION_REGION_START)
      case Err(e) => Refused(m, e)
      case Ok(sector) =>
        var d := StartErase(m, sector, unlocked);
        if d.out.Failed? then Refused(d.mem, d.out.error)
        else Opened(d.mem,
                    Prog(sector, APPLICATION_REGION_START, AwaitEraseBeforeProgram(buf, 0),
                         History(m.flash, |m.log|, buf)))
  }

  function Update(m: Mem, p: Prog, buf: seq<Byte>, unlocked: bool): Turn {
    if !p.state.AwaitData? then Turn(m, p, Failed(Unknown))
    else if |buf| > TRANSFER_SIZE then Turn(m, p, Panicked)
    else
      var t := EraseOrProgram(m, p, buf, 0, unlocked);
      if t.out.Pending?
      then t.(prog := t.prog.(hist := p.hist.(accepted := p.hist.accepted + buf)))
      else t
  }

  function Finalize(d: Digest, m: Mem, p: Prog, unlocked: bool): Turn {
    if p.state.AwaitData? then EraseOrProgramManifest(d, m, p, unlocked)
    else Turn(m, p, Failed(Unknown))
  }

  function PollProgram(d: Digest, m: Mem, p: Prog, reply: Reply, unlocked: bool): Turn {
    if p.state.AwaitData? then Turn(m, p, Pending)
    else
      var q := PollDriver(m, reply);
      if !q.out.Ready? then Turn(q.mem, p, q.out)
      else Continue(d, q.mem, p, q.out.n, unlocked)
  }

  /** The second half of poll: the driver has just completed n bytes. */
  function Continue(d: Digest, m: Mem, p: Prog, n: nat, unlocked: bool): Turn
    requires !p.state.AwaitData?
  {
    match p.state
    case AwaitEraseBeforeProgram(data, wr) =>
      if wr > |data| then Turn(m, p, Panicked)
      else
        var q := StartProgram(m, p.addr, data[wr..], unlocked);
        Turn(q.mem, if q.out.Pending? then p.(state := AwaitProgram(data, wr)) else p, q.out)
    case AwaitProgram(data, wr) =>
      var p1 := p.(addr := p.addr + n);
      if wr + n > |data| then Turn(m, p1, Panicked)
      else if wr + n == |data| then Turn(m, p1.(state := AwaitData), Pending)
      else EraseOrProgram(m, p1, data, wr + n, unlocked)
    case AwaitErase => EraseOrProgramManifest(d, m, p, unlocked)
    case AwaitProgramManifest(data, wr) =>
      var p1 := p.(addr := p.addr + n);
      if wr + n > |data| then Turn(m, p1, Panicked)
      else if wr + n == |data| then Turn(m, p1.(state := Done), Ready(0))
      else
        var q := StartProgram(m, p1.addr, data[wr + n..], unlocked);
        Turn(q.mem, p1.(state := AwaitProgramManifest(data, wr + n)), q.out)
    case Done => Turn(m, p, Panicked)
  }

  function EraseOrProgram(m: Mem, p: Prog, data: seq<Byte>, wr: nat, unlocked: bool): Turn
    requires wr <= |data|
  {
    if p.addr >= MANIFEST_REGION_START then Turn(m, p, Failed(Address))
    else
      match TryFrom(p.addr)
      case Err(e) => Turn(m, p, Failed(e))
      case Ok(sector) =>
        if sector != p.sector then
          var q := StartErase(m, sector, unlocked);
          var p1 := p.(sector := sector);
          Turn(q.mem, if q.out.Pending? then p1.(state := AwaitEraseBeforeProgram(data, wr)) else p1, q.out)
        else
          var q := StartProgram(m, p.addr, data[wr..], unlocked);
          Turn(q.mem, if q.out.Pending? then p.(state := AwaitProgram(data, wr)) else p, q.out)
  }

  function EraseOrProgramManifest(d: Digest, m: Mem, p: Prog, unlocked: bool): Turn {
    if p.sector < 7 then
      var q := StartErase(m, p.sector + 1, unlocked);
      Turn(q.mem, p.(sector := p.sector + 1, state := AwaitErase), q.out)
    else
      var length := p.addr - APPLICATION_REGION_START;
      var manifest := ManifestBytes(d, length, ApplicationBytes(m.flash, length));
      var q := StartProgram(m, MANIFEST_REGION_START, manifest, unlocked);
      Turn(q.mem,
           if q.out.Pending?
           then p.(addr := MANIFEST_REGION_START, state := AwaitProgramManifest(manifest, 0))
           else p,
           q.out)
  }
}
