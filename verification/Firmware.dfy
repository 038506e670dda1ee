/** What the device makes of the flash a session leaves behind: after a power cut, when it
    checks the firmware, and when the host reads it back. */
module Firmware {
  import opened Bytes
  import opened Platform
  import opened FlashSpec
  import opened ProgramSpec
  import opened Session
  import opened Order
  import opened Install
  import opened HandlerSpec

  // ---- the manifest at every point of a session ----

  /** How many manifest bytes are in place. */
  function ManifestProgress(d: Digest, p: Prog): nat {
    match p.state
    case AwaitProgramManifest(_, wr) => wr
    case Done => ManifestSize(d)
    case _ => 0
  }

  predicate LastSectorErased(p: Prog) {
    p.sector == 7 && !ErasingNow(p)
  }

  /** Between any two operations of a session the manifest region is the one the session found,
      until sector 7 is erased; after that it is a prefix of the new manifest in whole words,
      followed by blank cells. */
  lemma ManifestConsistent(d: Digest, m: Mem, p: Prog)
    requires InSession(d, m, p)
    ensures !LastSectorErased(p) ==> SameOn(m.flash, p.hist.origin, MANIFEST_REGION_START, FLASH_END)
    ensures LastSectorErased(p) ==>
      var k := ManifestProgress(d, p);
      && k % 4 == 0 && k <= ManifestSize(d)
      && Holds(m.flash, MANIFEST_REGION_START, Prefix(Manifest(d, p), k))
      && Blank(m.flash, MANIFEST_REGION_START + k, FLASH_END)
  {
    ManifestRegion(d);
    SectorsTile(p.sector);
    if p.state.Done? { assert Manifest(d, p)[..ManifestSize(d)] == Manifest(d, p); }
  }

  /** No manifest byte is handed to the controller before every byte of the image has been
      read back from flash and every sector up to the last has been erased. */
  lemma ManifestComesLast(d: Digest, m: Mem, p: Prog, i: nat)
    requires InSession(d, m, p)
    requires i < |SessionOps(m, p.hist)|
    requires var op := SessionOps(m, p.hist)[i]; op.WriteOp? && op.addr >= MANIFEST_REGION_START
    ensures Holds(m.flash, APPLICATION_REGION_START, p.hist.accepted)
    ensures Blank(m.flash, APPLICATION_REGION_START + |p.hist.accepted|, MANIFEST_REGION_START)
    ensures Erases(SessionOps(m, p.hist)[..i]) == From2(6)
  {
    var ops := SessionOps(m, p.hist);
    StepAt(ops, i, i);
    FrontMonotone(ops, i + 1);
    EraseOrder(ops[..i]);
    SectorsTile(Replay(ops[..i]).erased);
    if p.state.AwaitProgram? { ChunkAligned(p.addr, |PendingBytes(p)|); }
    assert p.hist.accepted[..|p.hist.accepted|] == p.hist.accepted;
  }

  // ---- the firmware check on any flash ----

  /** The image the manifest region describes: of the length in its first word, or all of the region
      if that is less, at the start of the region, and with the digest that follows the word. */
  predicate Described(d: Digest, f: Flash, image: seq<Byte>) {
    && |image| == (if WordAt(f, 0x7_FF80) <= 491_392 then WordAt(f, 0x7_FF80) else 491_392)
    && Holds(f, APPLICATION_REGION_START, image)
    && Holds(f, MANIFEST_REGION_START + 4, d.Of(image))
  }

  /** The first word points into RAM, the second into the application. */
  predicate Boots(f: Flash) {
    && 0x2000_0000 <= WordAt(f, 0x8000) < 0x2002_0000
    && 0x0800_8000 <= WordAt(f, 0x8004) < 0x0807_FF80
  }

  lemma WordReads(f: Flash, at: nat)
    requires at + 4 <= FLASH_SIZE
    ensures FromLe(FlashBytes(f, FLASH_BASE + at, 4)) == WordAt(f, at)
  {
    var w := FlashBytes(f, FLASH_BASE + at, 4);
    assert w[0] == f[at] && w[1] == f[at + 1] && w[2] == f[at + 2] && w[3] == f[at + 3];
    FromLeWord(w);
  }

  lemma FromLeWord(w: seq<Byte>)
    requires |w| == 4
    ensures FromLe(w) == w[0] as int + 0x100 * (w[1] as int) + 0x1_0000 * (w[2] as int) + 0x100_0000 * (w[3] as int)
  {
    assert w[1..][1..] == w[2..] && w[2..][1..] == w[3..] && w[3..][1..] == [];
    assert FromLe(w[3..]) == w[3] + 256 * FromLe([]);
    assert FromLe(w[2..]) == w[2] + 256 * FromLe(w[3..]);
    assert FromLe(w[1..]) == w[1] + 256 * FromLe(w[2..]);
  }

  /** For every flash: the firmware is valid exactly if the boot pin is high, both boot words are in
      range, and the manifest describes what lies in the application region. */
  lemma {:induction false} FlashValidIff(d: Digest, h: Handler, bootPinLow: bool)
    ensures var f := h.mem.flash;
      FirmwareValid(d, h, bootPinLow)
      <==> !bootPinLow && Boots(f) && exists image :: Described(d, f, image)
  {
    hide FlashBytes, FromLe, WordAt;
    var f := h.mem.flash;
    WordReads(f, 0x8000);
    WordReads(f, 0x8004);
    WordReads(f, 0x7_FF80);
    var app := ApplicationBytes(f, ManifestLength(f));
    HashReads(d, f, d.Of(app));
    AppDescribed(d, f, app);
    if image :| Described(d, f, image) { OnlyImage(d, f, image); }
  }

  lemma HashReads(d: Digest, f: Flash, hash: seq<Byte>)
    requires |hash| == d.Length()
    ensures hash == ManifestHash(d, f) <==> Holds(f, MANIFEST_REGION_START + 4, hash)
  {
    var at := MANIFEST_REGION_START + 4 - FLASH_BASE;
    var stored := ManifestHash(d, f);
    assert forall k :: 0 <= k < |hash| ==> stored[k] == f[at + k];
    if Holds(f, MANIFEST_REGION_START + 4, hash) {
      assert forall k :: 0 <= k < |hash| ==> hash[k] == f[at + k];
    }
  }

  lemma AppDescribed(d: Digest, f: Flash, app: seq<Byte>)
    requires app == ApplicationBytes(f, WordAt(f, 0x7_FF80))
    ensures Holds(f, MANIFEST_REGION_START + 4, d.Of(app)) ==> Described(d, f, app)
  {
    hide WordAt;
    ApplicationCells(f, WordAt(f, 0x7_FF80));
  }

  lemma OnlyImage(d: Digest, f: Flash, image: seq<Byte>)
    requires Described(d, f, image)
    ensures image == ApplicationBytes(f, WordAt(f, 0x7_FF80))
  {
    hide WordAt;
    HeldApplication(f, image);
    ApplicationCells(f, WordAt(f, 0x7_FF80));
    ApplicationCells(f, |image|);
  }

  /** With a blank manifest the length word is the largest there is: the whole region is measured
      against a digest of 0xFF bytes. */
  lemma {:induction false} BlankManifestValidIff(d: Digest, h: Handler, bootPinLow: bool)
    requires Blank(h.mem.flash, MANIFEST_REGION_START, FLASH_END)
    ensures var f := h.mem.flash;
      FirmwareValid(d, h, bootPinLow)
      <==> !bootPinLow && Boots(f) && d.Of(f[0x8000..0x7_FF80]) == Blanks(d.Length())
  {
    var f := h.mem.flash;
    FlashValidIff(d, h, bootPinLow);
    assert WordAt(f, 0x7_FF80) == 0xFFFF_FFFF;
    var region := f[0x8000..0x7_FF80];
    var at := MANIFEST_REGION_START + 4 - FLASH_BASE;
    assert forall i :: at <= i < at + d.Length() ==> f[i] == ERASED;
    hide WordAt;
    if image :| Described(d, f, image) {
      assert forall i :: 0x8000 <= i < 0x8000 + |image| ==> f[i] == image[i - 0x8000];
      assert image == region;
      assert forall i :: at <= i < at + d.Length() ==> f[i] == d.Of(image)[i - at];
      assert forall k :: 0 <= k < d.Length() ==> d.Of(image)[k] == f[at + k];
      assert d.Of(region) == Blanks(d.Length());
    }
    if d.Of(region) == Blanks(d.Length()) { assert Described(d, f, region); }
  }

  // ---- reading the manifest back ----

  lemma InstalledReads(d: Digest, origin: Flash, image: seq<Byte>)
    requires |image| <= APPLICATION_LENGTH
    ensures var f := Installed(d, origin, image);
      && ManifestLength(f) == |image| && ManifestHash(d, f) == d.Of(image)
      && ApplicationBytes(f, |image|) == image
  {
    var f := Installed(d, origin, image);
    var manifest := ManifestBytes(d, |image|, image);
    var at := MANIFEST_REGION_START - FLASH_BASE;
    assert f[at..at + |manifest|] == manifest;
    assert FlashBytes(f, MANIFEST_REGION_START, 4) == manifest[..4] == Le(|image|, 4);
    assert ManifestHash(d, f) == manifest[4..] == d.Of(image);
    LeRoundTrip(|image|, 4);
    assert Bound(4) == 256 * Bound(3) && Bound(3) == 256 * Bound(2) && Bound(2) == 256 * Bound(1) && Bound(1) == 256;
  }

  /** After a completed session the firmware check depends on the boot pin and the two boot
      vectors alone: the digest always matches. */
  lemma ValidIff(d: Digest, h: Handler, origin: Flash, image: seq<Byte>, bootPinLow: bool)
    requires |image| <= APPLICATION_LENGTH && h.mem.flash == Installed(d, origin, image)
    ensures FirmwareValid(d, h, bootPinLow) <==> !bootPinLow && BootVectors(h.mem.flash)
  {
    InstalledReads(d, origin, image);
  }

  /** An image too short to hold both vectors is never taken for valid: what is missing of the
      reset vector reads as 0xFF. */
  lemma ShortImageInvalid(d: Digest, h: Handler, origin: Flash, image: seq<Byte>, bootPinLow: bool)
    requires |image| < 8 && h.mem.flash == Installed(d, origin, image)
    ensures !FirmwareValid(d, h, bootPinLow)
  {
    var f := h.mem.flash;
    var word := FlashBytes(f, APPLICATION_REGION_START + 4, 4);
    assert word[3] == f[APPLICATION_REGION_START + 7 - FLASH_BASE] == ERASED;
    FromLeTop(word);
  }

  /** The first two words of an image: a stack pointer in RAM and a reset vector in the application
      region. */
  predicate Bootable(image: seq<Byte>) {
    && |image| >= 8
    && 0x2000_0000 <= FromLe(image[..4]) < 0x2002_0000
    && APPLICATION_REGION_START <= FromLe(image[4..8]) < MANIFEST_REGION_START
  }

  /** After a completed session the image itself decides, apart from the boot pin. */
  lemma ImageValidIff(d: Digest, h: Handler, origin: Flash, image: seq<Byte>, bootPinLow: bool)
    requires |image| <= APPLICATION_LENGTH && h.mem.flash == Installed(d, origin, image)
    ensures FirmwareValid(d, h, bootPinLow) <==> !bootPinLow && Bootable(image)
  {
    if |image| < 8 {
      ShortImageInvalid(d, h, origin, image, bootPinLow);
    } else {
      ValidIff(d, h, origin, image, bootPinLow);
      var f, at := h.mem.flash, APPLICATION_REGION_START - FLASH_BASE;
      assert f[at..at + |image|] == image;
      assert FlashBytes(f, APPLICATION_REGION_START, 4) == image[..4];
      assert FlashBytes(f, APPLICATION_REGION_START + 4, 4) == image[4..8];
    }
  }

  lemma FromLeTop(w: seq<Byte>)
    requires |w| == 4
    ensures FromLe(w) >= 0x100_0000 * (w[3] as int)
  {
    assert w[1..][1..][1..] == [w[3]];
    assert FromLe([w[3]]) == w[3] + 256 * FromLe([]);
    assert FromLe(w) == w[0] + 256 * FromLe(w[1..]);
    assert FromLe(w[1..]) == w[1] + 256 * FromLe(w[1..][1..]);
    assert FromLe(w[1..][1..]) == w[2] + 256 * FromLe(w[1..][1..][1..]);
  }
}
