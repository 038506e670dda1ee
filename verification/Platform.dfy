/** The memory map of the STM32F401 board: sectors, regions and the manifest
    (src/nucleo_f401re/mod.rs, src/nucleo_f401re/dfu/mod.rs and the sector
    table of src/nucleo_f401re/bootloader.rs). */
module Platform {
  import opened Bytes
  import opened Dfu

  const FLASH_BASE := 0x0800_0000
  const FLASH_END := 0x0808_0000
  const FLASH_SIZE := FLASH_END - FLASH_BASE
  const APPLICATION_REGION_START := 0x0800_8000
  const MANIFEST_REGION_START := FLASH_END - 128
  const APPLICATION_LENGTH := MANIFEST_REGION_START - APPLICATION_REGION_START
  const TRANSFER_SIZE := 128

  type Flash = f: seq<Byte> | |f| == FLASH_SIZE
    witness seq(FLASH_SIZE, _ => ERASED)

  /** Addresses a session works on: it starts at the application and only moves up. */
  type Address = a: int | APPLICATION_REGION_START <= a
    witness APPLICATION_REGION_START

  // ---- hash and manifest ----

  /** An uninterpreted digest of either length the build can select: byte i of the
      digest of s is byteAt(s, i). */
  datatype Digest = Sha1(byteAt: (seq<Byte>, nat) -> Byte) | Sha256(byteAt: (seq<Byte>, nat) -> Byte)
  {
    function Length(): nat { if Sha1? then 20 else 32 }

    function Of(s: seq<Byte>): (h: seq<Byte>)
      ensures |h| == Length()
    {
      seq(Length(), (i: nat) => byteAt(s, i))
    }
  }

  /** The manifest as it lies in flash: a 4-byte length, then the digest. */
  function ManifestBytes(d: Digest, length: nat, image: seq<Byte>): (b: seq<Byte>)
    ensures |b| == ManifestSize(d)
  {
    Le(length, 4) + d.Of(image)
  }

  function ManifestSize(d: Digest): nat { 4 + d.Length() }

  /** The manifest region is the manifest rounded up to 128 bytes, for both digests. */
  lemma ManifestRegion(d: Digest)
    ensures MANIFEST_REGION_START == FLASH_END - (ManifestSize(d) + 127) / 128 * 128
    ensures ManifestSize(d) == (if d.Sha1? then 24 else 36) && ManifestSize(d) % 4 == 0
  {
  }

  // ---- sectors ----

  type SectorId = s: nat | s < 8

  function SectorStart(s: SectorId): int {
    match s
    case 0 => 0x0800_0000
    case 1 => 0x0800_4000
    case 2 => 0x0800_8000
    case 3 => 0x0800_C000
    case 4 => 0x0801_0000
    case 5 => 0x0802_0000
    case 6 => 0x0804_0000
    case _ => 0x0806_0000
  }

  function SectorLength(s: SectorId): nat {
    if s < 4 then 16 * 1024 else if s == 4 then 64 * 1024 else 128 * 1024
  }

  function SectorEnd(s: SectorId): int { SectorStart(s) + SectorLength(s) }

  /** Sector::try_from: shift and mask, no table. */
  function TryFrom(address: int): Result<SectorId> {
    if address < 0x0800_0000 then Err(Address)
    else if address < 0x0801_0000 then Ok((address / 0x4000) % 16)
    else if address < 0x0802_0000 then Ok(4)
    else if address < 0x0808_0000 then Ok((address / 0x2_0000) % 16 + 4)
    else Err(Address)
  }

  predicate InSector(address: int, s: SectorId) {
    SectorStart(s) <= address < SectorEnd(s)
  }

  /** The shift-and-mask lookup finds the one table row that holds the address, and
      fails exactly outside flash. */
  lemma TryFromRefinesTable(address: int)
    ensures TryFrom(address).Ok? <==> FLASH_BASE <= address < FLASH_END
    ensures forall s: SectorId :: InSector(address, s) <==> TryFrom(address) == Ok(s)
    ensures TryFrom(address).Err? ==> TryFrom(address) == Err(Address)
  {
  }

  /** The rows of the table tile flash in order, on word boundaries. */
  lemma SectorsTile(s: SectorId)
    ensures FLASH_BASE <= SectorStart(s) < SectorEnd(s) <= FLASH_END
    ensures SectorStart(s) % 4 == 0 && SectorEnd(s) % 4 == 0 && SectorLength(s) > 2 * TRANSFER_SIZE
    ensures s < 7 ==> SectorStart(s + 1) == SectorEnd(s)
    ensures s == 7 ==> SectorEnd(s) == FLASH_END
    ensures s >= 2 ==> SectorStart(s) >= APPLICATION_REGION_START
    ensures SectorEnd(s) > MANIFEST_REGION_START <==> s == 7
  {
  }

  // ---- views of flash ----

  function Prefix(s: seq<Byte>, n: nat): seq<Byte> {
    if n <= |s| then s[..n] else s
  }

  /** [lo, hi) of a and b hold the same bytes. */
  predicate SameOn(a: Flash, b: Flash, lo: int, hi: int) {
    forall i :: 0 <= i < FLASH_SIZE && lo - FLASH_BASE <= i < hi - FLASH_BASE ==> a[i] == b[i]
  }

  /** [lo, hi) reads as erased. */
  predicate Blank(f: Flash, lo: int, hi: int) {
    forall i :: 0 <= i < FLASH_SIZE && lo - FLASH_BASE <= i < hi - FLASH_BASE ==> f[i] == ERASED
  }

  /** The bytes from `lo` on start with s. */
  predicate Holds(f: Flash, lo: int, s: seq<Byte>) {
    && FLASH_BASE <= lo && lo + |s| <= FLASH_END
    && forall i :: lo - FLASH_BASE <= i < lo - FLASH_BASE + |s| ==> f[i] == s[i - (lo - FLASH_BASE)]
  }

  /** ApplicationRef::get_with_length: the application bytes, clamped to their region. */
  function ApplicationBytes(f: Flash, length: nat): seq<Byte> {
    var n := if length < APPLICATION_LENGTH then length else APPLICATION_LENGTH;
    f[APPLICATION_REGION_START - FLASH_BASE..APPLICATION_REGION_START - FLASH_BASE + n]
  }

  /** The little-endian word at an offset. */
  function WordAt(f: Flash, at: nat): nat
    requires at + 4 <= FLASH_SIZE
  {
    f[at] as int + 0x100 * (f[at + 1] as int) + 0x1_0000 * (f[at + 2] as int) + 0x100_0000 * (f[at + 3] as int)
  }

  /** For every flash and every length: the slice starts with the region, byte by byte, and ends with
      it at the latest. */
  lemma ApplicationCells(f: Flash, length: nat)
    ensures var app := ApplicationBytes(f, length);
      && |app| == (if length <= 491_392 then length else 491_392)
      && forall i :: 0 <= i < |app| ==> app[i] == f[0x8000 + i]
  {
  }

  lemma HeldApplication(f: Flash, image: seq<Byte>)
    requires |image| <= APPLICATION_LENGTH && Holds(f, APPLICATION_REGION_START, image)
    ensures ApplicationBytes(f, |image|) == image
  {
  }

  lemma HoldsJoin(f: Flash, lo: int, a: seq<Byte>, b: seq<Byte>)
    requires Holds(f, lo, a) && Holds(f, lo + |a|, b)
    ensures Holds(f, lo, a + b)
  {
  }

  lemma HoldsCarries(f: Flash, g: Flash, lo: int, s: seq<Byte>)
    requires Holds(f, lo, s) && SameOn(g, f, lo, lo + |s|)
    ensures Holds(g, lo, s)
  {
  }
}
