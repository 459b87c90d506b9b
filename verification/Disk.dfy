/** The secondary ATA disk as the installer sees it: an array of 512-byte sectors
    behind a read and a write call, either of which may fail. */
module Disk {
  import opened Common

  const SECTOR_BYTES: nat := 512

  type Sector = s: seq<Byte> | |s| == SECTOR_BYTES witness seq(SECTOR_BYTES, _ => 0)

  function Zeroed(): (s: Sector)
    ensures forall i | 0 <= i < SECTOR_BYTES :: s[i] == 0
  {
    seq(SECTOR_BYTES, _ => 0)
  }

  type Image = seq<Sector>

  /** `img1` and `log1` come from `img0` and `log0` by write attempts to LBAs in [lo, hi) only. */
  ghost predicate Confined(img0: Image, log0: seq<nat>, img1: Image, log1: seq<nat>, lo: nat, hi: nat) {
    && |img1| == |img0|
    && log0 <= log1
    && (forall k | |log0| <= k < |log1| :: lo <= log1[k] < hi)
    && (forall lba | 0 <= lba < |img0| && !(lo <= lba < hi) :: img1[lba] == img0[lba])
  }

  lemma ConfinedTrans(img0: Image, log0: seq<nat>, img1: Image, log1: seq<nat>, img2: Image, log2: seq<nat>,
                      lo1: nat, hi1: nat, lo2: nat, hi2: nat, lo: nat, hi: nat)
    requires Confined(img0, log0, img1, log1, lo1, hi1) && Confined(img1, log1, img2, log2, lo2, hi2)
    requires lo <= lo1 && hi1 <= hi && lo <= lo2 && hi2 <= hi
    ensures Confined(img0, log0, img2, log2, lo, hi)
  {}

  class Disk {
    /** What happens to the I/O request with a given sequence number: `None` is success,
        `Some(s)` is a failed request; a failed write leaves `s` in the sector. */
    const fault: nat -> Option<Sector>

    var sectors: Image
    var clock: nat

    /** LBAs of all write requests so far, successful or not. */
    ghost var log: seq<nat>

    ghost predicate Reliable() {
      forall t: nat :: fault(t).None?
    }

    constructor (sectors: Image, fault: nat -> Option<Sector>)
      ensures this.sectors == sectors && this.fault == fault && log == []
    {
      this.sectors := sectors;
      this.fault := fault;
      clock := 0;
      log := [];
    }

    /** `ata::read_sector_sec`: a failed read leaves the caller's buffer alone. */
    method ReadSector(lba: nat, buf: Sector) returns (ok: bool, res: Sector)
      modifies this`clock
      ensures ok ==> lba < |sectors| && res == sectors[lba]
      ensures !ok ==> res == buf
      ensures Reliable() ==> ok == (lba < |sectors|)
    {
      ok := lba < |sectors| && fault(clock).None?;
      res := if ok then sectors[lba] else buf;
      clock := clock + 1;
    }

    /** `ata::write_sector_sec`. */
    method WriteSector(lba: nat, buf: Sector) returns (ok: bool)
      modifies this
      ensures log == old(log) + [lba]
      ensures ok ==> lba < |old(sectors)| && sectors == old(sectors)[lba := buf]
      ensures Reliable() ==> ok == (lba < |sectors|)
      ensures Confined(old(sectors), old(log), sectors, log, lba, lba + 1)
    {
      log := log + [lba];
      ok := false;
      if lba < |sectors| {
        var outcome := fault(clock);
        ok := outcome.None?;
        var stored: Sector := if ok then buf else outcome.value;
        sectors := sectors[lba := stored];
      }
      clock := clock + 1;
    }

    /** `zero_sector`. */
    method ZeroSector(lba: nat) returns (ok: bool)
      modifies this
      ensures ok ==> lba < |old(sectors)| && sectors == old(sectors)[lba := Zeroed()]
      ensures Reliable() ==> ok == (lba < |sectors|)
      ensures Confined(old(sectors), old(log), sectors, log, lba, lba + 1)
    {
      ok := WriteSector(lba, Zeroed());
    }
  }
}
