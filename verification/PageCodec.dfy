/** The shared-memory layout through which the browser's child process hands a parsed page to its parent. */
module PageCodec {
  import opened Common

  const SHM_SIZE: nat := 307200
  const MAX_ROWS: nat := 2000
  const MAX_LINKS: nat := 100
  const TEXT_BYTES: nat := 100
  const ROW_BYTES: nat := 110
  const LINK_BYTES: nat := 260
  const LINK_MAX: nat := 256
  const TITLE_MAX: nat := 128
  const MESSAGE_MAX: nat := 120
  const ROWS_AT: nat := 512
  const LINKS_AT: nat := ROWS_AT + MAX_ROWS * ROW_BYTES

  const STATUS_OK: nat := 1
  const STATUS_ERR: nat := 2
  const COLOR_OK: nat := 1
  const COLOR_ERR: nat := 2

  type Image = seq<Byte>

  /** A rendered line: its text buffer, how much of it is used, colour and link. */
  datatype Row = Row(text: seq<Byte>, len: nat, color: nat, link: nat)

  /** What is handed over. */
  datatype Stored = Stored(status: nat, rows: seq<Row>, links: seq<seq<Byte>>, title: seq<Byte>, message: seq<Byte>, color: nat)

  predicate RowOk(r: Row) {
    |r.text| == TEXT_BYTES && r.len < 0x1_0000_0000 && r.color < 0x1_0000_0000 && r.link < 0x1_0000
  }

  predicate RowsOk(rows: seq<Row>) {
    forall k | 0 <= k < |rows| :: RowOk(rows[k])
  }

  /** Within the limits of the layout. */
  predicate Bounded(s: Stored) {
    && s.status < 0x1_0000_0000 && s.color < 0x1_0000_0000
    && |s.rows| <= MAX_ROWS && RowsOk(s.rows)
    && |s.links| <= MAX_LINKS && (forall k | 0 <= k < |s.links| :: |s.links[k]| <= LINK_MAX)
    && |s.title| <= TITLE_MAX && |s.message| <= MESSAGE_MAX
  }

  function Cut(s: seq<Byte>, n: nat): (r: seq<Byte>)
    ensures |r| <= n
  {
    if |s| <= n then s else s[..n]
  }

  function CutAll(ss: seq<seq<Byte>>, n: nat): (r: seq<seq<Byte>>)
    ensures |r| == |ss| && forall k | 0 <= k < |ss| :: r[k] == Cut(ss[k], n)
  {
    if ss == [] then [] else CutAll(ss[..|ss| - 1], n) + [Cut(ss[|ss| - 1], n)]
  }

  /** A page cut to the limits; the address stands in for a missing title. */
  function Limited(rows: seq<Row>, links: seq<seq<Byte>>, title: seq<Byte>, url: seq<Byte>, message: seq<Byte>): Stored {
    Stored(STATUS_OK, rows[..Min(|rows|, MAX_ROWS)], CutAll(links[..Min(|links|, MAX_LINKS)], LINK_MAX),
           Cut(if title != [] then title else url, TITLE_MAX), Cut(message, MESSAGE_MAX), COLOR_OK)
  }

  // ----- what the segment holds -----

  predicate At(img: Image, off: nat, bytes: seq<Byte>) {
    off + |bytes| <= |img| && img[off..off + |bytes|] == bytes
  }

  function RowAt(i: nat): nat {
    ROWS_AT + i * ROW_BYTES
  }

  function LinkAt(i: nat): nat {
    LINKS_AT + i * LINK_BYTES
  }

  predicate HoldsRow(img: Image, i: nat, r: Row) {
    var off := RowAt(i);
    At(img, off, r.text) && At(img, off + 100, Le32(r.len)) && At(img, off + 104, Le32(r.color)) && At(img, off + 108, Le16(r.link))
  }

  predicate HoldsLink(img: Image, i: nat, l: seq<Byte>) {
    At(img, LinkAt(i), Le32(|l|)) && At(img, LinkAt(i) + 4, l)
  }

  predicate HoldsHeader(img: Image, s: Stored) {
    && At(img, 0, Le32(s.status)) && At(img, 4, Le32(|s.rows|)) && At(img, 8, Le32(|s.links|))
    && At(img, 12, Le32(|s.title|)) && At(img, 16, s.title)
    && At(img, 144, Le32(|s.message|)) && At(img, 148, s.message) && At(img, 268, Le32(s.color))
  }

  predicate HoldsRows(img: Image, rows: seq<Row>) {
    forall k | 0 <= k < |rows| :: HoldsRow(img, k, rows[k])
  }

  predicate HoldsLinks(img: Image, links: seq<seq<Byte>>) {
    forall k | 0 <= k < |links| :: HoldsLink(img, k, links[k])
  }

  predicate HoldsPage(img: Image, s: Stored) {
    |img| == SHM_SIZE && HoldsHeader(img, s) && HoldsRows(img, s.rows) && HoldsLinks(img, s.links)
  }

  // ----- reading -----

  function U32(img: Image, off: nat): nat
    requires off + 4 <= |img|
  {
    FromLe32(img[off], img[off + 1], img[off + 2], img[off + 3])
  }

  function U16(img: Image, off: nat): nat
    requires off + 2 <= |img|
  {
    var hi: nat := img[off + 1];
    256 * hi + img[off]
  }

  function DecodeRow(img: Image, i: nat): Row
    requires |img| == SHM_SIZE && i < MAX_ROWS
  {
    var off := RowAt(i);
    Row(img[off..off + 100], U32(img, off + 100), U32(img, off + 104), U16(img, off + 108))
  }

  /** A counted string at `off`, cut to `n` bytes. */
  function DecodeText(img: Image, off: nat, n: nat): seq<Byte>
    requires off + 4 + n <= |img|
  {
    img[off + 4..off + 4 + Min(U32(img, off), n)]
  }

  function DecodeRows(img: Image, n: nat): (r: seq<Row>)
    requires |img| == SHM_SIZE && n <= MAX_ROWS
    ensures |r| == n && forall k | 0 <= k < n :: r[k] == DecodeRow(img, k)
  {
    if n == 0 then [] else DecodeRows(img, n - 1) + [DecodeRow(img, n - 1)]
  }

  function DecodeLinks(img: Image, n: nat): (r: seq<seq<Byte>>)
    requires |img| == SHM_SIZE && n <= MAX_LINKS
    ensures |r| == n && forall k | 0 <= k < n :: r[k] == DecodeText(img, LinkAt(k), LINK_MAX)
  {
    if n == 0 then [] else DecodeLinks(img, n - 1) + [DecodeText(img, LinkAt(n - 1), LINK_MAX)]
  }

  function Decode(img: Image): Stored
    requires |img| == SHM_SIZE
  {
    Stored(U32(img, 0), DecodeRows(img, Min(U32(img, 4), MAX_ROWS)), DecodeLinks(img, Min(U32(img, 8), MAX_LINKS)),
           DecodeText(img, 12, TITLE_MAX), DecodeText(img, 144, MESSAGE_MAX), U32(img, 268))
  }

  // ----- reading back what is held -----

  lemma U32At(img: Image, off: nat, v: nat)
    requires At(img, off, Le32(v)) && v < 0x1_0000_0000
    ensures U32(img, off) == v
  {
    Le32RoundTrip(v);
    var b := Le32(v);
    assert img[off..off + 4][0] == b[0] && img[off..off + 4][1] == b[1] && img[off..off + 4][2] == b[2] && img[off..off + 4][3] == b[3];
  }

  lemma U16At(img: Image, off: nat, v: nat)
    requires At(img, off, Le16(v)) && v < 0x1_0000
    ensures U16(img, off) == v
  {
    var b := Le16(v);
    assert img[off..off + 2][0] == b[0] && img[off..off + 2][1] == b[1];
  }

  lemma TextAt(img: Image, off: nat, n: nat, t: seq<Byte>)
    requires At(img, off, Le32(|t|)) && At(img, off + 4, t) && |t| <= n < 0x1_0000_0000 && off + 4 + n <= |img|
    ensures DecodeText(img, off, n) == t
  {
    U32At(img, off, |t|);
  }

  lemma RowHeld(img: Image, i: nat, r: Row)
    requires |img| == SHM_SIZE && i < MAX_ROWS && RowOk(r) && HoldsRow(img, i, r)
    ensures DecodeRow(img, i) == r
  {
    var off := RowAt(i);
    U32At(img, off + 100, r.len);
    U32At(img, off + 104, r.color);
    U16At(img, off + 108, r.link);
  }

  /** Whatever page the segment holds is what the reader reconstructs. */
  lemma DecodeHeld(img: Image, s: Stored)
    requires HoldsPage(img, s) && Bounded(s)
    ensures Decode(img) == s
  {
    hide At, Le32, U32, DecodeRow, DecodeText, HoldsRow;
    U32At(img, 0, s.status);
    U32At(img, 4, |s.rows|);
    U32At(img, 8, |s.links|);
    U32At(img, 268, s.color);
    TextAt(img, 12, TITLE_MAX, s.title);
    TextAt(img, 144, MESSAGE_MAX, s.message);
    forall k | 0 <= k < |s.rows| ensures DecodeRow(img, k) == s.rows[k] {
      RowHeld(img, k, s.rows[k]);
    }
    forall k | 0 <= k < |s.links| ensures DecodeText(img, LinkAt(k), LINK_MAX) == s.links[k] {
      TextAt(img, LinkAt(k), LINK_MAX, s.links[k]);
    }
  }

  /** Where everything is, in numbers: six counts and codes, two strings, rows of 110 bytes from 512 on and
      links of 260 bytes from 220512 on. */
  lemma Layout(img: Image, s: Stored)
    requires HoldsPage(img, s) && Bounded(s)
    ensures |img| == 307200 && |s.rows| <= 2000 && |s.links| <= 100
    ensures U32(img, 0) == s.status && U32(img, 4) == |s.rows| && U32(img, 8) == |s.links| && U32(img, 12) == |s.title|
    ensures U32(img, 144) == |s.message| && U32(img, 268) == s.color
    ensures img[16..16 + |s.title|] == s.title && img[148..148 + |s.message|] == s.message
    ensures forall k, j | 0 <= k < |s.rows| && 0 <= j < 100 :: |s.rows[k].text| == 100 && img[512 + 110 * k + j] == s.rows[k].text[j]
    ensures forall k | 0 <= k < |s.rows| :: U32(img, 612 + 110 * k) == s.rows[k].len && U32(img, 616 + 110 * k) == s.rows[k].color
    ensures forall k | 0 <= k < |s.rows| :: U16(img, 620 + 110 * k) == s.rows[k].link
    ensures forall k | 0 <= k < |s.links| :: U32(img, 220512 + 260 * k) == |s.links[k]|
    ensures forall k, j | 0 <= k < |s.links| && 0 <= j < |s.links[k]| :: |s.links[k]| <= 256 && img[220516 + 260 * k + j] == s.links[k][j]
  {
    hide Le32, Le16, U32, U16;
    U32At(img, 0, s.status);
    U32At(img, 4, |s.rows|);
    U32At(img, 8, |s.links|);
    U32At(img, 12, |s.title|);
    U32At(img, 144, |s.message|);
    U32At(img, 268, s.color);
    forall k | 0 <= k < |s.rows|
      ensures U32(img, 612 + 110 * k) == s.rows[k].len && U32(img, 616 + 110 * k) == s.rows[k].color && U16(img, 620 + 110 * k) == s.rows[k].link
    {
      RowNumbers(img, k, s.rows[k]);
    }
    forall k, j | 0 <= k < |s.rows| && 0 <= j < 100 ensures |s.rows[k].text| == 100 && img[512 + 110 * k + j] == s.rows[k].text[j] {
      RowByte(img, k, s.rows[k], j);
    }
    forall k | 0 <= k < |s.links| ensures U32(img, 220512 + 260 * k) == |s.links[k]| { U32At(img, LinkAt(k), |s.links[k]|); }
    forall k, j | 0 <= k < |s.links| && 0 <= j < |s.links[k]| ensures |s.links[k]| <= 256 && img[220516 + 260 * k + j] == s.links[k][j] {
      LinkByte(img, k, s.links[k], j);
    }
  }

  lemma RowNumbers(img: Image, k: nat, r: Row)
    requires |img| == SHM_SIZE && k < MAX_ROWS && RowOk(r) && HoldsRow(img, k, r)
    ensures U32(img, 612 + 110 * k) == r.len && U32(img, 616 + 110 * k) == r.color && U16(img, 620 + 110 * k) == r.link
  {
    var off := RowAt(k);
    U32At(img, off + 100, r.len);
    U32At(img, off + 104, r.color);
    U16At(img, off + 108, r.link);
  }

  lemma RowByte(img: Image, k: nat, r: Row, j: nat)
    requires |img| == SHM_SIZE && k < MAX_ROWS && RowOk(r) && HoldsRow(img, k, r) && j < 100
    ensures |r.text| == 100 && img[512 + 110 * k + j] == r.text[j]
  {
    var off := RowAt(k);
    assert img[off..off + |r.text|][j] == img[off + j];
  }

  lemma LinkByte(img: Image, k: nat, l: seq<Byte>, j: nat)
    requires |img| == SHM_SIZE && k < MAX_LINKS && HoldsLink(img, k, l) && j < |l| <= LINK_MAX
    ensures |l| <= 256 && img[220516 + 260 * k + j] == l[j]
  {
    var off := LinkAt(k) + 4;
    assert img[off..off + |l|][j] == img[off + j];
  }

  /** What is cut off a page: lines past 2000, links past 100, and the ends of long strings. */
  lemma LimitsAre(rows: seq<Row>, links: seq<seq<Byte>>, title: seq<Byte>, url: seq<Byte>, message: seq<Byte>)
    ensures var s := Limited(rows, links, title, url, message);
      && s.status == 1 && s.color == 1
      && s.rows <= rows && |s.rows| == Min(|rows|, 2000)
      && |s.links| == Min(|links|, 100)
      && (forall k | 0 <= k < |s.links| :: s.links[k] <= links[k] && |s.links[k]| == Min(|links[k]|, 256))
      && s.title <= (if title != [] then title else url) && |s.title| == Min(if title != [] then |title| else |url|, 128)
      && s.message <= message && |s.message| == Min(|message|, 120)
  {
  }

  // ----- the segment in place -----

  /** Copies bytes to an offset. */
  method CopyIn(mem: array<Byte>, off: nat, bytes: seq<Byte>)
    requires off + |bytes| <= mem.Length
    modifies mem
    ensures mem[..] == old(mem[..])[..off] + bytes + old(mem[..])[off + |bytes|..]
  {
    for k := 0 to |bytes|
      invariant forall i | 0 <= i < off || off + k <= i < mem.Length :: mem[i] == old(mem[i])
      invariant forall i | off <= i < off + k :: mem[i] == bytes[i - off]
    {
      mem[off + k] := bytes[k];
    }
  }

  /** Everything outside `[lo, hi)` is the same. */
  predicate SameOutside(a: Image, b: Image, lo: nat, hi: nat) {
    |a| == |b| && lo <= hi <= |a| && a[..lo] == b[..lo] && a[hi..] == b[hi..]
  }

  /** What was stored outside the changed part is still there. */
  lemma AtElsewhere(a: Image, b: Image, lo: nat, hi: nat, off: nat, bytes: seq<Byte>)
    requires SameOutside(a, b, lo, hi) && At(a, off, bytes) && (off + |bytes| <= lo || hi <= off)
    ensures At(b, off, bytes)
  {
    if off + |bytes| <= lo {
      assert b[off..off + |bytes|] == b[..lo][off..off + |bytes|] == a[..lo][off..off + |bytes|];
    } else {
      assert b[off..off + |bytes|] == b[hi..][off - hi..off + |bytes| - hi] == a[hi..][off - hi..off + |bytes| - hi];
    }
  }

  /** A record: an offset and the bytes stored there. */
  type Record = (nat, seq<Byte>)

  predicate HoldsAll(img: Image, recs: seq<Record>) {
    forall k | 0 <= k < |recs| :: At(img, recs[k].0, recs[k].1)
  }

  /** All records end before `end`. */
  predicate Before(recs: seq<Record>, end: nat) {
    forall k | 0 <= k < |recs| :: recs[k].0 + |recs[k].1| <= end
  }

  /** One more record after the others. */
  method Put(mem: array<Byte>, off: nat, bytes: seq<Byte>, ghost recs: seq<Record>) returns (ghost more: seq<Record>)
    requires off + |bytes| <= mem.Length && HoldsAll(mem[..], recs) && Before(recs, off)
    modifies mem
    ensures more == recs + [(off, bytes)] && HoldsAll(mem[..], more) && Before(more, off + |bytes|)
    ensures SameOutside(old(mem[..]), mem[..], off, off + |bytes|)
  {
    CopyIn(mem, off, bytes);
    more := recs + [(off, bytes)];
    forall k | 0 <= k < |recs| ensures At(mem[..], recs[k].0, recs[k].1) {
      AtElsewhere(old(mem[..]), mem[..], off, off + |bytes|, recs[k].0, recs[k].1);
    }
  }

  lemma SameOutsideTrans(a: Image, b: Image, c: Image, lo: nat, hi: nat, lo1: nat, hi1: nat)
    requires SameOutside(a, b, lo, hi) && SameOutside(b, c, lo1, hi1) && lo <= lo1 && hi <= hi1 && hi1 <= |a|
    ensures SameOutside(a, c, lo, hi1)
  {
    assert b[..lo] == b[..lo1][..lo] && c[..lo] == c[..lo1][..lo];
    assert a[hi1..] == a[hi..][hi1 - hi..] && b[hi1..] == b[hi..][hi1 - hi..];
  }

  /** One rendered line of `shm_write_page`. */
  method WriteRow(mem: array<Byte>, i: nat, r: Row)
    requires mem.Length == SHM_SIZE && i < MAX_ROWS && RowOk(r)
    modifies mem
    ensures HoldsRow(mem[..], i, r) && SameOutside(old(mem[..]), mem[..], RowAt(i), RowAt(i + 1))
  {
    hide At, SameOutside, Le32, Le16;
    var off := RowAt(i);
    LeLengths(r.len);
    LeLengths(r.color);
    LeLengths(r.link);
    ghost var m0 := mem[..];
    ghost var recs := Put(mem, off, r.text, []);
    ghost var m1 := mem[..];
    recs := Put(mem, off + 100, Le32(r.len), recs);
    ghost var m2 := mem[..];
    SameOutsideTrans(m0, m1, m2, off, off + 100, off + 100, off + 104);
    recs := Put(mem, off + 104, Le32(r.color), recs);
    ghost var m3 := mem[..];
    SameOutsideTrans(m0, m2, m3, off, off + 104, off + 104, off + 108);
    recs := Put(mem, off + 108, Le16(r.link), recs);
    SameOutsideTrans(m0, m3, mem[..], off, off + 108, off + 108, off + 110);
    assert At(mem[..], recs[0].0, recs[0].1) && At(mem[..], recs[1].0, recs[1].1) && At(mem[..], recs[2].0, recs[2].1)
        && At(mem[..], recs[3].0, recs[3].1);
  }

  lemma LeLengths(v: nat)
    ensures |Le32(v)| == 4 && |Le16(v)| == 2
  {
  }

  /** One link of `shm_write_page`. */
  method WriteLink(mem: array<Byte>, i: nat, l: seq<Byte>)
    requires mem.Length == SHM_SIZE && i < MAX_LINKS
    modifies mem
    ensures HoldsLink(mem[..], i, Cut(l, LINK_MAX)) && SameOutside(old(mem[..]), mem[..], LinkAt(i), LinkAt(i + 1))
  {
    hide At, Le32;
    var off := LinkAt(i);
    var ll := Min(|l|, LINK_MAX);
    LeLengths(ll);
    ghost var m0 := mem[..];
    ghost var recs := Put(mem, off, Le32(ll), []);
    ghost var m1 := mem[..];
    recs := Put(mem, off + 4, l[..ll], recs);
    SameOutsideTrans(m0, m1, mem[..], off, off + 4, off + 4, off + 4 + ll);
    assert At(mem[..], recs[0].0, recs[0].1) && At(mem[..], recs[1].0, recs[1].1);
    assert l[..ll] == Cut(l, LINK_MAX);
    Wider(m0, mem[..], off, off + 4 + ll, LinkAt(i + 1));
  }

  lemma Wider(a: Image, b: Image, lo: nat, hi: nat, hi1: nat)
    requires SameOutside(a, b, lo, hi) && hi <= hi1 <= |a|
    ensures SameOutside(a, b, lo, hi1)
  {
    assert a[hi1..] == a[hi..][hi1 - hi..] && b[hi1..] == b[hi..][hi1 - hi..];
  }

  // ----- records stay when others are written -----

  lemma HeaderElsewhere(a: Image, b: Image, lo: nat, hi: nat, s: Stored)
    requires SameOutside(a, b, lo, hi) && HoldsHeader(a, s) && lo >= ROWS_AT && |s.title| <= TITLE_MAX && |s.message| <= MESSAGE_MAX
    ensures HoldsHeader(b, s)
  {
    hide At, SameOutside, Le32;
    LeLengths(s.status);
    LeLengths(|s.rows|);
    LeLengths(|s.links|);
    LeLengths(|s.title|);
    LeLengths(|s.message|);
    LeLengths(s.color);
    AtElsewhere(a, b, lo, hi, 0, Le32(s.status));
    AtElsewhere(a, b, lo, hi, 4, Le32(|s.rows|));
    AtElsewhere(a, b, lo, hi, 8, Le32(|s.links|));
    AtElsewhere(a, b, lo, hi, 12, Le32(|s.title|));
    AtElsewhere(a, b, lo, hi, 16, s.title);
    AtElsewhere(a, b, lo, hi, 144, Le32(|s.message|));
    AtElsewhere(a, b, lo, hi, 148, s.message);
    AtElsewhere(a, b, lo, hi, 268, Le32(s.color));
  }

  lemma RowElsewhere(a: Image, b: Image, lo: nat, hi: nat, k: nat, r: Row)
    requires SameOutside(a, b, lo, hi) && HoldsRow(a, k, r) && RowAt(k + 1) <= lo && RowOk(r)
    ensures HoldsRow(b, k, r)
  {
    hide At, SameOutside, Le32, Le16;
    var off := RowAt(k);
    LeLengths(r.len);
    LeLengths(r.color);
    LeLengths(r.link);
    AtElsewhere(a, b, lo, hi, off, r.text);
    AtElsewhere(a, b, lo, hi, off + 100, Le32(r.len));
    AtElsewhere(a, b, lo, hi, off + 104, Le32(r.color));
    AtElsewhere(a, b, lo, hi, off + 108, Le16(r.link));
  }

  lemma LinkElsewhere(a: Image, b: Image, lo: nat, hi: nat, k: nat, l: seq<Byte>)
    requires SameOutside(a, b, lo, hi) && HoldsLink(a, k, l) && LinkAt(k + 1) <= lo && |l| <= LINK_MAX
    ensures HoldsLink(b, k, l)
  {
    hide At, SameOutside, Le32;
    LeLengths(|l|);
    AtElsewhere(a, b, lo, hi, LinkAt(k), Le32(|l|));
    AtElsewhere(a, b, lo, hi, LinkAt(k) + 4, l);
  }

  lemma RowsElsewhere(a: Image, b: Image, lo: nat, hi: nat, rows: seq<Row>)
    requires SameOutside(a, b, lo, hi) && HoldsRows(a, rows) && RowsOk(rows) && RowAt(|rows|) <= lo
    ensures HoldsRows(b, rows)
  {
    hide HoldsRow, SameOutside;
    forall k | 0 <= k < |rows| ensures HoldsRow(b, k, rows[k]) {
      RowElsewhere(a, b, lo, hi, k, rows[k]);
    }
  }

  lemma LinksElsewhere(a: Image, b: Image, lo: nat, hi: nat, links: seq<seq<Byte>>)
    requires SameOutside(a, b, lo, hi) && HoldsLinks(a, links) && LinkAt(|links|) <= lo
    requires forall k | 0 <= k < |links| :: |links[k]| <= LINK_MAX
    ensures HoldsLinks(b, links)
  {
    hide HoldsLink, SameOutside;
    forall k | 0 <= k < |links| ensures HoldsLink(b, k, links[k]) {
      LinkElsewhere(a, b, lo, hi, k, links[k]);
    }
  }

  /** Status and counts. */
  method WriteCounts(mem: array<Byte>, status: nat, rows: nat, links: nat, title: nat) returns (ghost r: seq<Record>)
    requires mem.Length == SHM_SIZE
    modifies mem
    ensures r == [(0, Le32(status)), (4, Le32(rows)), (8, Le32(links)), (12, Le32(title))]
    ensures HoldsAll(mem[..], r) && Before(r, 16)
  {
    hide At, SameOutside, Le32;
    LeLengths(status);
    LeLengths(rows);
    LeLengths(links);
    LeLengths(title);
    r := Put(mem, 0, Le32(status), []);
    r := Put(mem, 4, Le32(rows), r);
    r := Put(mem, 8, Le32(links), r);
    r := Put(mem, 12, Le32(title), r);
  }

  /** The header of `shm_write_page` and `shm_write_error`. */
  method WriteHeader(mem: array<Byte>, ghost s: Stored, status: nat, rows: nat, links: nat, title: seq<Byte>, message: seq<Byte>, color: nat)
    requires mem.Length == SHM_SIZE && |title| <= TITLE_MAX && |message| <= MESSAGE_MAX
    requires s.status == status && |s.rows| == rows && |s.links| == links && s.title == title && s.message == message && s.color == color
    modifies mem
    ensures HoldsHeader(mem[..], s)
  {
    hide At, SameOutside, Le32;
    LeLengths(|message|);
    LeLengths(color);
    ghost var r := WriteCounts(mem, status, rows, links, |title|);
    r := Put(mem, 16, title, r);
    r := Put(mem, 144, Le32(|message|), r);
    r := Put(mem, 148, message, r);
    r := Put(mem, 268, Le32(color), r);
    assert At(mem[..], r[0].0, r[0].1) && At(mem[..], r[1].0, r[1].1) && At(mem[..], r[2].0, r[2].1) && At(mem[..], r[3].0, r[3].1);
    assert At(mem[..], r[4].0, r[4].1) && At(mem[..], r[5].0, r[5].1) && At(mem[..], r[6].0, r[6].1) && At(mem[..], r[7].0, r[7].1);
  }

  /** The loop over the rendered lines. */
  method WriteRows(mem: array<Byte>, rows: seq<Row>, n: nat, ghost s: Stored)
    requires mem.Length == SHM_SIZE && RowsOk(rows) && n <= MAX_ROWS && n <= |rows| && s.rows == rows[..n]
    requires HoldsHeader(mem[..], s) && |s.title| <= TITLE_MAX && |s.message| <= MESSAGE_MAX
    modifies mem
    ensures HoldsHeader(mem[..], s) && HoldsRows(mem[..], s.rows)
  {
    hide HoldsHeader, HoldsRow, SameOutside, RowOk;
    for i := 0 to n
      invariant HoldsHeader(mem[..], s) && HoldsRows(mem[..], rows[..i])
    {
      ghost var before := mem[..];
      WriteRow(mem, i, rows[i]);
      HeaderElsewhere(before, mem[..], RowAt(i), RowAt(i + 1), s);
      RowsElsewhere(before, mem[..], RowAt(i), RowAt(i + 1), rows[..i]);
    }
  }

  /** The loop over the links. */
  method WriteLinks(mem: array<Byte>, links: seq<seq<Byte>>, n: nat, ghost s: Stored)
    requires mem.Length == SHM_SIZE && Bounded(s) && n <= MAX_LINKS && n <= |links| && s.links == CutAll(links[..n], LINK_MAX)
    requires HoldsHeader(mem[..], s) && HoldsRows(mem[..], s.rows)
    modifies mem
    ensures HoldsPage(mem[..], s)
  {
    hide HoldsHeader, HoldsLink, HoldsRows, SameOutside;
    for i := 0 to n
      invariant HoldsHeader(mem[..], s) && HoldsRows(mem[..], s.rows) && HoldsLinks(mem[..], s.links[..i])
    {
      ghost var before := mem[..];
      WriteLink(mem, i, links[i]);
      HeaderElsewhere(before, mem[..], LinkAt(i), LinkAt(i + 1), s);
      RowsElsewhere(before, mem[..], LinkAt(i), LinkAt(i + 1), s.rows);
      LinksElsewhere(before, mem[..], LinkAt(i), LinkAt(i + 1), s.links[..i]);
    }
    assert s.links[..n] == s.links;
  }

  /** `shm_write_page`: the segment then holds the page cut to the limits. */
  method WritePage(mem: array<Byte>, rows: seq<Row>, links: seq<seq<Byte>>, title: seq<Byte>, url: seq<Byte>, message: seq<Byte>)
    requires mem.Length == SHM_SIZE && RowsOk(rows)
    modifies mem
    ensures HoldsPage(mem[..], Limited(rows, links, title, url, message)) && Bounded(Limited(rows, links, title, url, message))
  {
    ghost var s := Limited(rows, links, title, url, message);
    assert Bounded(s);
    var rowCount: nat := Min(|rows|, MAX_ROWS);
    var linkCount: nat := Min(|links|, MAX_LINKS);
    WriteHeader(mem, s, STATUS_OK, rowCount, linkCount, Cut(if title != [] then title else url, TITLE_MAX), Cut(message, MESSAGE_MAX), COLOR_OK);
    WriteRows(mem, rows, rowCount, s);
    WriteLinks(mem, links, linkCount, s);
  }

  /** `shm_write_error`. */
  method WriteError(mem: array<Byte>, message: seq<Byte>)
    requires mem.Length == SHM_SIZE
    modifies mem
    ensures HoldsPage(mem[..], Stored(2, [], [], [], Cut(message, 120), 2))
  {
    WriteHeader(mem, Stored(STATUS_ERR, [], [], [], Cut(message, MESSAGE_MAX), COLOR_ERR), STATUS_ERR, 0, 0, [], Cut(message, MESSAGE_MAX), COLOR_ERR);
  }

  /** The loops that copy a counted string byte by byte. */
  method ReadText(mem: array<Byte>, off: nat, n: nat) returns (t: seq<Byte>)
    requires off + 4 + n <= mem.Length
    ensures t == DecodeText(mem[..], off, n)
  {
    var len: nat := Min(U32(mem[..], off), n);
    t := [];
    for i := 0 to len
      invariant t == mem[..][off + 4..off + 4 + i]
    {
      t := t + [mem[off + 4 + i]];
    }
  }

  /** The loop over the rendered lines. */
  method ReadRows(mem: array<Byte>, n: nat) returns (rows: seq<Row>)
    requires mem.Length == SHM_SIZE && n <= MAX_ROWS
    ensures rows == DecodeRows(mem[..], n)
  {
    hide DecodeRow;
    rows := [];
    for i := 0 to n
      invariant rows == DecodeRows(mem[..], i)
    {
      rows := rows + [DecodeRow(mem[..], i)];
    }
  }

  /** The loop over the links. */
  method ReadLinks(mem: array<Byte>, n: nat) returns (links: seq<seq<Byte>>)
    requires mem.Length == SHM_SIZE && n <= MAX_LINKS
    ensures links == DecodeLinks(mem[..], n)
  {
    hide DecodeText;
    links := [];
    for i := 0 to n
      invariant links == DecodeLinks(mem[..], i)
    {
      var l := ReadText(mem, LinkAt(i), LINK_MAX);
      links := links + [l];
    }
  }

  /** `shm_read_page`: after `shm_write_page` it returns the page cut to the limits. */
  method ReadPage(mem: array<Byte>) returns (s: Stored)
    requires mem.Length == SHM_SIZE
    ensures s == Decode(mem[..])
  {
    hide U32, DecodeRows, DecodeLinks, DecodeText;
    var title := ReadText(mem, 12, TITLE_MAX);
    var message := ReadText(mem, 144, MESSAGE_MAX);
    var rows := ReadRows(mem, Min(U32(mem[..], 4), MAX_ROWS));
    var links := ReadLinks(mem, Min(U32(mem[..], 8), MAX_LINKS));
    s := Stored(U32(mem[..], 0), rows, links, title, message, U32(mem[..], 268));
  }

  /** The round trip between the two processes. */
  method HandOver(mem: array<Byte>, rows: seq<Row>, links: seq<seq<Byte>>, title: seq<Byte>, url: seq<Byte>, message: seq<Byte>)
    returns (s: Stored)
    requires mem.Length == SHM_SIZE && RowsOk(rows)
    modifies mem
    ensures s == Limited(rows, links, title, url, message)
  {
    WritePage(mem, rows, links, title, url, message);
    s := ReadPage(mem);
    DecodeHeld(mem[..], Limited(rows, links, title, url, message));
  }
}
