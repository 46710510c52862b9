/**
 * Records in flash (app/persist): a region holds a 16-byte header (magic, version,
 * payload size, CRC-32 of the payload) followed by the payload.
 */
module Persist {
  import opened Bytes
  import opened FlashMemory
  import Crc32

  const MAGIC := 0x5453_5250
  const HEADER_BYTES := 16
  const REGION_COUNT := 3
  const CONFIG := 0
  const SHOTS := 1
  const NETWORK := 2

  /** The region table. */
  datatype RegionInfo = RegionInfo(baseAddr: nat, basePage: nat, numPages: nat, maxPayload: nat) {
    function Start(): int { baseAddr - BASE_ADDR }
    function Length(): nat { numPages * PAGE_BYTES }
  }

  function Region(region: nat): (r: RegionInfo)
    requires region < REGION_COUNT
    ensures r.Start() == r.basePage * PAGE_BYTES && r.basePage + r.numPages <= PAGE_COUNT
    ensures HEADER_BYTES + r.maxPayload == r.Length()
  {
    if region == CONFIG then RegionInfo(0x0801_F000, 62, 1, 2048 - 16)
    else if region == SHOTS then RegionInfo(0x0801_E000, 60, 2, 4096 - 16)
    else RegionInfo(0x0801_F800, 63, 1, 2048 - 16)
  }

  function Header(version: nat, payload: seq<byte>): (h: seq<byte>)
    requires version < 0x1_0000 && |payload| < 0x1_0000_0000
    ensures |h| == HEADER_BYTES
  {
    Wr32(MAGIC) + Wr16(version) + Wr16(0) + Wr32(|payload|) + Split32(Crc32.Crc(payload))
  }

  /** The fields of a header as they lie in flash. */
  datatype StoredHeader = StoredHeader(magic: nat, version: nat, size: nat, crc: bv32)

  function ParseHeader(h: seq<byte>): StoredHeader
    requires |h| == HEADER_BYTES
  {
    StoredHeader(Rd32(h[0..4]), Rd16(h[4..6]), Rd32(h[8..12]), Join32(h[12..16]))
  }

  /** What persist_load finds in a region. */
  function LoadFrom(cells: seq<byte>, region: nat, cap: nat, version: nat): Option<seq<byte>>
    requires |cells| == SIZE
  {
    if region >= REGION_COUNT then None
    else
      var r := Region(region);
      LoadAt(cells[r.Start()..r.Start() + r.Length()], r.maxPayload, cap, version)
  }

  /** The same on the bytes of one region. */
  function LoadAt(bytes: seq<byte>, maxPayload: nat, cap: nat, version: nat): (out: Option<seq<byte>>)
    requires |bytes| == HEADER_BYTES + maxPayload
  {
    var hdr := ParseHeader(bytes[..HEADER_BYTES]);
    if hdr.magic != MAGIC then None
    else if hdr.version != version then None
    else if hdr.size == 0 || hdr.size > maxPayload then None
    else if hdr.size > cap then None
    else
      var payload := bytes[HEADER_BYTES..HEADER_BYTES + hdr.size];
      if Crc32.Crc(payload) != hdr.crc then None else Some(payload)
  }

  /** persist_load. */
  method PersistLoad(f: Flash, region: nat, cap: nat, version: nat) returns (out: Option<seq<byte>>)
    requires f.Valid()
    ensures out == LoadFrom(f.cells[..], region, cap, version)
  {
    hide ParseHeader, Crc32.Crc;
    if region >= REGION_COUNT { return None; }
    var r := Region(region);
    var at := r.Start();
    ghost var cells := f.cells[..];
    ghost var bytes := cells[at..at + r.Length()];
    Slice(cells, at, at + r.Length(), 0, HEADER_BYTES);
    assert f.cells[at..at + HEADER_BYTES] == cells[at..at + HEADER_BYTES];
    var hdr := ParseHeader(f.cells[at..at + HEADER_BYTES]);
    if hdr.magic != MAGIC { return None; }
    if hdr.version != version { return None; }
    if hdr.size == 0 || hdr.size > r.maxPayload { return None; }
    if hdr.size > cap { return None; }
    var payload := f.cells[at + HEADER_BYTES..at + HEADER_BYTES + hdr.size];
    Slice(cells, at, at + r.Length(), HEADER_BYTES, HEADER_BYTES + hdr.size);
    assert payload == cells[at + HEADER_BYTES..at + HEADER_BYTES + hdr.size];
    var crc := Crc32.Crc32Calc(payload);
    if crc != hdr.crc { return None; }
    return Some(payload);
  }

  /** Every 8-byte word was programmed at most once since its page was erased. */
  ghost predicate Once(counts: seq<nat>) { forall d :: 0 <= d < |counts| ==> counts[d] <= 1 }

  /** The erase loop of persist_save. */
  method EraseRegion(f: Flash, r: RegionInfo) returns (ok: bool)
    requires f.Valid() && r.Start() == r.basePage * PAGE_BYTES && r.basePage + r.numPages <= PAGE_COUNT
    modifies f`programmed, f`faults, f.cells
    ensures f.Valid()
    ensures SameOutside(old(f.cells[..]), f.cells[..], r.Start(), r.Length())
    ensures SameOutside(old(f.programmed), f.programmed, r.Start(), r.Length())
    ensures old(Once(f.programmed)) ==> Once(f.programmed)
    ensures ok ==> Blank(f.cells[..], f.programmed, r.Start(), r.Start() + r.Length())
    ensures f.unlocked ==> f.faults == old(f.faults) + if ok then 0 else 1
  {
    hide SameOutside, Blank;
    ok := true;
    var i := 0;
    var at := r.Start();
    SameReflexive(f.cells[..], at);
    SameReflexive(f.programmed, at);
    NoneBlank(f.cells[..], f.programmed, at);
    while i < r.numPages && ok
      invariant 0 <= i <= r.numPages && f.Valid()
      invariant SameOutside(old(f.cells[..]), f.cells[..], at, i * PAGE_BYTES)
      invariant SameOutside(old(f.programmed), f.programmed, at, i * PAGE_BYTES)
      invariant old(Once(f.programmed)) ==> Once(f.programmed)
      invariant ok ==> Blank(f.cells[..], f.programmed, at, at + i * PAGE_BYTES)
      invariant f.unlocked ==> f.faults == old(f.faults) + if ok then 0 else 1
    {
      ghost var cells1, counts1 := f.cells[..], f.programmed;
      ghost var next := at + i * PAGE_BYTES;
      assert (r.basePage + i) * PAGE_BYTES == next;
      ok := f.ErasePage(r.basePage + i);
      ExtendSame(old(f.cells[..]), cells1, f.cells[..], at, i * PAGE_BYTES, PAGE_BYTES, (i + 1) * PAGE_BYTES);
      ExtendSame(old(f.programmed), counts1, f.programmed, at, i * PAGE_BYTES, PAGE_BYTES, (i + 1) * PAGE_BYTES);
      if ok {
        ExtendBlank(cells1, f.cells[..], counts1, f.programmed, at, next, PAGE_BYTES);
      }
      i := i + 1;
    }
    SameWider(old(f.cells[..]), f.cells[..], at, i * PAGE_BYTES, r.Length());
    SameWider(old(f.programmed), f.programmed, at, i * PAGE_BYTES, r.Length());
  }

  lemma BlankErased(cells: seq<byte>, counts: seq<nat>, at: nat, end: nat, n: nat)
    requires Blank(cells, counts, at, end) && at + n <= end
    ensures Erased(cells, at, n)
  {
  }

  lemma NoneBlank(cells: seq<byte>, counts: seq<nat>, at: nat)
    requires at <= |cells| == |counts|
    ensures Blank(cells, counts, at, at)
  {
  }

  lemma ExtendBlank(a: seq<byte>, b: seq<byte>, p: seq<nat>, q: seq<nat>, at: nat, mid: nat, n: nat)
    requires Blank(a, p, at, mid) && SameOutside(a, b, mid, n) && SameOutside(p, q, mid, n) && Blank(b, q, mid, mid + n)
    ensures Blank(b, q, at, mid + n) && (Once(p) ==> Once(q))
  {
  }

  /** Bytes at .. at + len of the flash belong to a region being written; everything from
      first on is still blank, and nothing was programmed twice. */
  ghost predicate Writing(f: Flash, at: nat, len: nat, first: nat)
    reads f, f.cells
  {
    f.Valid() && at <= first && Blank(f.cells[..], f.programmed, first, at + len) && Once(f.programmed)
  }

  /** flash_program_buf on the first blank bytes of the region. */
  method AppendBuf(f: Flash, at: nat, len: nat, first: nat, bytes: seq<byte>) returns (ok: bool)
    requires Writing(f, at, len, first) && first + |bytes| <= at + len
    modifies f`programmed, f`faults, f.cells
    ensures Writing(f, at, len, first + |bytes|)
    ensures SameOutside(old(f.cells[..]), f.cells[..], at, len) && SameOutside(old(f.programmed), f.programmed, at, len)
    ensures ok ==> f.cells[at..first + |bytes|] == old(f.cells[at..first]) + bytes
    ensures f.faults == old(f.faults) || (f.faults > old(f.faults) && !ok)
    ensures f.unlocked && first % 8 == 0 && |bytes| % 8 == 0 ==> (ok <==> f.faults == old(f.faults))
  {
    hide SameOutside, AtMostOneMore, Erased, Once;
    BlankErased(f.cells[..], f.programmed, first, at + len, |bytes|);
    ghost var cells0, counts0 := f.cells[..], f.programmed;
    ok := f.ProgramBuf(BASE_ADDR + first, bytes);
    AfterProgram(cells0, f.cells[..], counts0, f.programmed, at, len, first, |bytes|);
    Kept(cells0, f.cells[..], at, first, |bytes|);
    assert f.cells[at..first + |bytes|] == f.cells[at..first] + f.cells[first..first + |bytes|];
  }

  /** flash_program_dword on the next blank word of the region. */
  method AppendDword(f: Flash, at: nat, len: nat, first: nat, word: seq<byte>) returns (ok: bool)
    requires Writing(f, at, len, first) && first + 8 <= at + len && |word| == 8
    modifies f`programmed, f`faults, f.cells
    ensures Writing(f, at, len, first + 8)
    ensures SameOutside(old(f.cells[..]), f.cells[..], at, len) && SameOutside(old(f.programmed), f.programmed, at, len)
    ensures ok ==> f.cells[at..first + 8] == old(f.cells[at..first]) + word
    ensures f.faults == old(f.faults) || (f.faults > old(f.faults) && !ok)
    ensures f.unlocked && first % 8 == 0 ==> (ok <==> f.faults == old(f.faults))
  {
    hide SameOutside, AtMostOneMore, Erased, Once;
    BlankErased(f.cells[..], f.programmed, first, at + len, 8);
    ghost var cells0, counts0 := f.cells[..], f.programmed;
    ok := f.ProgramDword(BASE_ADDR + first, word);
    AfterProgram(cells0, f.cells[..], counts0, f.programmed, at, len, first, 8);
    Kept(cells0, f.cells[..], at, first, 8);
    assert f.cells[at..first + 8] == f.cells[at..first] + f.cells[first..first + 8];
  }

  /** The last bytes of a payload, padded with 0xFF to a whole word. */
  method AppendTail(f: Flash, at: nat, len: nat, first: nat, rest: seq<byte>) returns (ok: bool)
    requires Writing(f, at, len, first) && first + 8 <= at + len && |rest| < 8
    modifies f`programmed, f`faults, f.cells
    ensures f.Valid() && Once(f.programmed)
    ensures SameOutside(old(f.cells[..]), f.cells[..], at, len) && SameOutside(old(f.programmed), f.programmed, at, len)
    ensures ok ==> f.cells[at..first + |rest|] == old(f.cells[at..first]) + rest
    ensures f.faults == old(f.faults) || (f.faults > old(f.faults) && !ok)
    ensures f.unlocked && first % 8 == 0 ==> (ok <==> f.faults == old(f.faults))
  {
    hide SameOutside, Once;
    var tail := rest + Fill(ERASED, 8 - |rest|);
    ok := AppendDword(f, at, len, first, tail);
    assert f.cells[at..first + |rest|] == f.cells[at..first + 8][..first + |rest| - at];
  }

  /** The whole words of a payload, if there are any. */
  method AppendWords(f: Flash, at: nat, len: nat, body: nat, words: seq<byte>) returns (ok: bool)
    requires Writing(f, at, len, body) && body % 8 == 0 && |words| % 8 == 0 && body + |words| <= at + len
    modifies f`programmed, f`faults, f.cells
    ensures Writing(f, at, len, body + |words|)
    ensures SameOutside(old(f.cells[..]), f.cells[..], at, len) && SameOutside(old(f.programmed), f.programmed, at, len)
    ensures ok ==> f.cells[at..body + |words|] == old(f.cells[at..body]) + words
    ensures f.unlocked ==> (ok <==> f.faults == old(f.faults)) && f.faults >= old(f.faults)
  {
    hide SameOutside, Once, Blank;
    if words == [] {
      Unchanged(f.cells[..], at, len);
      Unchanged(f.programmed, at, len);
      return true;
    }
    ok := AppendBuf(f, at, len, body, words);
  }

  /** The payload: whole words, then the padded tail. */
  method AppendPayload(f: Flash, at: nat, len: nat, body: nat, payload: seq<byte>) returns (ok: bool)
    requires Writing(f, at, len, body) && body % 8 == 0 && (at + len) % 8 == 0 && body + |payload| <= at + len
    modifies f`programmed, f`faults, f.cells
    ensures f.Valid() && Once(f.programmed)
    ensures SameOutside(old(f.cells[..]), f.cells[..], at, len) && SameOutside(old(f.programmed), f.programmed, at, len)
    ensures ok ==> f.cells[at..body + |payload|] == old(f.cells[at..body]) + payload
    ensures f.unlocked ==> (ok <==> f.faults == old(f.faults)) && f.faults >= old(f.faults)
  {
    var full := |payload| - |payload| % 8;
    WholeWords(at + len, body, |payload|);
    ok := AppendParts(f, at, len, body, payload[..full], payload[full..]);
    assert payload[..full] + payload[full..] == payload;
  }

  lemma WholeWords(end: nat, body: nat, n: nat)
    requires body % 8 == 0 && end % 8 == 0 && body + n <= end
    ensures var full := n - n % 8; full % 8 == 0 && n - full < 8 && (full < n ==> body + full + 8 <= end)
  {
  }

  method AppendParts(f: Flash, at: nat, len: nat, body: nat, words: seq<byte>, rest: seq<byte>) returns (ok: bool)
    requires Writing(f, at, len, body) && body % 8 == 0 && |words| % 8 == 0 && |rest| < 8
    requires body + |words| <= at + len && (rest != [] ==> body + |words| + 8 <= at + len)
    modifies f`programmed, f`faults, f.cells
    ensures f.Valid() && Once(f.programmed)
    ensures SameOutside(old(f.cells[..]), f.cells[..], at, len) && SameOutside(old(f.programmed), f.programmed, at, len)
    ensures ok ==> f.cells[at..body + |words| + |rest|] == old(f.cells[at..body]) + (words + rest)
    ensures f.unlocked ==> (ok <==> f.faults == old(f.faults)) && f.faults >= old(f.faults)
  {
    ghost var cells0, counts0, before := f.cells[..], f.programmed, f.cells[at..body];
    hide SameOutside, Once, Blank;
    ok := AppendWords(f, at, len, body, words);
    Regrouped(before, words, rest);
    if ok && rest != [] {
      ghost var cells1, counts1 := f.cells[..], f.programmed;
      ok := AppendTail(f, at, len, body + |words|, rest);
      Joined(cells0, cells1, f.cells[..], at, len);
      Joined(counts0, counts1, f.programmed, at, len);
    }
  }

  lemma Regrouped(a: seq<byte>, b: seq<byte>, c: seq<byte>)
    ensures a + b + c == a + (b + c) && (c == [] ==> b + c == b)
  {
  }

  /** The part of persist_save that programs header and payload. */
  method ProgramRecord(f: Flash, at: nat, len: nat, header: seq<byte>, payload: seq<byte>) returns (ok: bool)
    requires at % 8 == 0 && len % 8 == 0 && at + len <= SIZE
    requires |header| == HEADER_BYTES && HEADER_BYTES + |payload| <= len && Writing(f, at, len, at)
    modifies f`programmed, f`faults, f.cells
    ensures f.Valid() && Once(f.programmed)
    ensures SameOutside(old(f.cells[..]), f.cells[..], at, len) && SameOutside(old(f.programmed), f.programmed, at, len)
    ensures ok ==> f.cells[at..at + HEADER_BYTES + |payload|] == header + payload
    ensures f.unlocked ==> (ok <==> f.faults == old(f.faults)) && f.faults >= old(f.faults)
  {
    hide SameOutside, Once, Blank;
    ghost var cells0, counts0 := f.cells[..], f.programmed;
    ok := AppendBuf(f, at, len, at, header);
    ghost var cells1, counts1 := f.cells[..], f.programmed;
    if ok {
      ok := AppendPayload(f, at, len, at + HEADER_BYTES, payload);
      Joined(cells0, cells1, f.cells[..], at, len);
      Joined(counts0, counts1, f.programmed, at, len);
    }
  }

  /** persist_save. Whatever the controller does, nothing outside the region changes and no
      word is programmed twice between erases; and valid arguments are saved unless a call of
      the controller fails for reasons of its own. */
  method PersistSave(f: Flash, region: nat, payload: seq<byte>, version: nat) returns (ok: bool)
    requires f.Valid() && Once(f.programmed) && version < 0x1_0000
    modifies f, f.cells
    ensures f.Valid() && Once(f.programmed)
    ensures region >= REGION_COUNT || |payload| == 0 || |payload| > Region(region).maxPayload ==>
      !ok && f.cells[..] == old(f.cells[..]) && f.programmed == old(f.programmed)
    ensures region < REGION_COUNT ==>
      && SameOutside(old(f.cells[..]), f.cells[..], Region(region).Start(), Region(region).Length())
      && SameOutside(old(f.programmed), f.programmed, Region(region).Start(), Region(region).Length())
    ensures ok ==> Holds(f.cells[..], region, payload, version)
    ensures region < REGION_COUNT && 0 < |payload| <= Region(region).maxPayload ==> (ok <==> f.faults == old(f.faults))
  {
    hide Once, SameOutside, Blank, Header;
    ghost var cells0, counts0 := f.cells[..], f.programmed;
    ok := false;
    if region >= REGION_COUNT { return; }
    var r := Region(region);
    var at := r.Start();
    Unchanged(cells0, at, r.Length());
    Unchanged(counts0, at, r.Length());
    if |payload| == 0 || |payload| > r.maxPayload { return; }
    var hdr := Header(version, payload);
    ok := f.Unlock();
    if !ok { return; }
    ok := EraseRegion(f, r);
    ghost var cells1, counts1 := f.cells[..], f.programmed;
    if ok {
      ok := ProgramRecord(f, at, r.Length(), hdr, payload);
      Joined(cells0, cells1, f.cells[..], at, r.Length());
      Joined(counts0, counts1, f.programmed, at, r.Length());
    }
    f.Lock();
    assert ok ==> f.cells[..][at..at + HEADER_BYTES + |payload|] == f.cells[at..at + HEADER_BYTES + |payload|];
  }

  lemma Unchanged<T>(a: seq<T>, at: nat, len: nat)
    ensures SameOutside(a, a, at, len)
  {
  }

  /** The region holds the record of this payload. */
  ghost predicate Holds(cells: seq<byte>, region: nat, payload: seq<byte>, version: nat) {
    && |cells| == SIZE && region < REGION_COUNT && version < 0x1_0000
    && 0 < |payload| <= Region(region).maxPayload
    && var at := Region(region).Start();
    cells[at..at + HEADER_BYTES + |payload|] == Header(version, payload) + payload
  }

  /** After n bytes at p, the first blank ones of a region, were programmed: the rest of the
      region is still blank, and nothing was programmed twice. */
  lemma AfterProgram(a: seq<byte>, b: seq<byte>, p: seq<nat>, q: seq<nat>, at: nat, len: nat, first: nat, n: nat)
    requires |a| == |b| == |p| == |q| && at <= first && first + n <= at + len <= |a|
    requires Blank(a, p, first, at + len) && Once(p)
    requires SameOutside(a, b, first, n) && SameOutside(p, q, first, n) && AtMostOneMore(p, q)
    ensures Erased(a, first, n) && Blank(b, q, first + n, at + len) && Once(q)
    ensures SameOutside(a, b, at, len) && SameOutside(p, q, at, len)
  {
  }

  lemma Joined<T>(a: seq<T>, b: seq<T>, c: seq<T>, at: nat, len: nat)
    requires SameOutside(a, b, at, len) && SameOutside(b, c, at, len)
    ensures SameOutside(a, c, at, len)
  {
  }

  lemma Kept(a: seq<byte>, b: seq<byte>, from: nat, to: nat, n: nat)
    requires from <= to <= |a| && SameOutside(a, b, to, n)
    ensures |a| == |b| && a[from..to] == b[from..to]
  {
  }

  lemma ParseOfHeader(version: nat, payload: seq<byte>)
    requires version < 0x1_0000 && |payload| < 0x1_0000_0000
    ensures ParseHeader(Header(version, payload)) == StoredHeader(MAGIC, version, |payload|, Crc32.Crc(payload))
  {
    hide Wr16, Wr32, Rd16, Rd32, Crc32.Crc, Join32, Split32;
    var h := Header(version, payload);
    assert h[0..4] == Wr32(MAGIC) && h[4..6] == Wr16(version) && h[8..12] == Wr32(|payload|);
    assert h[12..16] == Split32(Crc32.Crc(payload));
    Rd32OfWr32(MAGIC);
    Rd16OfWr16(version);
    Rd32OfWr32(|payload|);
    JoinOfSplit(Crc32.Crc(payload));
  }

  lemma RecordParts(cells: seq<byte>, region: nat, payload: seq<byte>, version: nat)
    requires Holds(cells, region, payload, version)
    ensures var at := Region(region).Start();
      && cells[at..at + HEADER_BYTES] == Header(version, payload)
      && cells[at + HEADER_BYTES..at + HEADER_BYTES + |payload|] == payload
  {
    hide Header;
    var at := Region(region).Start();
    Slice(cells, at, at + HEADER_BYTES + |payload|, 0, HEADER_BYTES);
    Slice(cells, at, at + HEADER_BYTES + |payload|, HEADER_BYTES, HEADER_BYTES + |payload|);
  }

  /** Where a record lies and what it looks like there: configuration at 0x0801F000, shots at
      0x0801E000, network at 0x0801F800; "PRST", version, two zero bytes, size and CRC, all low
      byte first, and then the payload. */
  lemma RecordLies(cells: seq<byte>, region: nat, payload: seq<byte>, version: nat)
    requires Holds(cells, region, payload, version)
    ensures var at := if region == 0 then 0x1_F000 else if region == 1 then 0x1_E000 else 0x1_F800;
      && |cells| == 0x2_0000 && |payload| <= (if region == 1 then 4080 else 2032) && Region(region).baseAddr == 0x0800_0000 + at
      && cells[at..at + 16 + |payload|] ==
           [0x50, 0x52, 0x53, 0x54] + Wr16(version) + [0, 0] + Wr32(|payload|) + Split32(Crc32.Crc(payload)) + payload
  {
    hide Wr16, Wr32, Split32, Crc32.Crc;
    MagicBytes();
  }

  lemma MagicBytes()
    ensures Wr32(MAGIC) == [0x50, 0x52, 0x53, 0x54] && Wr16(0) == [0, 0]
  {
    hide Wr16, Wr32;
    Rd32OfWr32(MAGIC);
    Rd16OfWr16(0);
    var m: seq<byte> := [0x50, 0x52, 0x53, 0x54];
    assert m[..2] == [0x50, 0x52] && m[2..] == [0x53, 0x54];
    assert Rd16([0x50, 0x52]) == 0x5250 && Rd16([0x53, 0x54]) == 0x5453 && Rd16([0, 0]) == 0;
    Rd32Injective(Wr32(MAGIC), m);
    Rd16Injective(Wr16(0), [0, 0]);
  }

  /** What is saved is what is loaded: the payload comes back exactly, for every size, and
      only for the version it was saved with and a buffer it fits. */
  lemma SaveThenLoad(cells: seq<byte>, region: nat, payload: seq<byte>, version: nat, cap: nat, wanted: nat)
    requires Holds(cells, region, payload, version)
    ensures LoadFrom(cells, region, cap, wanted)
         == if wanted == version && |payload| <= cap then Some(payload) else None
  {
    hide ParseHeader, Header, Crc32.Crc;
    var r := Region(region);
    RecordParts(cells, region, payload, version);
    Slice(cells, r.Start(), r.Start() + r.Length(), HEADER_BYTES, HEADER_BYTES + |payload|);
    Slice(cells, r.Start(), r.Start() + r.Length(), 0, HEADER_BYTES);
    ParseOfHeader(version, payload);
  }

  /** A save, whether it succeeds or not, leaves what the other regions load unchanged. */
  lemma OtherRegionsKept(before: seq<byte>, after: seq<byte>, region: nat, other: nat, cap: nat, version: nat)
    requires |before| == SIZE && region < REGION_COUNT && other != region
    requires SameOutside(before, after, Region(region).Start(), Region(region).Length())
    ensures LoadFrom(after, other, cap, version) == LoadFrom(before, other, cap, version)
  {
    hide LoadAt;
    if other < REGION_COUNT {
      var o := Region(other);
      assert before[o.Start()..o.Start() + o.Length()] == after[o.Start()..o.Start() + o.Length()];
    }
  }

  /** A stored payload that changed, but only inside one window of four adjacent bytes, is
      refused, whatever its length. */
  lemma CorruptionRefused(cells: seq<byte>, damaged: seq<byte>, region: nat, payload: seq<byte>, version: nat, cap: nat, w: nat)
    requires Holds(cells, region, payload, version) && w < |payload| && |damaged| == SIZE
    requires SameOutside(cells, damaged, Region(region).Start() + HEADER_BYTES + w, 4)
    requires Stored(damaged, region, |payload|) != payload
    ensures LoadFrom(damaged, region, cap, version) == None
  {
    hide ParseHeader, Header, Crc32.Crc;
    var r := Region(region);
    var body := r.Start() + HEADER_BYTES;
    RecordParts(cells, region, payload, version);
    Slice(damaged, r.Start(), r.Start() + r.Length(), 0, HEADER_BYTES);
    Slice(damaged, r.Start(), r.Start() + r.Length(), HEADER_BYTES, HEADER_BYTES + |payload|);
    assert damaged[r.Start()..body] == cells[r.Start()..body];
    ParseOfHeader(version, payload);
    Crc32.EndWindowDetected(payload, damaged[body..body + |payload|], w);
  }

  /** The first n payload bytes of a region. */
  function Stored(cells: seq<byte>, region: nat, n: nat): seq<byte>
    requires region < REGION_COUNT && |cells| == SIZE && n <= Region(region).maxPayload
  {
    var body := Region(region).Start() + HEADER_BYTES;
    cells[body..body + n]
  }

  /** How long the field at an offset of the header is: magic, version, reserved, size, CRC. */
  function FieldBytes(field: nat): nat { if field == 4 || field == 6 then 2 else 4 }

  /** Damage confined to one header field other than the size: a changed magic, version or
      check value is refused, a changed reserved field makes no difference. */
  lemma HeaderDamage(cells: seq<byte>, damaged: seq<byte>, region: nat, payload: seq<byte>, version: nat, field: nat)
    requires Holds(cells, region, payload, version) && field in {0, 4, 6, 12}
    requires |damaged| == SIZE && damaged != cells
    requires SameOutside(cells, damaged, Region(region).Start() + field, FieldBytes(field))
    ensures LoadFrom(damaged, region, |payload|, version) == if field == 6 then Some(payload) else None
  {
    hide ParseHeader, Header, Crc32.Crc, SameOutside, FieldBytes, LoadFrom;
    var at, n := Region(region).Start(), |payload|;
    ParseOfHeader(version, payload);
    RecordParts(cells, region, payload, version);
    DamageIsInHeader(cells, damaged, at, n, field);
    DamagedField(cells[at..at + HEADER_BYTES], damaged[at..at + HEADER_BYTES], field);
    LoadBySize(damaged, region, n, version);
  }

  /** What loads where the header names this size. */
  lemma LoadBySize(cells: seq<byte>, region: nat, n: nat, version: nat)
    requires |cells| == SIZE && region < REGION_COUNT && 0 < n <= Region(region).maxPayload
    requires ParseHeader(cells[Region(region).Start()..Region(region).Start() + HEADER_BYTES]).size == n
    ensures var at := Region(region).Start();
      var hdr, body := ParseHeader(cells[at..at + HEADER_BYTES]), cells[at + HEADER_BYTES..at + HEADER_BYTES + n];
      LoadFrom(cells, region, n, version) ==
        if hdr.magic == MAGIC && hdr.version == version && Crc32.Crc(body) == hdr.crc then Some(body) else None
  {
    hide ParseHeader, Crc32.Crc;
    var r := Region(region);
    Slice(cells, r.Start(), r.Start() + r.Length(), 0, HEADER_BYTES);
    Slice(cells, r.Start(), r.Start() + r.Length(), HEADER_BYTES, HEADER_BYTES + n);
  }

  lemma DamageIsInHeader(cells: seq<byte>, damaged: seq<byte>, at: nat, n: nat, field: nat)
    requires SameOutside(cells, damaged, at + field, FieldBytes(field)) && field in {0, 4, 6, 12} && damaged != cells
    requires at + HEADER_BYTES + n <= |cells|
    ensures damaged[at + HEADER_BYTES..at + HEADER_BYTES + n] == cells[at + HEADER_BYTES..at + HEADER_BYTES + n]
    ensures SameOutside(cells[at..at + HEADER_BYTES], damaged[at..at + HEADER_BYTES], field, FieldBytes(field))
    ensures damaged[at..at + HEADER_BYTES] != cells[at..at + HEADER_BYTES]
  {
    var k :| 0 <= k < |cells| && damaged[k] != cells[k];
    assert cells[at..at + HEADER_BYTES][k - at] != damaged[at..at + HEADER_BYTES][k - at];
  }

  lemma DamagedField(h: seq<byte>, g: seq<byte>, field: nat)
    requires |h| == HEADER_BYTES && SameOutside(h, g, field, FieldBytes(field)) && g != h && field in {0, 4, 6, 12}
    ensures var a, b := ParseHeader(h), ParseHeader(g);
      && b.size == a.size && (b.magic == a.magic <==> field != 0)
      && (b.version == a.version <==> field != 4) && (b.crc == a.crc <==> field != 12)
  {
    hide Rd16, Rd32, Join32, Split32;
    var k :| 0 <= k < HEADER_BYTES && h[k] != g[k];
    assert g[8..12] == h[8..12];
    if field == 0 { assert g[0..4][k] != h[0..4][k]; } else { assert g[0..4] == h[0..4]; }
    if field == 4 { assert g[4..6][k - 4] != h[4..6][k - 4]; } else { assert g[4..6] == h[4..6]; }
    if field == 12 { assert g[12..16][k - 12] != h[12..16][k - 12]; } else { assert g[12..16] == h[12..16]; }
    Rd32Injective(g[0..4], h[0..4]);
    Rd16Injective(g[4..6], h[4..6]);
    SplitOfJoin(g[12..16]);
    SplitOfJoin(h[12..16]);
  }
}
