/**
 * The internal flash behind bsp/flash: 64 pages of 2 KB, erased a page at a time to 0xFF
 * and programmed one aligned 8-byte word at a time. Programming can only clear bits, and
 * the controller refuses a word that is not erased. Every controller call may also fail
 * for reasons of its own, and then leaves the page or word it worked on in any state.
 */
module FlashMemory {
  import opened Bytes

  const BASE_ADDR := 0x0800_0000
  const PAGE_BYTES := 2048
  const PAGE_COUNT := 64
  const SIZE := PAGE_BYTES * PAGE_COUNT
  const ERASED: byte := 0xFF

  class Flash {
    const cells: array<byte>
    var unlocked: bool
    // How often each byte, with its 8-byte word, was programmed since its page was last erased.
    ghost var programmed: seq<nat>
    // How often the controller failed for reasons of its own.
    ghost var faults: nat

    ghost predicate Valid()
      reads this
    {
      cells.Length == SIZE && |programmed| == SIZE
    }

    constructor ()
      ensures Valid() && fresh(cells) && !unlocked
    {
      cells := new byte[SIZE];
      unlocked := false;
      programmed := seq(SIZE, _ => 0);
      faults := 0;
    }

    /** flash_unlock. */
    method Unlock() returns (ok: bool)
      requires Valid()
      modifies `unlocked, `faults
      ensures ok ==> unlocked
      ensures faults == old(faults) + if ok then 0 else 1
    {
      ok := *;
      unlocked := ok || unlocked;
      if !ok { faults := faults + 1; }
    }

    /** flash_lock. */
    method Lock()
      requires Valid()
      modifies `unlocked
      ensures !unlocked
    {
      unlocked := false;
    }

    /** What an erase does to the cells of a page: all ones, or anything if it failed. */
    method WipeCells(at: nat, ok: bool)
      requires cells.Length == SIZE && at + PAGE_BYTES <= SIZE
      modifies cells
      ensures SameOutside(old(cells[..]), cells[..], at, PAGE_BYTES)
      ensures ok ==> Erased(cells[..], at, PAGE_BYTES)
    {
      for k := 0 to PAGE_BYTES
        invariant forall i :: 0 <= i < SIZE && !(at <= i < at + k) ==> cells[i] == old(cells[i])
        invariant ok ==> forall i :: at <= i < at + k ==> cells[i] == ERASED
      {
        var noise: byte := *;
        cells[at + k] := if ok then ERASED else noise;
      }
    }

    /** flash_erase_page. */
    method ErasePage(page: nat) returns (ok: bool)
      requires Valid()
      modifies `programmed, `faults, cells
      ensures Valid()
      ensures page >= PAGE_COUNT ==> !ok
      ensures SameOutside(old(cells[..]), cells[..], page * PAGE_BYTES, PAGE_BYTES)
      ensures SameOutside(old(programmed), programmed, page * PAGE_BYTES, PAGE_BYTES)
      ensures ok ==> Blank(cells[..], programmed, page * PAGE_BYTES, (page + 1) * PAGE_BYTES)
      ensures !ok ==> programmed == old(programmed)
      ensures faults == old(faults) + if page < PAGE_COUNT && unlocked && !ok then 1 else 0
    {
      ok := false;
      if page >= PAGE_COUNT || !unlocked { return; }
      ok := *;
      if !ok { faults := faults + 1; }
      WipeCells(page * PAGE_BYTES, ok);
      if ok {
        programmed := Cleared(programmed, page * PAGE_BYTES, PAGE_BYTES);
      }
    }

    /** What programming does to the cells of a word: bits are cleared, or anything if it failed. */
    method ProgramCells(at: nat, value: seq<byte>, ok: bool)
      requires cells.Length == SIZE && |value| == 8 && at + 8 <= SIZE
      modifies cells
      ensures SameOutside(old(cells[..]), cells[..], at, 8)
      ensures ok && old(Erased(cells[..], at, 8)) ==> cells[at..at + 8] == value
    {
      ghost var clean := Erased(cells[..], at, 8);
      for k := 0 to 8
        invariant SameOutside(old(cells[..]), cells[..], at, 8)
        invariant clean ==> Erased(cells[..], at + k, 8 - k)
        invariant ok && clean ==> forall j :: 0 <= j < k ==> cells[at + j] == value[j]
      {
        var noise: byte := *;
        KeepsErased(value[k]);
        assert clean ==> cells[..][at + k] == ERASED;
        cells[at + k] := if ok then cells[at + k] & value[k] else noise;
      }
    }

    /** flash_program_dword, over HAL_FLASH_Program. */
    method ProgramDword(addr: nat, value: seq<byte>) returns (ok: bool)
      requires Valid() && |value| == 8 && BASE_ADDR <= addr <= BASE_ADDR + SIZE - 8
      modifies `programmed, `faults, cells
      ensures Valid()
      ensures var at := addr - BASE_ADDR;
        && SameOutside(old(cells[..]), cells[..], at, 8)
        && SameOutside(old(programmed), programmed, at, 8)
        && AtMostOneMore(old(programmed), programmed)
        && (ok ==> addr % 8 == 0)
        && (ok && old(Erased(cells[..], at, 8)) ==> cells[at..at + 8] == value)
        && (faults == old(faults) || (faults == old(faults) + 1 && !ok))
        && (addr % 8 == 0 && unlocked && old(Erased(cells[..], at, 8)) ==> (ok <==> faults == old(faults)))
    {
      hide SameOutside, Erased, AtMostOneMore, Counted;
      var at := addr - BASE_ADDR;
      ErasedIsFill(cells[..], at);
      SameReflexive(cells[..], at);
      SameWider(cells[..], cells[..], at, 0, 8);
      CountedOnce(programmed, at);
      ok := false;
      if addr % 8 != 0 || !unlocked { return; }
      if value != Fill(0, 8) && cells[at..at + 8] != Fill(ERASED, 8) { return; }
      ok := *;
      if !ok { faults := faults + 1; }
      ProgramCells(at, value, ok);
      programmed := Counted(programmed, at);
    }

    /** flash_program_buf. */
    method ProgramBuf(addr: nat, src: seq<byte>) returns (ok: bool)
      requires Valid() && BASE_ADDR <= addr && addr + |src| <= BASE_ADDR + SIZE
      modifies `programmed, `faults, cells
      ensures Valid()
      ensures var at := addr - BASE_ADDR;
        && SameOutside(old(cells[..]), cells[..], at, |src|)
        && SameOutside(old(programmed), programmed, at, |src|)
        && AtMostOneMore(old(programmed), programmed)
        && (ok ==> addr % 8 == 0 && |src| % 8 == 0)
        && (ok && old(Erased(cells[..], at, |src|)) ==> cells[at..at + |src|] == src)
        && (faults == old(faults) || (faults > old(faults) && !ok))
        && (addr % 8 == 0 && |src| % 8 == 0 && unlocked && old(Erased(cells[..], at, |src|)) ==> (ok <==> faults == old(faults)))
    {
      hide SameOutside, Erased, AtMostOneMore;
      ghost var at := addr - BASE_ADDR;
      SameReflexive(cells[..], at);
      SameReflexive(programmed, at);
      AtMostReflexive(programmed);
      if addr % 8 != 0 || |src| % 8 != 0 {
        SameWider(cells[..], cells[..], at, 0, |src|);
        SameWider(programmed, programmed, at, 0, |src|);
        return false;
      }
      var off := 0;
      ghost var clean := Erased(cells[..], at, |src|);
      while off < |src|
        invariant Valid() && 0 <= off <= |src| && off % 8 == 0
        invariant SameOutside(old(cells[..]), cells[..], at, off)
        invariant SameOutside(old(programmed), programmed, at, off)
        invariant AtMostOneMore(old(programmed), programmed)
        invariant clean ==> Erased(cells[..], at + off, |src| - off)
        invariant clean ==> cells[at..at + off] == src[..off]
        invariant faults == old(faults)
      {
        ghost var cells1, counts1 := cells[..], programmed;
        var done := ProgramDword(addr + off, src[off..off + 8]);
        ExtendSame(old(cells[..]), cells1, cells[..], at, off, 8, |src|);
        ExtendSame(old(programmed), counts1, programmed, at, off, 8, |src|);
        ExtendCount(old(programmed), counts1, programmed, at, off);
        if clean { FirstErased(cells1, at + off, |src| - off); }
        if !done { return false; }
        if clean { WordStored(cells1, cells[..], src, at, off); }
        off := off + 8;
      }
      AllStored(src, off);
      return true;
    }
  }

  /** No count grew by more than one. */
  ghost predicate AtMostOneMore(p: seq<nat>, q: seq<nat>) {
    |p| == |q| && forall d :: 0 <= d < |p| ==> q[d] <= p[d] + 1
  }

  lemma SameReflexive<T>(a: seq<T>, at: nat)
    ensures SameOutside(a, a, at, 0)
  {
  }

  lemma SameWider<T>(a: seq<T>, b: seq<T>, at: nat, n: nat, m: nat)
    requires SameOutside(a, b, at, n) && n <= m
    ensures SameOutside(a, b, at, m)
  {
  }

  lemma CountedOnce(counts: seq<nat>, at: nat)
    ensures var more := Counted(counts, at);
      |more| == |counts| && SameOutside(counts, more, at, 8) && AtMostOneMore(counts, more)
    ensures SameOutside(counts, counts, at, 8) && AtMostOneMore(counts, counts)
  {
  }

  lemma AtMostReflexive(p: seq<nat>)
    ensures AtMostOneMore(p, p)
  {
  }

  lemma ExtendSame<T>(a: seq<T>, b: seq<T>, c: seq<T>, at: nat, off: nat, n: nat, all: nat)
    requires SameOutside(a, b, at, off) && SameOutside(b, c, at + off, n) && off + n <= all
    ensures SameOutside(a, c, at, off + n) && SameOutside(a, c, at, all)
  {
  }

  lemma ExtendCount(p: seq<nat>, q: seq<nat>, r: seq<nat>, at: nat, off: nat)
    requires AtMostOneMore(p, q) && SameOutside(p, q, at, off) && SameOutside(q, r, at + off, 8) && AtMostOneMore(q, r)
    ensures AtMostOneMore(p, r)
  {
  }

  lemma ErasedIsFill(cells: seq<byte>, at: nat)
    requires at + 8 <= |cells|
    ensures Erased(cells, at, 8) ==> cells[at..at + 8] == Fill(ERASED, 8)
  {
  }

  lemma FirstErased(cells: seq<byte>, at: nat, n: nat)
    requires Erased(cells, at, n) && n >= 8
    ensures Erased(cells, at, 8)
  {
  }

  lemma ExtendErased(a: seq<byte>, b: seq<byte>, at: nat, n: nat)
    requires Erased(a, at, n) && n >= 8 && SameOutside(a, b, at, 8)
    ensures Erased(a, at, 8) && Erased(b, at + 8, n - 8)
  {
  }

  /** After the next word of src: the bytes behind it are still erased, those up to it are src's. */
  lemma WordStored(a: seq<byte>, b: seq<byte>, src: seq<byte>, at: nat, off: nat)
    requires off + 8 <= |src| && at + off <= |a| && SameOutside(a, b, at + off, 8) && Erased(a, at + off, |src| - off)
    requires a[at..at + off] == src[..off] && b[at + off..at + off + 8] == src[off..off + 8]
    ensures Erased(b, at + (off + 8), |src| - (off + 8)) && b[at..at + (off + 8)] == src[..off + 8]
  {
    hide SameOutside, Erased;
    ExtendErased(a, b, at + off, |src| - off);
    SameBefore(a, b, at, off);
    Append(b, src, at, off);
  }

  lemma AllStored(src: seq<byte>, off: nat)
    requires off == |src|
    ensures src[..off] == src
  {
  }

  lemma Append(a: seq<byte>, src: seq<byte>, at: nat, off: nat)
    requires at + off + 8 <= |a| && off + 8 <= |src|
    requires a[at..at + off] == src[..off] && a[at + off..at + off + 8] == src[off..off + 8]
    ensures a[at..at + (off + 8)] == src[..off + 8]
  {
    assert a[at..at + (off + 8)] == a[at..at + off] + a[at + off..at + off + 8];
  }

  lemma SameBefore(a: seq<byte>, b: seq<byte>, at: nat, off: nat)
    requires SameOutside(a, b, at + off, 8) && at + off <= |a|
    ensures a[at..at + off] == b[at..at + off]
  {
  }

  ghost predicate Erased(cells: seq<byte>, at: nat, n: nat) {
    at + n <= |cells| && forall i :: at <= i < at + n ==> cells[i] == ERASED
  }

  /** The bytes from at up to end are erased and were not programmed since. */
  ghost predicate Blank(cells: seq<byte>, counts: seq<nat>, at: nat, end: nat) {
    at <= end <= |cells| == |counts| && forall i :: at <= i < end ==> cells[i] == ERASED && counts[i] == 0
  }

  ghost function Cleared(counts: seq<nat>, at: nat, n: nat): seq<nat> {
    seq(|counts|, i requires 0 <= i < |counts| => if at <= i < at + n then 0 else counts[i])
  }

  ghost function Counted(counts: seq<nat>, at: nat): seq<nat> {
    seq(|counts|, i requires 0 <= i < |counts| => if at <= i < at + 8 then counts[i] + 1 else counts[i])
  }

  lemma KeepsErased(b: byte)
    ensures ERASED & b == b
  {
  }
}
