/**
 * `UnixSHM`, the page source dlmalloc draws from. Each `alloc` creates one POSIX
 * shared-memory segment under a fresh name, unlinks the name at once, sizes the
 * segment and maps it; `MMapRecord` remembers, per mapped address, the descriptor
 * and the size, so that `free` can check and release the mapping.
 *
 * The OS is an oracle: each `alloc` is told what shm_open, shm_unlink, ftruncate
 * and mmap answer, each `free` what munmap answers. A ghost log records the OS
 * calls made, closing a descriptor (dropping its `OwnedFd`) included.
 */
module Allocator {
  import opened Io
  import opened LittleEndian
  import Decimal

  /** The null pointer. */
  const NULL: nat := 0
  const PATH_PREFIX: string := "/dlmalloc-unixshm-"
  const I32_MAX: int := 0x7fff_ffff
  const I32_MIN: int := -0x8000_0000
  const PAGE_SIZE: nat := 4096

  /** `self.counter += 1` on an `i32` as a release build computes it: it wraps. */
  function NextCounter(c: i32): i32 {
    if c == I32_MAX then I32_MIN else c + 1
  }

  /** The segment name built from counter value `c`. */
  function ShmPath(c: i32): string {
    PATH_PREFIX + Decimal.IntToString(c)
  }

  /** The counter after `k` names have been taken from a fresh backend. */
  function CounterAfter(k: nat): i32 {
    if k == 0 then 0 else NextCounter(CounterAfter(k - 1))
  }

  lemma {:induction false} CounterAfterNoWrap(k: nat)
    requires k <= I32_MAX
    ensures CounterAfter(k) == k
  {
    if k > 0 {
      CounterAfterNoWrap(k - 1);
    }
  }

  /** The number of distinct values an `i32` counter takes before it repeats. */
  const I32_VALUES: nat := 0x1_0000_0000

  /**
   * After `k` names from a fresh backend the counter is `k` until it reaches the i32
   * limit; the next name wraps it to the most negative value, from which it climbs
   * back towards 0, reached after 2^32 names.
   */
  lemma {:induction false} CounterAfterWraps(k: nat)
    requires k <= I32_VALUES
    ensures CounterAfter(k) == if k <= I32_MAX then k else k - I32_VALUES
  {
    if k > 0 {
      CounterAfterWraps(k - 1);
    }
  }

  /** Every counter value gives its own name. */
  lemma ShmPathInjective(c: i32, d: i32)
    requires ShmPath(c) == ShmPath(d)
    ensures c == d
  {
    assert ShmPath(c)[|PATH_PREFIX|..] == Decimal.IntToString(c);
    assert ShmPath(d)[|PATH_PREFIX|..] == Decimal.IntToString(d);
    Decimal.IntToStringInjective(c, d);
  }

  /**
   * The i-th and j-th names a fresh backend hands out differ, for every i < j up to
   * the point where the wrapped counter comes back to a value it has had.
   */
  lemma FreshPathsDistinct(i: nat, j: nat)
    requires 1 <= i < j <= I32_VALUES
    ensures ShmPath(CounterAfter(i)) != ShmPath(CounterAfter(j))
  {
    CounterAfterWraps(i);
    CounterAfterWraps(j);
    if ShmPath(CounterAfter(i)) == ShmPath(CounterAfter(j)) {
      ShmPathInjective(CounterAfter(i), CounterAfter(j));
    }
  }

  /** The bound is tight: the name after 2^32 of them is the first one again. */
  lemma FreshPathsRepeat()
    ensures ShmPath(CounterAfter(I32_VALUES + 1)) == ShmPath(CounterAfter(1))
  {
    CounterAfterWraps(I32_VALUES);
  }

  /** A system call the backend makes; `Close` is the drop of an `OwnedFd`. */
  datatype OsCall =
    | ShmOpen(path: string)
    | ShmUnlink(path: string)
    | Ftruncate(fd: nat, newLength: int)
    | Mmap(fd: nat, length: nat)
    | Munmap(addr: nat, length: nat)
    | Close(fd: nat)

  /**
   * What the OS answers during one `alloc`: the descriptor shm_open returns (None: it
   * fails), whether shm_unlink and ftruncate succeed, the address mmap returns.
   */
  datatype ShmOutcome = ShmOutcome(descriptor: Option<nat>, unlinked: bool, truncated: bool, address: Option<nat>)

  predicate AllocSucceeds(os: ShmOutcome) {
    os.descriptor.Some? && os.unlinked && os.truncated && os.address.Some?
  }

  /** `size as i64`: sizes of 2^63 and more become negative lengths. */
  function AsI64(size: usize): int {
    if size < 0x8000_0000_0000_0000 then size else size - U64_LIMIT
  }

  /**
   * The OS calls of a non-zero `alloc` that took the name `path`, in order: each
   * failing step ends the chain, and every chain that opened a descriptor but did
   * not map it closes the descriptor.
   */
  function AllocCalls(path: string, size: usize, os: ShmOutcome): seq<OsCall> {
    match os.descriptor
    case None => [ShmOpen(path)]
    case Some(fd) =>
      if !os.unlinked then [ShmOpen(path), ShmUnlink(path), Close(fd)]
      else if !os.truncated then [ShmOpen(path), ShmUnlink(path), Ftruncate(fd, AsI64(size)), Close(fd)]
      else if os.address.None? then
        [ShmOpen(path), ShmUnlink(path), Ftruncate(fd, AsI64(size)), Mmap(fd, size), Close(fd)]
      else [ShmOpen(path), ShmUnlink(path), Ftruncate(fd, AsI64(size)), Mmap(fd, size)]
  }

  /**
   * Every allocation opens a segment under `path` and removes the name right after
   * opening it; a chain that fails after shm_open ends by closing that descriptor,
   * and only a successful chain leaves it open (it then lives in the record).
   */
  lemma AllocCallsShape(path: string, size: usize, os: ShmOutcome)
    ensures var calls := AllocCalls(path, size, os);
      && calls[0] == ShmOpen(path)
      && (os.descriptor.Some? ==> calls[1] == ShmUnlink(path))
      && (os.descriptor.None? ==> calls == [ShmOpen(path)])
      && (os.descriptor.Some? ==> (!AllocSucceeds(os) <==> calls[|calls| - 1] == Close(os.descriptor.value)))
      && (forall k :: 0 <= k < |calls| ==> !calls[k].Munmap?)
  {
  }

  /** The address → (descriptor, size) table of live mappings. */
  class MMapRecord {
    var addr2fdsize: map<nat, (nat, nat)>

    constructor ()
      ensures addr2fdsize == map[]
    {
      addr2fdsize := map[];
    }

    /** Records a mapping; a second entry for the same address is a fatal `assert!`. */
    method Insert(addr: nat, fd: nat, size: nat)
      requires addr !in addr2fdsize
      modifies this
      ensures addr2fdsize == old(addr2fdsize)[addr := (fd, size)]
    {
      addr2fdsize := addr2fdsize[addr := (fd, size)];
    }

    /** Takes out the entry of `addr`, if there is one; an unknown address is no error. */
    method Remove(addr: nat) returns (entry: Option<(nat, nat)>)
      modifies this
      ensures addr in old(addr2fdsize) ==> entry == Some(old(addr2fdsize)[addr])
      ensures addr !in old(addr2fdsize) ==> entry == None && addr2fdsize == old(addr2fdsize)
      ensures addr2fdsize == old(addr2fdsize) - {addr}
    {
      if addr in addr2fdsize {
        entry := Some(addr2fdsize[addr]);
        addr2fdsize := addr2fdsize - {addr};
      } else {
        entry := None;
      }
    }
  }

  class UnixShm {
    var counter: i32
    const mmaps: MMapRecord
    ghost var osCalls: seq<OsCall>
    /** How many segment names the backend has taken since it was made. */
    ghost var namesTaken: nat

    /**
     * The counter is where `namesTaken` names from a fresh backend leave it, and
     * recorded mappings are never at the null address and never empty.
     */
    ghost predicate Valid()
      reads this, mmaps
    {
      && counter == CounterAfter(namesTaken)
      && NULL !in mmaps.addr2fdsize
      && forall a :: a in mmaps.addr2fdsize ==> mmaps.addr2fdsize[a].1 > 0
    }

    constructor ()
      ensures Valid()
      ensures fresh(mmaps)
      ensures counter == 0 && namesTaken == 0 && mmaps.addr2fdsize == map[] && osCalls == []
    {
      counter := 0;
      namesTaken := 0;
      mmaps := new MMapRecord();
      osCalls := [];
    }

    /** Advances the counter and names the next segment after it. */
    method GetNextPath() returns (path: string)
      modifies this`counter, this`namesTaken
      ensures counter == NextCounter(old(counter)) && namesTaken == old(namesTaken) + 1
      ensures path == ShmPath(counter)
    {
      counter := NextCounter(counter);
      namesTaken := namesTaken + 1;
      path := PATH_PREFIX + Decimal.IntToString(counter);
    }

    /**
     * Maps a fresh segment of `size` bytes and answers (address, size, flags), or
     * (null, 0, 0) when `size` is 0 or an OS call fails. The OS never maps at null
     * or over a live mapping, so mmap's address is absent from the record.
     */
    method Alloc(size: usize, os: ShmOutcome) returns (ptr: nat, len: usize, flags: nat)
      requires Valid()
      requires os.address.Some? ==> os.address.value != NULL && os.address.value !in mmaps.addr2fdsize
      modifies this, mmaps
      ensures Valid()
      ensures size == 0 ==>
        && ptr == NULL && len == 0 && flags == 0
        && counter == old(counter) && namesTaken == old(namesTaken) && osCalls == old(osCalls)
        && mmaps.addr2fdsize == old(mmaps.addr2fdsize)
      ensures size != 0 ==>
        && counter == NextCounter(old(counter)) && namesTaken == old(namesTaken) + 1
        && osCalls == old(osCalls) + AllocCalls(ShmPath(counter), size, os)
      ensures size != 0 && AllocSucceeds(os) ==>
        && ptr == os.address.value && len == size && flags == 0
        && mmaps.addr2fdsize == old(mmaps.addr2fdsize)[ptr := (os.descriptor.value, size)]
      ensures !(size != 0 && AllocSucceeds(os)) ==>
        && ptr == NULL && len == 0 && flags == 0
        && mmaps.addr2fdsize == old(mmaps.addr2fdsize)
    {
      if size == 0 {
        return NULL, 0, 0;
      }
      var path := GetNextPath();
      // Each exit logs the calls made on its way, in order.
      if os.descriptor.None? {
        osCalls := osCalls + [ShmOpen(path)];
        return NULL, 0, 0;
      }
      var fd := os.descriptor.value;
      if !os.unlinked {
        osCalls := osCalls + [ShmOpen(path), ShmUnlink(path), Close(fd)];
        return NULL, 0, 0;
      }
      if !os.truncated {
        osCalls := osCalls + [ShmOpen(path), ShmUnlink(path), Ftruncate(fd, AsI64(size)), Close(fd)];
        return NULL, 0, 0;
      }
      match os.address {
        case Some(addr) =>
          mmaps.Insert(addr, fd, size);
          osCalls := osCalls + [ShmOpen(path), ShmUnlink(path), Ftruncate(fd, AsI64(size)), Mmap(fd, size)];
          return addr, size, 0;
        case None =>
          osCalls := osCalls + [ShmOpen(path), ShmUnlink(path), Ftruncate(fd, AsI64(size)), Mmap(fd, size), Close(fd)];
          return NULL, 0, 0;
      }
    }

    /**
     * Releases the mapping at `ptr` (null is a panic). The entry is taken out of the
     * record and its descriptor closed before the size is compared, so a size that
     * does not match answers false and leaves the memory mapped; a matching size
     * unmaps, and the answer is munmap's.
     */
    method Free(ptr: nat, size: usize, unmapped: bool) returns (ok: bool)
      requires Valid()
      requires ptr != NULL
      modifies this, mmaps
      ensures Valid()
      ensures counter == old(counter) && namesTaken == old(namesTaken)
      ensures mmaps.addr2fdsize == old(mmaps.addr2fdsize) - {ptr}
      ensures ptr !in old(mmaps.addr2fdsize) ==> !ok && osCalls == old(osCalls)
      ensures ptr in old(mmaps.addr2fdsize) && old(mmaps.addr2fdsize)[ptr].1 != size ==>
        !ok && osCalls == old(osCalls) + [Close(old(mmaps.addr2fdsize)[ptr].0)]
      ensures ptr in old(mmaps.addr2fdsize) && old(mmaps.addr2fdsize)[ptr].1 == size ==>
        ok == unmapped && osCalls == old(osCalls) + [Munmap(ptr, size), Close(old(mmaps.addr2fdsize)[ptr].0)]
    {
      var entry := mmaps.Remove(ptr);
      match entry {
        case None =>
          return false;
        case Some(record) =>
          var (fd, recorded) := record;
          if recorded != size {
            osCalls := osCalls + [Close(fd)];
            return false;
          }
          osCalls := osCalls + [Munmap(ptr, size), Close(fd)];
          return unmapped;
      }
    }

    /** Growing a mapping in place is unsupported. */
    function Remap(ptr: nat, oldSize: usize, newSize: usize, canMove: bool): nat {
      NULL
    }

    /** Returning part of a mapping is unsupported. */
    function FreePart(ptr: nat, oldSize: usize, newSize: usize): bool {
      false
    }

    function CanReleasePart(flags: nat): bool {
      false
    }

    /** ftruncate zero-fills a new segment. */
    function AllocatesZeros(): bool {
      true
    }

    function PageSize(): usize {
      PAGE_SIZE
    }
  }

  /** The fixed answers of the backend, whatever its state and arguments. */
  lemma FixedAnswers(shm: UnixShm, ptr: nat, oldSize: usize, newSize: usize, canMove: bool, flags: nat)
    ensures shm.Remap(ptr, oldSize, newSize, canMove) == NULL
    ensures !shm.FreePart(ptr, oldSize, newSize)
    ensures !shm.CanReleasePart(flags)
    ensures shm.AllocatesZeros()
    ensures shm.PageSize() == 4096
  {
  }
}
