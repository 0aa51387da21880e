/** The user memory allocator: a first-fit bitmap (kernel/memory/umem_alloc.c) behind a power-of-two rounder
(`round_next_power_of_two` and `ualloc` of kernel/memory/umem.s). */
module UserMemory {
  import opened Words

  const USER_RAM_START: int := 0x4_0000
  const ALLOC_ARRAY_BYTE_SIZE: nat := 512
  const MIN_BLOCK_SIZE: nat := 64
  const BITS: nat := 4096

  // ---------------------------------------------------------------- bits of the map

  /** 1 << k, for a bit of one byte. */
  function Mask(k: nat): bv8
    requires k < 8
  {
    match k
    case 0 => 1
    case 1 => 2
    case 2 => 4
    case 3 => 8
    case 4 => 16
    case 5 => 32
    case 6 => 64
    case _ => 128
  }

  lemma {:induction false} MaskIs(k: nat)
    requires k < 8
    ensures Mask(k) == (1 as bv8) << k
  {
  }

  type Bitmap = b: seq<bv8> | |b| == ALLOC_ARRAY_BYTE_SIZE witness seq(ALLOC_ARRAY_BYTE_SIZE, _ => 0)

  predicate Used(b: Bitmap, bit: nat)
    requires bit < BITS
  {
    b[bit / 8] & Mask(bit % 8) != 0
  }

  lemma {:induction false} SetBit(x: bv8, j: nat, k: nat)
    requires j < 8 && k < 8
    ensures (x | Mask(j)) & Mask(k) != 0 <==> j == k || x & Mask(k) != 0
  {
  }

  lemma {:induction false} ClearBit(x: bv8, j: nat, k: nat)
    requires j < 8 && k < 8
    ensures (x & !Mask(j)) & Mask(k) != 0 <==> j != k && x & Mask(k) != 0
  {
  }

  /** A byte is its eight bits. */
  lemma {:induction false} ByteIsBits(x: bv8, y: bv8)
    requires forall k :: 0 <= k < 8 ==> (x & Mask(k) != 0 <==> y & Mask(k) != 0)
    ensures x == y
  {
    assert (x & Mask(0) != 0 <==> y & Mask(0) != 0) && (x & Mask(1) != 0 <==> y & Mask(1) != 0)
        && (x & Mask(2) != 0 <==> y & Mask(2) != 0) && (x & Mask(3) != 0 <==> y & Mask(3) != 0)
        && (x & Mask(4) != 0 <==> y & Mask(4) != 0) && (x & Mask(5) != 0 <==> y & Mask(5) != 0)
        && (x & Mask(6) != 0 <==> y & Mask(6) != 0) && (x & Mask(7) != 0 <==> y & Mask(7) != 0);
  }

  /** Exactly the bits [start, start + n) now have the value `v`. */
  ghost predicate Marked(b: Bitmap, b': Bitmap, start: nat, n: nat, v: bool) {
    forall j :: 0 <= j < BITS ==> (Used(b', j) <==> if start <= j < start + n then v else Used(b, j))
  }

  ghost predicate FreeWindow(b: Bitmap, start: nat, n: nat)
    requires start + n <= BITS
  {
    forall j :: start <= j < start + n ==> !Used(b, j)
  }

  ghost predicate Fits(b: Bitmap, start: nat, n: nat) {
    start + n <= BITS && FreeWindow(b, start, n)
  }

  ghost predicate NoFit(b: Bitmap, n: nat) {
    forall s: nat :: !Fits(b, s, n)
  }

  /** The lowest place where `n` bits are free. */
  ghost predicate LowestFit(b: Bitmap, start: nat, n: nat) {
    Fits(b, start, n) && forall s: nat :: s < start ==> !Fits(b, s, n)
  }

  lemma {:induction false} SameBitsSameMap(b: Bitmap, b': Bitmap)
    requires forall j :: 0 <= j < BITS ==> (Used(b, j) <==> Used(b', j))
    ensures b == b'
  {
    forall i | 0 <= i < |b| ensures b[i] == b'[i] {
      forall k | 0 <= k < 8 ensures b[i] & Mask(k) != 0 <==> b'[i] & Mask(k) != 0 {
        var j := 8 * i + k;
        assert j / 8 == i && j % 8 == k;
        assert Used(b, j) <==> Used(b', j);
      }
      ByteIsBits(b[i], b'[i]);
    }
  }

  /** Freeing what an allocation marked restores the map, byte for byte. */
  lemma {:induction false} FreeRestores(b: Bitmap, used: Bitmap, freed: Bitmap, start: nat, n: nat)
    requires Fits(b, start, n) && Marked(b, used, start, n, true) && Marked(used, freed, start, n, false)
    ensures freed == b
  {
    SameBitsSameMap(freed, b);
  }

  // ---------------------------------------------------------------- rounding

  function RoundNextPowerOfTwo(size: bv32): bv32 {
    var a := size - 1;
    var b := a | (a >> 1);
    var c := b | (b >> 2);
    var d := c | (c >> 4);
    var e := d | (d >> 8);
    var f := e | (e >> 16);
    f + 1
  }

  predicate PowerOfTwo(x: bv32) {
    x != 0 && x & (x - 1) == 0
  }

  /** The least power of two that is at least `size`: no smaller one `p` is; 0 when 32 bits hold none. */
  lemma {:induction false} RoundIsLeast(size: bv32, p: bv32)
    requires size != 0
    ensures size <= 0x8000_0000 ==> PowerOfTwo(RoundNextPowerOfTwo(size)) && size <= RoundNextPowerOfTwo(size)
    ensures PowerOfTwo(p) && size <= p ==> RoundNextPowerOfTwo(size) <= p
    ensures size > 0x8000_0000 ==> RoundNextPowerOfTwo(size) == 0
  {
    var r := RoundNextPowerOfTwo(size);
    assert size <= 0x8000_0000 ==> PowerOfTwo(r) && size <= r && (size == 1 || r >> 1 < size);
    if PowerOfTwo(p) && size <= p {
      assert p <= 0x8000_0000;
      assert size != 1 ==> r >> 1 < p;
      PowersApart(r, p);
    }
  }

  lemma {:induction false} PowersApart(r: bv32, p: bv32)
    requires PowerOfTwo(r) && PowerOfTwo(p) && r >> 1 < p
    ensures r <= p
  {
  }

  /** The number of bits `ualloc` asks for; the comparison with the minimum is a signed one. */
  function BitsFor(size: bv32): bv32 {
    var r := RoundNextPowerOfTwo(size);
    var bytes := if 64 <= r < 0x8000_0000 then r else 64;
    bytes / 64 + bytes % 64
  }

  /** The bits cover the request exactly for sizes up to 2^30, and then half as many would not, unless one does. */
  lemma {:induction false} BitsCover(size: bv32)
    requires size != 0
    ensures PowerOfTwo(BitsFor(size)) && BitsFor(size) <= 0x100_0000
    ensures size <= BitsFor(size) << 6 <==> size <= 0x4000_0000
    ensures size <= 0x4000_0000 ==> BitsFor(size) == 1 || BitsFor(size) << 5 < size
  {
    RoundIsLeast(size, 1);
  }

  /** The same in bytes, for the windows the map can hold. */
  lemma {:induction false} CoversBytes(size: bv32, bits: bv32)
    requires PowerOfTwo(bits) && bits as int <= BITS
    requires size <= bits << 6 && (bits == 1 || bits << 5 < size)
    ensures size as int <= MIN_BLOCK_SIZE * (bits as int)
    ensures bits as int == 1 || MIN_BLOCK_SIZE * (bits as int) < 2 * (size as int)
  {
    CoversAll(size, bits);
    CoversHalf(size, bits);
  }

  lemma {:induction false} CoversAll(size: bv32, bits: bv32)
    requires PowerOfTwo(bits) && bits as int <= BITS && size <= bits << 6
    ensures size as int <= MIN_BLOCK_SIZE * (bits as int)
  {
    OneOf(bits);
    AsInt(size);
  }

  lemma {:induction false} CoversHalf(size: bv32, bits: bv32)
    requires PowerOfTwo(bits) && bits as int <= BITS && (bits == 1 || bits << 5 < size)
    ensures bits as int == 1 || MIN_BLOCK_SIZE * (bits as int) < 2 * (size as int)
  {
    OneOf(bits);
    AsInt(size);
  }

  lemma {:induction false} AsInt(size: bv32)
    ensures (size <= 32 <==> size as int <= 32) && (size <= 64 <==> size as int <= 64)
    ensures (size <= 128 <==> size as int <= 128) && (size <= 256 <==> size as int <= 256)
    ensures (size <= 512 <==> size as int <= 512) && (size <= 1024 <==> size as int <= 1024)
    ensures (size <= 2048 <==> size as int <= 2048) && (size <= 4096 <==> size as int <= 4096)
    ensures (size <= 8192 <==> size as int <= 8192) && (size <= 16384 <==> size as int <= 16384)
    ensures (size <= 32768 <==> size as int <= 32768) && (size <= 65536 <==> size as int <= 65536)
    ensures (size <= 131072 <==> size as int <= 131072) && (size <= 262144 <==> size as int <= 262144)
  {
  }

  lemma {:induction false} OneOf(bits: bv32)
    requires PowerOfTwo(bits) && bits as int <= BITS
    ensures bits == 1 || bits == 2 || bits == 4 || bits == 8 || bits == 16 || bits == 32 || bits == 64 || bits == 128
         || bits == 256 || bits == 512 || bits == 1024 || bits == 2048 || bits == 4096
  {
    assert bits <= 4096;
  }

  // ---------------------------------------------------------------- the allocator

  /** An allocated stretch of the map. */
  datatype Region = Region(start: nat, bits: nat) {
    predicate Has(bit: nat) {
      start <= bit < start + bits
    }

    /** The addresses it stands for. */
    predicate HasAddress(a: int) {
      0x4_0000 + 64 * start <= a < 0x4_0000 + 64 * (start + bits)
    }
  }

  ghost predicate Apart(r: Region, s: Region) {
    r.start + r.bits <= s.start || s.start + s.bits <= r.start
  }

  /** The map shows exactly the live regions, which do not overlap. */
  ghost predicate Shows(b: Bitmap, live: set<Region>) {
    && (forall r :: r in live ==> r.bits > 0 && r.start + r.bits <= BITS)
    && (forall r, s :: r in live && s in live && r != s ==> Apart(r, s))
    && forall j :: 0 <= j < BITS ==> (Used(b, j) <==> exists r :: r in live && r.Has(j))
  }

  lemma {:induction false} ShowsMore(b: Bitmap, b': Bitmap, live: set<Region>, r: Region)
    requires Shows(b, live) && r.bits > 0 && Fits(b, r.start, r.bits) && Marked(b, b', r.start, r.bits, true)
    ensures r !in live && Shows(b', live + {r}) && forall s :: s in live ==> Apart(s, r)
  {
    forall s | s in live ensures Apart(s, r) {
      var j := if s.start < r.start then r.start else s.start;
      assert j < BITS && s.Has(j) ==> Used(b, j);
      assert j < BITS && r.Has(j) ==> !Used(b, j);
    }
    assert r in live ==> Apart(r, r);
    forall j | 0 <= j < BITS ensures Used(b', j) <==> exists s :: s in live + {r} && s.Has(j) {
      if Used(b', j) {
        if r.start <= j < r.start + r.bits { assert r in live + {r} && r.Has(j); }
        else {
          var s :| s in live && s.Has(j);
          assert s in live + {r};
        }
      }
    }
  }

  lemma {:induction false} ShowsLess(b: Bitmap, b': Bitmap, live: set<Region>, r: Region)
    requires Shows(b, live) && r in live && Marked(b, b', r.start, r.bits, false)
    ensures Shows(b', live - {r})
  {
    forall j | 0 <= j < BITS ensures Used(b', j) <==> exists s :: s in live - {r} && s.Has(j) {
      if Used(b', j) {
        var s :| s in live && s.Has(j);
        assert s in live - {r};
      }
      if exists s :: s in live - {r} && s.Has(j) {
        var s :| s in live - {r} && s.Has(j);
        assert s in live && Apart(s, r) && Used(b, j);
      }
    }
  }

  /** No address belongs to both. */
  ghost predicate Disjoint(r: Region, s: Region) {
    forall a :: r.HasAddress(a) ==> !s.HasAddress(a)
  }

  /** Regions overlap in memory exactly when they do in the map. */
  lemma {:induction false} RegionsApart(r: Region, s: Region)
    requires r.bits > 0 && s.bits > 0
    ensures Apart(r, s) <==> Disjoint(r, s)
  {
    if !Apart(r, s) {
      var a := USER_RAM_START + MIN_BLOCK_SIZE * if r.start < s.start then s.start else r.start;
      assert r.HasAddress(a) && s.HasAddress(a);
    }
  }

  /** The scan has come to bit `i`, the last `zeros` bits before it are free, the one before those is not, and no
      window ends before bit `i`, but for one that ends there just now. */
  ghost predicate Scanned(b: Bitmap, n: int, i: nat, zeros: nat)
    requires zeros <= i <= BITS
  {
    && (forall j :: i - zeros <= j < i ==> !Used(b, j))
    && (i - zeros > 0 ==> Used(b, i - zeros - 1))
    && (n >= 1 ==> forall s: nat :: s + n <= i && !(zeros == n && s + n == i) ==> !Fits(b, s, n))
  }

  lemma {:induction false} ScanNext(b: Bitmap, n: int, i: nat, zeros: nat, free: bool)
    requires zeros <= i < BITS && Scanned(b, n, i, zeros) && (n >= 1 ==> zeros < n)
    requires free <==> b[i / 8] & Mask(i % 8) == 0
    ensures Scanned(b, n, i + 1, if free then zeros + 1 else 0)
  {
    var z := if free then zeros + 1 else 0;
    assert free <==> !Used(b, i);
    hide Used;
    if n >= 1 {
      forall s: nat | s + n <= i + 1 && !(z == n && s + n == i + 1) ensures !Fits(b, s, n) {
        if s + n == i + 1 {
          assert Used(b, i + 1 - z - 1);
        }
      }
    }
  }

  lemma {:induction false} ScanFits(b: Bitmap, n: int, i: nat)
    requires 1 <= n <= i <= BITS && Scanned(b, n, i, n)
    ensures LowestFit(b, i - n, n) && !NoFit(b, n)
  {
    hide Used;
    assert Fits(b, i - n, n);
  }

  lemma {:induction false} ScanNone(b: Bitmap, n: int, zeros: nat)
    requires zeros <= BITS && Scanned(b, n, BITS, zeros) && (n >= 1 ==> zeros < n)
    ensures n >= 1 ==> NoFit(b, n)
  {
    hide Used;
  }

  class Allocator {
    const bitmap: array<bv8>
    ghost var live: set<Region>

    ghost predicate Valid()
      reads this, bitmap
    {
      bitmap.Length == ALLOC_ARRAY_BYTE_SIZE && Shows(bitmap[..], live)
    }

    /** A map with every bit clear. */
    constructor ()
      ensures Valid() && live == {} && fresh(bitmap)
    {
      bitmap := new bv8[ALLOC_ARRAY_BYTE_SIZE](_ => 0);
      live := {};
      new;
      assert forall j :: 0 <= j < BITS ==> !Used(bitmap[..], j);
    }

    /** mark_bits_used. */
    method MarkBitsUsed(start: nat, count: nat)
      requires bitmap.Length == ALLOC_ARRAY_BYTE_SIZE && start + count <= BITS
      modifies bitmap
      ensures Marked(old(bitmap[..]), bitmap[..], start, count, true)
    {
      for i := 0 to count
        invariant Marked(old(bitmap[..]), bitmap[..], start, i, true)
      {
        ghost var before := bitmap[..];
        var bit := start + i;
        bitmap[bit / 8] := bitmap[bit / 8] | Mask(bit % 8);
        MarkOne(before, bitmap[..], bit, true);
        MarkedNext(old(bitmap[..]), before, bitmap[..], start, i, true);
      }
    }

    /** mark_bits_free. */
    method MarkBitsFree(start: nat, count: nat)
      requires bitmap.Length == ALLOC_ARRAY_BYTE_SIZE && start + count <= BITS
      modifies bitmap
      ensures Marked(old(bitmap[..]), bitmap[..], start, count, false)
    {
      for i := 0 to count
        invariant Marked(old(bitmap[..]), bitmap[..], start, i, false)
      {
        ghost var before := bitmap[..];
        var bit := start + i;
        bitmap[bit / 8] := bitmap[bit / 8] & !Mask(bit % 8);
        MarkOne(before, bitmap[..], bit, false);
        MarkedNext(old(bitmap[..]), before, bitmap[..], start, i, false);
      }
    }

    /** ualloc_try_block: the lowest free window of `n` bits, or 0 when there is none. */
    method TryBlock(n: int) returns (addr: Word, ghost start: nat)
      requires bitmap.Length == ALLOC_ARRAY_BYTE_SIZE
      modifies bitmap
      ensures n >= 1 && !NoFit(old(bitmap[..]), n) ==> (
                && LowestFit(old(bitmap[..]), start, n) && addr == 0x4_0000 + 64 * start
                && Marked(old(bitmap[..]), bitmap[..], start, n, true))
      ensures n < 1 || NoFit(old(bitmap[..]), n) ==> addr == 0 && bitmap[..] == old(bitmap[..])
    {
      hide Used, Fits, FreeWindow;
      ghost var b := bitmap[..];
      var zeros, startBit, i := 0, -1, 0;
      start := 0;
      while i < BITS
        invariant i <= BITS && 0 <= zeros <= i && bitmap[..] == b && (n >= 1 ==> zeros < n)
        invariant zeros > 0 ==> startBit == i - zeros
        invariant Scanned(b, n, i, zeros)
      {
        var free := bitmap[i / 8] & Mask(i % 8) == 0;
        ScanNext(b, n, i, zeros, free);
        if free {
          if zeros == 0 { startBit := i; }
          zeros := zeros + 1;
          if zeros == n {
            start := startBit;
            ScanFits(b, n, i + 1);
            MarkBitsUsed(startBit, n);
            return USER_RAM_START + startBit * MIN_BLOCK_SIZE, start;
          }
        } else {
          zeros := 0;
        }
        i := i + 1;
      }
      ScanNone(b, n, zeros);
      addr := 0;
    }

    /** ualloc. */
    method Ualloc(size: bv32) returns (addr: Word, ghost r: Region)
      requires Valid()
      modifies this`live, bitmap
      ensures Valid()
      ensures size == 0 ==> addr == 1 && live == old(live) && bitmap[..] == old(bitmap[..])
      ensures size != 0 && addr == 0 ==>
                live == old(live) && bitmap[..] == old(bitmap[..]) && NoFit(bitmap[..], BitsFor(size) as int)
      ensures size != 0 && addr != 0 ==>
                && r !in old(live) && live == old(live) + {r} && (forall s :: s in old(live) ==> Disjoint(s, r))
                && addr == 0x4_0000 + 64 * r.start && addr + 64 * r.bits <= 0x8_0000
                && LowestFit(old(bitmap[..]), r.start, BitsFor(size) as int) && r.bits == BitsFor(size) as int
                && (size <= 0x4000_0000 ==> size as int <= 64 * r.bits
                                            && (r.bits == 1 || 64 * r.bits < 2 * (size as int)))
    {
      r := Region(0, 0);
      if size == 0 { return 1, r; }
      var bits := BitsFor(size);
      BitsCover(size);
      ghost var start;
      addr, start := TryBlock(bits as int);
      if addr != 0 {
        r := Region(start, bits as int);
        ShowsMore(old(bitmap[..]), bitmap[..], live, r);
        forall s | s in live ensures Disjoint(s, r) {
          RegionsApart(s, r);
        }
        live := live + {r};
        if size <= 0x4000_0000 { CoversBytes(size, bits); }
      }
    }

    /** A live region is given back, bit by bit (mark_bits_free). */
    method Release(r: Region)
      requires Valid() && r in live
      modifies this`live, bitmap
      ensures Valid() && live == old(live) - {r}
      ensures Marked(old(bitmap[..]), bitmap[..], r.start, r.bits, false)
    {
      MarkBitsFree(r.start, r.bits);
      ShowsLess(old(bitmap[..]), bitmap[..], live, r);
      live := live - {r};
    }
  }

  /** One bit of one byte set or cleared. */
  function Put(x: bv8, k: nat, v: bool): bv8
    requires k < 8
  {
    if v then x | Mask(k) else x & !Mask(k)
  }

  predicate Bit(x: bv8, k: nat)
    requires k < 8
  {
    x & Mask(k) != 0
  }

  lemma {:induction false} PutBit(x: bv8, j: nat, k: nat, v: bool)
    requires j < 8 && k < 8
    ensures Bit(Put(x, j, v), k) <==> if j == k then v else Bit(x, k)
  {
    hide Mask;
    if v { SetBit(x, j, k); } else { ClearBit(x, j, k); }
  }

  lemma {:induction false} UsedIs(b: Bitmap, j: nat)
    requires j < BITS
    ensures Used(b, j) <==> Bit(b[j / 8], j % 8)
  {
    hide Mask;
  }

  lemma {:induction false} MarkOne(b: Bitmap, b': Bitmap, bit: nat, v: bool)
    requires bit < BITS && b' == b[bit / 8 := Put(b[bit / 8], bit % 8, v)]
    ensures Marked(b, b', bit, 1, v)
  {
    hide Used, Mask, Bit, Put;
    forall j | 0 <= j < BITS ensures Used(b', j) <==> if bit <= j < bit + 1 then v else Used(b, j) {
      SameByte(bit, j);
      UsedIs(b, j);
      UsedIs(b', j);
      if j / 8 == bit / 8 { PutBit(b[bit / 8], bit % 8, j % 8, v); }
    }
  }

  lemma {:induction false} SameByte(a: nat, b: nat)
    ensures a / 8 == b / 8 && a % 8 == b % 8 <==> a == b
  {
  }

  lemma {:induction false} MarkedNext(b: Bitmap, m: Bitmap, b': Bitmap, start: nat, n: nat, v: bool)
    requires Marked(b, m, start, n, v) && Marked(m, b', start + n, 1, v)
    ensures Marked(b, b', start, n + 1, v)
  {
  }
}
