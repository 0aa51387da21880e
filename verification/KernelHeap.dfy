/** The kernel's header heap (kernel/memory/kmem.c).

The heap is one array of 32-bit words.  Every block is a header word followed by its payload; the header
holds the payload size in bytes with the used flag in bit 0.  A pointer is the index of a payload's first
word.  Index 0 is always a header, so 0 can stand for NULL.
*/
module KernelHeap {
  import opened Words

  /** One block as the headers describe it: `words` payload words after one header word. */
  datatype Block = Block(words: nat, used: bool)

  function Header(b: Block): int {
    4 * b.words + if b.used then 1 else 0
  }

  /** GET_SIZE: the header without its flag bit. */
  function GetSize(header: Word): Word {
    header - header % 2
  }

  /** IS_USED. */
  predicate IsUsed(header: Word) {
    header % 2 == 1
  }

  lemma {:induction false} HeaderBits(header: Word, b: Block)
    requires header == Header(b)
    ensures IsUsed(header) <==> b.used
    ensures GetSize(header) as int == 4 * b.words
  {
    LowBit(header, 2 * b.words, if b.used then 1 else 0);
  }

  lemma {:induction false} LowBit(h: int, q: int, bit: int)
    requires h == 2 * q + bit && 0 <= bit <= 1
    ensures h % 2 == bit
  {
  }

  /** Words covered by a run of blocks, headers included. */
  function Extent(bs: seq<Block>): nat {
    if bs == [] then 0 else 1 + bs[0].words + Extent(bs[1..])
  }

  /** The headers found by walking `m` from word `at` are exactly `bs`, and the walk ends at word `end`. */
  ghost predicate Tiles(m: seq<Word>, bs: seq<Block>, at: nat, end: nat) {
    if bs == [] then at == end
    else at < |m| && m[at] == Header(bs[0]) && Tiles(m, bs[1..], at + 1 + bs[0].words, end)
  }

  /** Payload start and payload words of every block in use, for blocks laid out from word `at`. */
  ghost function Live(bs: seq<Block>, at: nat): map<nat, nat> {
    if bs == [] then map[]
    else
      var rest := Live(bs[1..], at + 1 + bs[0].words);
      if bs[0].used then rest[at + 1 := bs[0].words] else rest
  }

  /** No two neighbouring blocks are both free. */
  ghost predicate Settled(bs: seq<Block>) {
    forall j, k :: 0 <= j < k < |bs| && k == j + 1 ==> bs[j].used || bs[k].used
  }

  /** Rounding to whole words as ALIGN4 computes it, 32-bit wrap included. */
  function AlignedWords(size: Word): nat {
    (size + 3) % 0x1_0000_0000 / 4
  }

  /** The first block that is free and holds `w` words, or |bs|. */
  function FirstFit(bs: seq<Block>, w: nat): (k: nat)
    ensures k <= |bs|
    ensures k < |bs| ==> !bs[k].used && bs[k].words >= w
    ensures forall j :: 0 <= j < k ==> bs[j].used || bs[j].words < w
  {
    if bs == [] then 0
    else if !bs[0].used && bs[0].words >= w then 0
    else
      var k := FirstFit(bs[1..], w);
      assert forall j :: 0 < j < k + 1 ==> bs[j] == bs[1..][j - 1];
      k + 1
  }

  /** What a free block becomes when `w` words of it are handed out. */
  function Carve(b: Block, w: nat): seq<Block>
    requires w <= b.words
  {
    if b.words >= w + 2 then [Block(w, true), Block(b.words - w - 1, false)]
    else [Block(b.words, true)]
  }

  /** Payload words the caller receives: the remainder comes along when it is too small to stand alone. */
  function Granted(b: Block, w: nat): nat {
    if b.words >= w + 2 then w else b.words
  }

  function Place(bs: seq<Block>, k: nat, w: nat): seq<Block>
    requires k < |bs| && w <= bs[k].words
  {
    bs[..k] + Carve(bs[k], w) + bs[k + 1..]
  }

  /** A block granted is as long as asked for, or one word longer when that word could not stand alone; what is left of
      it is a free block of at least one word. */
  lemma {:induction false} GrantedTight(b: Block, w: nat)
    requires w <= b.words
    ensures Granted(b, w) == if b.words == w + 1 then w + 1 else w
    ensures Carve(b, w)[0] == Block(Granted(b, w), true)
    ensures Carve(b, w)[1..] == if b.words <= w + 1 then [] else [Block(b.words - w - 1, false)]
  {
  }

  /** Merging neighbouring free blocks, front to back. */
  function Merge(bs: seq<Block>): (r: seq<Block>)
    decreases |bs|
  {
    if |bs| < 2 then bs
    else if !bs[0].used && !bs[1].used then
      Merge(Joined(bs))
    else [bs[0]] + Merge(bs[1..])
  }

  /** A free block that has absorbed its free successor. */
  function Joined(bs: seq<Block>): seq<Block>
    requires |bs| > 1
  {
    [Block(bs[0].words + 1 + bs[1].words, false)] + bs[2..]
  }

  // ---------------------------------------------------------------- laying blocks side by side

  lemma {:induction false} ExtentSplit(a: seq<Block>, b: seq<Block>)
    ensures Extent(a + b) == Extent(a) + Extent(b)
  {
    if a == [] {
      assert a + b == b;
    } else {
      assert (a + b)[1..] == a[1..] + b;
      ExtentSplit(a[1..], b);
    }
  }

  lemma {:induction false} TilesSplit(m: seq<Word>, a: seq<Block>, b: seq<Block>, at: nat, end: nat)
    ensures Tiles(m, a + b, at, end) <==>
            Tiles(m, a, at, at + Extent(a)) && Tiles(m, b, at + Extent(a), end)
  {
    if a == [] {
      assert a + b == b;
    } else {
      assert (a + b)[1..] == a[1..] + b;
      TilesSplit(m, a[1..], b, at + 1 + a[0].words, end);
    }
  }

  lemma {:induction false} TilesEnd(m: seq<Word>, bs: seq<Block>, at: nat, end: nat)
    requires Tiles(m, bs, at, end)
    ensures end == at + Extent(bs)
  {
    if bs != [] {
      TilesEnd(m, bs[1..], at + 1 + bs[0].words, end);
    }
  }

  /** Writes outside [at, end) and writes into live payloads leave the headers alone. */
  lemma {:induction false} TilesFrame(m: seq<Word>, n: seq<Word>, bs: seq<Block>, at: nat, end: nat)
    requires Tiles(m, bs, at, end) && |m| == |n| && at + Extent(bs) <= |m|
    requires forall i :: at <= i < at + Extent(bs) && m[i] != n[i] ==> InLive(bs, at, i)
    ensures Tiles(n, bs, at, end)
  {
    if bs != [] {
      var rest := at + 1 + bs[0].words;
      LiveBounds(bs, at);
      forall i | rest <= i < rest + Extent(bs[1..]) && m[i] != n[i]
        ensures InLive(bs[1..], rest, i)
      {
        var p :| Covers(Live(bs, at), p, i);
        assert Covers(Live(bs[1..], rest), p, i);
      }
      TilesFrame(m, n, bs[1..], rest, end);
    }
  }

  lemma {:induction false} TilesSame(m: seq<Word>, n: seq<Word>, bs: seq<Block>, at: nat, end: nat)
    requires Tiles(m, bs, at, end) && end <= |m| == |n|
    requires forall i :: at <= i < end ==> m[i] == n[i]
    ensures Tiles(n, bs, at, end)
  {
    if bs != [] {
      TilesEnd(m, bs, at, end);
      TilesSame(m, n, bs[1..], at + 1 + bs[0].words, end);
    }
  }

  lemma {:induction false} LiveSplit(a: seq<Block>, b: seq<Block>, at: nat)
    ensures Live(a + b, at) == Live(a, at) + Live(b, at + Extent(a))
  {
    LiveBounds(b, at + Extent(a));
    if a == [] {
      assert a + b == b;
    } else {
      assert (a + b)[1..] == a[1..] + b;
      LiveSplit(a[1..], b, at + 1 + a[0].words);
    }
  }

  lemma {:induction false} LiveBounds(bs: seq<Block>, at: nat)
    ensures forall p :: p in Live(bs, at) ==> at < p && p + Live(bs, at)[p] <= at + Extent(bs)
  {
    if bs != [] {
      LiveBounds(bs[1..], at + 1 + bs[0].words);
    }
  }

  /** Word `i` belongs to the live block whose payload starts at `p`. */
  ghost predicate Covers(live: map<nat, nat>, p: nat, i: nat) {
    p in live && p <= i < p + live[p]
  }

  /** Word `i` belongs to the payload of a block in use. */
  ghost predicate InLive(bs: seq<Block>, at: nat, i: nat) {
    exists p :: Covers(Live(bs, at), p, i)
  }

  /** Two blocks in use are separated by at least one header word. */
  lemma {:induction false} LiveApart(bs: seq<Block>, at: nat, p: nat, q: nat)
    requires p in Live(bs, at) && q in Live(bs, at) && p < q
    ensures p + Live(bs, at)[p] < q
  {
    var rest := at + 1 + bs[0].words;
    LiveBounds(bs[1..], rest);
    if p in Live(bs[1..], rest) && q in Live(bs[1..], rest) {
      LiveApart(bs[1..], rest, p, q);
    }
  }

  // ---------------------------------------------------------------- what placing and merging preserve

  lemma {:induction false} LiveMiddle(head: seq<Block>, mid: seq<Block>, tail: seq<Block>, at: nat)
    ensures Extent(head + mid + tail) == Extent(head) + Extent(mid) + Extent(tail)
    ensures var here := at + Extent(head);
            Live(head + mid + tail, at) == Live(head, at) + Live(mid, here) + Live(tail, here + Extent(mid))
  {
    ExtentSplit(head + mid, tail);
    ExtentSplit(head, mid);
    LiveSplit(head + mid, tail, at);
    LiveSplit(head, mid, at);
  }

  lemma {:induction false} PlaceEffect(bs: seq<Block>, k: nat, w: nat, at: nat)
    requires k < |bs| && !bs[k].used && w <= bs[k].words
    ensures at + Extent(bs[..k]) + 1 !in Live(bs, at)
    ensures Extent(Place(bs, k, w)) == Extent(bs)
    ensures Live(Place(bs, k, w), at) == Live(bs, at)[at + Extent(bs[..k]) + 1 := Granted(bs[k], w)]
  {
    var head, tail, mid := bs[..k], bs[k + 1..], Carve(bs[k], w);
    var here := at + Extent(head);
    assert bs == head + [bs[k]] + tail;
    LiveMiddle(head, [bs[k]], tail, at);
    LiveMiddle(head, mid, tail, at);
    LiveBounds(head, at);
    LiveBounds(tail, here + 1 + bs[k].words);
    assert Live([bs[k]], here) == map[];
    CarveEffect(bs[k], w, here);
  }

  lemma {:induction false} CarveEffect(b: Block, w: nat, at: nat)
    requires !b.used && w <= b.words
    ensures Extent(Carve(b, w)) == 1 + b.words
    ensures Extent([b]) == 1 + b.words
    ensures Live(Carve(b, w), at) == map[at + 1 := Granted(b, w)]
  {
    var mid := Carve(b, w);
    if |mid| == 2 {
      assert mid[1..] == [mid[1]];
      assert Live(mid[1..], at + 1 + w) == map[] && Extent(mid[1..]) == b.words - w;
    }
  }

  lemma {:induction false} PlaceSettled(bs: seq<Block>, k: nat, w: nat)
    requires k < |bs| && !bs[k].used && w <= bs[k].words && Settled(bs)
    ensures Settled(Place(bs, k, w))
  {
    var r, n := Place(bs, k, w), |Carve(bs[k], w)|;
    forall j, j' | 0 <= j < j' < |r| && j' == j + 1 ensures r[j].used || r[j'].used {
      if j' < k {
        assert r[j] == bs[j] && r[j'] == bs[j'];
      } else if j' == k || j == k {
        assert r[k].used;
      } else {
        assert forall i :: k + n <= i < |r| ==> r[i] == bs[i - n + 1];
      }
    }
  }

  lemma {:induction false} MergeEffect(bs: seq<Block>, at: nat)
    ensures Extent(Merge(bs)) == Extent(bs)
    ensures Live(Merge(bs), at) == Live(bs, at)
    ensures Settled(Merge(bs))
    ensures bs != [] ==> Merge(bs) != [] && Merge(bs)[0].used == bs[0].used
    decreases |bs|
  {
    if |bs| < 2 {
    } else if !bs[0].used && !bs[1].used {
      var joined := Block(bs[0].words + 1 + bs[1].words, false);
      var next := [joined] + bs[2..];
      MergeEffect(next, at);
      assert next[1..] == bs[2..] == bs[1..][1..];
    } else {
      MergeEffect(bs[1..], at + 1 + bs[0].words);
      var r := Merge(bs);
      assert r[1..] == Merge(bs[1..]);
      forall j, k | 0 <= j < k < |r| && k == j + 1 ensures r[j].used || r[k].used {
        if j > 0 { assert r[j] == r[1..][j - 1] && r[k] == r[1..][k - 1]; }
      }
    }
  }

  /** A settled heap with nothing in use is one free block: the block kheap_init writes. */
  lemma {:induction false} NothingLiveIsInitial(bs: seq<Block>, at: nat)
    requires Settled(bs) && bs != [] && Live(bs, at) == map[]
    ensures bs == [Block(Extent(bs) - 1, false)]
  {
    assert at + 1 !in Live(bs, at);
    if |bs| > 1 {
      assert bs[1].used;
      var rest := at + 1 + bs[0].words;
      assert rest + 1 in Live(bs[1..], rest);
      assert false;
    }
    assert bs[1..] == [];
  }

  lemma {:induction false} FreeEffect(bs: seq<Block>, k: nat, at: nat)
    requires k < |bs| && bs[k].used
    ensures Live(bs[k := bs[k].(used := false)], at) == Live(bs, at) - {at + Extent(bs[..k]) + 1}
    ensures Extent(bs[k := bs[k].(used := false)]) == Extent(bs)
  {
    var head, tail, freed := bs[..k], bs[k + 1..], bs[k].(used := false);
    var here := at + Extent(head);
    assert bs == head + [bs[k]] + tail;
    assert bs[k := freed] == head + [freed] + tail;
    LiveMiddle(head, [bs[k]], tail, at);
    LiveMiddle(head, [freed], tail, at);
    LiveBounds(head, at);
    LiveBounds(tail, here + 1 + bs[k].words);
    assert Live([bs[k]], here) == map[here + 1 := bs[k].words];
    assert Live([freed], here) == map[];
  }

  /** The block a live pointer belongs to. */
  ghost function Owner(bs: seq<Block>, at: nat, p: nat): (k: nat)
    requires p in Live(bs, at)
    ensures k < |bs| && bs[k].used && p == at + Extent(bs[..k]) + 1
  {
    if bs[0].used && p == at + 1 then 0
    else
      var k := Owner(bs[1..], at + 1 + bs[0].words, p);
      assert bs[..k + 1][1..] == bs[1..][..k];
      k + 1
  }

  /** Every word of a free block, its header included, lies outside every live payload. */
  lemma {:induction false} FreeBlockNotLive(bs: seq<Block>, k: nat, i: nat)
    requires k < |bs|
    requires Extent(bs[..k]) <= i < Extent(bs[..k]) + 1 + bs[k].words
    requires !bs[k].used || i == Extent(bs[..k])
    ensures !InLive(bs, 0, i)
  {
    var head, tail := bs[..k], bs[k + 1..];
    assert bs == head + [bs[k]] + tail;
    LiveMiddle(head, [bs[k]], tail, 0);
    LiveBounds(head, 0);
    LiveBounds(tail, Extent(head) + 1 + bs[k].words);
    assert Live([bs[k]], Extent(head)) == if bs[k].used then map[Extent(head) + 1 := bs[k].words] else map[];
  }

  /** Rewriting headers inside one run's extent keeps the tiling around it. */
  lemma {:induction false} TilesReplace(m: seq<Word>, n: seq<Word>, head: seq<Block>, mid: seq<Block>,
                     mid': seq<Block>, tail: seq<Block>)
    requires |m| == |n| && Extent(mid) == Extent(mid')
    requires Tiles(m, head + mid + tail, 0, |m|)
    requires Tiles(n, mid', Extent(head), Extent(head) + Extent(mid))
    requires forall i :: 0 <= i < |m| && !(Extent(head) <= i < Extent(head) + Extent(mid)) ==> m[i] == n[i]
    ensures Tiles(n, head + mid' + tail, 0, |n|)
  {
    var here, there := Extent(head), Extent(head) + Extent(mid);
    ExtentSplit(head, mid);
    ExtentSplit(head, mid');
    TilesSplit(m, head + mid, tail, 0, |m|);
    TilesSplit(m, head, mid, 0, there);
    TilesEnd(m, tail, there, |m|);
    TilesSame(m, n, head, 0, here);
    TilesSame(m, n, tail, there, |m|);
    TilesSplit(n, head, mid', 0, there);
    TilesSplit(n, head + mid', tail, 0, |n|);
  }

  /** What reading the header at the `k`-th block tells a walk over the heap. */
  lemma {:induction false} WalkStep(m: seq<Word>, bs: seq<Block>, k: nat, at: nat, end: nat)
    requires k <= |bs| && at == Extent(bs[..k]) && end <= |m|
    requires Tiles(m, bs[k..], at, end) && at < end
    ensures k < |bs| && m[at] == Header(bs[k])
    ensures at + 1 + bs[k].words == Extent(bs[..k + 1]) <= end
    ensures Tiles(m, bs[k + 1..], at + 1 + bs[k].words, end)
  {
    assert bs[k..][1..] == bs[k + 1..];
    assert bs[..k + 1] == bs[..k] + [bs[k]];
    assert Extent([bs[k]]) == 1 + bs[k].words by {
      assert [bs[k]][1..] == [];
    }
    ExtentSplit(bs[..k], [bs[k]]);
    TilesEnd(m, bs[k + 1..], at + 1 + bs[k].words, end);
  }

  lemma {:induction false} FirstFitIs(bs: seq<Block>, w: nat, k: nat)
    requires k <= |bs|
    requires k < |bs| ==> !bs[k].used && bs[k].words >= w
    requires forall j :: 0 <= j < k ==> bs[j].used || bs[j].words < w
    ensures FirstFit(bs, w) == k
  {
  }

  /** The header writes kmalloc makes for block `k`. */
  lemma {:induction false} PlaceTiles(m: seq<Word>, n: seq<Word>, bs: seq<Block>, k: nat, w: nat)
    requires Tiles(m, bs, 0, |m|) && |m| == |n|
    requires k < |bs| && !bs[k].used && w <= bs[k].words
    requires var at, b := Extent(bs[..k]), bs[k];
             at + b.words < |m| &&
             (if b.words >= w + 2 then
                n[at] == 4 * w + 1 && n[at + 1 + w] == 4 * (b.words - w - 1) &&
                forall i :: 0 <= i < |m| && i != at && i != at + 1 + w ==> m[i] == n[i]
              else
                n[at] as int == m[at] as int + 1 && forall i :: 0 <= i < |m| && i != at ==> m[i] == n[i])
    ensures Tiles(n, Place(bs, k, w), 0, |n|)
    ensures Heap.SamePayload(Live(bs, 0), m, n)
  {
    var at, b, mid := Extent(bs[..k]), bs[k], Carve(bs[k], w);
    assert bs == bs[..k] + [b] + bs[k + 1..];
    CarveEffect(b, w, at);
    TilesSplit(m, bs[..k] + [b], bs[k + 1..], 0, |m|);
    ExtentSplit(bs[..k], [b]);
    TilesSplit(m, bs[..k], [b], 0, at + 1 + b.words);
    if |mid| == 2 {
      assert mid[1..] == [mid[1]];
      assert Tiles(n, mid[1..], at + 1 + w, at + 1 + b.words);
    }
    assert Tiles(n, mid, at, at + 1 + b.words);
    TilesReplace(m, n, bs[..k], [b], mid, bs[k + 1..]);
    forall p: nat, i: nat | Covers(Live(bs, 0), p, i) && i < |m| ensures m[i] == n[i] {
      if at <= i < at + 1 + b.words {
        FreeBlockNotLive(bs, k, i);
        assert InLive(bs, 0, i);
        assert false;
      }
    }
  }

  /** Rewriting one header leaves every live payload alone. */
  lemma {:induction false} HeaderWrite(m: seq<Word>, n: seq<Word>, bs: seq<Block>, k: nat)
    requires k < |bs| && |m| == |n|
    requires forall i :: 0 <= i < |m| && i != Extent(bs[..k]) ==> m[i] == n[i]
    ensures Heap.SamePayload(Live(bs, 0), m, n)
  {
    FreeBlockNotLive(bs, k, Extent(bs[..k]));
    forall p: nat, i: nat | Covers(Live(bs, 0), p, i) && i < |m| ensures m[i] == n[i] {
      assert InLive(bs, 0, i);
    }
  }

  /** Clearing the used flag of block `k` in its header word. */
  lemma {:induction false} FreeTiles(m: seq<Word>, bs: seq<Block>, k: nat)
    requires Tiles(m, bs, 0, |m|) && k < |bs|
    ensures var at, freed := Extent(bs[..k]), bs[k].(used := false);
            && at < |m| && m[at] == Header(bs[k])
            && Tiles(m[at := 4 * bs[k].words], bs[k := freed], 0, |m|)
            && Heap.SamePayload(Live(bs, 0), m, m[at := 4 * bs[k].words])
  {
    var at, b, freed := Extent(bs[..k]), bs[k], bs[k].(used := false);
    assert bs == bs[..k] + bs[k..];
    TilesSplit(m, bs[..k], bs[k..], 0, |m|);
    TilesEnd(m, bs[k..], at, |m|);
    WalkStep(m, bs, k, at, |m|);
    var n: seq<Word> := m[at := 4 * b.words];
    Singleton(b);
    Singleton(freed);
    assert bs == bs[..k] + [b] + bs[k + 1..];
    assert bs[k := freed] == bs[..k] + [freed] + bs[k + 1..];
    TilesReplace(m, n, bs[..k], [b], [freed], bs[k + 1..]);
    HeaderWrite(m, n, bs, k);
  }

  lemma {:induction false} Singleton(b: Block)
    ensures Extent([b]) == 1 + b.words && [b][1..] == []
  {
    assert [b][1..] == [];
  }

  /** What kfree's traversal sees at its current block. */
  lemma {:induction false} HeadOfRest(start: seq<Block>, m0: seq<Word>, m: seq<Word>, done: seq<Block>,
                     rest: seq<Block>)
    requires Merging(start, m0, m, done, rest) && Extent(done) < |m|
    ensures rest != [] && m[Extent(done)] == Header(rest[0])
    ensures var next := Extent(done) + 1 + rest[0].words;
            && next == Extent(done + [rest[0]]) <= |m|
            && (next < |m| <==> |rest| > 1)
            && (next < |m| ==> m[next] == Header(rest[1]) && next + 1 + rest[1].words <= |m|)
  {
    TilesSplit(m, done, rest, 0, |m|);
    Singleton(rest[0]);
    ExtentSplit(done, [rest[0]]);
    TilesEnd(m, rest[1..], Extent(done) + 1 + rest[0].words, |m|);
    if |rest| > 1 {
      TilesEnd(m, rest[1..][1..], Extent(done) + 2 + rest[0].words + rest[1].words, |m|);
    }
  }

  lemma {:induction false} JoinTiles(m: seq<Word>, n: seq<Word>, done: seq<Block>, rest: seq<Block>)
    requires Tiles(m, done + rest, 0, |m|)
    requires |rest| > 1 && !rest[0].used && !rest[1].used
    requires Extent(done) < |m| == |n| && n[Extent(done)] as int == 4 * (rest[0].words + 1 + rest[1].words)
    requires forall i :: 0 <= i < |m| && i != Extent(done) ==> m[i] == n[i]
    ensures Tiles(n, done + Joined(rest), 0, |n|)
    ensures Heap.SamePayload(Live(done + rest, 0), m, n)
  {
    var both, tail := rest[..2], rest[2..];
    var one := [Joined(rest)[0]];
    Singleton(one[0]);
    assert both[1..] == [rest[1]];
    Singleton(rest[1]);
    assert rest == both + tail;
    assert done + rest == done + both + tail;
    assert done + Joined(rest) == done + one + tail;
    TilesReplace(m, n, done, both, one, tail);
    assert (done + rest)[..|done|] == done;
    HeaderWrite(m, n, done + rest, |done|);
  }

  lemma {:induction false} JoinEffect(done: seq<Block>, rest: seq<Block>)
    requires |rest| > 1 && !rest[0].used && !rest[1].used
    ensures Merge(rest) == Merge(Joined(rest))
    ensures Live(done + Joined(rest), 0) == Live(done + rest, 0)
  {
    assert rest[1..][1..] == rest[2..] == Joined(rest)[1..];
    LiveSplit(done, rest, 0);
    LiveSplit(done, Joined(rest), 0);
  }

  /** Where kfree's traversal of the block list `start` in memory `m0` stands. */
  ghost predicate Merging(start: seq<Block>, m0: seq<Word>, m: seq<Word>, done: seq<Block>, rest: seq<Block>) {
    && Tiles(m, done + rest, 0, |m|)
    && Merge(start) == done + Merge(rest)
    && Live(done + rest, 0) == Live(start, 0)
    && Heap.SamePayload(Live(start, 0), m0, m)
  }

  lemma {:induction false} MergeStart(start: seq<Block>, m: seq<Word>)
    requires Tiles(m, start, 0, |m|)
    ensures Merging(start, m, m, [], start) && Extent([]) == 0
  {
    assert [] + start == start;
  }

  lemma {:induction false} JoinStep(start: seq<Block>, m0: seq<Word>, m: seq<Word>, n: seq<Word>, done: seq<Block>,
                     rest: seq<Block>)
    requires Merging(start, m0, m, done, rest)
    requires |rest| > 1 && !rest[0].used && !rest[1].used
    requires Extent(done) < |m| == |n| && n[Extent(done)] as int == 4 * (rest[0].words + 1 + rest[1].words)
    requires forall i :: 0 <= i < |m| && i != Extent(done) ==> m[i] == n[i]
    ensures Merging(start, m0, n, done, Joined(rest))
  {
    JoinTiles(m, n, done, rest);
    JoinEffect(done, rest);
  }

  lemma {:induction false} SkipStep(start: seq<Block>, m0: seq<Word>, m: seq<Word>, done: seq<Block>, rest: seq<Block>)
    requires Merging(start, m0, m, done, rest)
    requires |rest| > 1 && (rest[0].used || rest[1].used)
    ensures Merging(start, m0, m, done + [rest[0]], rest[1..])
  {
    assert [rest[0]] + rest[1..] == rest;
    assert done + [rest[0]] + rest[1..] == done + rest;
    assert done + [rest[0]] + Merge(rest[1..]) == done + Merge(rest);
  }

  lemma {:induction false} MergeDone(start: seq<Block>, m0: seq<Word>, m: seq<Word>, done: seq<Block>, rest: seq<Block>)
    requires Merging(start, m0, m, done, rest)
    requires rest != [] ==> Extent(done) + 1 + rest[0].words >= |m|
    requires Extent(done) >= |m| || rest != []
    ensures Tiles(m, Merge(start), 0, |m|) && Heap.SamePayload(Live(start, 0), m0, m)
  {
    TilesSplit(m, done, rest, 0, |m|);
    TilesEnd(m, rest, Extent(done), |m|);
    assert Merge(rest) == rest;
  }

  lemma {:induction false} NothingLive(words: nat)
    ensures Live([Block(words, false)], 0) == map[] && Extent([Block(words, false)]) == 1 + words
  {
    assert [Block(words, false)][1..] == [];
  }

  lemma {:induction false} SamePayloadChain(more: map<nat, nat>, fewer: map<nat, nat>, gone: nat, m: seq<Word>,
                     n: seq<Word>, o: seq<Word>)
    requires fewer == more - {gone}
    requires Heap.SamePayload(more, m, n) && Heap.SamePayload(fewer, n, o)
    ensures Heap.SamePayload(fewer, m, o)
  {
    forall p: nat, i: nat | Covers(fewer, p, i) && i < |m| ensures m[i] == o[i] {
      assert Covers(more, p, i);
    }
  }

  // ---------------------------------------------------------------- runs

  /** One call: kmalloc with what it returned and how many words that is (0 and 0 for NULL), or kfree. */
  datatype Call = Malloc(size: Word, ptr: nat, words: nat) | Free(ptr: nat)

  /** kmalloc gives this answer, or the client frees only what it holds. */
  ghost predicate Allowed(bs: seq<Block>, c: Call) {
    match c
    case Malloc(size, ptr, words) =>
      var w, k := AlignedWords(size), FirstFit(bs, AlignedWords(size));
      if k == |bs| then ptr == 0 && words == 0 else ptr == Extent(bs[..k]) + 1 && words == Granted(bs[k], w)
    case Free(ptr) => ptr == 0 || ptr in Live(bs, 0)
  }

  /** The block list a call leaves behind; kmalloc and kfree establish it. */
  ghost function After(bs: seq<Block>, c: Call): seq<Block>
    requires Allowed(bs, c)
  {
    match c
    case Malloc(size, ptr, _) =>
      if ptr == 0 then bs else Place(bs, FirstFit(bs, AlignedWords(size)), AlignedWords(size))
    case Free(ptr) =>
      if ptr == 0 then bs
      else
        var k := Owner(bs, 0, ptr);
        Merge(bs[k := bs[k].(used := false)])
  }

  /** What the clients hold after a call, by what they were told alone: pointers, with their granted words. */
  function Noted(held: map<nat, nat>, c: Call): map<nat, nat> {
    match c
    case Malloc(_, ptr, words) => if ptr == 0 then held else held[ptr := words]
    case Free(ptr) => held - {ptr}
  }

  function Ledger(held: map<nat, nat>, calls: seq<Call>): map<nat, nat>
    decreases |calls|
  {
    if calls == [] then held else Ledger(Noted(held, calls[0]), calls[1..])
  }

  /** Every pointer granted was nobody's, and came with the words asked for. */
  predicate Proper(held: map<nat, nat>, calls: seq<Call>)
    decreases |calls|
  {
    calls == [] || (
      && (calls[0].Malloc? && calls[0].ptr != 0 ==>
            calls[0].ptr !in held && calls[0].words >= AlignedWords(calls[0].size))
      && Proper(Noted(held, calls[0]), calls[1..]))
  }

  ghost predicate Runs(bs: seq<Block>, calls: seq<Call>, end: seq<Block>)
    decreases calls
  {
    if calls == [] then bs == end
    else Allowed(bs, calls[0]) && Runs(After(bs, calls[0]), calls[1..], end)
  }

  lemma {:induction false} StepKeeps(bs: seq<Block>, c: Call)
    requires bs != [] && Settled(bs) && Allowed(bs, c)
    ensures After(bs, c) != [] && Settled(After(bs, c)) && Extent(After(bs, c)) == Extent(bs)
    ensures Live(After(bs, c), 0) == Noted(Live(bs, 0), c)
    ensures c.Malloc? && c.ptr != 0 ==> c.ptr !in Live(bs, 0) && c.words >= AlignedWords(c.size)
  {
    match c
    case Malloc(size, ptr, words) =>
      var w := AlignedWords(size);
      var k := FirstFit(bs, w);
      if k < |bs| {
        PlaceEffect(bs, k, w, 0);
        PlaceSettled(bs, k, w);
      }
    case Free(ptr) =>
      if ptr != 0 {
        var k := Owner(bs, 0, ptr);
        FreeEffect(bs, k, 0);
        MergeEffect(bs[k := bs[k].(used := false)], 0);
      } else {
        LiveBounds(bs, 0);
      }
  }

  /** Over every run the heap keeps its total size and stays settled; what is live is what was returned and not freed
      since, with the words granted, and nothing is granted twice; and once all of it is freed, the heap is the single
      free block kheap_init started from. */
  lemma {:induction false} RunKeeps(bs: seq<Block>, calls: seq<Call>, end: seq<Block>)
    requires bs != [] && Settled(bs) && Runs(bs, calls, end)
    ensures Settled(end) && Extent(end) == Extent(bs)
    ensures Live(end, 0) == Ledger(Live(bs, 0), calls) && Proper(Live(bs, 0), calls)
    ensures Ledger(Live(bs, 0), calls) == map[] ==> end == [Block(Extent(bs) - 1, false)]
    decreases |calls|
  {
    if calls == [] {
      if Live(end, 0) == map[] { NothingLiveIsInitial(end, 0); }
    } else {
      StepKeeps(bs, calls[0]);
      RunKeeps(After(bs, calls[0]), calls[1..], end);
    }
  }

  /** ALIGN4 yields the fewest words covering the request, except that the last three sizes wrap to zero. */
  lemma {:induction false} AlignedCovers(size: Word)
    ensures 4 * AlignedWords(size) >= size <==> size <= 0xFFFF_FFFC
    ensures size <= 0xFFFF_FFFC ==> 4 * AlignedWords(size) < size + 4
  {
    var q, r := (size + 3) / 4, (size + 3) % 4;
    assert size + 3 == 4 * q + r;
  }

  // ---------------------------------------------------------------- the allocator

  class Heap {
    const mem: array<Word>
    ghost var blocks: seq<Block>

    ghost predicate Valid()
      reads this, mem
    {
      && mem.Length <= 0x4000_0000
      && blocks != [] && Tiles(mem[..], blocks, 0, mem.Length) && Settled(blocks)
    }

    ghost function LiveMap(): map<nat, nat>
      reads this
    {
      Live(blocks, 0)
    }

    /** Every live payload word keeps its value between the two memories. */
    static ghost predicate SamePayload(live: map<nat, nat>, m: seq<Word>, n: seq<Word>) {
      |m| == |n| &&
      forall p: nat, i: nat {:trigger Covers(live, p, i)} :: Covers(live, p, i) && i < |m| ==> m[i] == n[i]
    }

    /** kheap_init: one free block over the whole region. */
    constructor (region: array<Word>)
      requires 1 <= region.Length <= 0x4000_0000
      modifies region
      ensures Valid() && mem == region
      ensures blocks == [Block(region.Length - 1, false)] && LiveMap() == map[]
    {
      mem := region;
      blocks := [Block(region.Length - 1, false)];
      new;
      mem[0] := 4 * (mem.Length - 1);
      NothingLive(mem.Length - 1);
    }

    /** The body of kmalloc's `if`: split off the rest of block `k` when it can stand alone, mark it used. */
    method Claim(current: nat, w: nat, ghost k: nat)
      requires Valid() && k < |blocks| && current == Extent(blocks[..k])
      requires current < mem.Length && mem[current] == Header(blocks[k])
      requires current + 1 + blocks[k].words <= mem.Length
      requires !blocks[k].used && blocks[k].words >= w
      modifies this, mem
      ensures Valid() && blocks == Place(old(blocks), k, w)
      ensures current + 1 !in old(LiveMap())
      ensures LiveMap() == old(LiveMap())[current + 1 := Granted(old(blocks)[k], w)]
      ensures SamePayload(old(LiveMap()), old(mem[..]), mem[..])
    {
      ghost var m := mem[..];
      HeaderBits(mem[current], blocks[k]);
      var blockSize := GetSize(mem[current]);
      if blockSize >= 4 * w + 4 + 4 {
        var next := current + 1 + w;
        mem[next] := blockSize - 4 * w - 4;
        mem[current] := 4 * w;
      }
      mem[current] := mem[current] + 1;
      PlaceTiles(m, mem[..], blocks, k, w);
      PlaceEffect(blocks, k, w, 0);
      PlaceSettled(blocks, k, w);
      blocks := Place(blocks, k, w);
    }

    method Kmalloc(size: Word) returns (ptr: nat)
      requires Valid()
      modifies this, mem
      ensures Valid()
      ensures var w, k := AlignedWords(size), FirstFit(old(blocks), AlignedWords(size));
              if k == |old(blocks)| then
                ptr == 0 && blocks == old(blocks) && mem[..] == old(mem[..])
              else
                && ptr == Extent(old(blocks)[..k]) + 1
                && blocks == Place(old(blocks), k, w)
                && ptr !in old(LiveMap())
                && LiveMap() == old(LiveMap())[ptr := Granted(old(blocks)[k], w)]
      ensures var c := Malloc(size, ptr, if ptr == 0 then 0 else LiveMap()[ptr]);
              Allowed(old(blocks), c) && blocks == After(old(blocks), c)
      ensures SamePayload(old(LiveMap()), old(mem[..]), mem[..])
    {
      var w := AlignedWords(size);
      var current := 0;
      ghost var k := 0;
      ghost var m := mem[..];
      assert blocks[0..] == blocks;
      while current < mem.Length
        invariant k <= |blocks| && current == Extent(blocks[..k])
        invariant Tiles(m, blocks[k..], current, mem.Length)
        invariant forall j :: 0 <= j < k ==> blocks[j].used || blocks[j].words < w
        invariant blocks == old(blocks) && mem[..] == m
        decreases |blocks| - k
      {
        WalkStep(m, blocks, k, current, mem.Length);
        HeaderBits(mem[current], blocks[k]);
        var blockSize := GetSize(mem[current]);
        if !IsUsed(mem[current]) && blockSize >= 4 * w {
          FirstFitIs(blocks, w, k);
          Claim(current, w, k);
          return current + 1;
        }
        current := current + 1 + blockSize / 4;
        k := k + 1;
      }
      FirstFitIs(blocks, w, k);
      return 0;
    }
  
    method Kfree(ptr: nat)
      requires Valid() && (ptr == 0 || ptr in LiveMap())
      modifies this, mem
      ensures Valid()
      ensures LiveMap() == old(LiveMap()) - {ptr}
      ensures SamePayload(LiveMap(), old(mem[..]), mem[..])
      ensures blocks == After(old(blocks), Free(ptr))
    {
      if ptr == 0 {
        LiveBounds(blocks, 0);
        return;
      }
      ghost var k := Owner(blocks, 0, ptr);
      ghost var target := blocks[k := blocks[k].(used := false)];
      ghost var live, m := LiveMap(), mem[..];
      FreeTiles(m, blocks, k);
      FreeEffect(blocks, k, 0);
      MergeEffect(target, 0);
      HeaderBits(mem[ptr - 1], blocks[k]);
      mem[ptr - 1] := GetSize(mem[ptr - 1]);
      ghost var n := mem[..];
      Coalesce(target);
      SamePayloadChain(live, LiveMap(), ptr, m, n, mem[..]);
    }

    /** kfree's traversal: every free block absorbs the free blocks that follow it. */
    method Coalesce(ghost start: seq<Block>)
      requires mem.Length <= 0x4000_0000 && start != [] && Tiles(mem[..], start, 0, mem.Length)
      modifies this, mem
      ensures blocks == Merge(start) && Tiles(mem[..], blocks, 0, mem.Length)
      ensures SamePayload(Live(start, 0), old(mem[..]), mem[..])
    {
      var current := 0;
      ghost var done, rest: seq<Block> := [], start;
      ghost var m0 := mem[..];
      ghost var m := m0;
      MergeStart(start, m);
      while current < mem.Length
        invariant m == mem[..] && current == Extent(done)
        invariant Merging(start, m0, m, done, rest)
        decreases |rest|
      {
        HeadOfRest(start, m0, m, done, rest);
        HeaderBits(m[current], rest[0]);
        var next := current + 1 + GetSize(mem[current]) / 4;
        if next >= mem.Length { break; }
        HeaderBits(m[next], rest[1]);
        if !IsUsed(mem[current]) && !IsUsed(mem[next]) {
          mem[current] := GetSize(mem[current]) + 4 + GetSize(mem[next]);
          JoinStep(start, m0, m, mem[..], done, rest);
          m, rest := mem[..], Joined(rest);
        } else {
          SkipStep(start, m0, m, done, rest);
          done, rest := done + [rest[0]], rest[1..];
          current := next;
        }
      }
      MergeDone(start, m0, m, done, rest);
      blocks := Merge(start);
    }
  }
}
