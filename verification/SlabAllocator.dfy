/** Slab caches on top of the kernel heap (kernel/slab_allocator.c).

A slab is one heap block: five header words (next slab, first free node, object size in bytes, number of
objects, number of free objects) and then the nodes, each a link word followed by the object.
*/
module SlabAllocator {
  import opened KernelHeap
  import opened Words

  /** The ghost view of one slab: where it is, its shape, and its free list as node numbers. */
  datatype Slab = Slab(at: nat, ow: nat, total: nat, free: seq<nat>)

  /** Words taken by `n` nodes of `ow` object words each. */
  function Nodes(ow: nat, n: nat): nat {
    if n == 0 then 0 else Nodes(ow, n - 1) + 1 + ow
  }

  function NodeAt(s: Slab, j: nat): nat {
    s.at + 5 + Nodes(s.ow, j)
  }

  function SlabWords(s: Slab): nat {
    5 + Nodes(s.ow, s.total)
  }

  /** Address of the `i`-th node of the free list, or 0 behind its end. */
  function FreeAddr(s: Slab, i: nat): nat {
    if i < |s.free| then NodeAt(s, s.free[i]) else 0
  }

  /** Address of the `k`-th slab of a cache, or 0 behind its end. */
  function SlabAddr(slabs: seq<Slab>, k: nat): nat {
    if k < |slabs| then slabs[k].at else 0
  }

  ghost predicate Distinct(s: seq<nat>) {
    forall i, j :: 0 <= i < j < |s| ==> s[i] != s[j]
  }

  /** The header words of one slab. */
  ghost predicate ShapeOk(m: seq<Word>, s: Slab) {
    && 1 <= s.total && 1 <= s.ow && s.at + SlabWords(s) <= |m|
    && m[s.at + 1] as int == FreeAddr(s, 0)
    && m[s.at + 2] as int == 4 * s.ow && m[s.at + 3] as int == s.total && m[s.at + 4] as int == |s.free|
  }

  /** The `i`-th free node lies in the slab and links to the next one. */
  ghost predicate LinkOk(m: seq<Word>, s: Slab, i: nat)
    requires i < |s.free|
  {
    s.free[i] < s.total && NodeAt(s, s.free[i]) < |m| && m[NodeAt(s, s.free[i])] as int == FreeAddr(s, i + 1)
  }

  /** Header and free list of one slab are what its words say; the list is acyclic and inside the slab. */
  ghost predicate SlabOk(m: seq<Word>, s: Slab) {
    ShapeOk(m, s) && Distinct(s.free) && forall i :: 0 <= i < |s.free| ==> LinkOk(m, s, i)
  }

  /** The `k`-th slab of the list links to the one behind it. */
  ghost predicate NextOk(m: seq<Word>, slabs: seq<Slab>, k: nat)
    requires k < |slabs| && slabs[k].at < |m|
  {
    m[slabs[k].at] as int == SlabAddr(slabs, k + 1)
  }

  ghost predicate ListOk(m: seq<Word>, slabs: seq<Slab>, head: nat) {
    && head == SlabAddr(slabs, 0)
    && (forall k :: 0 <= k < |slabs| ==> SlabOk(m, slabs[k]))
    && (forall k :: 0 <= k < |slabs| ==> NextOk(m, slabs, k))
  }

  ghost predicate Elsewhere(slabs: seq<Slab>, j: nat, k: nat)
    requires j < |slabs| && k < |slabs|
  {
    slabs[j].at != slabs[k].at
  }

  /** Every slab owns a heap block of its own that is large enough. */
  ghost predicate Placed(live: map<nat, nat>, slabs: seq<Slab>) {
    && (forall k :: 0 <= k < |slabs| ==> slabs[k].at in live && SlabWords(slabs[k]) <= live[slabs[k].at])
    && (forall j, k {:trigger Elsewhere(slabs, j, k)} :: 0 <= j < k < |slabs| ==> Elsewhere(slabs, j, k))
  }

  /** Node `j` of slab `s` is handed out, and its object is the `w` words from `p`. */
  ghost predicate HoldsAt(s: Slab, j: nat, p: nat, w: nat) {
    j < s.total && j !in s.free && p == NodeAt(s, j) + 1 && w == s.ow
  }

  /** The cache has handed out the object of `w` words at `p`. */
  ghost predicate Holds(slabs: seq<Slab>, p: nat, w: nat) {
    exists k, j :: 0 <= k < |slabs| && HoldsAt(slabs[k], j, p, w)
  }

  /** Word `i` belongs to that object. */
  ghost predicate InObject(slabs: seq<Slab>, p: nat, w: nat, i: nat) {
    Holds(slabs, p, w) && p <= i < p + w
  }

  /** Objects handed out keep their contents. */
  ghost predicate SameObjects(slabs: seq<Slab>, m: seq<Word>, n: seq<Word>) {
    |m| == |n| &&
    forall p: nat, w: nat, i: nat {:trigger InObject(slabs, p, w, i)} ::
      InObject(slabs, p, w, i) && i < |m| ==> m[i] == n[i]
  }

  // ---------------------------------------------------------------- where nodes lie

  lemma {:induction false} NodesMonotone(ow: nat, i: nat, j: nat)
    requires i < j
    ensures Nodes(ow, i) + 1 + ow <= Nodes(ow, j)
    decreases j
  {
    if i < j - 1 {
      NodesMonotone(ow, i, j - 1);
    }
  }

  lemma {:induction false} NodesProduct(ow: nat, n: nat)
    ensures Nodes(ow, n) == (1 + ow) * n
  {
    if n > 0 {
      NodesProduct(ow, n - 1);
    }
  }

  /** Two different nodes do not overlap, and every node is inside its slab behind the header. */
  lemma {:induction false} NodesApart(s: Slab, i: nat, j: nat)
    requires i < s.total && j < s.total && i != j
    ensures NodeAt(s, i) + 1 + s.ow <= NodeAt(s, j) || NodeAt(s, j) + 1 + s.ow <= NodeAt(s, i)
  {
    if i < j { NodesMonotone(s.ow, i, j); } else { NodesMonotone(s.ow, j, i); }
  }

  lemma {:induction false} NodeInside(s: Slab, j: nat)
    requires j < s.total
    ensures s.at + 5 <= NodeAt(s, j) && NodeAt(s, j) + 1 + s.ow <= s.at + SlabWords(s)
  {
    NodesMonotone(s.ow, j, s.total);
  }

  // ---------------------------------------------------------------- framing

  /** A slab only depends on the words of its own region. */
  lemma {:induction false} SlabSame(m: seq<Word>, n: seq<Word>, s: Slab)
    requires SlabOk(m, s) && |m| == |n|
    requires forall i :: s.at <= i < s.at + SlabWords(s) ==> m[i] == n[i]
    ensures SlabOk(n, s)
  {
    forall i | 0 <= i < |s.free| ensures LinkOk(n, s, i) {
      assert LinkOk(m, s, i);
      NodeInside(s, s.free[i]);
    }
  }

  lemma {:induction false} SlabsApart(bs: seq<Block>, slabs: seq<Slab>, j: nat, k: nat)
    requires Placed(Live(bs, 0), slabs) && j < |slabs| && k < |slabs| && j != k
    ensures slabs[j].at + SlabWords(slabs[j]) < slabs[k].at || slabs[k].at + SlabWords(slabs[k]) < slabs[j].at
  {
    var p, q := slabs[j].at, slabs[k].at;
    assert if j < k then Elsewhere(slabs, j, k) else Elsewhere(slabs, k, j);
    if p < q { LiveApart(bs, 0, p, q); } else { LiveApart(bs, 0, q, p); }
  }

  /** A slab other than `k` does not see writes confined to slab `k`. */
  lemma {:induction false} OtherSlabSame(bs: seq<Block>, m: seq<Word>, n: seq<Word>, slabs: seq<Slab>, j: nat, k: nat)
    requires Placed(Live(bs, 0), slabs) && j < |slabs| && k < |slabs| && j != k
    requires SlabOk(m, slabs[j]) && |m| == |n|
    requires forall i :: 0 <= i < |m| && !(slabs[k].at < i < slabs[k].at + SlabWords(slabs[k])) ==> m[i] == n[i]
    ensures SlabOk(n, slabs[j]) && n[slabs[j].at] == m[slabs[j].at]
  {
    SlabsApart(bs, slabs, j, k);
    SlabSame(m, n, slabs[j]);
  }

  /** Replacing slab `k` by `t`, with writes confined to its region, keeps the list. */
  lemma {:induction false} ListUpdate(bs: seq<Block>, m: seq<Word>, n: seq<Word>, slabs: seq<Slab>, head: nat,
                     k: nat, t: Slab)
    requires ListOk(m, slabs, head) && Placed(Live(bs, 0), slabs) && |m| == |n|
    requires k < |slabs| && t.at == slabs[k].at && t.ow == slabs[k].ow && t.total == slabs[k].total
    requires forall i :: 0 <= i < |m| && !(t.at < i < t.at + SlabWords(t)) ==> m[i] == n[i]
    requires SlabOk(n, t)
    ensures ListOk(n, slabs[k := t], head)
  {
    var r := slabs[k := t];
    forall j | 0 <= j < |r| ensures SlabOk(n, r[j]) && n[r[j].at] == m[slabs[j].at] {
      if j != k {
        OtherSlabSame(bs, m, n, slabs, j, k);
      }
    }
    forall j | 0 <= j < |r| ensures NextOk(n, r, j) {
      assert NextOk(m, slabs, j);
    }
  }

  lemma {:induction false} PlacedUpdate(live: map<nat, nat>, slabs: seq<Slab>, k: nat, t: Slab)
    requires Placed(live, slabs)
    requires k < |slabs| && t.at == slabs[k].at && t.ow == slabs[k].ow && t.total == slabs[k].total
    ensures Placed(live, slabs[k := t])
  {
    var r := slabs[k := t];
    assert forall j :: 0 <= j < |r| ==> r[j].at == slabs[j].at && SlabWords(r[j]) == SlabWords(slabs[j]);
    forall i, j | 0 <= i < j < |r| ensures Elsewhere(r, i, j) {
      assert Elsewhere(slabs, i, j);
    }
  }

  // ---------------------------------------------------------------- taking and returning a node

  function Popped(s: Slab): Slab
    requires s.free != []
  {
    s.(free := s.free[1..])
  }

  function Pushed(s: Slab, j: nat): Slab {
    s.(free := [j] + s.free)
  }

  /** slab_get's two writes take the first free node off its slab. */
  lemma {:induction false} PopSlab(m: seq<Word>, n: seq<Word>, s: Slab)
    requires SlabOk(m, s) && s.free != [] && |n| == |m|
    requires NodeAt(s, s.free[0]) < |m|
    requires n[s.at + 1] == m[NodeAt(s, s.free[0])] && n[s.at + 4] as int == m[s.at + 4] as int - 1
    requires forall i :: 0 <= i < |m| && i != s.at + 1 && i != s.at + 4 ==> m[i] == n[i]
    ensures SlabOk(n, Popped(s))
  {
    var t := Popped(s);
    assert LinkOk(m, s, 0);
    forall i | 0 <= i < |t.free| ensures LinkOk(n, t, i) {
      assert LinkOk(m, s, i + 1);
      NodeInside(s, s.free[i + 1]);
    }
  }

  /** slab_free's three writes put a node back at the front of its slab's free list. */
  lemma {:induction false} PushSlab(m: seq<Word>, n: seq<Word>, s: Slab, j: nat)
    requires SlabOk(m, s) && j < s.total && j !in s.free && |n| == |m|
    requires NodeAt(s, j) < |m| && n[NodeAt(s, j)] == m[s.at + 1]
    requires n[s.at + 1] as int == NodeAt(s, j) && n[s.at + 4] as int == m[s.at + 4] as int + 1
    requires forall i :: 0 <= i < |m| && i != s.at + 1 && i != s.at + 4 && i != NodeAt(s, j) ==> m[i] == n[i]
    ensures SlabOk(n, Pushed(s, j))
  {
    var t := Pushed(s, j);
    NodeInside(s, j);
    forall i | 0 <= i < |t.free| ensures LinkOk(n, t, i) {
      if i > 0 {
        PushLink(m, n, s, j, i - 1);
      }
    }
  }

  lemma {:induction false} PushLink(m: seq<Word>, n: seq<Word>, s: Slab, j: nat, i: nat)
    requires i < |s.free| && LinkOk(m, s, i) && j < s.total && s.free[i] != j && |n| == |m|
    requires forall x :: 0 <= x < |m| && x != s.at + 1 && x != s.at + 4 && x != NodeAt(s, j) ==> m[x] == n[x]
    ensures LinkOk(n, Pushed(s, j), i + 1)
  {
    NodeInside(s, s.free[i]);
    NodesApart(s, s.free[i], j);
  }

  /** Exactly one object changes hands when slab `k`'s free list gains or loses node `j`. */
  lemma {:induction false} HoldsUpdate(slabs: seq<Slab>, k: nat, t: Slab, j: nat)
    requires k < |slabs| && t.at == slabs[k].at && t.ow == slabs[k].ow && t.total == slabs[k].total
    requires j < t.total && (forall i :: i < t.total && i != j ==> (i in t.free <==> i in slabs[k].free))
    ensures forall p, w :: !(p == NodeAt(t, j) + 1 && w == t.ow) ==>
              (Holds(slabs[k := t], p, w) <==> Holds(slabs, p, w))
    ensures j !in t.free ==> Holds(slabs[k := t], NodeAt(t, j) + 1, t.ow)
  {
    var r := slabs[k := t];
    forall p, w | !(p == NodeAt(t, j) + 1 && w == t.ow)
      ensures Holds(r, p, w) <==> Holds(slabs, p, w)
    {
      forall q, i | 0 <= q < |r| ensures HoldsAt(r[q], i, p, w) <==> HoldsAt(slabs[q], i, p, w) {
      }
      if Holds(r, p, w) {
        var q, i :| 0 <= q < |r| && HoldsAt(r[q], i, p, w);
        assert HoldsAt(slabs[q], i, p, w);
      }
      if Holds(slabs, p, w) {
        var q, i :| 0 <= q < |r| && HoldsAt(slabs[q], i, p, w);
        assert HoldsAt(r[q], i, p, w);
      }
    }
    if j !in t.free {
      assert HoldsAt(r[k], j, NodeAt(t, j) + 1, t.ow);
    }
  }

  /** Two objects handed out are the same one or do not touch; no object touches a slab header. */
  lemma {:induction false} ObjectsApart(bs: seq<Block>, slabs: seq<Slab>, k: nat, j: nat, k': nat, j': nat)
    requires Placed(Live(bs, 0), slabs)
    requires k < |slabs| && j < slabs[k].total && k' < |slabs| && j' < slabs[k'].total && (k != k' || j != j')
    ensures var p, q := NodeAt(slabs[k], j) + 1, NodeAt(slabs[k'], j') + 1;
            p + slabs[k].ow < q || q + slabs[k'].ow < p
  {
    NodeInside(slabs[k], j);
    NodeInside(slabs[k'], j');
    if k == k' {
      NodesApart(slabs[k], j, j');
    } else {
      SlabsApart(bs, slabs, k, k');
    }
  }

  /** No word of an object is a slab header word or a link word. */
  lemma {:induction false} ObjectClear(bs: seq<Block>, slabs: seq<Slab>, p: nat, w: nat, i: nat, k: nat, j: nat)
    requires Placed(Live(bs, 0), slabs) && Holds(slabs, p, w) && p <= i < p + w
    requires k < |slabs| && j < slabs[k].total
    ensures !(slabs[k].at <= i < slabs[k].at + 5) && i != NodeAt(slabs[k], j)
  {
    var k', j' :| 0 <= k' < |slabs| && HoldsAt(slabs[k'], j', p, w);
    NodeInside(slabs[k'], j');
    NodeInside(slabs[k], j);
    if k == k' {
      if j != j' { NodesApart(slabs[k], j, j'); }
    } else {
      SlabsApart(bs, slabs, k, k');
    }
  }

  /** Writes to header words and to the link of node `j` of slab `k` leave all objects alone. */
  lemma {:induction false} LinkWrites(bs: seq<Block>, m: seq<Word>, n: seq<Word>, slabs: seq<Slab>, k: nat, j: nat)
    requires Placed(Live(bs, 0), slabs) && |m| == |n|
    requires k < |slabs| && j < slabs[k].total
    requires forall i ::
               0 <= i < |m| && !(slabs[k].at <= i < slabs[k].at + 5) && i != NodeAt(slabs[k], j) ==> m[i] == n[i]
    ensures SameObjects(slabs, m, n)
  {
    forall p: nat, w: nat, i: nat | InObject(slabs, p, w, i) && i < |m| ensures m[i] == n[i] {
      ObjectClear(bs, slabs, p, w, i, k, j);
    }
  }

  /** Writes inside one slab keep the heap's headers and everybody else's payload. */
  lemma {:induction false} HeapKeeps(m: seq<Word>, n: seq<Word>, bs: seq<Block>, s: Slab)
    requires Tiles(m, bs, 0, |m|) && |m| == |n|
    requires s.at in Live(bs, 0) && SlabWords(s) <= Live(bs, 0)[s.at]
    requires forall i :: 0 <= i < |m| && !(s.at <= i < s.at + SlabWords(s)) ==> m[i] == n[i]
    ensures Tiles(n, bs, 0, |n|)
    ensures Heap.SamePayload(Live(bs, 0) - {s.at}, m, n)
  {
    forall i: nat | i < |m| && m[i] != n[i] ensures InLive(bs, 0, i) {
      assert Covers(Live(bs, 0), s.at, i);
    }
    TilesEnd(m, bs, 0, |m|);
    TilesFrame(m, n, bs, 0, |m|);
    var others := Live(bs, 0) - {s.at};
    forall p: nat, i: nat | Covers(others, p, i) && i < |m| ensures m[i] == n[i] {
      if p < s.at { LiveApart(bs, 0, p, s.at); } else { LiveApart(bs, 0, s.at, p); }
    }
  }

  lemma {:induction false} FewerPayload(more: map<nat, nat>, fewer: map<nat, nat>, m: seq<Word>, n: seq<Word>)
    requires forall p :: p in fewer ==> p in more && more[p] == fewer[p]
    requires Heap.SamePayload(more, m, n)
    ensures Heap.SamePayload(fewer, m, n)
  {
    forall p: nat, i: nat | Covers(fewer, p, i) && i < |m| ensures m[i] == n[i] {
      assert Covers(more, p, i);
    }
  }

  /** A node's address identifies it, so an object is held at most once. */
  lemma {:induction false} HeldOnce(bs: seq<Block>, slabs: seq<Slab>, k: nat, j: nat, w: nat)
    requires Placed(Live(bs, 0), slabs) && k < |slabs| && j < slabs[k].total
    ensures Holds(slabs, NodeAt(slabs[k], j) + 1, w) <==> j !in slabs[k].free && w == slabs[k].ow
  {
    var p := NodeAt(slabs[k], j) + 1;
    if Holds(slabs, p, w) {
      var k', j' :| 0 <= k' < |slabs| && HoldsAt(slabs[k'], j', p, w);
      if k' != k || j' != j {
        ObjectsApart(bs, slabs, k, j, k', j');
      }
    }
    if j !in slabs[k].free && w == slabs[k].ow {
      assert HoldsAt(slabs[k], j, p, w);
    }
  }

  /** Heap headers, slab headers and free lists are all intact in memory `m`. */
  ghost predicate Intact(m: seq<Word>, bs: seq<Block>, slabs: seq<Slab>, head: nat) {
    Tiles(m, bs, 0, |m|) && ListOk(m, slabs, head) && Placed(Live(bs, 0), slabs)
  }

  ghost function Addresses(slabs: seq<Slab>): set<nat> {
    set s | s in slabs :: s.at
  }

  /** The heap blocks that are not slabs of this cache. */
  ghost function Foreign(bs: seq<Block>, slabs: seq<Slab>): map<nat, nat> {
    Live(bs, 0) - Addresses(slabs)
  }

  /** Changing slab `k` to `t` by writes to its header and to the link of node `j` keeps everything intact. */
  lemma {:induction false} SlabWrite(m: seq<Word>, n: seq<Word>, bs: seq<Block>, slabs: seq<Slab>, head: nat, k: nat,
                     j: nat, t: Slab)
    requires Intact(m, bs, slabs, head) && |m| == |n|
    requires k < |slabs| && t.at == slabs[k].at && t.ow == slabs[k].ow && t.total == slabs[k].total
    requires j < t.total && SlabOk(n, t)
    requires forall i :: 0 <= i < |m| && !(t.at < i < t.at + 5) && i != NodeAt(t, j) ==> m[i] == n[i]
    ensures Intact(n, bs, slabs[k := t], head)
    ensures Heap.SamePayload(Foreign(bs, slabs), m, n)
    ensures SameObjects(slabs, m, n)
  {
    NodeInside(t, j);
    ListUpdate(bs, m, n, slabs, head, k, t);
    PlacedUpdate(Live(bs, 0), slabs, k, t);
    HeapKeeps(m, n, bs, t);
    FewerPayload(Live(bs, 0) - {t.at}, Foreign(bs, slabs), m, n);
    LinkWrites(bs, m, n, slabs, k, j);
  }

  /** slab_get's writes on slab `k`, as one step on memory. */
  ghost function TakeWords(m: seq<Word>, s: Slab): seq<Word>
    requires SlabOk(m, s) && s.free != []
  {
    assert LinkOk(m, s, 0);
    m[s.at + 1 := m[NodeAt(s, s.free[0])]][s.at + 4 := m[s.at + 4] - 1]
  }

  lemma {:induction false} TakeKeeps(m: seq<Word>, bs: seq<Block>, slabs: seq<Slab>, head: nat, k: nat)
    requires Intact(m, bs, slabs, head) && k < |slabs| && slabs[k].free != []
    ensures var s, n := slabs[k], TakeWords(m, slabs[k]);
            && LinkOk(m, s, 0) && s.at + 5 <= NodeAt(s, s.free[0])
            && Intact(n, bs, slabs[k := Popped(s)], head)
            && Heap.SamePayload(Foreign(bs, slabs), m, n)
            && SameObjects(slabs, m, n)
  {
    var s, n := slabs[k], TakeWords(m, slabs[k]);
    assert LinkOk(m, s, 0);
    NodeInside(s, s.free[0]);
    PopSlab(m, n, s);
    SlabWrite(m, n, bs, slabs, head, k, s.free[0], Popped(s));
  }

  /** slab_free's writes that put node `j` back, as one step on memory. */
  ghost function GiveWords(m: seq<Word>, s: Slab, j: nat): seq<Word>
    requires SlabOk(m, s) && j < s.total && |s.free| < s.total && |m| <= 0x4000_0000
  {
    NodeInside(s, j);
    TotalBound(s.ow, s.total);
    m[NodeAt(s, j) := m[s.at + 1]][s.at + 1 := NodeAt(s, j)][s.at + 4 := |s.free| + 1]
  }

  lemma {:induction false} TotalBound(ow: nat, n: nat)
    ensures n <= Nodes(ow, n)
  {
    if n > 0 { TotalBound(ow, n - 1); }
  }

  lemma {:induction false} GiveKeeps(m: seq<Word>, bs: seq<Block>, slabs: seq<Slab>, head: nat, k: nat, j: nat)
    requires Intact(m, bs, slabs, head) && |m| <= 0x4000_0000
    requires k < |slabs| && j < slabs[k].total && j !in slabs[k].free && |slabs[k].free| < slabs[k].total
    ensures var s := slabs[k];
            var n := GiveWords(m, s, j);
            && s.at + 5 <= NodeAt(s, j) < |m|
            && Intact(n, bs, slabs[k := Pushed(s, j)], head)
            && Heap.SamePayload(Foreign(bs, slabs), m, n)
            && SameObjects(slabs, m, n)
  {
    var s := slabs[k];
    var n := GiveWords(m, s, j);
    NodeInside(s, j);
    PushSlab(m, n, s, j);
    SlabWrite(m, n, bs, slabs, head, k, j, Pushed(s, j));
  }

  /** A list with distinct entries below `n` that misses one number below `n` is shorter than `n`. */
  lemma {:induction false} DistinctShort(free: seq<nat>, n: nat, j: nat)
    requires Distinct(free) && (forall i :: 0 <= i < |free| ==> free[i] < n) && j < n && j !in free
    ensures |free| < n
  {
    DistinctBelow([j] + free, n);
  }

  lemma {:induction false} DistinctBelow(free: seq<nat>, n: nat)
    requires Distinct(free) && forall i :: 0 <= i < |free| ==> free[i] < n
    ensures |free| <= n
  {
    if |free| > 0 {
      assert free[0] < n;
      if i :| 0 <= i < |free| && free[i] == n - 1 {
        var rest := free[..i] + free[i + 1..];
        forall x | 0 <= x < |rest| ensures rest[x] < n - 1 {
          assert rest[x] == free[if x < i then x else x + 1];
        }
        DistinctBelow(rest, n - 1);
      } else {
        DistinctBelow(free, n - 1);
      }
    }
  }

  // ---------------------------------------------------------------- counting and dropping empty slabs

  predicate Full(s: Slab) {
    |s.free| == s.total
  }

  /** Fully free slabs among the first `n`. */
  function FullCount(slabs: seq<Slab>, n: nat): nat
    requires n <= |slabs|
  {
    if n == 0 then 0 else FullCount(slabs, n - 1) + if Full(slabs[n - 1]) then 1 else 0
  }

  /** Position of the last fully free slab among the first `n`, or -1. */
  function LastFull(slabs: seq<Slab>, n: nat): (t: int)
    requires n <= |slabs|
    ensures -1 <= t < n && (t >= 0 ==> Full(slabs[t]))
    ensures forall i :: t < i < n ==> !Full(slabs[i])
    ensures FullCount(slabs, n) >= 1 ==> t >= 0
    ensures FullCount(slabs, n) >= 2 ==> t >= 1
  {
    if n == 0 then -1
    else if Full(slabs[n - 1]) then
      (assert FullCount(slabs, n) >= 2 ==> LastFull(slabs, n - 1) >= 0; n - 1)
    else LastFull(slabs, n - 1)
  }

  function Without(slabs: seq<Slab>, t: nat): seq<Slab>
    requires t < |slabs|
  {
    slabs[..t] + slabs[t + 1..]
  }

  /** The slab list after node `j` of slab `k` has come back. */
  function AfterFree(slabs: seq<Slab>, k: nat, j: nat): seq<Slab>
    requires k < |slabs|
  {
    var r := slabs[k := Pushed(slabs[k], j)];
    if FullCount(r, |r|) >= 2 then Without(r, LastFull(r, |r|)) else r
  }

  /** Unlinking slab `t` from the list. */
  lemma {:induction false} UnlinkKeeps(m: seq<Word>, n: seq<Word>, bs: seq<Block>, slabs: seq<Slab>, head: nat, t: nat)
    requires Intact(m, bs, slabs, head) && 1 <= t < |slabs|
    requires SlabOk(m, slabs[t]) && SlabOk(m, slabs[t - 1])
    requires n == m[slabs[t - 1].at := m[slabs[t].at]]
    ensures Tiles(n, bs, 0, |n|) && ListOk(n, Without(slabs, t), head)
    ensures Heap.SamePayload(Foreign(bs, slabs), m, n)
    ensures SameObjects(slabs, m, n)
  {
    UnlinkList(m, n, bs, slabs, head, t);
    var p := slabs[t - 1];
    HeapKeeps(m, n, bs, p);
    FewerPayload(Live(bs, 0) - {p.at}, Foreign(bs, slabs), m, n);
    LinkWrites(bs, m, n, slabs, t - 1, 0);
  }

  lemma {:induction false} UnlinkList(m: seq<Word>, n: seq<Word>, bs: seq<Block>, slabs: seq<Slab>, head: nat, t: nat)
    requires Intact(m, bs, slabs, head) && 1 <= t < |slabs|
    requires SlabOk(m, slabs[t]) && SlabOk(m, slabs[t - 1])
    requires n == m[slabs[t - 1].at := m[slabs[t].at]]
    ensures ListOk(n, Without(slabs, t), head)
  {
    var r := Without(slabs, t);
    forall j | 0 <= j < |r| ensures SlabOk(n, r[j]) && NextOk(n, r, j) {
      UnlinkAt(m, n, bs, slabs, head, t, j);
    }
  }

  lemma {:induction false} UnlinkAt(m: seq<Word>, n: seq<Word>, bs: seq<Block>, slabs: seq<Slab>, head: nat, t: nat,
                     j: nat)
    requires Intact(m, bs, slabs, head) && 1 <= t < |slabs| && j < |slabs| - 1
    requires SlabOk(m, slabs[t]) && SlabOk(m, slabs[t - 1])
    requires n == m[slabs[t - 1].at := m[slabs[t].at]]
    ensures SlabOk(n, Without(slabs, t)[j]) && NextOk(n, Without(slabs, t), j)
  {
    var r := Without(slabs, t);
    var i := if j < t then j else j + 1;
    assert r[j] == slabs[i] && (j + 1 < |r| ==> r[j + 1] == slabs[if j + 1 < t then j + 1 else j + 2]);
    assert SlabOk(m, slabs[i]) && NextOk(m, slabs, i) && NextOk(m, slabs, t);
    if i != t - 1 { SlabsApart(bs, slabs, i, t - 1); }
    UnlinkSame(m, n, slabs[i], slabs[t - 1].at);
  }

  lemma {:induction false} UnlinkSame(m: seq<Word>, n: seq<Word>, s: Slab, at: nat)
    requires SlabOk(m, s) && at < |m| == |n| && (at <= s.at || s.at + SlabWords(s) <= at)
    requires forall i :: 0 <= i < |m| && i != at ==> m[i] == n[i]
    ensures SlabOk(n, s)
  {
    forall i | 0 <= i < |s.free| ensures LinkOk(n, s, i) {
      assert LinkOk(m, s, i);
      NodeInside(s, s.free[i]);
    }
  }

  /** Slabs only see their own blocks: any step that keeps those payloads keeps the list. */
  lemma {:induction false} ListSame(m: seq<Word>, n: seq<Word>, live: map<nat, nat>, slabs: seq<Slab>, head: nat)
    requires ListOk(m, slabs, head) && Placed(live, slabs) && Heap.SamePayload(live, m, n)
    ensures ListOk(n, slabs, head)
    ensures forall k :: 0 <= k < |slabs| ==> n[slabs[k].at] == m[slabs[k].at]
  {
    forall k | 0 <= k < |slabs| ensures SlabOk(n, slabs[k]) && n[slabs[k].at] == m[slabs[k].at] {
      var s := slabs[k];
      forall i | s.at <= i < s.at + SlabWords(s) ensures m[i] == n[i] {
        assert Covers(live, s.at, i);
      }
      SlabSame(m, n, s);
    }
    forall k | 0 <= k < |slabs| ensures NextOk(n, slabs, k) {
      assert NextOk(m, slabs, k);
    }
  }

  lemma {:induction false} BlockInside(m: seq<Word>, bs: seq<Block>, p: nat)
    requires Tiles(m, bs, 0, |m|) && p in Live(bs, 0)
    ensures p + Live(bs, 0)[p] <= |m|
  {
    TilesEnd(m, bs, 0, |m|);
    LiveBounds(bs, 0);
  }

  // ---------------------------------------------------------------- building a slab

  /** slab_alloc_new's initial free list: all nodes, in address order. */
  function Iota(n: nat): (free: seq<nat>)
    requires n >= 1
    ensures |free| == n && forall i :: 0 <= i < n ==> free[i] == i
  {
    seq(n, i => i)
  }

  /** Node `i` of the slab at `at` links to node `i` + 1. */
  ghost predicate Threaded(m: seq<Word>, s: Slab, i: nat) {
    NodeAt(s, i) < |m| && m[NodeAt(s, i)] as int == NodeAt(s, i + 1)
  }

  lemma {:induction false} BuiltSlab(m: seq<Word>, s: Slab)
    requires 1 <= s.total && s.free == Iota(s.total) && 1 <= s.ow && s.at + SlabWords(s) <= |m|
    requires m[s.at + 1] as int == NodeAt(s, 0) && m[s.at + 2] as int == 4 * s.ow
    requires m[s.at + 3] as int == s.total && m[s.at + 4] as int == s.total
    requires forall i :: 0 <= i < s.total - 1 ==> Threaded(m, s, i)
    requires NodeAt(s, s.total - 1) < |m| && m[NodeAt(s, s.total - 1)] == 0
    ensures SlabOk(m, s)
  {
    forall i | 0 <= i < |s.free| ensures LinkOk(m, s, i) {
      if i < s.total - 1 { assert Threaded(m, s, i); }
    }
  }

  /** The words kmalloc is asked for are the words the slab takes. */
  lemma {:induction false} SlabRequest(ow: nat, n: nat, size: Word)
    requires size as int == 20 + (4 + 4 * ow) * n && size < 0xFFFF_FFFD
    ensures AlignedWords(size) == 5 + Nodes(ow, n)
  {
    NodesProduct(ow, n);
    assert (4 + 4 * ow) * n == 4 * ((1 + ow) * n);
    Quarter(5 + Nodes(ow, n), 3);
  }

  lemma {:induction false} Quarter(q: nat, r: nat)
    requires r < 4
    ensures (4 * q + r) / 4 == q
  {
  }

  lemma {:induction false} SamePayloadTwice(live: map<nat, nat>, m: seq<Word>, n: seq<Word>, o: seq<Word>)
    requires Heap.SamePayload(live, m, n) && Heap.SamePayload(live, n, o)
    ensures Heap.SamePayload(live, m, o)
  {
  }

  /** A formatted new block becomes the first slab; whatever was live before is untouched. */
  lemma {:induction false} AddSlab(m0: seq<Word>, bs0: seq<Block>, m1: seq<Word>, bs1: seq<Block>, n: seq<Word>,
                                   slabs: seq<Slab>, head: nat, s: Slab, got: nat)
    requires Intact(m0, bs0, slabs, head) && Heap.SamePayload(Live(bs0, 0), m0, m1)
    requires Tiles(m1, bs1, 0, |m1|) && |n| == |m1|
    requires s.at !in Live(bs0, 0) && Live(bs1, 0) == Live(bs0, 0)[s.at := got] && SlabWords(s) <= got
    requires forall i :: 0 <= i < |n| && !(s.at <= i < s.at + SlabWords(s)) ==> m1[i] == n[i]
    requires SlabOk(n, s) && n[s.at] == head
    ensures Intact(n, bs1, [s] + slabs, s.at)
    ensures Heap.SamePayload(Live(bs0, 0), m0, n)
    ensures Foreign(bs1, [s] + slabs) == Foreign(bs0, slabs)
  {
    HeapKeeps(m1, n, bs1, s);
    assert Live(bs1, 0) - {s.at} == Live(bs0, 0);
    SamePayloadTwice(Live(bs0, 0), m0, m1, n);
    ListSame(m0, n, Live(bs0, 0), slabs, head);
    AddToList(n, slabs, head, s);
    AddPlaced(Live(bs0, 0), slabs, s, got);
    ForeignAdd(bs0, bs1, slabs, s, got);
  }

  lemma {:induction false} AddToList(n: seq<Word>, slabs: seq<Slab>, head: nat, s: Slab)
    requires ListOk(n, slabs, head) && SlabOk(n, s) && n[s.at] == head
    ensures ListOk(n, [s] + slabs, s.at)
  {
    var r := [s] + slabs;
    forall k | 0 <= k < |r| ensures SlabOk(n, r[k]) && NextOk(n, r, k) {
      if k > 0 {
        assert r[k] == slabs[k - 1] && NextOk(n, slabs, k - 1);
      }
    }
  }

  lemma {:induction false} AddPlaced(live: map<nat, nat>, slabs: seq<Slab>, s: Slab, got: nat)
    requires Placed(live, slabs) && s.at !in live && SlabWords(s) <= got
    ensures Placed(live[s.at := got], [s] + slabs)
  {
    var r := [s] + slabs;
    forall k | 0 <= k < |r| ensures r[k].at in live[s.at := got] && SlabWords(r[k]) <= live[s.at := got][r[k].at] {
      if k > 0 { assert r[k] == slabs[k - 1]; }
    }
    forall j, k | 0 <= j < k < |r| ensures Elsewhere(r, j, k) {
      assert r[k] == slabs[k - 1];
      if j > 0 { assert Elsewhere(slabs, j - 1, k - 1); }
    }
  }

  lemma {:induction false} ForeignAdd(bs0: seq<Block>, bs1: seq<Block>, slabs: seq<Slab>, s: Slab, got: nat)
    requires s.at !in Live(bs0, 0) && Live(bs1, 0) == Live(bs0, 0)[s.at := got]
    ensures Foreign(bs1, [s] + slabs) == Foreign(bs0, slabs)
  {
    assert Addresses([s] + slabs) == Addresses(slabs) + {s.at} by {
      assert forall x :: x in [s] + slabs <==> x == s || x in slabs;
    }
  }

  // ---------------------------------------------------------------- what the cache's clients see

  /** The first slab with a free object, or |slabs|. */
  function FirstFree(slabs: seq<Slab>): (k: nat)
    ensures k <= |slabs| && (k < |slabs| ==> slabs[k].free != [])
    ensures forall j :: 0 <= j < k ==> slabs[j].free == []
  {
    if slabs == [] || slabs[0].free != [] then 0
    else
      var k := FirstFree(slabs[1..]);
      assert forall j :: 0 < j < k + 1 ==> slabs[j] == slabs[1..][j - 1];
      k + 1
  }

  /** The free list names distinct nodes of its own slab. */
  ghost predicate FreeInside(s: Slab) {
    Distinct(s.free) && forall i :: 0 <= i < |s.free| ==> s.free[i] < s.total
  }

  lemma {:induction false} OkFreeInside(m: seq<Word>, s: Slab)
    requires SlabOk(m, s)
    ensures FreeInside(s)
  {
    forall i | 0 <= i < |s.free| ensures s.free[i] < s.total {
      assert LinkOk(m, s, i);
    }
  }

  lemma {:induction false} FirstFreeIs(slabs: seq<Slab>, k: nat)
    requires k <= |slabs| && (k < |slabs| ==> slabs[k].free != [])
    requires forall j :: 0 <= j < k ==> slabs[j].free == []
    ensures FirstFree(slabs) == k
  {
  }

  /** After slab_free exactly the returned object is no longer handed out, whether or not a slab was dropped. */
  lemma {:induction false} AfterFreeHolds(bs: seq<Block>, slabs: seq<Slab>, k: nat, j: nat)
    requires Placed(Live(bs, 0), slabs) && k < |slabs| && j < slabs[k].total && j !in slabs[k].free
    requires forall i :: 0 <= i < |slabs| ==> FreeInside(slabs[i])
    ensures var obj, w := NodeAt(slabs[k], j) + 1, slabs[k].ow;
            forall p, v :: Holds(AfterFree(slabs, k, j), p, v) <==> Holds(slabs, p, v) && !(p == obj && v == w)
  {
    var obj, w := NodeAt(slabs[k], j) + 1, slabs[k].ow;
    var r := slabs[k := Pushed(slabs[k], j)];
    HoldsUpdate(slabs, k, Pushed(slabs[k], j), j);
    PlacedUpdate(Live(bs, 0), slabs, k, Pushed(slabs[k], j));
    HeldOnce(bs, r, k, j, w);
    if FullCount(r, |r|) >= 2 {
      var t := LastFull(r, |r|);
      forall i | 0 <= i < r[t].total ensures i in r[t].free {
        if i !in r[t].free {
          assert FreeInside(Pushed(slabs[k], j)) && FreeInside(r[t]);
          DistinctShort(r[t].free, r[t].total, i);
        }
      }
      HoldsWithout(r, t);
    }
  }

  lemma {:induction false} HoldsWithout(r: seq<Slab>, t: nat)
    requires t < |r| && forall i :: 0 <= i < r[t].total ==> i in r[t].free
    ensures forall p, v :: Holds(Without(r, t), p, v) <==> Holds(r, p, v)
  {
    var u := Without(r, t);
    forall p, v ensures Holds(u, p, v) <==> Holds(r, p, v) {
      if Holds(u, p, v) {
        var q, i :| 0 <= q < |u| && HoldsAt(u[q], i, p, v);
        assert HoldsAt(r[if q < t then q else q + 1], i, p, v);
      }
      if Holds(r, p, v) {
        var q, i :| 0 <= q < |r| && HoldsAt(r[q], i, p, v);
        assert HoldsAt(u[if q < t then q else q - 1], i, p, v);
      }
    }
  }

  lemma {:induction false} FullCountSame(a: seq<Slab>, b: seq<Slab>, n: nat)
    requires n <= |a| && n <= |b| && forall i :: 0 <= i < n ==> Full(a[i]) == Full(b[i])
    ensures FullCount(a, n) == FullCount(b, n)
  {
    if n > 0 { FullCountSame(a, b, n - 1); }
  }

  lemma {:induction false} FullCountUpdate(slabs: seq<Slab>, k: nat, t: Slab, n: nat)
    requires k < |slabs| && n <= |slabs|
    ensures var r := slabs[k := t];
            FullCount(r, n) == FullCount(slabs, n) +
              if k >= n || Full(t) == Full(slabs[k]) then 0 else if Full(t) then 1 else -1
  {
    if n > 0 { FullCountUpdate(slabs, k, t, n - 1); }
  }

  lemma {:induction false} FullCountWithout(slabs: seq<Slab>, t: nat, n: nat)
    requires t < n <= |slabs|
    ensures FullCount(Without(slabs, t), n - 1) == FullCount(slabs, n) - if Full(slabs[t]) then 1 else 0
  {
    var r := Without(slabs, t);
    if n - 1 == t {
      FullCountSame(r, slabs, t);
    } else {
      FullCountWithout(slabs, t, n - 1);
      assert r[n - 2] == slabs[n - 1];
    }
  }

  /** slab_free never leaves more than one slab completely free, if there was at most one before. */
  lemma {:induction false} AtMostOneFullSlab(slabs: seq<Slab>, k: nat, j: nat)
    requires k < |slabs| && FullCount(slabs, |slabs|) <= 1
    ensures var r := AfterFree(slabs, k, j); FullCount(r, |r|) <= 1
  {
    var r := slabs[k := Pushed(slabs[k], j)];
    FullCountUpdate(slabs, k, Pushed(slabs[k], j), |slabs|);
    if FullCount(r, |r|) >= 2 {
      FullCountWithout(r, LastFull(r, |r|), |r|);
    }
  }

  /** What slab_get does to the slab list, and the object it hands out (0 for NULL). */
  ghost predicate GetSpec(before: seq<Slab>, bs: seq<Block>, after: seq<Slab>, obj: nat) {
    var k := FirstFree(before);
    if k < |before| then
      after == before[k := Popped(before[k])] && obj == NodeAt(before[k], before[k].free[0]) + 1
    else if before == [] then
      after == before && obj == 0
    else
      GrowSpec(before, bs, after, obj)
  }

  lemma {:induction false} GetNone(slabs: seq<Slab>, bs: seq<Block>)
    requires slabs == []
    ensures GetSpec(slabs, bs, slabs, 0)
  {
  }

  lemma {:induction false} GetFrom(slabs: seq<Slab>, bs: seq<Block>, k: nat)
    requires k == FirstFree(slabs) < |slabs|
    ensures GetSpec(slabs, bs, slabs[k := Popped(slabs[k])], NodeAt(slabs[k], slabs[k].free[0]) + 1)
  {
  }

  lemma {:induction false} GetGrown(before: seq<Slab>, bs: seq<Block>, after: seq<Slab>, obj: nat)
    requires FirstFree(before) == |before| && before != [] && GrowSpec(before, bs, after, obj)
    ensures GetSpec(before, bs, after, obj)
  {
  }

  /** slab_get with every slab exhausted: the object comes from a new slab, or the heap has no room for one. */
  ghost predicate GrowSpec(before: seq<Slab>, bs: seq<Block>, after: seq<Slab>, obj: nat)
    requires before != []
  {
    var s := before[0];
    if s.total == 0 || FirstFit(bs, SlabWords(s)) == |bs| then
      after == before && obj == 0
    else
      var at := Extent(bs[..FirstFit(bs, SlabWords(s))]) + 1;
      after == [Slab(at, s.ow, s.total, Iota(s.total)[1..])] + before && obj == at + 6
  }

  /** Objects lie in live payload, so a step that keeps live payload keeps them. */
  lemma {:induction false} ObjectsLive(m: seq<Word>, n: seq<Word>, bs: seq<Block>, slabs: seq<Slab>)
    requires Placed(Live(bs, 0), slabs) && Heap.SamePayload(Live(bs, 0), m, n)
    ensures SameObjects(slabs, m, n)
  {
    forall p: nat, w: nat, i: nat | InObject(slabs, p, w, i) && i < |m| ensures m[i] == n[i] {
      var k, j :| 0 <= k < |slabs| && HoldsAt(slabs[k], j, p, w);
      NodeInside(slabs[k], j);
      assert Covers(Live(bs, 0), slabs[k].at, i);
    }
  }

  /** A slab put in front adds objects and takes none away. */
  lemma {:induction false} HoldsGrow(s: Slab, slabs: seq<Slab>)
    ensures forall p, w :: Holds(slabs, p, w) ==> Holds([s] + slabs, p, w)
  {
    forall p, w | Holds(slabs, p, w) ensures Holds([s] + slabs, p, w) {
      var k, j :| 0 <= k < |slabs| && HoldsAt(slabs[k], j, p, w);
      assert HoldsAt(([s] + slabs)[k + 1], j, p, w);
    }
  }

  lemma {:induction false} ObjectsTwice(few: seq<Slab>, more: seq<Slab>, m: seq<Word>, n: seq<Word>, o: seq<Word>)
    requires forall p, w :: Holds(few, p, w) ==> Holds(more, p, w)
    requires SameObjects(few, m, n) && SameObjects(more, n, o)
    ensures SameObjects(few, m, o)
  {
    forall p: nat, w: nat, i: nat | InObject(few, p, w, i) && i < |m| ensures m[i] == o[i] {
      assert InObject(more, p, w, i);
    }
  }

  lemma {:induction false} ForeignUpdate(bs: seq<Block>, slabs: seq<Slab>, k: nat, t: Slab)
    requires k < |slabs| && t.at == slabs[k].at
    ensures Foreign(bs, slabs[k := t]) == Foreign(bs, slabs)
  {
    var r, a, b := slabs[k := t], slabs[..k], slabs[k + 1..];
    assert slabs == a + [slabs[k]] + b && r == a + [t] + b;
    assert forall x :: x in slabs <==> x == slabs[k] || x in a || x in b;
    assert forall x :: x in r <==> x == t || x in a || x in b;
    assert Addresses(r) == Addresses(slabs);
  }

  /** An existing slab's size, computed in bytes, does not wrap. */
  lemma {:induction false} SlabFits(m: seq<Word>, bs: seq<Block>, slabs: seq<Slab>, k: nat)
    requires |m| <= 0x4000_0000 && k < |slabs| && SlabOk(m, slabs[k]) && Placed(Live(bs, 0), slabs)
    ensures var s := slabs[k]; 20 + (4 + 4 * s.ow) * s.total < 0xFFFF_FFFD
  {
    var s := slabs[k];
    LiveBounds(bs, 0);
    assert s.at in Live(bs, 0);
    NodesProduct(s.ow, s.total);
    assert (4 + 4 * s.ow) * s.total == 4 * ((1 + s.ow) * s.total);
  }

  /** slab_free's address test accepts exactly the slab the object belongs to. */
  lemma {:induction false} RangeTest(m: seq<Word>, bs: seq<Block>, slabs: seq<Slab>, head: nat, k: nat, j: nat, i: nat)
    requires Intact(m, bs, slabs, head) && k < |slabs| && j < slabs[k].total && i < |slabs|
    ensures var obj, start := NodeAt(slabs[k], j) + 1, slabs[i].at + 5;
            start <= obj < start + (1 + slabs[i].ow) * slabs[i].total <==> i == k
  {
    NodesProduct(slabs[i].ow, slabs[i].total);
    NodeInside(slabs[k], j);
    assert SlabOk(m, slabs[k]);
    if i != k { SlabsApart(bs, slabs, i, k); }
  }

  lemma {:induction false} NotInRange(slabs: seq<Slab>, i: nat, p: nat)
    requires Outside(slabs, p) && i < |slabs|
    ensures var start := slabs[i].at + 5; !(start <= p < start + (1 + slabs[i].ow) * slabs[i].total)
  {
    NodesProduct(slabs[i].ow, slabs[i].total);
  }

  lemma {:induction false} SameSelf(live: map<nat, nat>, slabs: seq<Slab>, m: seq<Word>)
    ensures Heap.SamePayload(live, m, m) && SameObjects(slabs, m, m)
  {
  }

  /** No slab sits at address 0, so the end of the list is recognised. */
  lemma {:induction false} EndOfList(bs: seq<Block>, slabs: seq<Slab>, k: nat)
    requires Placed(Live(bs, 0), slabs) && k <= |slabs|
    ensures SlabAddr(slabs, k) == 0 <==> k == |slabs|
  {
    LiveBounds(bs, 0);
    if k < |slabs| { assert slabs[k].at in Live(bs, 0); }
  }

  lemma {:induction false} GrowKeeps(m0: seq<Word>, m1: seq<Word>, m2: seq<Word>, bs: seq<Block>, slabs: seq<Slab>,
                     more: seq<Slab>)
    requires Placed(Live(bs, 0), slabs) && Heap.SamePayload(Live(bs, 0), m0, m1)
    requires more != [] && more == [more[0]] + slabs
    requires Heap.SamePayload(Foreign(bs, slabs), m1, m2) && SameObjects(more, m1, m2)
    ensures Heap.SamePayload(Foreign(bs, slabs), m0, m2) && SameObjects(slabs, m0, m2)
  {
    ObjectsLive(m0, m1, bs, slabs);
    FewerPayload(Live(bs, 0), Foreign(bs, slabs), m0, m1);
    SamePayloadTwice(Foreign(bs, slabs), m0, m1, m2);
    HoldsGrow(more[0], slabs);
    ObjectsTwice(slabs, more, m0, m1, m2);
  }

  lemma {:induction false} WithoutPlaced(bs: seq<Block>, bs': seq<Block>, slabs: seq<Slab>, t: nat)
    requires Placed(Live(bs, 0), slabs) && t < |slabs| && Live(bs', 0) == Live(bs, 0) - {slabs[t].at}
    ensures Placed(Live(bs', 0), Without(slabs, t))
    ensures Foreign(bs', Without(slabs, t)) == Foreign(bs, slabs)
  {
    var r, x := Without(slabs, t), slabs[t];
    forall k | 0 <= k < |r| ensures r[k].at in Live(bs', 0) && SlabWords(r[k]) <= Live(bs', 0)[r[k].at] {
      var k' := if k < t then k else k + 1;
      assert r[k] == slabs[k'] && if k' < t then Elsewhere(slabs, k', t) else Elsewhere(slabs, t, k');
    }
    forall j, k | 0 <= j < k < |r| ensures Elsewhere(r, j, k) {
      var j', k' := if j < t then j else j + 1, if k < t then k else k + 1;
      assert r[j] == slabs[j'] && r[k] == slabs[k'] && Elsewhere(slabs, j', k');
    }
    assert slabs == slabs[..t] + [x] + slabs[t + 1..];
    assert forall s :: s in slabs <==> s == x || s in r;
    assert Addresses(slabs) == Addresses(r) + {x.at};
  }

  /** A slab whose objects are all free has none handed out. */
  lemma {:induction false} FullHoldsNone(m: seq<Word>, s: Slab)
    requires SlabOk(m, s) && Full(s)
    ensures forall i :: 0 <= i < s.total ==> i in s.free
  {
    OkFreeInside(m, s);
    forall i | 0 <= i < s.total ensures i in s.free {
      if i !in s.free { DistinctShort(s.free, s.total, i); }
    }
  }

  lemma {:induction false} DropKeeps(m: seq<Word>, n: seq<Word>, o: seq<Word>, bs: seq<Block>, bs': seq<Block>,
                                     slabs: seq<Slab>, head: nat, t: nat)
    requires Intact(m, bs, slabs, head) && 1 <= t < |slabs| && Full(slabs[t])
    requires ListOk(n, Without(slabs, t), head)
    requires Heap.SamePayload(Foreign(bs, slabs), m, n) && SameObjects(slabs, m, n)
    requires Live(bs', 0) == Live(bs, 0) - {slabs[t].at} && Heap.SamePayload(Live(bs', 0), n, o)
    ensures ListOk(o, Without(slabs, t), head) && Placed(Live(bs', 0), Without(slabs, t))
    ensures Foreign(bs', Without(slabs, t)) == Foreign(bs, slabs)
    ensures Heap.SamePayload(Foreign(bs, slabs), m, o)
    ensures SameObjects(slabs, m, o)
  {
    var r := Without(slabs, t);
    WithoutPlaced(bs, bs', slabs, t);
    ListSame(n, o, Live(bs', 0), r, head);
    FewerPayload(Live(bs', 0), Foreign(bs, slabs), n, o);
    SamePayloadTwice(Foreign(bs, slabs), m, n, o);
    DropObjects(m, n, o, bs', slabs, t);
  }

  lemma {:induction false} DropObjects(m: seq<Word>, n: seq<Word>, o: seq<Word>, bs': seq<Block>, slabs: seq<Slab>,
                     t: nat)
    requires t < |slabs| && SlabOk(m, slabs[t]) && Full(slabs[t])
    requires SameObjects(slabs, m, n)
    requires Placed(Live(bs', 0), Without(slabs, t)) && Heap.SamePayload(Live(bs', 0), n, o)
    ensures SameObjects(slabs, m, o)
  {
    ObjectsLive(n, o, bs', Without(slabs, t));
    FullHoldsNone(m, slabs[t]);
    HoldsWithout(slabs, t);
    forall p: nat, w: nat, i: nat | InObject(slabs, p, w, i) && i < |m| ensures m[i] == o[i] {
      assert InObject(Without(slabs, t), p, w, i);
    }
  }

  lemma {:induction false} FreeKeeps(m0: seq<Word>, m1: seq<Word>, m2: seq<Word>, bs: seq<Block>,
                                     slabs0: seq<Slab>, slabs1: seq<Slab>, slabs2: seq<Slab>, k: nat, j: nat)
    requires Intact(m0, bs, slabs0, SlabAddr(slabs0, 0)) && k < |slabs0| && j < slabs0[k].total && j !in slabs0[k].free
    requires slabs1 == slabs0[k := Pushed(slabs0[k], j)] && slabs2 == AfterFree(slabs0, k, j)
    requires SameObjects(slabs0, m0, m1) && SameObjects(slabs1, m1, m2)
    requires Heap.SamePayload(Foreign(bs, slabs0), m0, m1) && Heap.SamePayload(Foreign(bs, slabs0), m1, m2)
    ensures Heap.SamePayload(Foreign(bs, slabs0), m0, m2)
    ensures SameObjects(slabs2, m0, m2)
  {
    SamePayloadTwice(Foreign(bs, slabs0), m0, m1, m2);
    forall i | 0 <= i < |slabs0| ensures FreeInside(slabs0[i]) { OkFreeInside(m0, slabs0[i]); }
    AfterFreeHolds(bs, slabs0, k, j);
    HoldsUpdate(slabs0, k, slabs1[k], j);
    forall p: nat, w: nat, i: nat | InObject(slabs2, p, w, i) && i < |m0| ensures m0[i] == m2[i] {
      assert InObject(slabs0, p, w, i) && InObject(slabs1, p, w, i);
    }
  }

  lemma {:induction false} WriteKeeps(m: seq<Word>, n: seq<Word>, bs: seq<Block>, slabs: seq<Slab>, head: nat,
                     obj: nat, w: nat, i: nat)
    requires Intact(m, bs, slabs, head) && Holds(slabs, obj, w) && i < w && |m| == |n|
    requires forall x :: 0 <= x < |m| && x != obj + i ==> m[x] == n[x]
    ensures Intact(n, bs, slabs, head)
    ensures Heap.SamePayload(Foreign(bs, slabs), m, n)
    ensures forall p: nat, u: nat, x: nat :: InObject(slabs, p, u, x) && p != obj && x < |m| ==> n[x] == m[x]
  {
    var k, j :| 0 <= k < |slabs| && HoldsAt(slabs[k], j, obj, w);
    var s := slabs[k];
    NodeInside(s, j);
    WriteSlab(m, n, s, j, i);
    ListUpdate(bs, m, n, slabs, head, k, s);
    assert slabs[k := s] == slabs;
    HeapKeeps(m, n, bs, s);
    FewerPayload(Live(bs, 0) - {s.at}, Foreign(bs, slabs), m, n);
    forall p: nat, u: nat, x: nat | InObject(slabs, p, u, x) && p != obj && x < |m| ensures n[x] == m[x] {
      var k', j' :| 0 <= k' < |slabs| && HoldsAt(slabs[k'], j', p, u);
      ObjectsApart(bs, slabs, k, j, k', j');
    }
  }

  lemma {:induction false} WriteSlab(m: seq<Word>, n: seq<Word>, s: Slab, j: nat, i: nat)
    requires SlabOk(m, s) && j < s.total && j !in s.free && i < s.ow && |m| == |n|
    requires forall x :: 0 <= x < |m| && x != NodeAt(s, j) + 1 + i ==> m[x] == n[x]
    ensures SlabOk(n, s)
  {
    NodeInside(s, j);
    forall x | 0 <= x < |s.free| ensures LinkOk(n, s, x) {
      assert LinkOk(m, s, x);
      NodesApart(s, s.free[x], j);
    }
  }

  /** What a walk along the slab list reads at the `i`-th slab. */
  lemma {:induction false} SlabAt(m: seq<Word>, bs: seq<Block>, slabs: seq<Slab>, head: nat, i: nat)
    requires Intact(m, bs, slabs, head) && i <= |slabs|
    ensures head == SlabAddr(slabs, 0)
    ensures SlabAddr(slabs, i) == 0 <==> i == |slabs|
    ensures i < |slabs| ==>
      var s := slabs[i];
      && SlabOk(m, s) && 0 < s.at && s.at + 5 < |m|
      && m[s.at] as int == SlabAddr(slabs, i + 1) && m[s.at + 2] as int == 4 * s.ow
      && m[s.at + 3] as int == s.total && m[s.at + 4] as int == |s.free| && 1 <= s.ow
  {
    EndOfList(bs, slabs, i);
    if i < |slabs| {
      assert SlabOk(m, slabs[i]) && NextOk(m, slabs, i);
      NodeInside(slabs[i], 0);
      assert slabs[i].at in Live(bs, 0);
      LiveBounds(bs, 0);
    }
  }

  // ---------------------------------------------------------------- what slab_get and slab_free promise

  /** Size of the object the next slab_get will hand out. */
  function ObjectWords(slabs: seq<Slab>): nat {
    var k := FirstFree(slabs);
    if k < |slabs| then slabs[k].ow else if slabs != [] then slabs[0].ow else 0
  }

  /** A successful slab_get hands out one object that nobody held, and takes none away. */
  lemma {:induction false} GetHandsOutOne(bs: seq<Block>, before: seq<Slab>, after: seq<Slab>, obj: nat)
    requires Placed(Live(bs, 0), before) && GetSpec(before, bs, after, obj) && obj != 0
    requires forall i :: 0 <= i < |before| ==> FreeInside(before[i]) && before[i].ow >= 1
    ensures forall u :: !Holds(before, obj, u)
    ensures forall p, u :: Holds(after, p, u) <==> Holds(before, p, u) || (p == obj && u == ObjectWords(before))
  {
    var k := FirstFree(before);
    if k < |before| {
      var s, t, j := before[k], Popped(before[k]), before[k].free[0];
      assert s.free[0] < s.total;
      assert s.free == [j] + t.free;
      assert forall x :: 0 <= x < |t.free| ==> t.free[x] == s.free[x + 1];
      HoldsUpdate(before, k, t, j);
      forall u ensures !Holds(before, obj, u) { HeldOnce(bs, before, k, j, u); }
      PlacedUpdate(Live(bs, 0), before, k, t);
      forall u ensures Holds(after, obj, u) <==> u == s.ow { HeldOnce(bs, after, k, j, u); }
      assert forall p, u :: Holds(after, p, u) <==> Holds(before, p, u) || (p == obj && u == s.ow);
    } else {
      GrowHandsOut(bs, before, after, obj);
    }
  }

  /** Every node of a slab is either on its free list or handed out: the counts add up to the capacity. */
  lemma {:induction false} HeldPlusFree(s: Slab)
    requires FreeInside(s) && s.total >= 1
    ensures |Elements(Iota(s.total)) - Elements(s.free)| + |s.free| == s.total
  {
    CountDistinct(Iota(s.total));
    CountDistinct(s.free);
    forall j | j in s.free ensures j in Iota(s.total) {
      assert Iota(s.total)[j] == j;
    }
    assert Elements(Iota(s.total)) == (Elements(Iota(s.total)) - Elements(s.free)) + Elements(s.free);
  }

  ghost function Elements(q: seq<nat>): set<nat> {
    set j | j in q
  }

  lemma {:induction false} CountDistinct(q: seq<nat>)
    requires Distinct(q)
    ensures |Elements(q)| == |q|
  {
    if q == [] {
      assert Elements(q) == {};
    } else {
      var rest := q[1..];
      assert q == [q[0]] + rest;
      CountDistinct(rest);
      assert q[0] !in rest;
      assert Elements(q) == Elements(rest) + {q[0]};
    }
  }

  /** An object's words are neither heap headers nor slab headers nor free-list links, and no other object's. */
  lemma {:induction false} ObjectIsolated(m: seq<Word>, bs: seq<Block>, slabs: seq<Slab>, head: nat, p: nat, w: nat,
                     i: nat)
    requires Intact(m, bs, slabs, head) && InObject(slabs, p, w, i)
    ensures forall b :: 0 <= b < |bs| ==> i != Extent(bs[..b])
    ensures forall k :: 0 <= k < |slabs| ==> !(slabs[k].at <= i < slabs[k].at + 5)
    ensures forall k, x :: 0 <= k < |slabs| && 0 <= x < |slabs[k].free| ==> i != NodeAt(slabs[k], slabs[k].free[x])
    ensures forall q: nat, v: nat :: q != p && Holds(slabs, q, v) ==> !(q <= i < q + v)
  {
    var k, j :| 0 <= k < |slabs| && HoldsAt(slabs[k], j, p, w);
    NodeInside(slabs[k], j);
    assert Covers(Live(bs, 0), slabs[k].at, i);
    forall b | 0 <= b < |bs| ensures i != Extent(bs[..b]) {
      if i == Extent(bs[..b]) { FreeBlockNotLive(bs, b, i); assert false; }
    }
    forall k' | 0 <= k' < |slabs| ensures !(slabs[k'].at <= i < slabs[k'].at + 5) {
      ObjectClear(bs, slabs, p, w, i, k', 0);
    }
    forall k', x | 0 <= k' < |slabs| && 0 <= x < |slabs[k'].free| ensures i != NodeAt(slabs[k'], slabs[k'].free[x]) {
      OkFreeInside(m, slabs[k']);
      ObjectClear(bs, slabs, p, w, i, k', slabs[k'].free[x]);
    }
    forall q: nat, v: nat | q != p && Holds(slabs, q, v) ensures !(q <= i < q + v) {
      var k', j' :| 0 <= k' < |slabs| && HoldsAt(slabs[k'], j', q, v);
      ObjectsApart(bs, slabs, k, j, k', j');
    }
  }

  /** slab_get never raises the number of completely free slabs above one. */
  lemma {:induction false} GetKeepsAtMostOne(bs: seq<Block>, before: seq<Slab>, after: seq<Slab>, obj: nat)
    requires GetSpec(before, bs, after, obj) && FullCount(before, |before|) <= 1
    requires forall i :: 0 <= i < |before| ==> FreeInside(before[i]) && before[i].total >= 1
    ensures FullCount(after, |after|) <= 1
  {
    var k := FirstFree(before);
    if k < |before| {
      DistinctBelow(before[k].free, before[k].total);
      FullCountUpdate(before, k, Popped(before[k]), |before|);
    } else if after != before {
      FullCountFront(after[0], before, |after|);
    }
  }

  lemma {:induction false} FullCountFront(s: Slab, slabs: seq<Slab>, n: nat)
    requires 1 <= n <= |slabs| + 1 && !Full(s)
    ensures FullCount([s] + slabs, n) == FullCount(slabs, n - 1)
  {
    if n > 1 {
      FullCountFront(s, slabs, n - 1);
      assert ([s] + slabs)[n - 1] == slabs[n - 2];
    } else {
      assert ([s] + slabs)[0] == s;
    }
  }

  lemma {:induction false} GrowHandsOut(bs: seq<Block>, before: seq<Slab>, after: seq<Slab>, obj: nat)
    requires before != [] && (forall i :: 0 <= i < |before| ==> before[i].ow >= 1)
    requires Placed(Live(bs, 0), before) && GrowSpec(before, bs, after, obj) && obj != 0
    ensures forall u :: !Holds(before, obj, u)
    ensures forall p, u :: Holds(after, p, u) <==> Holds(before, p, u) || (p == obj && u == before[0].ow)
  {
    var s := after[0];
    assert after == [s] + before;
    assert forall x :: 0 <= x < |s.free| ==> s.free[x] == x + 1;
    forall i | 1 <= i < s.total ensures i in s.free { assert s.free[i - 1] == i; }
    var f := FirstFit(bs, SlabWords(before[0]));
    NodesMonotone(s.ow, 0, s.total);
    FreeBlockNotLive(bs, f, obj);
    forall u ensures !Holds(before, obj, u) {
      if Holds(before, obj, u) { HeldInBlock(bs, before, obj, u); assert false; }
    }
    forall p, u ensures Holds(after, p, u) <==> Holds(before, p, u) || (p == obj && u == before[0].ow) {
      HoldsFront(s, before, p, u);
      assert HoldsAt(s, 0, obj, s.ow);
    }
  }

  lemma {:induction false} HoldsFront(s: Slab, slabs: seq<Slab>, p: nat, w: nat)
    ensures Holds([s] + slabs, p, w) <==> Holds(slabs, p, w) || exists j :: HoldsAt(s, j, p, w)
  {
    var r := [s] + slabs;
    if Holds(r, p, w) {
      var k, j :| 0 <= k < |r| && HoldsAt(r[k], j, p, w);
      assert k == 0 || r[k] == slabs[k - 1];
    }
    if Holds(slabs, p, w) { HoldsGrow(s, slabs); }
    if j :| HoldsAt(s, j, p, w) { assert HoldsAt(r[0], j, p, w); }
  }

  lemma {:induction false} HeldInBlock(bs: seq<Block>, slabs: seq<Slab>, p: nat, w: nat)
    requires Placed(Live(bs, 0), slabs) && Holds(slabs, p, w) && w >= 1
    ensures InLive(bs, 0, p)
  {
    var k, j :| 0 <= k < |slabs| && HoldsAt(slabs[k], j, p, w);
    NodeInside(slabs[k], j);
    assert Covers(Live(bs, 0), slabs[k].at, p);
  }

  // ---------------------------------------------------------------- every run of calls

  /** The address lies behind no slab's header. */
  ghost predicate Outside(slabs: seq<Slab>, p: nat) {
    forall k :: 0 <= k < |slabs| ==> !(slabs[k].at + 5 <= p < slabs[k].at + SlabWords(slabs[k]))
  }

  lemma {:induction false} OutsideNotHeld(slabs: seq<Slab>, p: nat)
    requires Outside(slabs, p) && forall i :: 0 <= i < |slabs| ==> slabs[i].ow >= 1
    ensures forall w :: !Holds(slabs, p, w)
  {
    forall w ensures !Holds(slabs, p, w) {
      if Holds(slabs, p, w) {
        var k, j :| 0 <= k < |slabs| && HoldsAt(slabs[k], j, p, w);
        NodeInside(slabs[k], j);
        assert false;
      }
    }
  }

  /** slab_get with the object it returned (0 for NULL), or slab_free of this address. */
  datatype Request = Got(obj: nat) | GaveBack(obj: nat)

  /** A call, and the heap as it then is: its other clients may have used it since the call before. */
  datatype Turn = Turn(call: Request, bs: seq<Block>)

  /** What the cache's words say of the slabs, in any state the cache is valid in. */
  ghost predicate Sane(slabs: seq<Slab>, bs: seq<Block>) {
    && Placed(Live(bs, 0), slabs)
    && forall i :: 0 <= i < |slabs| ==> FreeInside(slabs[i]) && slabs[i].total >= 1 && slabs[i].ow >= 1
  }

  lemma {:induction false} IntactSane(m: seq<Word>, bs: seq<Block>, slabs: seq<Slab>, head: nat)
    requires Intact(m, bs, slabs, head)
    ensures Sane(slabs, bs)
  {
    forall i | 0 <= i < |slabs| ensures FreeInside(slabs[i]) && slabs[i].total >= 1 && slabs[i].ow >= 1 {
      OkFreeInside(m, slabs[i]);
    }
  }

  ghost predicate FreeSpec(before: seq<Slab>, after: seq<Slab>, obj: nat) {
    || (Outside(before, obj) && after == before)
    || exists k, j :: 0 <= k < |before| && HoldsAt(before[k], j, obj, before[k].ow) && after == AfterFree(before, k, j)
  }

  ghost predicate Turns(before: seq<Slab>, t: Turn, after: seq<Slab>) {
    && Sane(before, t.bs)
    && (if t.call.Got? then GetSpec(before, t.bs, after, t.call.obj) else FreeSpec(before, after, t.call.obj))
  }

  /** The slab lists between the calls. */
  ghost predicate CacheRun(trail: seq<seq<Slab>>, turns: seq<Turn>)
    decreases |turns|
  {
    && |trail| == |turns| + 1
    && (turns != [] ==>
          && CacheRun(trail[..|turns|], turns[..|turns| - 1])
          && Turns(trail[|turns| - 1], turns[|turns| - 1], trail[|turns|]))
  }

  ghost function HeldAfter(held: set<nat>, call: Request): set<nat> {
    match call
    case Got(obj) => if obj == 0 then held else held + {obj}
    case GaveBack(obj) => held - {obj}
  }

  /** The objects got and not freed since. */
  ghost function Handed(turns: seq<Turn>): set<nat>
    decreases |turns|
  {
    if turns == [] then {} else HeldAfter(Handed(turns[..|turns| - 1]), turns[|turns| - 1].call)
  }

  /** What every run keeps: objects of one size, exactly the objects of `held` handed out, and at most one slab entirely
      free. */
  ghost predicate Tidy(slabs: seq<Slab>, ow: nat, held: set<nat>) {
    && slabs != [] && (forall i :: 0 <= i < |slabs| ==> slabs[i].ow == ow)
    && FullCount(slabs, |slabs|) <= 1
    && forall p, w :: Holds(slabs, p, w) <==> p in held && w == ow
  }

  /** An object given back to the first slab that then has one free is the next one handed out, and the slabs are then
      as they were before it was given back, unless one was dropped. */
  lemma {:induction false} GetUndoesFree(slabs: seq<Slab>, k: nat, j: nat, bs: seq<Block>, after: seq<Slab>, obj: nat)
    requires k < |slabs| && (forall i :: 0 <= i < k ==> slabs[i].free == [])
    requires |AfterFree(slabs, k, j)| == |slabs| && GetSpec(AfterFree(slabs, k, j), bs, after, obj)
    ensures after == slabs && obj == NodeAt(slabs[k], j) + 1
  {
    var r := slabs[k := Pushed(slabs[k], j)];
    FirstFreeIs(r, k);
    assert Popped(r[k]).free == slabs[k].free;
    assert r[k := slabs[k]] == slabs;
  }

  /** From one new slab on, every run of calls hands out only objects that nobody has, has exactly those handed out that
      were got and not freed, and never keeps more than one slab entirely free. */
  lemma {:induction false} CacheRunKeeps(trail: seq<seq<Slab>>, turns: seq<Turn>, at: nat, ow: nat, n: nat)
    requires ow >= 1 && n >= 1 && CacheRun(trail, turns) && trail[0] == [Slab(at, ow, n, Iota(n))]
    ensures Tidy(trail[|turns|], ow, Handed(turns))
    ensures turns != [] ==> var c := turns[|turns| - 1].call;
            c.Got? && c.obj != 0 ==> c.obj !in Handed(turns[..|turns| - 1])
    decreases |turns|
  {
    hide Tidy, Turns;
    if turns == [] {
      NewSlabTidy(at, ow, n);
    } else {
      var m := |turns| - 1;
      CacheRunKeeps(trail[..m + 1], turns[..m], at, ow, n);
      TurnTidy(trail[m], turns[m], trail[m + 1], ow, Handed(turns[..m]));
    }
  }

  lemma {:induction false} NewSlabTidy(at: nat, ow: nat, n: nat)
    requires n >= 1
    ensures Tidy([Slab(at, ow, n, Iota(n))], ow, {})
  {
    var s := Slab(at, ow, n, Iota(n));
    assert FullCount([s], 1) == FullCount([s], 0) + 1;
    forall j | 0 <= j < n ensures j in s.free { assert s.free[j] == j; }
  }

  lemma {:induction false} TurnTidy(before: seq<Slab>, t: Turn, after: seq<Slab>, ow: nat, held: set<nat>)
    requires Turns(before, t, after) && Tidy(before, ow, held)
    ensures Tidy(after, ow, HeldAfter(held, t.call))
    ensures t.call.Got? && t.call.obj != 0 ==> t.call.obj !in held
  {
    hide GetSpec, FreeSpec, Holds, FullCount, Placed, FreeInside;
    match t.call
    case Got(obj) => GetTidy(before, t.bs, after, obj, ow, held);
    case GaveBack(obj) => FreeTidy(before, t.bs, after, obj, ow, held);
  }

  lemma {:induction false} GetTidy(before: seq<Slab>, bs: seq<Block>, after: seq<Slab>, obj: nat, ow: nat,
                     held: set<nat>)
    requires Sane(before, bs) && GetSpec(before, bs, after, obj) && Tidy(before, ow, held)
    ensures Tidy(after, ow, if obj == 0 then held else held + {obj})
    ensures obj != 0 ==> obj !in held
  {
    hide Holds, FullCount, Placed, FreeInside;
    GetKeepsAtMostOne(bs, before, after, obj);
    if obj != 0 {
      GetHandsOutOne(bs, before, after, obj);
      assert !Holds(before, obj, ow);
    }
  }

  lemma {:induction false} FreeTidy(before: seq<Slab>, bs: seq<Block>, after: seq<Slab>, obj: nat, ow: nat,
                     held: set<nat>)
    requires Sane(before, bs) && FreeSpec(before, after, obj) && Tidy(before, ow, held)
    ensures Tidy(after, ow, held - {obj})
  {
    hide Holds, FullCount, Placed, FreeInside, HoldsAt, AfterFree;
    if Outside(before, obj) && after == before {
      OutsideNotHeld(before, obj);
      assert !Holds(before, obj, ow);
    } else {
      var k, j :| 0 <= k < |before| && HoldsAt(before[k], j, obj, before[k].ow) && after == AfterFree(before, k, j);
      HoldsAtIs(before[k], j, obj);
      AfterFreeHolds(bs, before, k, j);
      AtMostOneFullSlab(before, k, j);
      AfterFreeSizes(before, k, j, ow);
    }
  }

  lemma {:induction false} HoldsAtIs(s: Slab, j: nat, obj: nat)
    requires HoldsAt(s, j, obj, s.ow)
    ensures j < s.total && j !in s.free && obj == NodeAt(s, j) + 1
  {
  }

  lemma {:induction false} AfterFreeSizes(slabs: seq<Slab>, k: nat, j: nat, ow: nat)
    requires k < |slabs| && forall i :: 0 <= i < |slabs| ==> slabs[i].ow == ow
    ensures var r := AfterFree(slabs, k, j); r != [] && forall i :: 0 <= i < |r| ==> r[i].ow == ow
  {
    hide FullCount;
    var r := slabs[k := Pushed(slabs[k], j)];
    if FullCount(r, |r|) >= 2 { assert LastFull(r, |r|) >= 1; }
  }

  /** So once everything is given back, one slab is left, entirely free. */
  lemma {:induction false} NothingHeldOneSlab(slabs: seq<Slab>, bs: seq<Block>, ow: nat)
    requires Tidy(slabs, ow, {}) && Sane(slabs, bs)
    ensures |slabs| == 1 && Full(slabs[0])
  {
    forall i | 0 <= i < |slabs| ensures Full(slabs[i]) {
      NoneHeldFull(slabs, i, ow);
    }
    AllFullCount(slabs, |slabs|);
  }

  lemma {:induction false} NoneHeldFull(slabs: seq<Slab>, i: nat, ow: nat)
    requires i < |slabs| && FreeInside(slabs[i]) && slabs[i].total >= 1 && slabs[i].ow == ow
    requires forall p :: !Holds(slabs, p, ow)
    ensures Full(slabs[i])
  {
    var s := slabs[i];
    HeldPlusFree(s);
    forall j | j in Elements(Iota(s.total)) ensures j in Elements(s.free) {
      if j !in s.free {
        NodeHeld(slabs, i, j);
      }
    }
    assert Elements(Iota(s.total)) - Elements(s.free) == {};
  }

  lemma {:induction false} NodeHeld(slabs: seq<Slab>, i: nat, j: nat)
    requires i < |slabs| && j < slabs[i].total && j !in slabs[i].free
    ensures Holds(slabs, NodeAt(slabs[i], j) + 1, slabs[i].ow)
  {
    assert HoldsAt(slabs[i], j, NodeAt(slabs[i], j) + 1, slabs[i].ow);
  }

  lemma {:induction false} AllFullCount(slabs: seq<Slab>, n: nat)
    requires n <= |slabs| && forall i :: 0 <= i < n ==> Full(slabs[i])
    ensures FullCount(slabs, n) == n
  {
    if n > 0 { AllFullCount(slabs, n - 1); }
  }

  // ---------------------------------------------------------------- the cache

  class SlabCache {
    const heap: Heap
    var head: Word                 // *head of the C code: address of the first slab
    ghost var slabs: seq<Slab>

    ghost predicate Valid()
      reads this, heap, heap.mem
    {
      heap.Valid() && Intact(heap.mem[..], heap.blocks, slabs, head)
    }

    /** Heap blocks of other clients: everything live that is not one of this cache's slabs. */
    ghost function Others(): map<nat, nat>
      reads this, heap
    {
      Foreign(heap.blocks, slabs)
    }

    constructor (heap: Heap)
      requires heap.Valid()
      ensures Valid() && this.heap == heap && slabs == [] && head == 0
    {
      this.heap := heap;
      head := 0;
      slabs := [];
    }

    /** The three statements slab_get runs on a slab that has a free object. */
    method Take(slab: nat, ghost k: nat) returns (obj: nat)
      requires Valid() && k < |slabs| && slab == slabs[k].at && slabs[k].free != []
      modifies this`slabs, heap.mem
      ensures Valid() && heap.blocks == old(heap.blocks)
      ensures slabs == old(slabs)[k := Popped(old(slabs)[k])]
      ensures obj == NodeAt(old(slabs)[k], old(slabs)[k].free[0]) + 1
      ensures Heap.SamePayload(old(Others()), old(heap.mem[..]), heap.mem[..])
      ensures SameObjects(old(slabs), old(heap.mem[..]), heap.mem[..])
      ensures Others() == old(Others())
    {
      ghost var m, s := heap.mem[..], slabs[k];
      TakeKeeps(m, heap.blocks, slabs, head, k);
      var node := heap.mem[slab + 1];
      heap.mem[slab + 1] := heap.mem[node];
      heap.mem[slab + 4] := heap.mem[slab + 4] - 1;
      assert heap.mem[..] == TakeWords(m, s);
      ForeignUpdate(heap.blocks, slabs, k, Popped(s));
      slabs := slabs[k := Popped(s)];
      return node + 1;
    }

    /** slab_alloc_new: a fresh slab of `numObjects` objects at the head of the list, or NULL. */
    method SlabAllocNew(objectSize: Word, numObjects: Word, ghost ow: nat) returns (slab: nat)
      requires Valid()
      requires objectSize == 4 * ow && 1 <= ow && 1 <= numObjects
      requires 20 + (4 + objectSize) * numObjects < 0xFFFF_FFFD
      modifies this, heap, heap.mem
      ensures Valid()
      ensures slab == 0 <==> FirstFit(old(heap.blocks), 5 + Nodes(ow, numObjects)) == |old(heap.blocks)|
      ensures slab == 0 ==> slabs == old(slabs) && head == old(head) && heap.blocks == old(heap.blocks)
                            && heap.mem[..] == old(heap.mem[..])
      ensures slab != 0 ==> slabs == [Slab(slab, ow, numObjects, Iota(numObjects))] + old(slabs) && head == slab
                            && slab == Extent(old(heap.blocks)[..FirstFit(old(heap.blocks), 5 + Nodes(ow, numObjects))])
                                       + 1
                            && Others() == old(Others())
      ensures Heap.SamePayload(old(heap.LiveMap()), old(heap.mem[..]), heap.mem[..])
    {
      hide ListOk, Placed, Tiles, Addresses;
      var size := 20 + (4 + objectSize) * numObjects;
      SlabRequest(ow, numObjects, size);
      ghost var m0, bs0 := heap.mem[..], heap.blocks;
      slab := heap.Kmalloc(size);
      if slab != 0 {
        ghost var m1, s := heap.mem[..], Slab(slab, ow, numObjects, Iota(numObjects));
        ghost var got := heap.LiveMap()[slab];
        BlockInside(m1, heap.blocks, slab);
        Format(slab, objectSize, numObjects, s);
        AddSlab(m0, bs0, m1, heap.blocks, heap.mem[..], slabs, head, s, got);
        slabs := [s] + slabs;
        head := slab;
      }
    }

    /** The header stores and the threading loop of slab_alloc_new. */
    method Format(slab: nat, objectSize: Word, numObjects: Word, ghost s: Slab)
      requires 1 <= numObjects && s == Slab(slab, s.ow, numObjects, Iota(numObjects))
      requires 1 <= s.ow && objectSize == 4 * s.ow
      requires slab + SlabWords(s) <= heap.mem.Length <= 0x4000_0000
      modifies heap.mem
      ensures SlabOk(heap.mem[..], s) && heap.mem[slab] == head
      ensures forall i :: 0 <= i < heap.mem.Length && !(slab <= i < slab + SlabWords(s)) ==>
                heap.mem[i] == old(heap.mem[i])
    {
      var mem := heap.mem;
      var nodeWords := 1 + objectSize / 4;
      NodeInside(s, 0);
      mem[slab + 2] := objectSize;
      mem[slab + 3] := numObjects;
      mem[slab + 4] := numObjects;
      mem[slab] := head;
      var current := slab + 5;
      mem[slab + 1] := current;
      for i := 0 to numObjects - 1
        invariant current == NodeAt(s, i)
        invariant mem[slab] == head && mem[slab + 1] == slab + 5 && mem[slab + 2] == objectSize
        invariant mem[slab + 3] == mem[slab + 4] == numObjects
        invariant forall j :: 0 <= j < i ==> Threaded(mem[..], s, j)
        invariant forall j :: 0 <= j < mem.Length && !(slab <= j < slab + SlabWords(s)) ==> mem[j] == old(mem[j])
      {
        ghost var m := mem[..];
        NodeInside(s, i);
        NodeInside(s, i + 1);
        var next := current + nodeWords;
        mem[current] := next;
        forall j | 0 <= j < i ensures Threaded(mem[..], s, j) {
          assert Threaded(m, s, j);
          NodesApart(s, i, j);
        }
        current := next;
      }
      ghost var m := mem[..];
      NodeInside(s, s.total - 1);
      mem[current] := 0;
      forall j | 0 <= j < s.total - 1 ensures Threaded(mem[..], s, j) {
        assert Threaded(m, s, j);
        NodesApart(s, s.total - 1, j);
      }
      BuiltSlab(mem[..], s);
    }

    /** slab_get: an object no one else holds, from the first slab that has one, else from a new slab. */
    method SlabGet() returns (obj: nat)
      requires Valid()
      modifies this, heap, heap.mem
      ensures Valid()
      ensures GetSpec(old(slabs), old(heap.blocks), slabs, obj)
      ensures Turns(old(slabs), Turn(Got(obj), old(heap.blocks)), slabs)
      ensures obj == 0 ==> head == old(head) && heap.blocks == old(heap.blocks) && heap.mem[..] == old(heap.mem[..])
      ensures Heap.SamePayload(old(Others()), old(heap.mem[..]), heap.mem[..]) && Others() == old(Others())
      ensures SameObjects(old(slabs), old(heap.mem[..]), heap.mem[..])
    {
      hide Intact, Sane, GetSpec;
      IntactSane(heap.mem[..], heap.blocks, slabs, head);
      SlabAt(heap.mem[..], heap.blocks, slabs, head, 0);
      if head == 0 {
        GetNone(slabs, heap.blocks);
        return 0;
      }
      var slab := head;
      ghost var k := 0;
      while slab != 0
        invariant k <= |slabs| && slab == SlabAddr(slabs, k)
        invariant forall j :: 0 <= j < k ==> slabs[j].free == []
        invariant Valid() && slabs == old(slabs) && heap.blocks == old(heap.blocks) && heap.mem[..] == old(heap.mem[..])
        invariant head == old(head)
        decreases |slabs| - k
      {
        SlabAt(heap.mem[..], heap.blocks, slabs, head, k);
        if heap.mem[slab + 4] > 0 {
          FirstFreeIs(slabs, k);
          GetFrom(slabs, heap.blocks, k);
          obj := Take(slab, k);
          return;
        }
        slab := heap.mem[slab];
        k := k + 1;
      }
      SlabAt(heap.mem[..], heap.blocks, slabs, head, k);
      FirstFreeIs(slabs, k);
      ghost var before, bs := slabs, heap.blocks;
      obj := Grow();
      GetGrown(before, bs, slabs, obj);
    }

    /** The end of slab_get: allocate a slab like the first one and take its first object. */
    method Grow() returns (obj: nat)
      requires Valid() && slabs != []
      modifies this, heap, heap.mem
      ensures Valid()
      ensures GrowSpec(old(slabs), old(heap.blocks), slabs, obj)
      ensures obj == 0 ==> head == old(head) && heap.blocks == old(heap.blocks) && heap.mem[..] == old(heap.mem[..])
      ensures Heap.SamePayload(old(Others()), old(heap.mem[..]), heap.mem[..]) && Others() == old(Others())
      ensures SameObjects(old(slabs), old(heap.mem[..]), heap.mem[..])
    {
      ghost var m0, slabs0, bs0 := heap.mem[..], slabs, heap.blocks;
      SlabFits(m0, bs0, slabs0, 0);
      var slab := SlabAllocNew(heap.mem[head + 2], heap.mem[head + 3], slabs[0].ow);
      if slab == 0 {
        obj := 0;
      } else {
        ghost var m1, slabs1 := heap.mem[..], slabs;
        obj := Take(slab, 0);
        GrowKeeps(m0, m1, heap.mem[..], bs0, slabs0, slabs1);
        assert slabs == [Popped(slabs1[0])] + slabs0;
      }
    }

    /** The statements of slab_free that put the node back on its slab's list. */
    method Give(slab: nat, obj: nat, ghost k: nat, ghost j: nat)
      requires Valid() && k < |slabs| && slab == slabs[k].at
      requires HoldsAt(slabs[k], j, obj, slabs[k].ow)
      modifies this`slabs, heap.mem
      ensures Valid() && slabs == old(slabs)[k := Pushed(old(slabs)[k], j)] && Others() == old(Others())
      ensures Heap.SamePayload(old(Others()), old(heap.mem[..]), heap.mem[..])
      ensures SameObjects(old(slabs), old(heap.mem[..]), heap.mem[..])
    {
      ghost var m, s := heap.mem[..], slabs[k];
      OkFreeInside(m, s);
      DistinctShort(s.free, s.total, j);
      GiveKeeps(m, heap.blocks, slabs, head, k, j);
      var node := obj - 1;
      heap.mem[node] := heap.mem[slab + 1];
      heap.mem[slab + 1] := node;
      heap.mem[slab + 4] := heap.mem[slab + 4] + 1;
      assert heap.mem[..] == GiveWords(m, s, j);
      ForeignUpdate(heap.blocks, slabs, k, Pushed(s, j));
      slabs := slabs[k := Pushed(s, j)];
    }

    /** slab_free's scan: how many slabs are entirely free, and where the last one and its predecessor are. */
    method CountFullyFree() returns (fullyFree: nat, target: nat, targetPrev: nat)
      requires Valid()
      ensures fullyFree == FullCount(slabs, |slabs|)
      ensures fullyFree >= 2 ==>
                var t := LastFull(slabs, |slabs|); target == slabs[t].at && targetPrev == slabs[t - 1].at
    {
      hide Intact;
      var tmp, prev := head, 0;
      fullyFree, target, targetPrev := 0, 0, 0;
      ghost var n := 0;
      ghost var m := heap.mem[..];
      SlabAt(m, heap.blocks, slabs, head, 0);
      while tmp != 0
        invariant n <= |slabs| && tmp == SlabAddr(slabs, n)
        invariant prev == if n == 0 then 0 else slabs[n - 1].at
        invariant fullyFree == FullCount(slabs, n)
        invariant fullyFree > 0 ==> target == slabs[LastFull(slabs, n)].at
        invariant fullyFree > 1 ==> targetPrev == slabs[LastFull(slabs, n) - 1].at
        decreases |slabs| - n
      {
        SlabAt(m, heap.blocks, slabs, head, n);
        if heap.mem[tmp + 4] == heap.mem[tmp + 3] {
          target, targetPrev := tmp, prev;
          fullyFree := fullyFree + 1;
        }
        prev := tmp;
        tmp := heap.mem[tmp];
        n := n + 1;
      }
      SlabAt(m, heap.blocks, slabs, head, n);
    }

    /** Unlink a slab that is not the first and give its block back. */
    method Drop(target: nat, targetPrev: nat, ghost t: nat)
      requires Valid() && 1 <= t < |slabs| && Full(slabs[t])
      requires target == slabs[t].at && targetPrev == slabs[t - 1].at
      modifies this`slabs, heap, heap.mem
      ensures Valid() && slabs == Without(old(slabs), t) && Others() == old(Others())
      ensures Heap.SamePayload(old(Others()), old(heap.mem[..]), heap.mem[..])
      ensures SameObjects(old(slabs), old(heap.mem[..]), heap.mem[..])
    {
      ghost var m, slabs0, bs0 := heap.mem[..], slabs, heap.blocks;
      assert SlabOk(m, slabs[t]) && SlabOk(m, slabs[t - 1]);
      heap.mem[targetPrev] := heap.mem[target];
      ghost var n := heap.mem[..];
      UnlinkKeeps(m, n, bs0, slabs0, head, t);
      heap.Kfree(target);
      DropKeeps(m, n, heap.mem[..], bs0, heap.blocks, slabs0, head, t);
      slabs := Without(slabs, t);
    }

    /** The slab of `obj` is found: the object goes back, and a slab too many that is empty goes back to the heap. */
    method Release(slab: nat, obj: nat, ghost w: nat, ghost k: nat, ghost j: nat)
      requires Valid() && k < |slabs| && HoldsAt(slabs[k], j, obj, w) && slab == SlabAddr(slabs, k)
      modifies this`slabs, heap, heap.mem
      ensures Valid()
      ensures slabs == AfterFree(old(slabs), k, j)
      ensures Others() == old(Others())
      ensures Heap.SamePayload(old(Others()), old(heap.mem[..]), heap.mem[..])
      ensures SameObjects(slabs, old(heap.mem[..]), heap.mem[..])
    {
      hide Intact, Foreign, SameObjects;
      ghost var m0, slabs0, bs0 := heap.mem[..], slabs, heap.blocks;
      SlabAt(m0, bs0, slabs, head, 0);
      Give(slab, obj, k, j);
      ghost var m1, slabs1 := heap.mem[..], slabs;
      var fullyFree, target, targetPrev := CountFullyFree();
      if fullyFree >= 2 {
        Drop(target, targetPrev, LastFull(slabs, |slabs|));
      }
      FreeKeeps(m0, m1, heap.mem[..], bs0, slabs0, slabs1, slabs, k, j);
    }

    /** slab_free of an object this cache has handed out, or of an address in none of its slabs, which is ignored. */
    method SlabFree(obj: nat, ghost w: nat) returns (ghost k: nat, ghost j: nat)
      requires Valid() && (Holds(slabs, obj, w) || Outside(slabs, obj))
      modifies this`slabs, heap, heap.mem
      ensures Valid()
      ensures old(Holds(slabs, obj, w)) ==> (
                k < |old(slabs)| && HoldsAt(old(slabs)[k], j, obj, w) && slabs == AfterFree(old(slabs), k, j))
      ensures !old(Holds(slabs, obj, w)) ==>
                slabs == old(slabs) && heap.blocks == old(heap.blocks) && heap.mem[..] == old(heap.mem[..])
      ensures Turns(old(slabs), Turn(GaveBack(obj), old(heap.blocks)), slabs)
      ensures Others() == old(Others())
      ensures Heap.SamePayload(old(Others()), old(heap.mem[..]), heap.mem[..])
      ensures SameObjects(slabs, old(heap.mem[..]), heap.mem[..])
    {
      hide Intact, Foreign, SameObjects, Outside, Sane;
      IntactSane(heap.mem[..], heap.blocks, slabs, head);
      k, j := |slabs|, 0;
      if Holds(slabs, obj, w) {
        ghost var owner, node :| 0 <= owner < |slabs| && HoldsAt(slabs[owner], node, obj, w);
        k, j := owner, node;
      }
      var slab := SlabOf(obj, w, k, j);
      if slab != 0 {
        Release(slab, obj, w, k, j);
      } else {
        SameSelf(Others(), slabs, heap.mem[..]);
      }
    }

    /** slab_free's walk: the slab whose nodes' addresses include this one, or 0. */
    method SlabOf(obj: nat, ghost w: nat, ghost k: nat, ghost j: nat) returns (slab: nat)
      requires Valid() && (if k < |slabs| then HoldsAt(slabs[k], j, obj, w) else k == |slabs| && Outside(slabs, obj))
      ensures slab == SlabAddr(slabs, k) && (slab == 0 <==> k == |slabs|)
    {
      hide Intact, Outside;
      ghost var m, bs := heap.mem[..], heap.blocks;
      SlabAt(m, bs, slabs, head, 0);
      SlabAt(m, bs, slabs, head, k);
      slab := head;
      ghost var i := 0;
      while slab != 0
        invariant i <= k && slab == SlabAddr(slabs, i)
        decreases |slabs| - i
      {
        SlabAt(m, bs, slabs, head, i);
        if k < |slabs| { RangeTest(m, bs, slabs, head, k, j, i); } else { NotInRange(slabs, i, obj); }
        Quarter(slabs[i].ow, 0);
        var start := slab + 5;
        var end := start + (1 + heap.mem[slab + 2] / 4) * heap.mem[slab + 3];
        if start <= obj < end { return; }
        slab := heap.mem[slab];
        i := i + 1;
      }
      SlabAt(m, bs, slabs, head, i);
    }

    /** A client storing into its own object. */
    method Write(obj: nat, ghost w: nat, i: nat, v: Word)
      requires Valid() && Holds(slabs, obj, w) && i < w && obj + i < heap.mem.Length
      modifies heap.mem
      ensures Valid() && heap.mem[..] == old(heap.mem[..])[obj + i := v]
      ensures Heap.SamePayload(Others(), old(heap.mem[..]), heap.mem[..])
      ensures forall p: nat, u: nat, x: nat :: InObject(slabs, p, u, x) && p != obj && x < heap.mem.Length ==>
                heap.mem[x] == old(heap.mem[x])
    {
      ghost var m := heap.mem[..];
      heap.mem[obj + i] := v;
      WriteKeeps(m, heap.mem[..], heap.blocks, slabs, head, obj, w, i);
    }
  }
}
