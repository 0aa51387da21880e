/** A FAT volume as the file-system state machines see it: sectors, the cluster chain, and the address arithmetic
(kernel/fs/fs_seek.c: `seek_decompose`; include/io/sd_functions.h; include/file.h; include/fs_running_info.h). */
module Volume {
  import opened Options
  import opened Words
  import opened IoScheduler

  /** The card's sectors and the three FAT helpers, which are not part of this model: where a cluster's table entry
      lies, the entry itself read out of that sector, and a cluster's first sector. */
  datatype Volume = Volume(disk: Word -> Sector, fatLba: Word -> Word, entry: (Sector, Word) -> Word,
                           clusterLba: Word -> Word, sectorsPerCluster: nat, root: Word)
  {
    /** SECTORS_PER_CLUSTER is an unsigned char, and a divisor. */
    predicate Mounted() {
      1 <= sectorsPerCluster < 256
    }

    function ClusterSize(): (n: nat)
      ensures n == SECTOR_SIZE * sectorsPerCluster
    {
      SECTOR_SIZE * sectorsPerCluster
    }

    /** The table entry of cluster `c`. */
    function Link(c: Word): Word {
      entry(disk(fatLba(c)), c)
    }

    /** The sector number cluster_to_lba + sector. */
    function SectorLba(c: Word, sector: Word): Word {
      Wrap(clusterLba(c) + sector)
    }
  }

  /** End of chain, or a free entry. */
  predicate IsEnd(entry: Word) {
    entry >= 0x0FFF_FFF8 || entry == 0
  }

  /** Cluster number `k` of the chain that starts at `first`, if the chain is that long. */
  function ClusterAt(v: Volume, first: Word, k: nat): Option<Word> {
    if k == 0 then Some(first)
    else match ClusterAt(v, first, k - 1)
      case None => None
      case Some(c) => if IsEnd(v.Link(c)) then None else Some(v.Link(c))
  }

  datatype Position = Position(index: nat, sector: nat, byte: nat)

  /** seek_decompose. */
  function Decompose(v: Volume, offset: Word): (p: Position)
    requires v.Mounted()
    ensures p.sector < v.sectorsPerCluster && p.byte < SECTOR_SIZE && p.index <= offset
  {
    var inCluster := offset % v.ClusterSize();
    DivMod(offset, v.ClusterSize());
    DivMod(inCluster, SECTOR_SIZE);
    SectorBound(inCluster / SECTOR_SIZE, v.sectorsPerCluster, inCluster);
    Position(offset / v.ClusterSize(), inCluster / SECTOR_SIZE, inCluster % SECTOR_SIZE)
  }

  /** The three parts name the offset exactly. */
  lemma {:induction false} DecomposeNames(v: Volume, offset: Word)
    requires v.Mounted()
    ensures var p := Decompose(v, offset); offset == v.ClusterSize() * p.index + SECTOR_SIZE * p.sector + p.byte
  {
    DivMod(offset, v.ClusterSize());
    DivMod(offset % v.ClusterSize(), SECTOR_SIZE);
  }

  lemma {:induction false} DivMod(a: nat, b: nat)
    requires b > 0
    ensures a == b * (a / b) + a % b && 0 <= a % b < b && 0 <= a / b <= a
  {
    MulGrows(b, a / b);
  }

  lemma {:induction false} MulGrows(b: nat, q: int)
    requires b > 0
    ensures q >= 0 ==> b * q >= q
    ensures q < 0 ==> b * q <= q
  {
    assert b * q == q + (b - 1) * q;
  }

  lemma {:induction false} SectorBound(q: nat, n: nat, r: nat)
    requires SECTOR_SIZE * q <= r < SECTOR_SIZE * n
    ensures q < n
  {
  }

  /** The parts themselves, for sectors of 512 bytes. */
  lemma {:induction false} PositionIs(v: Volume, offset: Word)
    requires v.Mounted()
    ensures Decompose(v, offset)
            == Position(offset / 512 / v.sectorsPerCluster, offset / 512 % v.sectorsPerCluster, offset % 512)
  {
    var q, n := offset / 512, v.sectorsPerCluster;
    DivMod(offset, 512);
    DivMod(q, n);
    Regrouped(n, q / n);
    DecomposeOnly(v, offset, Position(q / n, q % n, offset % 512));
  }

  lemma {:induction false} Regrouped(n: nat, k: nat)
    ensures 512 * n * k == 512 * (n * k)
  {
  }

  /** Positions are ordered as offsets are: the decomposition is the only one. */
  lemma {:induction false} DecomposeOnly(v: Volume, offset: Word, p: Position)
    requires v.Mounted() && p.sector < v.sectorsPerCluster && p.byte < SECTOR_SIZE
    requires offset == v.ClusterSize() * p.index + SECTOR_SIZE * p.sector + p.byte
    ensures Decompose(v, offset) == p
  {
    var d := Decompose(v, offset);
    DecomposeNames(v, offset);
    var n := v.ClusterSize();
    var a, b := SECTOR_SIZE * p.sector + p.byte, SECTOR_SIZE * d.sector + d.byte;
    assert a < n && b < n;
    SameQuotient(n, p.index, a, d.index, b);
  }

  lemma {:induction false} SameQuotient(n: nat, q: nat, r: nat, q': nat, r': nat)
    requires r < n && r' < n && n * q + r == n * q' + r'
    ensures q == q' && r == r'
  {
    if q < q' {
      AtLeast(n, q' - q);
      Distribute(n, q', q);
    } else if q' < q {
      AtLeast(n, q - q');
      Distribute(n, q, q');
    }
  }

  lemma {:induction false} Distribute(n: nat, a: nat, b: nat)
    ensures n * (a - b) == n * a - n * b
  {
  }

  lemma {:induction false} AtLeast(n: nat, k: nat)
    requires k >= 1
    ensures n * k >= n
  {
    assert n * k == n + n * (k - 1);
  }

  /** FILE (include/file.h), without its descriptor number and owner. */
  datatype File = File(first: Word, current: Word, sector: Word, byte: Word, offset: Word, size: Word)

  /** The current cluster is the one the offset lies in. */
  predicate Anchored(v: Volume, f: File)
    requires v.Mounted()
  {
    ClusterAt(v, f.first, Decompose(v, f.offset).index) == Some(f.current)
  }

  /** The position fields name the offset. */
  predicate Synced(v: Volume, f: File)
    requires v.Mounted()
  {
    Anchored(v, f) && f.sector == Decompose(v, f.offset).sector && f.byte == Decompose(v, f.offset).byte
  }

  /** The chain holds the cluster of this offset. */
  predicate Reaches(v: Volume, first: Word, offset: Word)
    requires v.Mounted()
  {
    ClusterAt(v, first, Decompose(v, offset).index).Some?
  }

  /** The byte of the file that starts at cluster `first`, at `offset`. */
  function FileByte(v: Volume, first: Word, offset: Word): Byte
    requires v.Mounted() && Reaches(v, first, offset)
  {
    var p := Decompose(v, offset);
    v.disk(v.SectorLba(ClusterAt(v, first, p.index).value, p.sector))[p.byte]
  }

  /** A byte of a file: its cluster, its sector in that, its place in that. */
  lemma {:induction false} FileByteIs(v: Volume, first: Word, offset: Word)
    requires v.Mounted() && Reaches(v, first, offset)
    ensures var c := ClusterAt(v, first, offset / 512 / v.sectorsPerCluster);
      c.Some? && FileByte(v, first, offset)
                 == v.disk((v.clusterLba(c.value) + offset / 512 % v.sectorsPerCluster) % 0x1_0000_0000)[offset % 512]
  {
    hide Decompose;
    PositionIs(v, offset);
  }

  /** A longer chain has every shorter one's clusters. */
  lemma {:induction false} ChainShorter(v: Volume, first: Word, j: nat, k: nat)
    requires j <= k && ClusterAt(v, first, k).Some?
    ensures ClusterAt(v, first, j).Some?
    decreases k
  {
    if j < k {
      ChainShorter(v, first, j, k - 1);
    }
  }


  /** A chain seen from its second cluster on. */
  lemma {:induction false} ChainTail(v: Volume, first: Word, k: nat)
    ensures ClusterAt(v, first, k + 1) == if IsEnd(v.Link(first)) then None else ClusterAt(v, v.Link(first), k)
    decreases k
  {
    if k == 0 {
      assert ClusterAt(v, first, 0) == Some(first);
    } else {
      ChainTail(v, first, k - 1);
    }
  }

  /** A chain goes on from a cluster for exactly the table entries from 1 to 0x0FFFFFF7. */
  lemma {:induction false} ChainGoesOn(v: Volume, first: Word, k: nat)
    requires ClusterAt(v, first, k).Some?
    ensures var next := v.Link(ClusterAt(v, first, k).value);
      ClusterAt(v, first, k + 1) == if 1 <= next <= 0x0FFF_FFF7 then Some(next) else None
  {
  }
}
