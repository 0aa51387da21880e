/** Seeking in an open file by walking its cluster chain, one table sector at a time (kernel/fs/fs_seek.c). */
module FsSeek {
  import opened Options
  import opened Words
  import opened IoScheduler
  import opened Volume

  datatype Whence = SeekSet | SeekCur | SeekEnd | OtherWhence

  /** fs_seek_ctx_t: the cluster walked from, the hops still to make, and where the walk is to end. */
  datatype Walk = Walk(cluster: Word, remaining: Word, target: Word)

  /** What a call leaves: its caller was called back with a status, or a sector has been asked for. */
  datatype Progress = Reply(status: int) | Await(lba: Word, walk: Walk)

  /** The file fields a successful seek sets. */
  function At(v: Volume, f: File, target: Word): File
    requires v.Mounted()
  {
    var p := Decompose(v, target);
    f.(sector := p.sector, byte := p.byte, offset := target)
  }

  /** fs_seek_submit. */
  function SeekSubmit(v: Volume, f: File, target: Word): (File, Progress)
    requires v.Mounted()
  {
    if target > f.size then (f, Reply(-1))
    else
      var t, c := Decompose(v, target).index, Decompose(v, f.offset).index;
      var (start, from) := if t >= c then (f.current, c) else (f.first, 0);
      if t == from then (At(v, f, target), Reply(0))
      else (f, Await(v.fatLba(start), Walk(start, t - from, target)))
  }

  /** fs_seek_step: a table sector has arrived. */
  function SeekStep(v: Volume, f: File, w: Walk, status: int, sector: Sector): (r: (File, Progress))
    requires v.Mounted() && w.remaining > 0
    ensures r.1.Await? ==> 0 < r.1.walk.remaining < w.remaining
  {
    var next := v.entry(sector, w.cluster);
    if status != 0 || IsEnd(next) then (f, Reply(-1))
    else if w.remaining == 1 then (At(v, f, w.target).(current := next), Reply(0))
    else (f, Await(v.fatLba(next), w.(cluster := next, remaining := w.remaining - 1)))
  }

  /** fs_seek_whence's target; offsets are signed, and the sum is a 32-bit one. */
  function Target(f: File, offset: int, whence: Whence): Option<Word> {
    match whence
    case SeekSet => Some(Wrap(offset))
    case SeekCur => Some(Wrap(f.offset + offset))
    case SeekEnd => Some(Wrap(f.size + offset))
    case OtherWhence => None
  }

  function SeekWhence(v: Volume, f: File, offset: int, whence: Whence): (File, Progress)
    requires v.Mounted()
  {
    var target := Target(f, offset, whence);
    if target.None? then (f, Reply(-1)) else SeekSubmit(v, f, target.value)
  }

  /** How a seek ends, and how many table sectors it reads. */
  datatype Outcome = Outcome(file: File, status: int, loads: nat)

  function WalkOn(v: Volume, f: File, w: Walk): Outcome
    requires v.Mounted() && w.remaining > 0
    decreases w.remaining
  {
    var (f', p) := SeekStep(v, f, w, 0, v.disk(v.fatLba(w.cluster)));
    match p
    case Reply(status) => Outcome(f', status, 1)
    case Await(_, w') => var o := WalkOn(v, f', w'); o.(loads := o.loads + 1)
  }

  function Seek(v: Volume, f: File, target: Word): Outcome
    requires v.Mounted()
  {
    var (f', p) := SeekSubmit(v, f, target);
    match p
    case Reply(status) => Outcome(f', status, 0)
    case Await(_, w) => WalkOn(v, f', w)
  }

  /** A walk from cluster `j` of the chain arrives at cluster `j` + remaining, or fails without a trace where the
      chain ends; it never reads more table sectors than hops were asked for, whatever the table holds. */
  lemma {:induction false} WalkExact(v: Volume, f: File, w: Walk, j: nat)
    requires v.Mounted() && w.remaining > 0 && ClusterAt(v, f.first, j) == Some(w.cluster)
    ensures var o, c := WalkOn(v, f, w), ClusterAt(v, f.first, j + w.remaining);
      && o.loads <= w.remaining
      && (c.Some? ==> o == Outcome(At(v, f, w.target).(current := c.value), 0, w.remaining))
      && (c.None? ==> o.file == f && o.status == -1)
    decreases w.remaining
  {
    var next := v.Link(w.cluster);
    if IsEnd(next) {
      assert ClusterAt(v, f.first, j + 1).None?;
      if ClusterAt(v, f.first, j + w.remaining).Some? {
        ChainShorter(v, f.first, j + 1, j + w.remaining);
      }
    } else if w.remaining > 1 {
      WalkExact(v, f, w.(cluster := next, remaining := w.remaining - 1), j + 1);
    }
  }

  /** The case the source gets wrong: going back into the first cluster keeps the old current cluster. */
  predicate BackToStart(v: Volume, f: File, target: Word)
    requires v.Mounted()
  {
    Decompose(v, target).index == 0 && Decompose(v, f.offset).index > 0
  }

  function Hops(v: Volume, f: File, target: Word): nat
    requires v.Mounted()
  {
    var t, c := Decompose(v, target).index, Decompose(v, f.offset).index;
    if t >= c then t - c else t
  }

  /** A seek succeeds exactly when the target is within the size and its cluster in the chain.  It then names the
      target's cluster, sector and byte, except that going back into the first cluster leaves the file where it was
      unless it was there already; a seek that fails changes nothing.  The table reads are bounded by the distance. */
  lemma {:induction false} SeekExact(v: Volume, f: File, target: Word)
    requires v.Mounted() && Anchored(v, f)
    ensures var o := Seek(v, f, target);
      && (o.status == 0 <==> target <= f.size && Reaches(v, f.first, target))
      && (o.status != 0 ==> o.status == -1 && o.file == f)
      && (o.status == 0 ==>
            && o.file.offset == target && o.file.first == f.first && o.file.size == f.size
            && (Synced(v, o.file) <==> !BackToStart(v, f, target) || f.current == f.first))
      && o.loads <= Hops(v, f, target) && (o.status == 0 ==> o.loads == Hops(v, f, target))
  {
    var t, c := Decompose(v, target).index, Decompose(v, f.offset).index;
    if target <= f.size && t != c && t != 0 {
      if t > c {
        WalkExact(v, f, Walk(f.current, t - c, target), c);
      } else {
        WalkExact(v, f, Walk(f.first, t, target), 0);
      }
    }
  }

  /** A seek by whence, run to its end. */
  function SeekFrom(v: Volume, f: File, offset: int, whence: Whence): Outcome
    requires v.Mounted()
  {
    var (f', p) := SeekWhence(v, f, offset, whence);
    match p
    case Reply(status) => Outcome(f', status, 0)
    case Await(_, w) => WalkOn(v, f', w)
  }

  /** A seek from the start, the present position or the end, to `place`, counted modulo 2^32, succeeds exactly when
      that is within the size and the chain reaches it; the file is then there.  Any other origin fails.  A seek that
      fails changes nothing. */
  lemma {:induction false} WhenceExact(v: Volume, f: File, offset: int, whence: Whence)
    requires v.Mounted() && Anchored(v, f)
    ensures var o := SeekFrom(v, f, offset, whence);
      var place := if whence.SeekSet? then offset else if whence.SeekCur? then f.offset + offset else f.size + offset;
      var at := place % 0x1_0000_0000;
      && (whence.OtherWhence? ==> o.status == -1 && o.file == f)
      && (!whence.OtherWhence? ==>
            && (o.status == 0 <==> at <= f.size && Reaches(v, f.first, at))
            && (o.status == 0 ==> o.file.offset == at && o.file.first == f.first && o.file.size == f.size)
            && (o.status != 0 ==> o.status == -1 && o.file == f))
      && (0 <= place < 0x1_0000_0000 ==> at == place)
  {
    hide Seek, SeekSubmit, Anchored, Decompose, WalkOn;
    var target := Target(f, offset, whence);
    if target.Some? {
      SeekExact(v, f, target.value);
      SeekFromIs(v, f, offset, whence);
    }
  }

  lemma {:induction false} SeekFromIs(v: Volume, f: File, offset: int, whence: Whence)
    requires v.Mounted()
    ensures Target(f, offset, whence).Some? ==>
              SeekFrom(v, f, offset, whence) == Seek(v, f, Target(f, offset, whence).value)
  {
    hide Target, SeekSubmit, WalkOn;
  }

  /** So on the stated domain a seek that succeeds leaves a synchronised file. */
  lemma {:induction false} SeekSyncs(v: Volume, f: File, target: Word)
    requires v.Mounted() && Anchored(v, f) && target <= f.size && Reaches(v, f.first, target)
    requires !BackToStart(v, f, target)
    ensures Seek(v, f, target).status == 0 && Synced(v, Seek(v, f, target).file)
    ensures Seek(v, f, target).file == f.(current := ClusterAt(v, f.first, Decompose(v, target).index).value,
              sector := Decompose(v, target).sector, byte := Decompose(v, target).byte, offset := target)
  {
    SeekExact(v, f, target);
    var o := Seek(v, f, target).file;
    var t, c := Decompose(v, target).index, Decompose(v, f.offset).index;
    if t > c {
      WalkExact(v, f, Walk(f.current, t - c, target), c);
    } else if t < c {
      WalkExact(v, f, Walk(f.first, t, target), 0);
    }
  }

  /** Two clusters of one sector, 2 and then 3. */
  const TWO_CLUSTERS: Volume := Volume(_ => seq(SECTOR_SIZE, _ => 0), c => c,
      (s, c) => if c == 2 then 3 else 0x0FFF_FFFF,
                                c => c, 1, 2)

  /** A file of 1000 bytes at its second cluster, sent back to its start, still reads from cluster 3. */
  lemma {:induction false} BackToStartExample()
    ensures var f := File(2, 3, 0, 0, 512, 1000);
      && TWO_CLUSTERS.Mounted() && Synced(TWO_CLUSTERS, f)
      && Seek(TWO_CLUSTERS, f, 0) == Outcome(f.(offset := 0), 0, 0)
      && !Anchored(TWO_CLUSTERS, f.(offset := 0))
  {
    var v := TWO_CLUSTERS;
    assert v.Link(2) == 3;
    assert ClusterAt(v, 2, 0) == Some(2) && ClusterAt(v, 2, 1) == Some(3);
    DecomposeOnly(v, 512, Position(1, 0, 0));
    DecomposeOnly(v, 0, Position(0, 0, 0));
  }

  // ---------------------------------------------------------------- files and contexts that are updated in place

  class OpenFile {
    var first: Word
    var current: Word
    var sector: Word
    var byte: Word
    var offset: Word
    var size: Word

    function Now(): File
      reads this
    {
      File(first, current, sector, byte, offset, size)
    }

    constructor (first: Word, size: Word)
      ensures Now() == File(first, first, 0, 0, 0, size)
    {
      this.first, current, sector, byte, offset, this.size := first, first, 0, 0, 0, size;
    }
  }

  class SeekContext {
    const file: OpenFile
    var cluster: Word
    var remaining: Word
    const target: Word

    constructor (file: OpenFile, cluster: Word, remaining: Word, target: Word)
      ensures this.file == file && Now() == Walk(cluster, remaining, target)
    {
      this.file, this.cluster, this.remaining, this.target := file, cluster, remaining, target;
    }

    function Now(): Walk
      reads this
    {
      Walk(cluster, remaining, target)
    }

    /** fs_seek_step: called with the status and, if it is 0, the sector asked for. */
    method Step(v: Volume, status: int, buffer: Sector) returns (reply: Option<int>, lba: Word)
      requires v.Mounted() && remaining > 0
      modifies this, file
      ensures (file.Now(), Told(reply, lba, Now())) == SeekStep(v, old(file.Now()), old(Now()), status, buffer)
      ensures reply.None? ==> 0 < remaining < old(remaining)
    {
      lba := 0;
      if status != 0 { return Some(-1), lba; }
      var next := v.entry(buffer, cluster);
      if IsEnd(next) { return Some(-1), lba; }
      cluster := next;
      remaining := remaining - 1;
      if remaining == 0 {
        var p := Decompose(v, target);
        file.current := cluster;
        file.sector, file.byte, file.offset := p.sector, p.byte, target;
        return Some(0), lba;
      }
      lba := v.fatLba(cluster);
      reply := None;
    }
  }

  function Told(reply: Option<int>, lba: Word, w: Walk): Progress {
    if reply.Some? then Reply(reply.value) else Await(lba, w)
  }

  /** fs_seek_submit; `ctx` is there when a sector has been asked for. */
  method Submit(v: Volume, file: OpenFile, target: Word) returns (reply: Option<int>, lba: Word, ctx: SeekContext?)
    requires v.Mounted()
    modifies file
    ensures reply.None? <==> ctx != null
    ensures ctx != null ==> fresh(ctx) && ctx.file == file && ctx.remaining > 0
    ensures ctx != null ==> (file.Now(), Await(lba, ctx.Now())) == SeekSubmit(v, old(file.Now()), target)
    ensures ctx == null ==> (file.Now(), Reply(reply.value)) == SeekSubmit(v, old(file.Now()), target)
  {
    lba, ctx := 0, null;
    if target > file.size { return Some(-1), lba, ctx; }
    var goal := Decompose(v, target);
    var here := Decompose(v, file.offset);
    var start, from := file.current, here.index;
    if goal.index < here.index {
      start, from := file.first, 0;
    }
    var skip := goal.index - from;
    if skip == 0 {
      file.sector, file.byte, file.offset := goal.sector, goal.byte, target;
      return Some(0), lba, ctx;
    }
    ctx := new SeekContext(file, start, skip, target);
    lba := v.fatLba(start);
    reply := None;
  }

  /** fs_seek_whence. */
  method SubmitWhence(v: Volume, file: OpenFile, offset: int, whence: Whence)
    returns (reply: Option<int>, lba: Word, ctx: SeekContext?)
    requires v.Mounted() && -0x8000_0000 <= offset < 0x8000_0000
    modifies file
    ensures reply.None? <==> ctx != null
    ensures ctx != null ==> fresh(ctx) && ctx.file == file && ctx.remaining > 0
    ensures ctx != null ==> (file.Now(), Await(lba, ctx.Now())) == SeekWhence(v, old(file.Now()), offset, whence)
    ensures ctx == null ==> (file.Now(), Reply(reply.value)) == SeekWhence(v, old(file.Now()), offset, whence)
  {
    var target: Word;
    match whence {
      case SeekSet => target := Wrap(offset);
      case SeekCur => target := Wrap(file.offset + offset);
      case SeekEnd => target := Wrap(file.size + offset);
      case OtherWhence => return Some(-1), 0, null;
    }
    reply, lba, ctx := Submit(v, file, target);
  }
}
