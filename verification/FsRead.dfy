/** Reading from an open file, a sector at a time through the shared buffer (kernel/fs/fs_read.c). */
module FsRead {
  import opened Options
  import opened Words
  import opened IoScheduler
  import opened Volume
  import opened FsSeek

  /** fs_read_ctx_t's state: a file sector has been asked for, a seek is under way, or the caller has been called
      back. */
  datatype Phase = Copying | Seeking(walk: Walk) | Finished(status: int)

  datatype Reader = Reader(file: File, delivered: seq<Byte>, remaining: nat, phase: Phase)

  /** What fs_read_submit sets up. */
  function Start(f: File, bytes: nat): Reader {
    Reader(f, [], bytes, Copying)
  }

  /** A reader that can be stepped. */
  predicate Live(r: Reader) {
    match r.phase
    case Copying => r.file.byte <= SECTOR_SIZE
    case Seeking(w) => w.remaining > 0
    case Finished(_) => false
  }

  /** The sector a reader waits for. */
  function Wanted(v: Volume, r: Reader): Option<Word> {
    match r.phase
    case Copying => Some(v.SectorLba(r.file.current, r.file.sector))
    case Seeking(w) => Some(v.fatLba(w.cluster))
    case Finished(_) => None
  }

  function Chunk(f: File, remaining: nat): (n: nat)
    requires f.byte <= SECTOR_SIZE
    ensures n <= remaining && f.byte + n <= SECTOR_SIZE && (remaining > 0 && f.byte < SECTOR_SIZE ==> n > 0)
  {
    if f.byte + remaining >= SECTOR_SIZE then SECTOR_SIZE - f.byte else remaining
  }

  /** The seek has called back, or waits for a table sector. */
  function Resume(r: Reader, f: File, p: Progress): Reader {
    match p
    case Reply(status) => r.(file := f, phase := if status != 0 then Finished(1) else Copying)
    case Await(_, w) => r.(file := f, phase := Seeking(w))
  }

  /** fs_read_step. */
  function ReadStep(v: Volume, r: Reader, status: int, sector: Sector): (r': Reader)
    requires v.Mounted() && Live(r)
    ensures Live(r') || r'.phase.Finished?
    ensures r'.remaining < r.remaining || (r'.remaining == r.remaining && (r'.phase.Finished? || Rank(r') < Rank(r)))
  {
    match r.phase
    case Copying =>
      if status != 0 then r.(phase := Finished(1))
      else
        var n := Chunk(r.file, r.remaining);
        var got := r.(delivered := r.delivered + sector[r.file.byte..r.file.byte + n], remaining := r.remaining - n);
        if got.remaining == 0 then got.(file := r.file.(byte := r.file.byte + n), phase := Finished(0))
        else var (f, p) := SeekWhence(v, r.file, n, SeekCur); Resume(got, f, p)
    case Seeking(w) =>
      var (f, p) := SeekStep(v, r.file, w, status, sector);
      Resume(r, f, p)
  }

  /** The table sectors still to be read by the seek under way; at the end of a sector, the step that copies nothing. */
  function Rank(r: Reader): nat {
    match r.phase
    case Copying => if r.file.byte == SECTOR_SIZE then 1 else 0
    case Seeking(w) => w.remaining
    case Finished(_) => 0
  }

  /** The whole read, on the card's contents: remaining bytes, then remaining hops, only go down. */
  function ReadAll(v: Volume, r: Reader): Reader
    requires v.Mounted() && (Live(r) || r.phase.Finished?)
    decreases r.remaining, Rank(r), !r.phase.Finished?
  {
    if r.phase.Finished? then r else ReadAll(v, ReadStep(v, r, 0, v.disk(Wanted(v, r).value)))
  }

  /** The file has this byte at `at`. */
  ghost predicate ByteAt(v: Volume, first: Word, at: nat, b: Byte)
    requires v.Mounted()
  {
    at < MODULUS_32 && Reaches(v, first, at) && b == FileByte(v, first, at)
  }

  /** These are the file's bytes from `offset` on. */
  ghost predicate FileBytes(v: Volume, first: Word, offset: nat, bytes: seq<Byte>)
    requires v.Mounted()
  {
    forall i :: 0 <= i < |bytes| ==> ByteAt(v, first, offset + i, bytes[i])
  }

  /** Where the last chunk of a read starts: its own offset, or the start of the last sector it touches. */
  function LastStart(offset: nat, bytes: nat): nat {
    if bytes == 0 || offset / SECTOR_SIZE == (offset + bytes - 1) / SECTOR_SIZE then offset
    else (offset + bytes - 1) / SECTOR_SIZE * SECTOR_SIZE
  }

  lemma {:induction false} ByteOf(v: Volume, offset: Word)
    requires v.Mounted()
    ensures Decompose(v, offset).byte == offset % SECTOR_SIZE
  {
    var p := Decompose(v, offset);
    DecomposeNames(v, offset);
    assert offset == SECTOR_SIZE * (v.sectorsPerCluster * p.index + p.sector) + p.byte by {
      Reassociate(v.sectorsPerCluster, p.index);
    }
  }

  lemma {:induction false} Reassociate(a: nat, b: nat)
    ensures (SECTOR_SIZE * a) * b == SECTOR_SIZE * (a * b)
  {
  }

  lemma {:induction false} SectorByte(v: Volume, f: File, i: nat)
    requires v.Mounted() && Synced(v, f) && f.byte + i < SECTOR_SIZE && f.offset + i < MODULUS_32
    ensures ByteAt(v, f.first, f.offset + i, v.disk(v.SectorLba(f.current, f.sector))[f.byte + i])
  {
    var p := Decompose(v, f.offset);
    DecomposeNames(v, f.offset);
    DecomposeOnly(v, f.offset + i, Position(p.index, p.sector, p.byte + i));
  }

  /** The rest of a sector, from a synchronised position, is the file's. */
  lemma {:induction false} SectorBytes(v: Volume, f: File, n: nat)
    requires v.Mounted() && Synced(v, f) && f.byte + n <= SECTOR_SIZE && f.offset + n <= MODULUS_32
    ensures FileBytes(v, f.first, f.offset, v.disk(v.SectorLba(f.current, f.sector))[f.byte..f.byte + n])
  {
    hide Synced, ByteAt;
    var bytes := v.disk(v.SectorLba(f.current, f.sector))[f.byte..f.byte + n];
    forall i | 0 <= i < n ensures ByteAt(v, f.first, f.offset + i, bytes[i]) {
      SectorByte(v, f, i);
    }
  }

  lemma {:induction false} BytesJoin(v: Volume, first: Word, offset: nat, a: seq<Byte>, b: seq<Byte>)
    requires v.Mounted() && FileBytes(v, first, offset, a) && FileBytes(v, first, offset + |a|, b)
    ensures FileBytes(v, first, offset, a + b)
  {
    hide ByteAt;
    forall i | 0 <= i < |a + b| ensures ByteAt(v, first, offset + i, (a + b)[i]) {
      if i >= |a| {
        assert (a + b)[i] == b[i - |a|];
        assert offset + i == offset + |a| + (i - |a|);
      }
    }
  }

  /** The seek inside a read runs as a seek of its own. */
  lemma {:induction false} SeekingRuns(v: Volume, r: Reader)
    requires v.Mounted() && r.phase.Seeking? && Live(r)
    ensures var o := WalkOn(v, r.file, r.phase.walk);
      (o.status == 0 ==> o.file.byte < SECTOR_SIZE) && ReadAll(v, r) == ReadAll(v, Resume(r, o.file, Reply(o.status)))
    decreases r.phase.walk.remaining
  {
    var w := r.phase.walk;
    var (f, p) := SeekStep(v, r.file, w, 0, v.disk(v.fatLba(w.cluster)));
    if p.Await? {
      SeekingRuns(v, r.(file := f, phase := Seeking(p.walk)));
    }
  }

  lemma {:induction false} IndexMonotone(v: Volume, a: Word, b: Word)
    requires v.Mounted() && a <= b
    ensures Decompose(v, a).index <= Decompose(v, b).index
  {
    var p, q := Decompose(v, a), Decompose(v, b);
    DecomposeNames(v, a);
    DecomposeNames(v, b);
    var n := v.ClusterSize();
    assert SECTOR_SIZE * q.sector + q.byte < n;
    assert n * p.index < n * q.index + n;
    if q.index < p.index {
      AtLeast(n, p.index - q.index);
      Distribute(n, p.index, q.index);
    }
  }

  lemma {:induction false} ReachesShorter(v: Volume, first: Word, a: Word, b: Word)
    requires v.Mounted() && a <= b
    ensures Reaches(v, first, b) ==> Reaches(v, first, a)
  {
    IndexMonotone(v, a, b);
    if Reaches(v, first, b) {
      ChainShorter(v, first, Decompose(v, a).index, Decompose(v, b).index);
    }
  }

  /** The last chunk lies within its sector. */
  lemma {:induction false} LastSector(offset: nat, bytes: nat)
    ensures var last := LastStart(offset, bytes);
            last <= offset + bytes && last % SECTOR_SIZE + (offset + bytes - last) <= SECTOR_SIZE
  {
    if bytes > 0 && LastStart(offset, bytes) != offset {
      LastBeyond(offset, bytes, SECTOR_SIZE - offset % SECTOR_SIZE);
    }
  }

  lemma {:induction false} LastWithin(offset: nat, bytes: nat)
    requires offset % SECTOR_SIZE + bytes <= SECTOR_SIZE
    ensures LastStart(offset, bytes) == offset
  {
  }

  lemma {:induction false} LastBeyond(offset: nat, bytes: nat, n: nat)
    requires n == SECTOR_SIZE - offset % SECTOR_SIZE < bytes
    ensures LastStart(offset, bytes) == LastStart(offset + n, bytes - n) >= offset + n
    ensures LastStart(offset, bytes) < offset + bytes
  {
    assert (offset + n) % SECTOR_SIZE == 0;
  }

  /** A read gets through exactly when the last sector it touches does not start beyond the file's size and lies in
      the chain, or is the one it starts in. */
  predicate Readable(v: Volume, f: File, bytes: nat)
    requires v.Mounted() && f.offset + bytes <= MODULUS_32
  {
    var last := LastStart(f.offset, bytes);
    last <= f.offset || (last <= f.size && Reaches(v, f.first, last))
  }

  /** Where a successful read leaves the file: at the start of its last chunk, the byte index behind the data. */
  function Landed(v: Volume, f: File, bytes: nat): (g: File)
    requires v.Mounted() && Synced(v, f) && f.offset + bytes <= MODULUS_32 && Readable(v, f, bytes)
    ensures g.byte <= SECTOR_SIZE
  {
    var last := LastStart(f.offset, bytes);
    LastSector(f.offset, bytes);
    ByteOf(v, last);
    var p := Decompose(v, last);
    f.(current := ClusterAt(v, f.first, p.index).value, sector := p.sector,
       byte := p.byte + (f.offset + bytes - last), offset := last)
  }

  /** The seek between two chunks goes forward. */
  lemma {:induction false} NextSector(v: Volume, f: File, n: nat)
    requires v.Mounted() && Anchored(v, f) && f.offset + n < MODULUS_32
    ensures var o := Seek(v, f, f.offset + n);
      && (o.status == 0 ==>
            Synced(v, o.file) && o.file.first == f.first && o.file.size == f.size && o.file.offset == f.offset + n)
      && (o.status == 0 <==> f.offset + n <= f.size && Reaches(v, f.first, f.offset + n))
      && (o.status != 0 ==> o.file == f)
  {
    hide Seek, Synced, Anchored, Reaches, Decompose;
    SeekExact(v, f, f.offset + n);
    IndexMonotone(v, f.offset, f.offset + n);
  }

  /** It runs inside the read as a seek of its own. */
  lemma {:induction false} SeekInside(v: Volume, r: Reader, n: nat)
    requires v.Mounted() && r.file.offset + n < MODULUS_32
    ensures var o := Seek(v, r.file, r.file.offset + n);
      var (f, p) := SeekWhence(v, r.file, n, SeekCur);
      (o.status == 0 ==> o.file.byte < SECTOR_SIZE) ==>
      && (Live(Resume(r, f, p)) || Resume(r, f, p).phase.Finished?)
      && ReadAll(v, Resume(r, f, p)) == ReadAll(v, Resume(r, o.file, Reply(o.status)))
  {
    hide ReadAll, WalkOn, SeekStep, Decompose;
    var (f, p) := SeekWhence(v, r.file, n, SeekCur);
    assert (f, p) == SeekSubmit(v, r.file, r.file.offset + n);
    if p.Await? { SeekingRuns(v, Resume(r, f, p)); }
  }

  lemma {:induction false} SyncedIsAnchored(v: Volume, f: File)
    requires v.Mounted() && Synced(v, f)
    ensures Anchored(v, f)
  {
  }

  lemma {:induction false} SyncedByte(v: Volume, f: File)
    requires v.Mounted()
    ensures Synced(v, f) ==> f.byte == f.offset % SECTOR_SIZE < SECTOR_SIZE && Reaches(v, f.first, f.offset)
  {
    ByteOf(v, f.offset);
  }

  /** One sector's part of the read. */
  lemma {:induction false} CopyStep(v: Volume, r: Reader)
    requires v.Mounted() && r.phase.Copying? && r.file.byte <= SECTOR_SIZE
    ensures var f, n := r.file, Chunk(r.file, r.remaining);
      var got := r.(delivered := r.delivered + v.disk(v.SectorLba(f.current, f.sector))[f.byte..f.byte + n],
                    remaining := r.remaining - n);
      if got.remaining == 0 then ReadAll(v, r) == got.(file := f.(byte := f.byte + n), phase := Finished(0))
      else var (f', p) := SeekWhence(v, f, n, SeekCur);
        (Live(Resume(got, f', p)) || Resume(got, f', p).phase.Finished?)
            && ReadAll(v, r) == ReadAll(v, Resume(got, f', p))
  {
    hide SeekWhence, Decompose;
    var f, n, sector := r.file, Chunk(r.file, r.remaining), v.disk(v.SectorLba(r.file.current, r.file.sector));
    var got := r.(delivered := r.delivered + sector[f.byte..f.byte + n], remaining := r.remaining - n);
    var next := ReadStep(v, r, 0, sector);
    if got.remaining != 0 {
      var (f', p) := SeekWhence(v, f, n, SeekCur);
      assert next == Resume(got, f', p);
    } else {
      assert ReadAll(v, next) == next;
    }
  }

  lemma {:induction false} FinishedStays(v: Volume, r: Reader)
    requires v.Mounted() && r.phase.Finished?
    ensures ReadAll(v, r) == r
  {
  }

  lemma {:induction false} LandedHere(v: Volume, f: File, bytes: nat)
    requires v.Mounted() && Synced(v, f) && f.offset + bytes <= MODULUS_32 && LastStart(f.offset, bytes) == f.offset
    ensures Readable(v, f, bytes) && Landed(v, f, bytes) == f.(byte := f.byte + bytes)
  {
  }

  /** A read that goes beyond its first sector is possible, and lands, as the read of what follows. */
  lemma {:induction false} Onward(v: Volume, f: File, g: File, n: nat, bytes: nat)
    requires v.Mounted() && Synced(v, f) && Synced(v, g) && f.offset + bytes <= MODULUS_32
    requires n == SECTOR_SIZE - f.offset % SECTOR_SIZE < bytes && g.offset == f.offset + n
    requires g.first == f.first && g.size == f.size && g.offset <= f.size && Reaches(v, f.first, g.offset)
    ensures Readable(v, f, bytes) <==> Readable(v, g, bytes - n)
    ensures Readable(v, f, bytes) ==> Landed(v, f, bytes) == Landed(v, g, bytes - n)
  {
    hide Synced, Reaches, Decompose;
    LastBeyond(f.offset, bytes, n);
  }

  lemma {:induction false} NotOnward(v: Volume, f: File, n: nat, bytes: nat)
    requires v.Mounted() && f.offset + bytes <= MODULUS_32
    requires n == SECTOR_SIZE - f.offset % SECTOR_SIZE < bytes
    requires !(f.offset + n <= f.size && Reaches(v, f.first, f.offset + n))
    ensures !Readable(v, f, bytes)
  {
    hide Reaches, Decompose;
    LastBeyond(f.offset, bytes, n);
    ReachesShorter(v, f.first, f.offset + n, LastStart(f.offset, bytes));
  }

  /** The whole read, from any synchronised position on. */
  lemma {:induction false} ReadFrom(v: Volume, r: Reader)
    requires v.Mounted() && r.phase.Copying? && Synced(v, r.file) && r.file.offset + r.remaining <= MODULUS_32
    ensures var out, f := ReadAll(v, r), r.file;
      && r.delivered <= out.delivered && FileBytes(v, f.first, f.offset, out.delivered[|r.delivered|..])
      && (if Readable(v, f, r.remaining)
          then out.phase == Finished(0) && out.remaining == 0 && |out.delivered| == |r.delivered| + r.remaining
               && out.file == Landed(v, f, r.remaining)
          else out.phase == Finished(1) && |out.delivered| < |r.delivered| + r.remaining)
    decreases r.remaining
  {
    hide ReadAll, Seek, SeekWhence, Synced, Reaches, Decompose, FileBytes, Readable, Landed;
    var f := r.file;
    SyncedByte(v, f);
    CopyStep(v, r);
    var n := Chunk(f, r.remaining);
    var sector := v.disk(v.SectorLba(f.current, f.sector));
    var bytes := sector[f.byte..f.byte + n];
    SectorBytes(v, f, n);
    var got := r.(delivered := r.delivered + bytes, remaining := r.remaining - n);
    if got.remaining == 0 {
      LastWithin(f.offset, r.remaining);
      LandedHere(v, f, r.remaining);
      assert (r.delivered + bytes)[|r.delivered|..] == bytes;
    } else {
      SyncedIsAnchored(v, f);
      NextSector(v, f, n);
      var o := Seek(v, f, f.offset + n);
      SyncedByte(v, o.file);
      SeekInside(v, got, n);
      if o.status == 0 {
        var next := Resume(got, o.file, Reply(0));
        ReadFrom(v, next);
        Onward(v, f, o.file, n, r.remaining);
        var out := ReadAll(v, next);
        assert out.delivered[|r.delivered|..] == bytes + out.delivered[|next.delivered|..];
        BytesJoin(v, f.first, f.offset, bytes, out.delivered[|next.delivered|..]);
      } else {
        NotOnward(v, f, n, r.remaining);
        FinishedStays(v, Resume(got, o.file, Reply(o.status)));
        assert (r.delivered + bytes)[|r.delivered|..] == bytes;
      }
    }
  }

  lemma {:induction false} LastBefore(offset: nat, bytes: nat)
    ensures offset <= LastStart(offset, bytes)
    ensures bytes > 0 ==> LastStart(offset, bytes) < offset + bytes
    ensures bytes == 0 ==> LastStart(offset, bytes) == offset
  {
    if bytes > 0 && LastStart(offset, bytes) != offset {
      LastBeyond(offset, bytes, SECTOR_SIZE - offset % SECTOR_SIZE);
    }
  }

  /** A read from a synchronised position, over any chain and cluster size.  What it delivers are always the file's
      bytes from that position on; it delivers all of them, and reports success, exactly when `Readable`.  The file
      is then at the start of the last chunk, no longer synchronised unless nothing was read. */
  lemma {:induction false} ReadExact(v: Volume, f: File, bytes: nat)
    requires v.Mounted() && Synced(v, f) && f.offset + bytes <= MODULUS_32
    ensures var out := ReadAll(v, Start(f, bytes));
      && FileBytes(v, f.first, f.offset, out.delivered)
      && (if Readable(v, f, bytes)
          then out.phase == Finished(0) && |out.delivered| == bytes && out.file == Landed(v, f, bytes)
               && Anchored(v, out.file) && (Synced(v, out.file) <==> bytes == 0)
          else out.phase == Finished(1) && |out.delivered| < bytes)
  {
    hide ReadAll, Readable, Decompose;
    ReadFrom(v, Start(f, bytes));
    var out := ReadAll(v, Start(f, bytes));
    assert out.delivered[0..] == out.delivered;
    if Readable(v, f, bytes) {
      LandedAnchored(v, f, bytes);
    }
  }

  lemma {:induction false} LandedAnchored(v: Volume, f: File, bytes: nat)
    requires v.Mounted() && Synced(v, f) && f.offset + bytes <= MODULUS_32 && Readable(v, f, bytes)
    ensures Anchored(v, Landed(v, f, bytes)) && (Synced(v, Landed(v, f, bytes)) <==> bytes == 0)
  {
    LastBefore(f.offset, bytes);
  }

  /** In particular every read within the file's size gets through, when the chain holds its last byte. */
  lemma {:induction false} WithinSizeReadable(v: Volume, f: File, bytes: nat)
    requires v.Mounted() && Synced(v, f) && f.offset + bytes <= f.size
    requires bytes > 0 ==> Reaches(v, f.first, f.offset + bytes - 1)
    ensures Readable(v, f, bytes)
  {
    LastBefore(f.offset, bytes);
    if bytes > 0 {
      ReachesShorter(v, f.first, LastStart(f.offset, bytes), f.offset + bytes - 1);
    }
  }

  // ---------------------------------------------------------------- reading on

  /** What a read leaves behind: the offset is where its last chunk began, and the byte index that of `at`, in the same
      sector or at its end. */
  predicate Behind(v: Volume, f: File, at: nat)
    requires v.Mounted()
  {
    && Anchored(v, f) && f.sector == Decompose(v, f.offset).sector
    && f.offset <= at && f.byte == f.offset % SECTOR_SIZE + (at - f.offset) <= SECTOR_SIZE
  }

  lemma {:induction false} LandedIsBehind(v: Volume, f: File, bytes: nat)
    requires v.Mounted() && Synced(v, f) && f.offset + bytes <= MODULUS_32 && Readable(v, f, bytes)
    ensures Behind(v, Landed(v, f, bytes), f.offset + bytes)
    ensures Landed(v, f, bytes).first == f.first && Landed(v, f, bytes).offset == LastStart(f.offset, bytes)
    ensures Landed(v, f, bytes).size == f.size
  {
    var last := LastStart(f.offset, bytes);
    LastBefore(f.offset, bytes);
    ByteOf(v, last);
  }

  lemma {:induction false} BytesBehind(v: Volume, f: File, at: nat, n: nat)
    requires v.Mounted() && Behind(v, f, at) && f.byte + n <= SECTOR_SIZE && at + n <= MODULUS_32
    ensures FileBytes(v, f.first, at, v.disk(v.SectorLba(f.current, f.sector))[f.byte..f.byte + n])
  {
    hide ByteAt;
    var g, skip := f.(byte := f.offset % SECTOR_SIZE), at - f.offset;
    ByteOf(v, f.offset);
    var bytes := v.disk(v.SectorLba(f.current, f.sector))[f.byte..f.byte + n];
    forall i | 0 <= i < n ensures ByteAt(v, f.first, at + i, bytes[i]) {
      SectorByte(v, g, skip + i);
    }
  }

  /** A read that goes on where another one left the file, as far as the sector goes: it delivers the bytes that
      follow. */
  lemma {:induction false} ReadWithin(v: Volume, f: File, at: nat, bytes: nat)
    requires v.Mounted() && Behind(v, f, at) && at + bytes <= MODULUS_32 && bytes <= SECTOR_SIZE - f.byte
    ensures var out := ReadAll(v, Start(f, bytes));
      && out.phase == Finished(0) && |out.delivered| == bytes && FileBytes(v, f.first, at, out.delivered)
      && out.file == f.(byte := f.byte + bytes) && Behind(v, out.file, at + bytes)
  {
    hide ReadAll, SeekWhence, Decompose, FileBytes;
    CopyStep(v, Start(f, bytes));
    BytesBehind(v, f, at, bytes);
    var copied := v.disk(v.SectorLba(f.current, f.sector))[f.byte..f.byte + bytes];
    assert [] + copied == copied;
  }

  /** Beyond the sector: the rest is taken from the offset plus as many bytes, so from the wrong place unless the offset
      is `at`. */
  lemma {:induction false} ReadBeyond(v: Volume, f: File, at: nat, bytes: nat)
    requires v.Mounted() && Behind(v, f, at) && at + bytes <= MODULUS_32 && bytes > SECTOR_SIZE - f.byte
    ensures var out, room := ReadAll(v, Start(f, bytes)), SECTOR_SIZE - f.byte;
      if f.offset + room <= f.size && Reaches(v, f.first, f.offset + room) then
        var g := Seek(v, f, f.offset + room).file;
        && Synced(v, g) && g.offset == f.offset + room && g.first == f.first && g.size == f.size
        && room <= |out.delivered| && FileBytes(v, f.first, at, out.delivered[..room])
        && FileBytes(v, f.first, g.offset, out.delivered[room..])
        && (if Readable(v, g, bytes - room)
            then out.phase == Finished(0) && |out.delivered| == bytes && out.file == Landed(v, g, bytes - room)
            else out.phase == Finished(1) && |out.delivered| < bytes)
      else out.phase == Finished(1) && |out.delivered| == room && FileBytes(v, f.first, at, out.delivered)
  {
    hide ReadAll, Seek, SeekWhence, Synced, Reaches, Decompose, FileBytes, Readable, Landed;
    var r, room := Start(f, bytes), SECTOR_SIZE - f.byte;
    CopyStep(v, r);
    BytesBehind(v, f, at, room);
    var copied := v.disk(v.SectorLba(f.current, f.sector))[f.byte..f.byte + room];
    assert [] + copied == copied;
    var got := r.(delivered := copied, remaining := bytes - room);
    NextSector(v, f, room);
    var o := Seek(v, f, f.offset + room);
    SyncedByte(v, o.file);
    SeekInside(v, got, room);
    if o.status == 0 {
      ReadFrom(v, Resume(got, o.file, Reply(0)));
      assert ReadAll(v, r).delivered[..room] == copied;
    } else {
      FinishedStays(v, Resume(got, o.file, Reply(o.status)));
    }
  }

  /** The file has the same byte `i` places behind both offsets. */
  ghost predicate SameByte(v: Volume, first: Word, a: nat, b: nat, i: nat)
    requires v.Mounted()
  {
    && a + i < MODULUS_32 && b + i < MODULUS_32 && Reaches(v, first, a + i) && Reaches(v, first, b + i)
    && FileByte(v, first, a + i) == FileByte(v, first, b + i)
  }

  /** A second read gets through: it ends in the sector the first one ended in, or the seek and the read that it then
      makes are possible. */
  predicate ReadableOn(v: Volume, f: File, bytes: nat, more: nat)
    requires v.Mounted() && Synced(v, f) && f.offset + bytes + more <= MODULUS_32 && Readable(v, f, bytes)
  {
    var room, last := SECTOR_SIZE - Landed(v, f, bytes).byte, LastStart(f.offset, bytes);
    LastSector(f.offset, bytes);
    more <= room ||
    (last + room <= f.size && Reaches(v, f.first, last + room) && Readable(v, f.(offset := last + room), more - room))
  }

  /** A second read succeeds exactly then.  The two reads in a row have delivered consecutive bytes exactly when the
      second stays within the sector the first one ended in, or the bytes behind that happen to be those that follow the
      start of the first one's last chunk. */
  lemma {:induction false} SecondRead(v: Volume, f: File, bytes: nat, more: nat)
    requires v.Mounted() && Synced(v, f) && f.offset + bytes + more <= MODULUS_32 && Readable(v, f, bytes)
    ensures var out, at := ReadAll(v, Start(Landed(v, f, bytes), more)), f.offset + bytes;
      var room, last := SECTOR_SIZE - Landed(v, f, bytes).byte, LastStart(f.offset, bytes);
      if ReadableOn(v, f, bytes, more) then
        && out.phase == Finished(0) && |out.delivered| == more
        && (FileBytes(v, f.first, at, out.delivered)
            <==> forall i :: room <= i < more ==> SameByte(v, f.first, at, last, i))
      else out.phase == Finished(1) && |out.delivered| < more
  {
    hide ReadAll, Seek, Synced, Reaches, Decompose, Landed, ByteAt, LastStart, SameByte;
    var g, at := Landed(v, f, bytes), f.offset + bytes;
    LandedIsBehind(v, f, bytes);
    var out, room, last := ReadAll(v, Start(g, more)), SECTOR_SIZE - g.byte, LastStart(f.offset, bytes);
    if more <= room {
      ReadWithin(v, g, at, more);
    } else {
      ReadBeyond(v, g, at, more);
      if ReadableOn(v, f, bytes, more) { Spliced(v, f.first, at, last, room, out.delivered); }
    }
  }

  /** Bytes the first `room` of which are those from `at` on, and the others those that far behind `last`. */
  lemma {:induction false} Spliced(v: Volume, first: Word, at: nat, last: nat, room: nat, bytes: seq<Byte>)
    requires v.Mounted() && room <= |bytes|
    requires FileBytes(v, first, at, bytes[..room]) && FileBytes(v, first, last + room, bytes[room..])
    ensures FileBytes(v, first, at, bytes) <==> forall i :: room <= i < |bytes| ==> SameByte(v, first, at, last, i)
  {
    hide ByteAt, SameByte;
    forall i | 0 <= i < room ensures ByteAt(v, first, at + i, bytes[i]) {
      assert bytes[..room][i] == bytes[i];
    }
    forall i | room <= i < |bytes| ensures SameByte(v, first, at, last, i) <==> ByteAt(v, first, at + i, bytes[i]) {
      assert bytes[room..][i - room] == bytes[i];
      assert last + room + (i - room) == last + i;
      SameByteIs(v, first, at, last, i, bytes[i]);
    }
  }

  lemma {:induction false} SameByteIs(v: Volume, first: Word, a: nat, b: nat, i: nat, c: Byte)
    requires v.Mounted() && ByteAt(v, first, b + i, c)
    ensures SameByte(v, first, a, b, i) <==> ByteAt(v, first, a + i, c)
  {
  }

  lemma {:induction false} OneByte(v: Volume, first: Word, at: nat, b: Byte)
    requires v.Mounted() && ByteAt(v, first, at, b)
    ensures forall c: Byte :: ByteAt(v, first, at, c) ==> c == b
  {
  }

  /** So a file read sector by sector delivers its first sector every time. */
  lemma {:induction false} SectorAgain(v: Volume, f: File)
    requires v.Mounted() && Synced(v, f) && f.offset % SECTOR_SIZE == 0 && f.offset + SECTOR_SIZE <= f.size
    ensures Readable(v, f, SECTOR_SIZE) && f.offset + SECTOR_SIZE <= MODULUS_32
    ensures var first, second := ReadAll(v, Start(f, SECTOR_SIZE)),
            ReadAll(v, Start(Landed(v, f, SECTOR_SIZE), SECTOR_SIZE));
      first.phase == second.phase == Finished(0) && second.delivered == first.delivered
  {
    hide ReadAll, Seek, Synced, Reaches, Decompose, FileBytes, Landed;
    var g := Landed(v, f, SECTOR_SIZE);
    LastWithin(f.offset, SECTOR_SIZE);
    LandedHere(v, f, SECTOR_SIZE);
    SyncedByte(v, f);
    ReadExact(v, f, SECTOR_SIZE);
    LandedIsBehind(v, f, SECTOR_SIZE);
    ReadBeyond(v, g, f.offset + SECTOR_SIZE, SECTOR_SIZE);
    var h := Seek(v, g, f.offset).file;
    LandedHere(v, h, SECTOR_SIZE);
    var a, b := ReadAll(v, Start(f, SECTOR_SIZE)).delivered, ReadAll(v, Start(g, SECTOR_SIZE)).delivered;
    assert b[0..] == b;
    SameBytes(v, f.first, f.offset, a, b);
  }

  lemma {:induction false} SameBytes(v: Volume, first: Word, offset: nat, a: seq<Byte>, b: seq<Byte>)
    requires v.Mounted() && FileBytes(v, first, offset, a) && FileBytes(v, first, offset, b) && |a| == |b|
    ensures a == b
  {
    forall i | 0 <= i < |a| ensures a[i] == b[i] {
      OneByte(v, first, offset + i, a[i]);
    }
  }

  // ---------------------------------------------------------------- the context that is updated in place

  /** fs_read_ctx_t.  `position` is how far the destination pointer has moved. */
  class ReadContext {
    const file: OpenFile
    const buffer: array<Byte>
    var position: nat
    var remaining: nat
    var done: Option<int>         // the status the caller was called back with
    var seek: SeekContext?        // the seek under way

    ghost predicate Valid()
      reads this, seek
    {
      && position + remaining <= buffer.Length
      && (seek != null ==> done.None? && seek.file == file && seek.remaining > 0)
    }

    function Now(): Reader
      reads this, file, buffer, seek
      requires position <= buffer.Length
    {
      Reader(file.Now(), buffer[..position], remaining,
             if done.Some? then Finished(done.value) else if seek != null then Seeking(seek.Now()) else Copying)
    }

    /** fs_read_submit; the sector asked for is `lba`. */
    constructor (v: Volume, file: OpenFile, buffer: array<Byte>, bytes: nat)
      requires bytes <= buffer.Length
      ensures Valid() && this.file == file && this.buffer == buffer && seek == null
      ensures Now() == Start(file.Now(), bytes)
    {
      this.file, this.buffer, position, remaining, done, seek := file, buffer, 0, bytes, None, null;
      new;
      assert buffer[..0] == [];
    }

    /** The sector the context waits for. */
    method Request(v: Volume) returns (lba: Option<Word>)
      requires Valid()
      ensures lba == Wanted(v, Now())
    {
      if done.Some? {
        lba := None;
      } else if seek != null {
        lba := Some(v.fatLba(seek.cluster));
      } else {
        lba := Some(v.SectorLba(file.current, file.sector));
      }
    }

    /** fs_read_step as the seek's callback. */
    method Resumed(reply: Option<int>, ctx: SeekContext?)
      requires position + remaining <= buffer.Length && done.None? && (reply.None? <==> ctx != null)
      requires ctx != null ==> ctx.file == file && ctx.remaining > 0
      modifies this`done, this`seek
      ensures Valid()
      ensures Now() == Resume(old(Now()), file.Now(), if ctx == null then Reply(reply.value) else Await(0, ctx.Now()))
      ensures seek == ctx
    {
      seek := ctx;
      if reply.Some? && reply.value != 0 {
        done := Some(1);
      }
    }

    /** The copying loop of fs_read_step. */
    method CopyOut(n: nat, rx: Sector)
      requires position + n <= buffer.Length && file.byte + n <= SECTOR_SIZE
      modifies buffer
      ensures buffer[..position + n] == old(buffer[..position]) + rx[file.byte..file.byte + n]
    {
      for i := 0 to n
        invariant buffer[..position + i] == old(buffer[..position]) + rx[file.byte..file.byte + i]
      {
        buffer[position + i] := rx[file.byte + i];
        assert buffer[..position + (i + 1)] == buffer[..position + i] + [rx[file.byte + i]];
        assert rx[file.byte..file.byte + (i + 1)] == rx[file.byte..file.byte + i] + [rx[file.byte + i]];
      }
    }

    /** fs_read_step, for the sector asked for: a file sector is copied out, a table sector moves the seek on. */
    method StepOn(v: Volume, status: int, rx: Sector)
      requires v.Mounted() && Valid() && Live(Now()) && remaining < 0x8000_0000
      modifies this, file, buffer, seek
      ensures Valid() && Now() == ReadStep(v, old(Now()), status, rx)
      ensures seek == null || seek == old(seek) || fresh(seek)
    {
      hide SeekStep, SeekSubmit, Decompose;
      if seek != null {
        var reply, _ := seek.Step(v, status, rx);
        Resumed(reply, if reply.None? then seek else null);
        return;
      }
      if status != 0 {
        done := Some(1);
        return;
      }
      var n := Chunk(file.Now(), remaining);
      CopyOut(n, rx);
      position, remaining := position + n, remaining - n;
      if remaining == 0 {
        file.byte := file.byte + n;
        done := Some(0);
        return;
      }
      var reply, _, ctx := SubmitWhence(v, file, n, SeekCur);
      Resumed(reply, ctx);
    }
  }
}
