/** Seeks, reads and opens together on one request queue and one sector buffer (kernel/fs/fs_seek.c,
kernel/fs/fs_read.c and kernel/fs/fs_open.c over kernel/io/io_scheduler.c).

Each operation has its own file and context.  Whatever the interleaving, every operation goes through the states it
would go through alone.
*/
module FsSystem {
  import opened Options
  import opened Words
  import opened IoScheduler
  import opened Volume
  import FsSeek
  import FsRead
  import FsOpen

  datatype Machine =
    | Seeking(file: File, walk: FsSeek.Walk)
    | Sought(file: File, status: int)
    | Reading(reader: FsRead.Reader)
    | Opening(opener: FsOpen.Opener)

  /** A machine whose callback can be made. */
  predicate Runs(m: Machine) {
    match m
    case Seeking(_, w) => w.remaining > 0
    case Sought(_, _) => false
    case Reading(r) => FsRead.Live(r)
    case Opening(o) => FsOpen.Live(o)
  }

  /** The sector it waits for. */
  function Wanted(v: Volume, m: Machine): Option<Word> {
    if !Runs(m) then None
    else match m
      case Seeking(_, w) => Some(v.fatLba(w.cluster))
      case Reading(r) => FsRead.Wanted(v, r)
      case Opening(o) => FsOpen.Wanted(v, o)
      case _ => None
  }

  /** Its callback. */
  function MachineStep(v: Volume, m: Machine, status: int, rx: Sector): Machine
    requires v.Mounted() && Runs(m)
  {
    match m
    case Seeking(f, w) =>
      var (f', p) := FsSeek.SeekStep(v, f, w, status, rx);
      (match p
       case Reply(s) => Sought(f', s)
       case Await(_, w') => Seeking(f', w'))
    case Reading(r) => Reading(FsRead.ReadStep(v, r, status, rx))
    case Opening(o) => Opening(FsOpen.OpenStep(v, o, status, rx))
  }

  type Clients = map<nat, Machine>

  /** A machine asks for its next sector at the end of its callback. */
  function Callback(v: Volume, c: Clients, op: nat, status: int, rx: Sector): (Clients, seq<Post>)
    requires v.Mounted()
  {
    if op in c && Runs(c[op]) then
      var m := MachineStep(v, c[op], status, rx);
      (c[op := m], if Wanted(v, m).Some? then [Post(op, Wanted(v, m).value)] else [])
    else (c, [])
  }

  function SystemOf(v: Volume): World<Clients>
    requires v.Mounted()
  {
    World(v.disk, (c, op, status, rx) => Callback(v, c, op, status, rx))
  }

  /** `n` callbacks of one machine by itself, each with the sector it asked for. */
  function Solo(v: Volume, m: Machine, n: nat): Machine
    requires v.Mounted()
    decreases n
  {
    if n == 0 then m
    else
      var before := Solo(v, m, n - 1);
      if Wanted(v, before).Some? then MachineStep(v, before, 0, v.disk(Wanted(v, before).value)) else before
  }

  function Count(ps: seq<Post>, op: nat): nat
    decreases |ps|
  {
    if ps == [] then 0 else Count(ps[..|ps| - 1], op) + if ps[|ps| - 1].op == op then 1 else 0
  }

  // ---------------------------------------------------------------- what holds in every run

  function Pending(q: Queue<Clients>): seq<Post> {
    InFlight(q) + q.waiting
  }

  /** A pending request is what its machine waits for. */
  predicate Owned(v: Volume, c: Clients, p: Post) {
    p.op in c && Wanted(v, c[p.op]) == Some(p.lba)
  }

  ghost predicate AllOwned(v: Volume, c: Clients, ps: seq<Post>) {
    && (forall i :: 0 <= i < |ps| ==> Owned(v, c, ps[i]))
    && forall i, j :: 0 <= i < j < |ps| ==> ps[i].op != ps[j].op
  }

  ghost predicate Among(ps: seq<Post>, op: nat) {
    exists i :: 0 <= i < |ps| && ps[i].op == op
  }

  /** A started operation that is not over has its request in the queue. */
  ghost predicate Served(v: Volume, q: Queue<Clients>) {
    forall op :: op in q.client && Among(q.submitted, op) && Wanted(v, q.client[op]).Some? ==> Among(Pending(q), op)
  }

  /** Every operation is where it would be alone after as many callbacks. */
  ghost predicate Apart(v: Volume, c0: Clients, q: Queue<Clients>)
    requires v.Mounted()
  {
    && q.client.Keys == c0.Keys
    && forall op :: op in c0 ==> q.client[op] == Solo(v, c0[op], Count(q.completed, op))
  }

  ghost predicate Consistent(v: Volume, c0: Clients, q: Queue<Clients>)
    requires v.Mounted()
  {
    Sound(q) && AllOwned(v, q.client, Pending(q)) && Served(v, q) && Apart(v, c0, q)
  }

  /** An operation is started once, with the request its machine starts with. */
  ghost predicate Fair(v: Volume, c0: Clients, q: Queue<Clients>, es: seq<Event>)
    requires v.Mounted()
    decreases |es|
  {
    es == [] || (
      && (es[0].Submit? ==> Owned(v, c0, es[0].post) && !Among(q.submitted, es[0].post.op))
      && Fair(v, c0, Step(SystemOf(v), q, es[0]), es[1..]))
  }

  lemma {:induction false} CountAmong(ps: seq<Post>, op: nat)
    ensures Count(ps, op) > 0 <==> Among(ps, op)
    decreases |ps|
  {
    if ps != [] {
      var rest := ps[..|ps| - 1];
      CountAmong(rest, op);
      if Among(rest, op) {
        var i :| 0 <= i < |rest| && rest[i].op == op;
        assert ps[i].op == op;
      }
      if ps[|ps| - 1].op != op && Among(ps, op) {
        var i :| 0 <= i < |ps| && ps[i].op == op;
        assert rest[i].op == op;
      }
    }
  }

  lemma {:induction false} CountAppend(ps: seq<Post>, p: Post, op: nat)
    ensures Count(ps + [p], op) == Count(ps, op) + if p.op == op then 1 else 0
  {
    assert (ps + [p])[..|ps|] == ps;
  }

  lemma {:induction false} AmongAppend(ps: seq<Post>, p: Post, op: nat)
    ensures Among(ps + [p], op) <==> Among(ps, op) || p.op == op
  {
    if Among(ps, op) {
      var i :| 0 <= i < |ps| && ps[i].op == op;
      assert (ps + [p])[i].op == op;
    }
    if p.op == op { assert (ps + [p])[|ps|].op == op; }
  }

  lemma {:induction false} SubmitKeeps(v: Volume, c0: Clients, q: Queue<Clients>, p: Post)
    requires v.Mounted() && Consistent(v, c0, q) && Owned(v, c0, p) && !Among(q.submitted, p.op)
    ensures Consistent(v, c0, Enqueue(q, p))
  {
    var out := Enqueue(q, p);
    EnqueueKeeps(q, [p]);
    assert EnqueueAll(q, [p]) == out;
    assert Pending(out) == Pending(q) + [p];
    CountAmong(q.completed, p.op);
    AmongPart(q.completed, Pending(q), p.op);
    assert q.completed + Pending(q) == q.submitted;
    assert q.client[p.op] == c0[p.op];
    forall i | 0 <= i < |Pending(q)| ensures Pending(q)[i].op != p.op {
      assert Among(Pending(q), Pending(q)[i].op);
    }
    forall op | op in out.client && Among(out.submitted, op) && Wanted(v, out.client[op]).Some?
      ensures Among(Pending(out), op)
    {
      AmongAppend(q.submitted, p, op);
      AmongAppend(Pending(q), p, op);
    }
  }

  lemma {:induction false} AmongPart(a: seq<Post>, b: seq<Post>, op: nat)
    ensures Among(a + b, op) <==> Among(a, op) || Among(b, op)
  {
    if Among(a, op) {
      var i :| 0 <= i < |a| && a[i].op == op;
      assert (a + b)[i].op == op;
    }
    if Among(b, op) {
      var i :| 0 <= i < |b| && b[i].op == op;
      assert (a + b)[|a| + i].op == op;
    }
    if Among(a + b, op) {
      var i :| 0 <= i < |a + b| && (a + b)[i].op == op;
      if i < |a| { assert a[i].op == op; } else { assert b[i - |a|].op == op; }
    }
  }

  /** A handled completion: only its own machine moves, and only that machine's next request joins the queue. */
  lemma {:induction false} PumpKeeps(v: Volume, c0: Clients, q: Queue<Clients>)
    requires v.Mounted() && Consistent(v, c0, q) && q.flying.Some?
    ensures Consistent(v, c0, Handle(SystemOf(v), q))
  {
    hide Solo, MachineStep, Wanted, Sound, Count, Runs, EnqueueAll;
    var w, p, out := SystemOf(v), q.flying.value, Handle(SystemOf(v), q);
    var (client, posts) := Callback(v, q.client, p.op, 0, v.disk(p.lba));
    HandleEffect(w, q);
    assert Pending(q)[0] == p && Owned(v, q.client, p);
    PendingAfter(q, out, p, posts);
    CallbackEffect(v, q.client, p);
    StillOwned(v, q.client, client, p, q.waiting, posts);
    forall op | op in out.client && Among(out.submitted, op) && Wanted(v, out.client[op]).Some?
      ensures Among(Pending(out), op)
    {
      AmongPart(q.submitted, posts, op);
      AmongPart(q.waiting, posts, op);
      AmongPart([p], q.waiting, op);
      assert Pending(q) == [p] + q.waiting;
      if op == p.op { assert posts[0].op == op; }
    }
    forall op | op in c0 ensures out.client[op] == Solo(v, c0[op], Count(out.completed, op)) {
      CountAppend(q.completed, p, op);
      if op == p.op { SoloNext(v, c0[op], Count(q.completed, op)); }
    }
  }

  lemma {:induction false} SoloNext(v: Volume, m: Machine, n: nat)
    requires v.Mounted() && Wanted(v, Solo(v, m, n)).Some?
    ensures Solo(v, m, n + 1) == MachineStep(v, Solo(v, m, n), 0, v.disk(Wanted(v, Solo(v, m, n)).value))
  {
  }

  lemma {:induction false} PendingAfter(q: Queue<Clients>, out: Queue<Clients>, p: Post, posts: seq<Post>)
    requires Sound(q) && Sound(out) && q.flying == Some(p)
    requires out.completed == q.completed + [p] && out.submitted == q.submitted + posts
    ensures Pending(out) == q.waiting + posts
  {
    assert out.completed + Pending(out) == out.submitted;
    assert out.submitted == out.completed + (q.waiting + posts);
    assert out.submitted[|out.completed|..] == Pending(out);
  }

  lemma {:induction false} CallbackEffect(v: Volume, c: Clients, p: Post)
    requires v.Mounted() && Owned(v, c, p)
    ensures var (client, posts) := Callback(v, c, p.op, 0, v.disk(p.lba));
      && Runs(c[p.op]) && client == c[p.op := MachineStep(v, c[p.op], 0, v.disk(p.lba))]
      && |posts| <= 1 && (Wanted(v, client[p.op]).Some? <==> |posts| == 1)
      && forall i :: 0 <= i < |posts| ==> posts[i].op == p.op && Owned(v, client, posts[i])
  {
    hide MachineStep;
  }

  lemma {:induction false} StillOwned(v: Volume, c: Clients, c': Clients, p: Post, waiting: seq<Post>, posts: seq<Post>)
    requires AllOwned(v, c, [p] + waiting) && p.op in c' && c' == c[p.op := c'[p.op]] && |posts| <= 1
    requires forall i :: 0 <= i < |posts| ==> posts[i].op == p.op && Owned(v, c', posts[i])
    ensures AllOwned(v, c', waiting + posts)
  {
    hide Wanted;
    forall i | 0 <= i < |waiting| ensures waiting[i].op != p.op && Owned(v, c', waiting[i]) {
      assert ([p] + waiting)[i + 1] == waiting[i] && ([p] + waiting)[0] == p;
    }
    forall i, j | 0 <= i < j < |waiting| ensures waiting[i].op != waiting[j].op {
      assert ([p] + waiting)[i + 1] == waiting[i] && ([p] + waiting)[j + 1] == waiting[j];
    }
  }

  /** In every run, however the operations interleave: each is in the state it would reach alone after its callbacks
      so far, its request is queued as long as it is not over, and no two requests are the same operation's. */
  lemma {:induction false} Interleaved(v: Volume, c0: Clients, q: Queue<Clients>, es: seq<Event>)
    requires v.Mounted() && Consistent(v, c0, q) && Fair(v, c0, q, es)
    ensures Consistent(v, c0, Run(SystemOf(v), q, es))
    decreases |es|
  {
    hide Consistent, Handle, Enqueue;
    if es != [] {
      StepConsistent(v, c0, q, es[0]);
      Interleaved(v, c0, Step(SystemOf(v), q, es[0]), es[1..]);
    }
  }

  lemma {:induction false} StepConsistent(v: Volume, c0: Clients, q: Queue<Clients>, e: Event)
    requires v.Mounted() && Consistent(v, c0, q)
    requires e.Submit? ==> Owned(v, c0, e.post) && !Among(q.submitted, e.post.op)
    ensures Consistent(v, c0, Step(SystemOf(v), q, e))
  {
    hide Handle, Enqueue, Owned;
    match e
    case Submit(p) => SubmitKeeps(v, c0, q, p);
    case Irq => assert q.flying.Some? ==> Pending(q.(ready := true)) == Pending(q);
    case Pump => if q.ready && q.flying.Some? { PumpKeeps(v, c0, q); }
  }

  lemma {:induction false} IdleConsistent(v: Volume, c0: Clients)
    requires v.Mounted()
    ensures Consistent(v, c0, Idle(c0))
  {
  }

  /** So from an idle card on, whatever is started and whenever the interrupts and pumps come. */
  lemma {:induction false} EveryRun(v: Volume, c0: Clients, es: seq<Event>)
    requires v.Mounted() && Fair(v, c0, Idle(c0), es)
    ensures Consistent(v, c0, Run(SystemOf(v), Idle(c0), es))
  {
    hide Consistent, Fair;
    IdleConsistent(v, c0);
    Interleaved(v, c0, Idle(c0), es);
  }

  /** A status other than 0 from the card ends whatever was under way with a failure, and leaves the file as it was. */
  lemma {:induction false} CardError(v: Volume, m: Machine, status: int, rx: Sector)
    requires v.Mounted() && Runs(m) && status != 0
    ensures !Runs(MachineStep(v, m, status, rx))
    ensures match m
      case Seeking(f, _) => MachineStep(v, m, status, rx) == Sought(f, -1)
      case Reading(r) => MachineStep(v, m, status, rx) == Reading(r.(phase := FsRead.Finished(1)))
      case Opening(o) => MachineStep(v, m, status, rx) == Opening(o.(phase := FsOpen.Error))
      case Sought(_, _) => true
  {
  }

  // ---------------------------------------------------------------- what an operation alone comes to

  lemma {:induction false} SoloRead(v: Volume, r: FsRead.Reader, n: nat)
    requires v.Mounted() && FsRead.Live(r)
    ensures var m := Solo(v, Reading(r), n);
      && m.Reading? && (FsRead.Live(m.reader) || m.reader.phase.Finished?)
      && FsRead.ReadAll(v, m.reader) == FsRead.ReadAll(v, r)
    decreases n
  {
    hide FsRead.ReadStep;
    if n > 0 {
      SoloRead(v, r, n - 1);
    }
  }

  lemma {:induction false} SoloSeek(v: Volume, f: File, w: FsSeek.Walk, n: nat)
    requires v.Mounted() && w.remaining > 0
    ensures var m, o := Solo(v, Seeking(f, w), n), FsSeek.WalkOn(v, f, w);
      match m
      case Seeking(f', w') =>
        w'.remaining > 0 && FsSeek.WalkOn(v, f', w').file == o.file && FsSeek.WalkOn(v, f', w').status == o.status
      case Sought(f', status) => f' == o.file && status == o.status
      case _ => false
    decreases n
  {
    hide FsSeek.SeekStep;
    if n > 0 {
      SoloSeek(v, f, w, n - 1);
    }
  }

  lemma {:induction false} SoloOpen(v: Volume, o: FsOpen.Opener, n: nat)
    requires v.Mounted()
    ensures Solo(v, Opening(o), n) == Opening(FsOpen.Steps(v, o, n))
    decreases n
  {
    hide FsOpen.OpenStep, FsOpen.Steps;
    if n == 0 {
      NoStep(v, o);
    } else {
      SoloOpen(v, o, n - 1);
      var before := FsOpen.Steps(v, o, n - 1);
      FsOpen.StepsJoin(v, o, n - 1, 1);
      if FsOpen.Live(before) { FsOpen.OneStep(v, before); } else { FsOpen.OverStays(v, before, 1); }
    }
  }

  lemma {:induction false} NoStep(v: Volume, o: FsOpen.Opener)
    ensures FsOpen.Steps(v, o, 0) == o
  {
  }

  /** The first callback, and the others after it. */
  lemma {:induction false} SoloShift(v: Volume, m: Machine, n: nat)
    requires v.Mounted() && Wanted(v, m).Some?
    ensures Solo(v, m, n + 1) == Solo(v, MachineStep(v, m, 0, v.disk(Wanted(v, m).value)), n)
    decreases n
  {
    hide MachineStep, Wanted;
    if n > 0 { SoloShift(v, m, n - 1); } else { assert Solo(v, m, 0) == m; }
  }

  /** An operation that is over stays as it is. */
  lemma {:induction false} SoloStays(v: Volume, m: Machine, a: nat, b: nat)
    requires v.Mounted() && a <= b && Wanted(v, Solo(v, m, a)).None?
    ensures Solo(v, m, b) == Solo(v, m, a)
    decreases b
  {
    hide MachineStep, Wanted;
    if a < b { SoloStays(v, m, a, b - 1); }
  }

  lemma {:induction false} SoloReadEnds(v: Volume, r: FsRead.Reader) returns (n: nat)
    requires v.Mounted() && (FsRead.Live(r) || r.phase.Finished?)
    ensures Solo(v, Reading(r), n) == Reading(FsRead.ReadAll(v, r)) && FsRead.ReadAll(v, r).phase.Finished?
    decreases r.remaining, FsRead.Rank(r), !r.phase.Finished?
  {
    hide FsRead.ReadStep, Solo;
    if r.phase.Finished? {
      n := 0;
      SoloNone(v, Reading(r));
    } else {
      var m := SoloReadEnds(v, FsRead.ReadStep(v, r, 0, v.disk(FsRead.Wanted(v, r).value)));
      SoloShift(v, Reading(r), m);
      n := m + 1;
    }
  }

  lemma {:induction false} SoloNone(v: Volume, m: Machine)
    requires v.Mounted()
    ensures Solo(v, m, 0) == m
  {
  }

  lemma {:induction false} SoloSeekEnds(v: Volume, f: File, w: FsSeek.Walk) returns (n: nat)
    requires v.Mounted() && w.remaining > 0
    ensures var o := FsSeek.WalkOn(v, f, w); Solo(v, Seeking(f, w), n) == Sought(o.file, o.status)
    decreases w.remaining
  {
    hide FsSeek.SeekStep, Solo;
    var (f', p) := FsSeek.SeekStep(v, f, w, 0, v.disk(v.fatLba(w.cluster)));
    if p.Await? {
      var m := SoloSeekEnds(v, f', p.walk);
      SoloShift(v, Seeking(f, w), m);
      n := m + 1;
    } else {
      n := 1;
      SoloShift(v, Seeking(f, w), 0);
      SoloNone(v, Sought(f', p.status));
    }
  }

  // ---------------------------------------------------------------- results under interleaving

  /** A read that is over has delivered what it would have delivered alone: the file's bytes, all of them exactly when
      the read is possible. */
  lemma {:induction false} InterleavedRead(v: Volume, c0: Clients, q: Queue<Clients>, op: nat, f: File, bytes: nat)
    requires v.Mounted() && Consistent(v, c0, q) && op in c0 && c0[op] == Reading(FsRead.Start(f, bytes))
    requires Synced(v, f) && f.offset + bytes <= MODULUS_32
    ensures q.client[op].Reading?
    ensures var r := q.client[op].reader;
      r.phase.Finished? ==>
        && FsRead.FileBytes(v, f.first, f.offset, r.delivered)
        && (if FsRead.Readable(v, f, bytes) then r.phase == FsRead.Finished(0) && |r.delivered| == bytes
            else r.phase == FsRead.Finished(1))
  {
    hide FsRead.ReadAll, FsRead.FileBytes, FsRead.Readable, Solo, FsRead.Landed, Sound, Served, AllOwned;
    FsRead.SyncedByte(v, f);
    var n := Count(q.completed, op);
    SoloRead(v, FsRead.Start(f, bytes), n);
    FsRead.ReadExact(v, f, bytes);
    var r := q.client[op].reader;
    if r.phase.Finished? { FsRead.FinishedStays(v, r); }
  }

  /** A seek that had to walk ends as it would have alone. */
  lemma {:induction false} InterleavedSeek(v: Volume, c0: Clients, q: Queue<Clients>, op: nat, f: File, target: Word)
    requires v.Mounted() && Consistent(v, c0, q) && op in c0
    requires var (f', p) := FsSeek.SeekSubmit(v, f, target); p.Await? && c0[op] == Seeking(f', p.walk)
    ensures q.client[op].Sought? ==>
      q.client[op].file == FsSeek.Seek(v, f, target).file && q.client[op].status == FsSeek.Seek(v, f, target).status
  {
    hide Solo, Sound, Served, AllOwned;
    var (f', p) := FsSeek.SeekSubmit(v, f, target);
    SoloSeek(v, f', p.walk, Count(q.completed, op));
  }

  /** A search that is over found what the flat search finds. */
  lemma {:induction false} InterleavedOpen(v: Volume, c0: Clients, q: Queue<Clients>, op: nat, o: FsOpen.Opener)
    requires v.Mounted() && Consistent(v, c0, q) && op in c0 && c0[op] == Opening(o)
    requires FsOpen.Entering(v, o) && o.cluster == o.directory
    ensures q.client[op].Opening?
    ensures !FsOpen.Live(q.client[op].opener) ==> FoundFlat(v, o, q.client[op].opener)
  {
    hide Solo, Sound, Served, AllOwned, FsOpen.Steps, FsOpen.Resolve, FsOpen.Searched;
    var n := Count(q.completed, op);
    SoloOpen(v, o, n);
    var out := FsOpen.Steps(v, o, n);
    if !FsOpen.Live(out) {
      FsOpen.OpenEnds(v, o, n);
      var k := FsOpen.OpenExact(v, o);
      FsOpen.SameEnd(v, o, n, k);
    }
  }

  /** `out` is a search that has ended with what the flat search from `o` on finds. */
  ghost predicate FoundFlat(v: Volume, o: FsOpen.Opener, out: FsOpen.Opener) {
    match FsOpen.Resolve(v, o.directory, FsOpen.Searched(o.walker))
    case Names(e, directory) => out.phase == FsOpen.Opened(FsOpen.FileOf(e)) && out.directory == directory
    case Absent => out.phase == FsOpen.NotFound
    case Endless => false
  }

  // ---------------------------------------------------------------- progress

  lemma {:induction false} RoundsConsistent(v: Volume, c0: Clients, q: Queue<Clients>, k: nat)
    requires v.Mounted() && Consistent(v, c0, q)
    ensures Consistent(v, c0, Rounds(SystemOf(v), q, k))
    decreases k
  {
    hide Consistent, Step;
    if k > 0 {
      StepConsistent(v, c0, q, Irq);
      StepConsistent(v, c0, Step(SystemOf(v), q, Irq), Pump);
      RoundsConsistent(v, c0, Round(SystemOf(v), q), k - 1);
    }
  }

  lemma {:induction false} CountNone(ps: seq<Post>, k: nat, op: nat)
    requires k <= |ps| && forall i :: 0 <= i < k ==> ps[i].op != op
    ensures Count(ps[..k], op) == 0
    decreases k
  {
    if k > 0 {
      CountNone(ps, k - 1, op);
      assert ps[..k][..k - 1] == ps[..k - 1];
    }
  }

  lemma {:induction false} CountJoin(a: seq<Post>, b: seq<Post>, op: nat)
    ensures Count(a + b, op) == Count(a, op) + Count(b, op)
    decreases |b|
  {
    if b == [] {
      assert a + b == a;
    } else {
      var c, p := b[..|b| - 1], b[|b| - 1];
      assert a + b == a + c + [p];
      CountAppend(a + c, p, op);
      CountJoin(a, c, op);
    }
  }

  /** An operation that is not over is called back within as many interrupts as there are requests before its own. */
  lemma {:induction false} CalledBack(v: Volume, c0: Clients, q: Queue<Clients>, op: nat) returns (k: nat)
    requires v.Mounted() && Consistent(v, c0, q) && op in c0 && op in q.client
    requires Among(q.submitted, op) && Wanted(v, q.client[op]).Some?
    ensures k <= |Pending(q)| && Consistent(v, c0, Rounds(SystemOf(v), q, k))
    ensures Count(Rounds(SystemOf(v), q, k).completed, op) == Count(q.completed, op) + 1
    ensures q.submitted <= Rounds(SystemOf(v), q, k).submitted
  {
    hide Rounds, Wanted, Count, Sound, Served, AllOwned, Apart, Pending;
    var ps := Pending(q);
    PendingOf(v, c0, q, op);
    var i :| 0 <= i < |ps| && ps[i].op == op;
    k := i + 1;
    ServedInOrder(SystemOf(v), q, k);
    RoundsConsistent(v, c0, q, k);
    RoundsSubmitted(SystemOf(v), q, k);
    CountFirst(q.completed, ps, i, op);
    assert q.submitted[..|q.completed| + k] == q.completed + ps[..i + 1];
  }

  lemma {:induction false} PendingOf(v: Volume, c0: Clients, q: Queue<Clients>, op: nat)
    requires v.Mounted() && Consistent(v, c0, q) && op in c0
    ensures Sound(q) && q.submitted == q.completed + Pending(q) && op in q.client
    ensures Among(q.submitted, op) && Wanted(v, q.client[op]).Some? ==> Among(Pending(q), op)
    ensures forall a, b :: 0 <= a < b < |Pending(q)| ==> Pending(q)[a].op != Pending(q)[b].op
  {
    hide Wanted, Solo, Owned;
  }

  lemma {:induction false} CountFirst(done: seq<Post>, ps: seq<Post>, i: nat, op: nat)
    requires i < |ps| && ps[i].op == op && forall a, b :: 0 <= a < b < |ps| ==> ps[a].op != ps[b].op
    ensures Count(done + ps[..i + 1], op) == Count(done, op) + 1
  {
    assert ps[..i + 1] == ps[..i] + [ps[i]];
    CountJoin(done, ps[..i + 1], op);
    CountAppend(ps[..i], ps[i], op);
    CountNone(ps, i, op);
  }

  lemma {:induction false} RoundsSubmitted(w: World<Clients>, q: Queue<Clients>, k: nat)
    requires Sound(q)
    ensures q.submitted <= Rounds(w, q, k).submitted
    decreases k
  {
    hide Step;
    if k > 0 {
      StepKeeps(w, q, Irq);
      StepKeeps(w, Step(w, q, Irq), Pump);
      RoundsSubmitted(w, Round(w, q), k - 1);
    }
  }

  /** An operation that was started, and would be over alone after `n` callbacks, comes to the same end whatever else
      is in the queue. */
  lemma {:induction false} Completes(v: Volume, c0: Clients, q: Queue<Clients>, op: nat, n: nat) returns (k: nat)
    requires v.Mounted() && Consistent(v, c0, q) && op in c0 && Among(q.submitted, op)
    requires Wanted(v, Solo(v, c0[op], n)).None?
    ensures var r := Rounds(SystemOf(v), q, k);
            Consistent(v, c0, r) && op in r.client && r.client[op] == Solo(v, c0[op], n)
    decreases if Count(q.completed, op) < n then n - Count(q.completed, op) else 0
  {
    hide Rounds, Sound, Served, AllOwned, Wanted, Solo, Count, Among;
    var a := Count(q.completed, op);
    k := 0;
    NoRounds(SystemOf(v), q);
    if n <= a {
      SoloStays(v, c0[op], n, a);
    } else if Wanted(v, q.client[op]).None? {
      SoloStays(v, c0[op], a, n);
    } else {
      var j := CalledBack(v, c0, q, op);
      var next := Rounds(SystemOf(v), q, j);
      AmongMore(q.submitted, next.submitted, op);
      var rest := Completes(v, c0, next, op, n);
      RoundsJoin(SystemOf(v), q, j, rest);
      k := j + rest;
    }
  }

  lemma {:induction false} AmongMore(a: seq<Post>, b: seq<Post>, op: nat)
    requires Among(a, op) && a <= b
    ensures Among(b, op)
  {
    var i :| 0 <= i < |a| && a[i].op == op;
    assert b[i].op == op;
  }

  /** A started read comes to its end, which is the one it has alone. */
  lemma {:induction false} ReadCompletes(v: Volume, c0: Clients, q: Queue<Clients>, op: nat,
                     r: FsRead.Reader) returns (k: nat)
    requires v.Mounted() && Consistent(v, c0, q) && op in c0 && Among(q.submitted, op)
    requires c0[op] == Reading(r) && FsRead.Live(r)
    ensures var m := Rounds(SystemOf(v), q, k).client; op in m && m[op] == Reading(FsRead.ReadAll(v, r))
    ensures FsRead.ReadAll(v, r).phase.Finished?
  {
    hide Rounds, Consistent, Solo;
    var n := SoloReadEnds(v, r);
    k := Completes(v, c0, q, op, n);
  }

  /** So does a started seek. */
  lemma {:induction false} SeekCompletes(v: Volume, c0: Clients, q: Queue<Clients>, op: nat, f: File, w: FsSeek.Walk)
      returns (k: nat)
    requires v.Mounted() && Consistent(v, c0, q) && op in c0 && Among(q.submitted, op)
    requires c0[op] == Seeking(f, w) && w.remaining > 0
    ensures var m, o := Rounds(SystemOf(v), q, k).client, FsSeek.WalkOn(v, f, w);
            op in m && m[op] == Sought(o.file, o.status)
  {
    hide Rounds, Consistent, Solo;
    var n := SoloSeekEnds(v, f, w);
    k := Completes(v, c0, q, op, n);
  }

  /** And a started search, unless a directory's chain leads on for ever. */
  lemma {:induction false} OpenCompletes(v: Volume, c0: Clients, q: Queue<Clients>, op: nat,
                     o: FsOpen.Opener) returns (k: nat)
    requires v.Mounted() && Consistent(v, c0, q) && op in c0 && Among(q.submitted, op) && c0[op] == Opening(o)
    requires FsOpen.Entering(v, o) && o.cluster == o.directory
    requires FsOpen.Resolve(v, o.directory, FsOpen.Searched(o.walker)) != FsOpen.Endless
    ensures var m := Rounds(SystemOf(v), q, k).client; op in m && m[op].Opening? && FoundFlat(v, o, m[op].opener)
  {
    hide Rounds, Consistent, Solo, FsOpen.Steps, FsOpen.Resolve, FsOpen.Searched;
    var n := FsOpen.OpenExact(v, o);
    SoloOpen(v, o, n);
    k := Completes(v, c0, q, op, n);
  }

  lemma {:induction false} NoRounds(w: World<Clients>, q: Queue<Clients>)
    ensures Rounds(w, q, 0) == q
  {
  }

  lemma {:induction false} RoundsJoin(w: World<Clients>, q: Queue<Clients>, a: nat, b: nat)
    ensures Rounds(w, q, a + b) == Rounds(w, Rounds(w, q, a), b)
    decreases a
  {
    hide Round;
    if a > 0 {
      RoundsJoin(w, Round(w, q), a - 1, b);
    }
  }
}
