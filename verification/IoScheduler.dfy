/** The SD request queue and its completion ring (kernel/io/io_scheduler.c, drivers/spi/sd_irsq.c,
include/io/io_sd_ring.h).

The first part is the queue as a value and what holds in every run; the second is the linked queue and the wrapping
ring themselves, shown to behave like it.
*/
module IoScheduler {
  import opened Options
  import opened Words

  const SECTOR_SIZE: nat := 512
  const IRQ_RING_SIZE: nat := 8

  type Byte = x: int | 0 <= x < 256

  type Sector = s: seq<Byte> | |s| == SECTOR_SIZE witness seq(SECTOR_SIZE, _ => 0)

  /** A read request: the sector, and the operation whose callback it carries. */
  datatype Post = Post(op: nat, lba: Word)

  /** What the queue serves: the card's contents, and the callbacks.  A callback turns the clients' state, its own
      operation, the status and the sector buffer into a new state and the requests it submits, in order. */
  datatype World<!C> = World(disk: Word -> Sector, callback: (C, nat, int, Sector) -> (C, seq<Post>))

  // ---------------------------------------------------------------- the queue as a value

  /** `flying` has been started on the card; `ready` when its interrupt has come and is not handled yet. */
  datatype Queue<C> = Queue(waiting: seq<Post>, flying: Option<Post>, ready: bool, client: C,
                            submitted: seq<Post>, completed: seq<Post>)

  datatype Event = Submit(post: Post) | Irq | Pump

  function Idle<C>(client: C): Queue<C> {
    Queue([], None, false, client, [], [])
  }

  function Issue<C>(q: Queue<C>): Queue<C> {
    if q.flying.None? && q.waiting != [] then q.(flying := Some(q.waiting[0]), waiting := q.waiting[1..]) else q
  }

  function Enqueue<C>(q: Queue<C>, p: Post): Queue<C> {
    Issue(q.(waiting := q.waiting + [p], submitted := q.submitted + [p]))
  }

  function EnqueueAll<C>(q: Queue<C>, ps: seq<Post>): Queue<C>
    decreases |ps|
  {
    if ps == [] then q else EnqueueAll(Enqueue(q, ps[0]), ps[1..])
  }

  /** The callback of the request in flight and the requests it submits. */
  function Served<C>(w: World<C>, q: Queue<C>): Queue<C>
    requires q.flying.Some?
  {
    var p := q.flying.value;
    var (client, posts) := w.callback(q.client, p.op, 0, w.disk(p.lba));
    EnqueueAll(q.(flying := None, ready := false, client := client, completed := q.completed + [p]), posts)
  }

  /** After that the next one is started. */
  function Handle<C>(w: World<C>, q: Queue<C>): Queue<C>
    requires q.flying.Some?
  {
    Issue(Served(w, q))
  }

  /** One event.  The card interrupts once for a started read; a pump without a completion does nothing. */
  function Step<C>(w: World<C>, q: Queue<C>, e: Event): Queue<C> {
    match e
    case Submit(p) => Enqueue(q, p)
    case Irq => if q.flying.Some? then q.(ready := true) else q
    case Pump => if q.ready && q.flying.Some? then Handle(w, q) else q
  }

  function Run<C>(w: World<C>, q: Queue<C>, es: seq<Event>): Queue<C>
    decreases |es|
  {
    if es == [] then q else Run(w, Step(w, q, es[0]), es[1..])
  }

  function InFlight<C>(q: Queue<C>): seq<Post> {
    if q.flying.Some? then [q.flying.value] else []
  }

  /** Nothing is lost or served twice, in submission order; nothing waits while the card is idle. */
  ghost predicate Sound<C(!new)>(q: Queue<C>) {
    && q.submitted == q.completed + InFlight(q) + q.waiting
    && (q.flying.None? ==> q.waiting == [] && !q.ready)
  }

  /** The same inside a callback, when the queue may be behind an idle card. */
  ghost predicate Conserved<C(!new)>(q: Queue<C>) {
    q.submitted == q.completed + InFlight(q) + q.waiting
  }

  /** Whether a completion is in the ring makes no difference to submitting. */
  lemma {:induction false} EnqueueReady<C>(q: Queue<C>, p: Post, ready: bool)
    ensures Enqueue(q.(ready := ready), p) == Enqueue(q, p).(ready := ready)
  {
  }

  lemma {:induction false} EnqueueAllReady<C>(q: Queue<C>, ps: seq<Post>, ready: bool)
    ensures EnqueueAll(q.(ready := ready), ps) == EnqueueAll(q, ps).(ready := ready)
    decreases |ps|
  {
    hide Enqueue;
    if ps != [] {
      EnqueueReady(q, ps[0], ready);
      EnqueueAllReady(Enqueue(q, ps[0]), ps[1..], ready);
    }
  }

  lemma {:induction false} EnqueueKeeps<C(!new)>(q: Queue<C>, ps: seq<Post>)
    requires Conserved(q)
    ensures var out := EnqueueAll(q, ps);
      && Conserved(out) && out.completed == q.completed && out.submitted == q.submitted + ps
      && out.client == q.client && out.ready == q.ready
      && (q.flying.Some? || (q.waiting == [] && ps == []) ==> out.flying == q.flying)
      && (q.flying.Some? ==> out.waiting == q.waiting + ps)
    decreases |ps|
  {
    if ps != [] {
      var next := Enqueue(q, ps[0]);
      assert q.waiting + [ps[0]] + ps[1..] == q.waiting + ps;
      assert q.completed + InFlight(q) + (q.waiting + [ps[0]]) == q.completed + InFlight(q) + q.waiting + [ps[0]];
      if q.flying.None? {
        var w := q.waiting + [ps[0]];
        assert q.completed + [] + w == q.completed + [w[0]] + w[1..];
      }
      EnqueueKeeps(next, ps[1..]);
      assert q.submitted + [ps[0]] + ps[1..] == q.submitted + ps;
    }
  }

  /** One completion is served: the oldest request leaves, and what its callback submits joins at the end. */
  lemma {:induction false} HandleEffect<C(!new)>(w: World<C>, q: Queue<C>)
    requires Sound(q) && q.flying.Some?
    ensures var p := q.flying.value;
      var (client, posts) := w.callback(q.client, p.op, 0, w.disk(p.lba));
      var out := Handle(w, q);
      && Sound(out) && out.client == client && !out.ready
      && out.completed == q.completed + [p] && out.submitted == q.submitted + posts
  {
    var p := q.flying.value;
    var (client, posts) := w.callback(q.client, p.op, 0, w.disk(p.lba));
    var q1 := q.(flying := None, ready := false, client := client, completed := q.completed + [p]);
    assert q.completed + [p] + q.waiting == q.completed + [p] + [] + q.waiting;
    EnqueueKeeps(q1, posts);
    var q2 := EnqueueAll(q1, posts);
    if q2.flying.None? && q2.waiting != [] {
      assert q2.completed + [] + q2.waiting == q2.completed + [q2.waiting[0]] + q2.waiting[1..];
    }
  }

  /** The interrupt of a request started inside the callback, come before the callback returns, might as well have come
      after it. */
  lemma {:induction false} InterruptedCallback<C(!new)>(w: World<C>, q: Queue<C>)
    requires Sound(q) && q.flying.Some? && q.ready
    ensures Handle(w, q) == Step(w, q, Pump) && Sound(Handle(w, q)) && !Served(w, q).ready
    ensures var out := Served(w, q).(ready := true);
      out.flying.Some? ==> Issue(out) == out == Step(w, Step(w, q, Pump), Irq) && Sound(out)
  {
    hide EnqueueAll;
    HandleEffect(w, q);
  }

  lemma {:induction false} StepKeeps<C(!new)>(w: World<C>, q: Queue<C>, e: Event)
    requires Sound(q)
    ensures Sound(Step(w, q, e))
    ensures q.completed <= Step(w, q, e).completed && q.submitted <= Step(w, q, e).submitted
  {
    hide Handle;
    match e
    case Submit(p) =>
      EnqueueKeeps(q, [p]);
      assert EnqueueAll(q, [p]) == Enqueue(q, p);
    case Irq =>
    case Pump => if q.ready { HandleEffect(w, q); }
  }

  /** In every run: the completed requests are a prefix of the submitted ones, each request is completed, in flight
      or waiting, exactly once and in order, and an idle card means an empty queue. */
  lemma {:induction false} RunKeeps<C(!new)>(w: World<C>, q: Queue<C>, es: seq<Event>)
    requires Sound(q)
    ensures var out := Run(w, q, es);
      Sound(out) && out.completed <= out.submitted && q.completed <= out.completed && q.submitted <= out.submitted
    decreases |es|
  {
    hide Step;
    if es == [] {
      assert q.completed <= q.completed + InFlight(q) + q.waiting;
    } else {
      StepKeeps(w, q, es[0]);
      RunKeeps(w, Step(w, q, es[0]), es[1..]);
    }
  }

  // ---------------------------------------------------------------- what the clients see

  /** The clients' state after the callbacks of `ps`, in order, each on the sector its own request named. */
  function Replay<C>(w: World<C>, client: C, ps: seq<Post>): C
    decreases |ps|
  {
    if ps == [] then client
    else
      var p := ps[|ps| - 1];
      w.callback(Replay(w, client, ps[..|ps| - 1]), p.op, 0, w.disk(p.lba)).0
  }

  /** What those callbacks submitted. */
  function Replies<C>(w: World<C>, client: C, ps: seq<Post>): seq<Post>
    decreases |ps|
  {
    if ps == [] then []
    else
      var rest, p := ps[..|ps| - 1], ps[|ps| - 1];
      Replies(w, client, rest) + w.callback(Replay(w, client, rest), p.op, 0, w.disk(p.lba)).1
  }

  function Submissions(es: seq<Event>): seq<Post>
    decreases |es|
  {
    if es == [] then [] else (if es[0].Submit? then [es[0].post] else []) + Submissions(es[1..])
  }

  /** However submissions, interrupts and pumps interleave, the clients' state is that of the callbacks made one after
      the other, once for each completed request, each with the contents of its own sector. */
  lemma {:induction false} CallbacksSeeTheirSector<C(!new)>(w: World<C>, client: C, q: Queue<C>, es: seq<Event>)
    requires Sound(q) && q.client == Replay(w, client, q.completed)
    ensures var out := Run(w, q, es); out.client == Replay(w, client, out.completed)
    decreases |es|
  {
    hide Step;
    if es != [] {
      var next := Step(w, q, es[0]);
      StepReplays(w, client, q, es[0]);
      StepKeeps(w, q, es[0]);
      CallbacksSeeTheirSector(w, client, next, es[1..]);
    }
  }

  lemma {:induction false} StepReplays<C(!new)>(w: World<C>, client: C, q: Queue<C>, e: Event)
    requires Sound(q) && q.client == Replay(w, client, q.completed)
    ensures var out := Step(w, q, e);
      && out.client == Replay(w, client, out.completed)
      && multiset(out.submitted) + multiset(Replies(w, client, q.completed))
         == multiset(q.submitted) + multiset(Submissions([e])) + multiset(Replies(w, client, out.completed))
  {
    hide Handle;
    assert Submissions([e]) == if e.Submit? then [e.post] else [];
    match e
    case Submit(p) =>
      EnqueueKeeps(q, [p]);
      assert EnqueueAll(q, [p]) == Enqueue(q, p);
    case Irq =>
    case Pump =>
      if q.ready {
        HandleEffect(w, q);
        var out := Handle(w, q);
        assert out.completed[..|out.completed| - 1] == q.completed;
      }
  }

  /** Nothing is submitted but by the events and by the callbacks made so far. */
  lemma {:induction false} NothingInvented<C(!new)>(w: World<C>, client: C, q: Queue<C>, es: seq<Event>)
    requires Sound(q) && q.client == Replay(w, client, q.completed)
    ensures var out := Run(w, q, es);
      multiset(out.submitted) + multiset(Replies(w, client, q.completed))
      == multiset(q.submitted) + multiset(Submissions(es)) + multiset(Replies(w, client, out.completed))
    decreases |es|
  {
    hide Step, Replies, Sound, Replay, Submissions;
    SubmissionsSplit(es);
    if es != [] {
      var next := Step(w, q, es[0]);
      StepReplays(w, client, q, es[0]);
      StepKeeps(w, q, es[0]);
      NothingInvented(w, client, next, es[1..]);
      var out := Run(w, q, es);
      Telescope(multiset(q.submitted), multiset(next.submitted), multiset(out.submitted),
                multiset(Submissions([es[0]])), multiset(Submissions(es[1..])),
                multiset(Replies(w, client, q.completed)), multiset(Replies(w, client, next.completed)),
                multiset(Replies(w, client, out.completed)));
    }
  }

  lemma {:induction false} SubmissionsSplit(es: seq<Event>)
    ensures if es == [] then Submissions(es) == [] else Submissions(es) == Submissions([es[0]]) + Submissions(es[1..])
  {
  }

  lemma {:induction false} Telescope<T>(a: multiset<T>, b: multiset<T>, c: multiset<T>, d: multiset<T>, e: multiset<T>,
                      x: multiset<T>, y: multiset<T>, z: multiset<T>)
    requires b + x == a + d + y && c + y == b + e + z
    ensures c + x == a + (d + e) + z
  {
    forall p ensures (c + x)[p] == (a + (d + e) + z)[p] {
      assert (b + x)[p] == (a + d + y)[p] && (c + y)[p] == (b + e + z)[p];
    }
  }

  // ---------------------------------------------------------------- progress

  /** The interrupt of the request in flight, and the pump after it. */
  function Round<C>(w: World<C>, q: Queue<C>): Queue<C> {
    Step(w, Step(w, q, Irq), Pump)
  }

  function Rounds<C>(w: World<C>, q: Queue<C>, k: nat): Queue<C>
    decreases k
  {
    if k == 0 then q else Rounds(w, Round(w, q), k - 1)
  }

  /** No lost wakeup: each round completes one request more while there are any, in submission order. */
  lemma {:induction false} ServedInOrder<C(!new)>(w: World<C>, q: Queue<C>, k: nat)
    requires Sound(q) && k <= |q.submitted| - |q.completed|
    ensures var out := Rounds(w, q, k); out.completed == q.submitted[..|q.completed| + k]
    decreases k
  {
    hide Handle;
    if k > 0 {
      var r := q.(ready := true);
      HandleEffect(w, r);
      var next := Round(w, q);
      assert next.completed == q.completed + [q.flying.value];
      assert q.submitted <= next.submitted;
      ServedInOrder(w, next, k - 1);
      assert q.submitted[..|q.completed| + k] == next.submitted[..|next.completed| + (k - 1)];
    }
  }

  lemma {:induction false} RunAppend<C>(w: World<C>, q: Queue<C>, es: seq<Event>, e: Event)
    ensures Run(w, q, es + [e]) == Step(w, Run(w, q, es), e)
    decreases |es|
  {
    hide Step;
    if es == [] {
      assert Run(w, q, [e]) == Run(w, Step(w, q, e), []);
    } else {
      assert (es + [e])[1..] == es[1..] + [e];
      RunAppend(w, Step(w, q, es[0]), es[1..], e);
    }
  }

  // ---------------------------------------------------------------- the linked queue and the ring

  /** io_sched_req_t; its fields but `next` are filled in once, before it is submitted. */
  class Request {
    const op: nat
    const lba: Word
    var next: Request?

    constructor (op: nat, lba: Word)
      ensures this.op == op && this.lba == lba && next == null
    {
      this.op, this.lba, next := op, lba, null;
    }

    function Content(): Post {
      Post(op, lba)
    }
  }

  ghost function Contents(nodes: seq<Request>): seq<Post> {
    seq(|nodes|, i requires 0 <= i < |nodes| => nodes[i].Content())
  }

  /** `node` is followed by the rest of the list. */
  ghost predicate Follows(nodes: seq<Request>, i: nat)
    requires i < |nodes|
    reads nodes
  {
    nodes[i].next == if i + 1 == |nodes| then null else nodes[i + 1]
  }

  ghost predicate Chain(nodes: seq<Request>)
    reads nodes
  {
    && (forall i :: 0 <= i < |nodes| ==> Follows(nodes, i))
    && forall i, j :: 0 <= i < j < |nodes| ==> nodes[i] != nodes[j]
  }

  class Scheduler<C(!new)> {
    const world: World<C>
    var queueHead: Request?
    var queueTail: Request?
    var inFlight: Request?
    var busy: bool
    var head: Byte               // written by the interrupt handler
    var tail: Byte               // written by the pump
    const status: array<int>
    var rx: Sector               // the card's receive buffer
    var reading: Option<Word>    // a read has been started and its interrupt is still to come
    var client: C

    ghost var nodes: seq<Request>
    ghost var submitted: seq<Post>
    ghost var completed: seq<Post>

    ghost function Now(): Queue<C>
      reads this
    {
      Queue(Contents(nodes), if inFlight == null then None else Some(inFlight.Content()), head != tail, client,
            submitted, completed)
    }

    /** The structure; holds inside callbacks too. */
    ghost predicate Wired()
      reads this, nodes, status
    {
      && Chain(nodes)
      && queueHead == (if nodes == [] then null else nodes[0])
      && queueTail == (if nodes == [] then null else nodes[|nodes| - 1])
      && (busy <==> inFlight != null)
      && status.Length == IRQ_RING_SIZE
      && (head == tail || (head == (tail + 1) % 256 && inFlight != null && reading.None?
          && rx == world.disk(inFlight.lba)
                           && status[tail % IRQ_RING_SIZE] == 0))
      && (head == tail ==> reading == if inFlight == null then None else Some(inFlight.lba))
    }

    /** Between events: at most one completion is in the ring, and an idle card means an empty queue. */
    ghost predicate Valid()
      reads this, nodes, status
    {
      Wired() && Sound(Now())
    }

    constructor (world: World<C>, client: C)
      ensures Valid() && Now() == Idle(client) && this.world == world && fresh(status)
    {
      this.world, this.client := world, client;
      queueHead, queueTail, inFlight, busy := null, null, null, false;
      head, tail, reading := 0, 0, None;
      status := new int[IRQ_RING_SIZE](_ => 0);
      nodes, submitted, completed := [], [], [];
    }

    /** sd_start_read: from now on the receive buffer is the card's. */
    method StartRead(lba: Word)
      requires reading.None?
      modifies this`rx, this`reading
      ensures reading == Some(lba)
    {
      rx := *;
      reading := Some(lba);
    }

    /** io_sched_issue_next. */
    method IssueNext()
      requires Wired() && inFlight == null
      modifies this`queueHead, this`queueTail, this`inFlight, this`busy, this`rx, this`reading, this`nodes
      ensures Wired() && Now() == Issue(old(Now()))
      ensures nodes == if old(nodes) == [] then [] else old(nodes)[1..]
    {
      if queueHead == null { return; }
      var req: Request := queueHead;
      assert Follows(nodes, 0);
      queueHead := req.next;
      if queueHead == null {
        queueTail := null;
      }
      inFlight, busy := req, true;
      StartRead(req.lba);
      ghost var was := nodes;
      nodes := nodes[1..];
      forall i | 0 <= i < |nodes| ensures Follows(nodes, i) {
        assert Follows(was, i + 1);
      }
    }

    /** io_sched_submit. */
    method Submit(req: Request)
      requires Wired() && req !in nodes
      modifies this`queueHead, this`queueTail, this`inFlight, this`busy, this`rx, this`reading, this`nodes,
               this`submitted
      modifies req, nodes
      ensures Wired() && Now() == Enqueue(old(Now()), req.Content())
      ensures forall i :: 0 <= i < |nodes| ==> nodes[i] in old(nodes) || nodes[i] == req
    {
      hide Chain, Follows, Contents;
      Link(req);
      if !busy {
        IssueNext();
      }
    }

    /** Puts a request at the end of the linked list. */
    method Link(req: Request)
      requires Wired() && req !in nodes
      modifies this`queueHead, this`queueTail, this`nodes, this`submitted, req, nodes
      ensures Wired() && nodes == old(nodes) + [req]
      ensures Now() == (var q, p := old(Now()), req.Content();
              q.(waiting := q.waiting + [p], submitted := q.submitted + [p]))
    {
      req.next := null;
      if queueTail != null {
        queueTail.next := req;
      } else {
        queueHead := req;
      }
      queueTail := req;
      ghost var was := nodes;
      nodes := nodes + [req];
      submitted := submitted + [req.Content()];
      forall i | 0 <= i < |nodes| ensures Follows(nodes, i) {
        assert i < |was| ==> old(Follows(was, i));
      }
      assert Contents(nodes) == Contents(was) + [req.Content()];
    }

    /** sd_irsq_handler, after the card has finished the read it was given; it may come inside a callback. */
    method IrqHandler()
      requires Wired() && reading.Some?
      modifies this`rx, this`reading, this`head, status
      ensures Wired() && Now() == Step(world, old(Now()), Irq) && Now() == old(Now()).(ready := true)
      ensures old(Valid()) ==> Valid()
    {
      rx := world.disk(reading.value);
      reading := None;
      status[head % IRQ_RING_SIZE] := 0;
      head := (head + 1) % 256;
    }

    /** The callback of `req`: it reads the buffer, then submits its own requests one after the other.  A request it
        submits may be started at once, and the interrupt of that read may come before the callback returns, if
        `interruptible`. */
    method Callback(req: Request, code: int, interruptible: bool) returns (interrupted: bool)
      requires Wired() && inFlight == null && head == tail
      modifies this`queueHead, this`queueTail, this`inFlight, this`busy, this`rx, this`reading, this`nodes,
               this`submitted, this`client, this`head, status, nodes
      ensures Wired() && (interrupted ==> interruptible)
      ensures var (c, posts) := world.callback(old(client), req.op, code, old(rx));
              Now() == EnqueueAll(old(Now()).(client := c), posts).(ready := interrupted)
      ensures forall i :: 0 <= i < |nodes| ==> nodes[i] in old(nodes) || fresh(nodes[i])
    {
      hide Enqueue, Chain, Follows, Contents;
      var (c, posts) := world.callback(client, req.op, code, rx);
      client := c;
      ghost var start := Now();
      var i := 0;
      interrupted := false;
      while i < |posts|
        invariant i <= |posts| && Wired() && (interrupted ==> interruptible) && Now().ready == interrupted
        invariant EnqueueAll(Now().(ready := false), posts[i..]) == EnqueueAll(start, posts)
        invariant forall k :: 0 <= k < |nodes| ==> nodes[k] in old(nodes) || fresh(nodes[k])
      {
        assert posts[i..][1..] == posts[i + 1..];
        EnqueueReady(Now(), posts[i], false);
        SubmitNew(posts[i]);
        if !interrupted {
          interrupted := MayBeInterrupted(interruptible);
        }
        i := i + 1;
      }
      EnqueueAllReady(start, posts, false);
    }

    method SubmitNew(p: Post)
      requires Wired()
      modifies this`queueHead, this`queueTail, this`inFlight, this`busy, this`rx, this`reading, this`nodes,
               this`submitted, nodes
      ensures Wired() && Now() == Enqueue(old(Now()), p)
      ensures forall i :: 0 <= i < |nodes| ==> nodes[i] in old(nodes) || fresh(nodes[i])
    {
      hide Enqueue, Chain, Follows, Contents;
      var r := new Request(p.op, p.lba);
      Submit(r);
    }

    /** The card's interrupt may come now, if a read has been started. */
    method MayBeInterrupted(interruptible: bool) returns (interrupted: bool)
      requires Wired()
      modifies this`rx, this`reading, this`head, status
      ensures Wired() && Now() == if interrupted then old(Now()).(ready := true) else old(Now())
      ensures interrupted ==> interruptible && Now() == Step(world, old(Now()), Irq)
      ensures !interrupted ==> head == old(head)
      ensures old(Valid()) ==> Valid()
    {
      interrupted := *;
      interrupted := interrupted && interruptible && reading.Some?;
      if interrupted {
        IrqHandler();
      }
    }

    /** One iteration of the pump's loop. */
    method TakeCompletion(interruptible: bool) returns (interrupted: bool)
      requires Valid() && head != tail
      modifies this, status, nodes
      ensures Valid() && (interrupted ==> interruptible) && (head != tail <==> interrupted)
      ensures Now() == (var q := Step(world, old(Now()), Pump); if interrupted then Step(world, q, Irq) else q)
      ensures forall i :: 0 <= i < |nodes| ==> nodes[i] in old(nodes) || fresh(nodes[i])
    {
      hide EnqueueAll, Chain, Follows, Contents;
      ghost var q := Now();
      var code := status[tail % IRQ_RING_SIZE];
      tail := (tail + 1) % 256;
      var req: Request := inFlight;
      inFlight, busy := null, false;
      completed := completed + [req.Content()];
      interrupted := Callback(req, code, interruptible);
      IssueIfIdle();
      InterruptedCallback(world, q);
    }

    /** Issue the next request if anyone has queued something. */
    method IssueIfIdle()
      requires Wired()
      modifies this`queueHead, this`queueTail, this`inFlight, this`busy, this`rx, this`reading, this`nodes
      ensures Wired() && Now() == Issue(old(Now()))
      ensures nodes == old(nodes) || (old(nodes) != [] && nodes == old(nodes)[1..])
    {
      if !busy && queueHead != null {
        IssueNext();
      }
    }

    /** io_sched_pump, while at most `arrivals` further interrupts come in, inside its callbacks or between them: the
        whole is one pump after each interrupt. */
    method PumpAll(arrivals: nat) returns (ghost events: seq<Event>)
      requires Valid()
      modifies this, status, nodes
      ensures Valid() && !Now().ready
      ensures Now() == Run(world, old(Now()), events) && forall e :: e in events ==> !e.Submit?
    {
      hide Step;
      events := [];
      var left: nat := arrivals;
      while head != tail
        invariant Valid() && (forall e :: e in events ==> !e.Submit?)
        invariant Now() == Run(world, old(Now()), events)
        invariant forall i :: 0 <= i < |nodes| ==> nodes[i] in old(nodes) || fresh(nodes[i])
        decreases left + if head != tail then 1 else 0
      {
        var interrupted := TakeCompletion(left > 0);
        RunAppend(world, old(Now()), events, Pump);
        events := events + [Pump];
        if !interrupted {
          interrupted := MayBeInterrupted(left > 0);
        }
        if interrupted {
          RunAppend(world, old(Now()), events, Irq);
          events := events + [Irq];
          left := left - 1;
        }
      }
    }
  }
}
