/** Choosing the next process on the circular list of control blocks (kernel/scheduler.s). */
module RoundRobin {
  import opened Options

  const STATE_READY: nat := 1
  const STATE_RUNNING: nat := 2

  // ---------------------------------------------------------------- the choice, by position in the ring

  /** `d` places on from place `c` in a ring of `n`. */
  function On(n: nat, c: nat, d: nat): (i: nat)
    requires c < n && d <= n
    ensures i == (c + d) % n < n
  {
    if c + d < n then c + d else c + d - n
  }

  /** How many places on `k` is from `c`: once round for `c` itself. */
  function Distance(n: nat, c: nat, k: nat): (d: nat)
    requires c < n && k < n
    ensures 1 <= d <= n && On(n, c, d) == k
  {
    if k > c then k - c else k + n - c
  }

  /** The first ready process from `d` places behind `c` on, once round the ring. */
  function FirstReady(states: seq<nat>, c: nat, d: nat): (r: Option<nat>)
    requires c < |states| && 1 <= d <= |states| + 1
    ensures r.Some? ==> d <= r.value <= |states| && states[On(|states|, c, r.value)] == STATE_READY
    ensures forall e {:trigger On(|states|, c, e)} :: d <= e < (if r.Some? then r.value else |states| + 1) ==>
              states[On(|states|, c, e)] != STATE_READY
    decreases |states| + 1 - d
  {
    if d > |states| then None
    else if states[On(|states|, c, d)] == STATE_READY then Some(d)
    else FirstReady(states, c, d + 1)
  }

  /** What schedule_next returns. */
  function Choice(states: seq<nat>, c: nat): (r: Option<nat>)
    requires c < |states|
    ensures r.Some? ==> r.value < |states|
  {
    var d := FirstReady(states, c, 1);
    if d.Some? then Some(On(|states|, c, d.value))
    else if states[c] == STATE_RUNNING then Some(c)
    else None
  }

  /** The chosen process is ready (1) and no ready one is nearer; or none is ready and the current one runs (2); or
      there is nothing to run. */
  lemma {:induction false} ChoiceIsNearest(states: seq<nat>, c: nat, k: nat)
    requires c < |states| && k < |states|
    ensures Choice(states, c) == Some(k) <==>
      || (states[k] == 1
          && forall j :: 0 <= j < |states| && states[j] == 1 ==> Distance(|states|, c, k) <= Distance(|states|, c, j))
      || (k == c && states[c] == 2 && forall j :: 0 <= j < |states| ==> states[j] != 1)
    ensures Choice(states, c).None? <==> states[c] != 2 && forall j :: 0 <= j < |states| ==> states[j] != 1
  {
    var n := |states|;
    var d := FirstReady(states, c, 1);
    forall j | 0 <= j < n ensures On(n, c, Distance(n, c, j)) == j {
    }
    if d.Some? {
      var i := On(n, c, d.value);
      assert Distance(n, c, i) == d.value;
      forall j | 0 <= j < n && states[j] == STATE_READY ensures d.value <= Distance(n, c, j) {
        assert states[On(n, c, Distance(n, c, j))] == STATE_READY;
      }
      assert states[i] == STATE_READY;
      if states[k] == STATE_READY
         && forall j :: 0 <= j < n && states[j] == STATE_READY ==> Distance(n, c, k) <= Distance(n, c, j) {
        assert Distance(n, c, k) <= Distance(n, c, i);
      }
    } else {
      forall j | 0 <= j < n ensures states[j] != STATE_READY {
        assert states[On(n, c, Distance(n, c, j))] != STATE_READY;
      }
    }
  }

  // ---------------------------------------------------------------- fairness

  /** Where the scheduler stands after `i` calls, each choice becoming the current process; `states[i]` are the states
      the call number `i` finds. */
  function Current(states: seq<seq<nat>>, c: nat, i: nat): (r: nat)
    requires i <= |states| && (forall j :: 0 <= j < |states| ==> c < |states[j]| && |states[j]| == |states[0]|)
    ensures |states| > 0 ==> r < |states[0]|
    ensures i == 0 ==> r == c
  {
    if i == 0 then c
    else
      var before := Current(states, c, i - 1);
      var choice := Choice(states[i - 1], before);
      if choice.Some? then choice.value else before
  }

  /** While process `k` stays ready, each call that does not choose it brings it nearer. */
  lemma {:induction false} Nearer(states: seq<nat>, c: nat, k: nat)
    requires c < |states| && k < |states| && states[k] == STATE_READY
    ensures Choice(states, c).Some?
    ensures var next := Choice(states, c).value;
      next == k || Distance(|states|, next, k) < Distance(|states|, c, k)
  {
    var n := |states|;
    ChoiceIsNearest(states, c, k);
    var next := Choice(states, c).value;
    ChoiceIsNearest(states, c, next);
  }

  /** A process that stays ready in a ring of `n` is chosen within `n` calls, whatever happens to the others. */
  lemma {:induction false} ChosenInTime(states: seq<seq<nat>>, c: nat, k: nat) returns (i: nat)
    requires |states| > 0 && |states| == |states[0]| && c < |states[0]| && k < |states[0]|
    requires forall j :: 0 <= j < |states| ==> |states[j]| == |states[0]| && states[j][k] == STATE_READY
    ensures 0 < i <= |states| && Choice(states[i - 1], Current(states, c, i - 1)) == Some(k)
            && Current(states, c, i) == k
  {
    i := Approach(states, c, k, 0);
  }

  lemma {:induction false} Approach(states: seq<seq<nat>>, c: nat, k: nat, at: nat) returns (i: nat)
    requires |states| > 0 && |states| == |states[0]| && c < |states[0]| && k < |states[0]| && at < |states|
    requires forall j :: 0 <= j < |states| ==> |states[j]| == |states[0]| && states[j][k] == STATE_READY
    requires at + Distance(|states|, Current(states, c, at), k) <= |states|
    ensures 0 < i <= |states| && Choice(states[i - 1], Current(states, c, i - 1)) == Some(k)
            && Current(states, c, i) == k
    decreases |states| - at
  {
    hide Choice, Distance, Current;
    var here := Current(states, c, at);
    OneCall(states, c, at);
    assert |states[at]| == |states| && states[at][k] == STATE_READY;
    Nearer(states[at], here, k);
    i := at + 1;
    if Current(states, c, at + 1) != k {
      i := Approach(states, c, k, at + 1);
    }
  }

  lemma {:induction false} OneCall(states: seq<seq<nat>>, c: nat, i: nat)
    requires i < |states| && forall j :: 0 <= j < |states| ==> c < |states[j]| && |states[j]| == |states[0]|
    ensures var choice := Choice(states[i], Current(states, c, i));
      Current(states, c, i + 1) == if choice.Some? then choice.value else Current(states, c, i)
  {
    hide Choice;
  }

  // ---------------------------------------------------------------- the list itself

  class Pcb {
    var next: Pcb?
    var status: nat
  }

  ghost predicate LinkedTo(ring: seq<Pcb>, i: nat)
    requires i < |ring|
    reads ring
  {
    ring[i].next == ring[On(|ring|, i, 1)]
  }

  /** The list closes, in this order. */
  ghost predicate Closed(ring: seq<Pcb>)
    reads ring
  {
    && (forall i :: 0 <= i < |ring| ==> LinkedTo(ring, i))
    && forall i, j :: 0 <= i < j < |ring| ==> ring[i] != ring[j]
  }

  ghost function States(ring: seq<Pcb>): (s: seq<nat>)
    reads ring
    ensures |s| == |ring| && forall i :: 0 <= i < |s| ==> s[i] == ring[i].status
  {
    seq(|ring|, i requires 0 <= i < |ring| reads ring => ring[i].status)
  }

  /** schedule_next; without a current process there is no choice. */
  method ScheduleNext(current: Pcb?, ghost ring: seq<Pcb>, ghost c: nat) returns (chosen: Pcb?)
    requires current != null ==> Closed(ring) && c < |ring| && current == ring[c]
    ensures current == null ==> chosen == null
    ensures current != null ==>
      match Choice(States(ring), c)
      case Some(k) => chosen == ring[k]
      case None => chosen == null
  {
    if current == null { return null; }
    ghost var n := |ring|;
    var p: Pcb := current;
    ghost var d := 0;
    while true
      invariant d < n && p == ring[On(n, c, d)]
      invariant FirstReady(States(ring), c, 1) == FirstReady(States(ring), c, d + 1)
      decreases n - d
    {
      assert LinkedTo(ring, On(n, c, d));
      assert On(n, On(n, c, d), 1) == On(n, c, d + 1);
      p := p.next;
      d := d + 1;
      if p.status == STATE_READY { return p; }
      if p == current {
        assert d == n;
        break;
      }
    }
    if p.status == STATE_RUNNING { return p; }
    chosen := null;
  }

  /** unblock_process: the process is eligible at once, the ring and the other states are as before. */
  method Unblock(p: Pcb, ghost ring: seq<Pcb>, ghost k: nat)
    requires Closed(ring) && k < |ring| && p == ring[k]
    modifies p`status
    ensures Closed(ring) && States(ring) == old(States(ring))[k := STATE_READY]
  {
    p.status := STATE_READY;
    assert forall i :: 0 <= i < |ring| ==> old(LinkedTo(ring, i));
    forall i | 0 <= i < |ring| ensures LinkedTo(ring, i) {
      assert old(LinkedTo(ring, i));
    }
  }
}
