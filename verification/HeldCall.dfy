/** A program whose CALL is assembled to two words although one would reach (tools/assembler/rva.c, `main`'s pass loop
and `variable_item_size`).  The call goes to the head of a chain of labels, each defined by the one after it, so that
one label more gets its value on each pass, the head after size records have stopped shrinking. */
module HeldCall {
  import opened Options
  import opened Words
  import opened Expressions
  import opened Evaluator
  import opened Passes
  import opened Emission
  import PseudoOps

  const LINKS: nat := 9
  const HOME: Word := 0x20_0000
  const GOAL: Word := 0x20_0008

  /** Distinct names. */
  function Name(i: nat): (n: string)
    ensures |n| == i + 1
  {
    seq(i + 1, _ => 'a')
  }

  function Target(i: nat): Leaf {
    if i < LINKS then Label(Name(i + 1)) else Number(GOAL)
  }

  function Link(i: nat): Line {
    Line(Some(Name(i)), Equ([Value(Keep, Target(i))]))
  }

  const OrgLine: Line := Line(None, Org([Value(Keep, Number(HOME))]))
  const CallLine: Line := Line(None, Variable(PseudoOps.CALL, [Value(Keep, Label(Name(0)))]))

  /** ORG, the call, and the chain of EQUs. */
  const CHAIN: seq<Line> := [OrgLine, CallLine] + seq(LINKS + 1, i requires 0 <= i => Link(i))

  /** Label `i` after its line on pass `p`. */
  function Known(i: nat, p: nat): Symbol {
    if i + p >= LINKS then Symbol(GOAL, true, p) else Symbol(0, false, p)
  }

  /** The state in front of link `i` on pass `p`. */
  ghost predicate At(st: State, p: nat, i: nat) {
    && (forall j :: 0 <= j < i && j <= LINKS ==> Has(st, j, p))
    && forall j :: i <= j <= LINKS ==> Ahead(st, j, p)
  }

  /** Label `j` before its line on pass `p`. */
  ghost predicate Ahead(st: State, j: nat, p: nat) {
    if p == 0 then Name(j) !in st.symbols else Has(st, j, p - 1)
  }

  ghost predicate Has(st: State, j: nat, p: nat) {
    Name(j) in st.symbols && st.symbols[Name(j)] == Known(j, p)
  }

  /** A single operand's value and error. */
  lemma {:induction false} Single(env: Env, leaf: Leaf)
    ensures var r := Evaluate(env, [Value(Keep, leaf)]);
      && r.value == env(leaf).Value() && Outcome(r) == env(leaf).Status() && !r.log.divZero
      && r.log.misses == if env(leaf).Undefined? then 1 else 0
  {
    var ts, reading := [Value(Keep, leaf)], env(leaf);
    var v, log := reading.Value(), Noted(reading, Start);
    assert Fold([], v, 0, log) == Folded([], v, log);
    assert HaveOperand(env, ts, 1, 1, 0, [], v, log) == Result(v, 1, log);
    assert ApplyUnary(Keep, v) == v;
  }

  /** What the line of link `i` reads on pass `p`. */
  function Read(i: nat, p: nat): Reading {
    if i == LINKS || (p > 0 && i + p >= LINKS) then Found(GOAL) else if p == 0 then Missing else Undefined
  }

  lemma {:induction false} ReadsLink(st: State, p: nat, i: nat)
    requires i <= LINKS && At(st, p, i)
    ensures Lookup(Enter(st, Some(Name(i)), p), 0)(Target(i)) == Read(i, p)
  {
    if i < LINKS {
      assert Name(i + 1) != Name(i);
      assert Ahead(st, i + 1, p);
    }
  }

  /** Label `i` before its line on pass `p`, once it is in the table. */
  function Entered(i: nat, p: nat): Symbol {
    if p == 0 then Symbol(0, false, 0) else Known(i, p - 1)
  }

  lemma {:induction false} Relabelled(i: nat, p: nat, last: bool)
    requires i <= LINKS && (last ==> p > LINKS)
    ensures Redefine(Entered(i, p), Read(i, p).Value(), true, Read(i, p).Status(), p, last) == (Known(i, p), false)
  {
  }

  /** The line of link `i`. */
  lemma {:induction false} LinkStep(st: State, p: nat, i: nat, last: bool)
    requires i <= LINKS && At(st, p, i) && (last ==> p > LINKS)
    ensures var out := DoLine(st, Link(i), p, last);
      && At(out, p, i + 1) && out.sizes == st.sizes && out.errors == st.errors
      && out.redefinedCount == st.redefinedCount
      && (p > LINKS ==> out.definedCount == st.definedCount && out.undefinedCount == st.undefinedCount)
      && |out.listing| == |st.listing| + 1 && out.listing[..|st.listing|] == st.listing
  {
    hide Evaluate, At, Redefine, Allowed;
    var st1 := Enter(st, Some(Name(i)), p);
    Relabelled(i, p, last);
    ReadsLink(st, p, i);
    Single(Lookup(st1, 0), Target(i));
    InFront(st, p, i);
    var out := DoLine(st, Link(i), p, last);
    assert out.symbols == st1.symbols[Name(i) := Known(i, p)];
    AfterLink(st, out, p, i);
  }

  lemma {:induction false} InFront(st: State, p: nat, i: nat)
    requires i <= LINKS && At(st, p, i)
    ensures if p == 0 then Name(i) !in st.symbols else Name(i) in st.symbols && st.symbols[Name(i)] == Known(i, p - 1)
  {
    assert Ahead(st, i, p);
  }

  lemma {:induction false} AfterLink(st: State, out: State, p: nat, i: nat)
    requires i <= LINKS && At(st, p, i)
    requires out.symbols == Enter(st, Some(Name(i)), p).symbols[Name(i) := Known(i, p)]
    ensures At(out, p, i + 1)
  {
    forall j | 0 <= j < i + 1 && j <= LINKS ensures Has(out, j, p) {
      assert j < i ==> Has(st, j, p) && Name(j) != Name(i);
    }
    forall j | i + 1 <= j <= LINKS ensures Ahead(out, j, p) {
      assert Name(j) != Name(i) && Ahead(st, j, p);
    }
  }

  lemma {:induction false} Links(st: State, p: nat, i: nat, last: bool)
    requires i <= LINKS + 1 && At(st, p, i) && (last ==> p > LINKS)
    ensures var out := Run(CHAIN, 2 + i, st, p, last);
      && At(out, p, LINKS + 1) && out.sizes == st.sizes && out.errors == st.errors
      && out.redefinedCount == st.redefinedCount
      && (p > LINKS ==> out.definedCount == st.definedCount && out.undefinedCount == st.undefinedCount)
      && |out.listing| >= |st.listing| && out.listing[..|st.listing|] == st.listing
    decreases LINKS + 1 - i
  {
    hide DoLine, At;
    if i <= LINKS {
      assert CHAIN[2 + i] == Link(i);
      LinkStep(st, p, i, last);
      var next := DoLine(st, Link(i), p, last);
      Links(next, p, i + 1, last);
      var out := Run(CHAIN, 2 + i, st, p, last);
      assert out.listing[..|st.listing|] == out.listing[..|next.listing|][..|st.listing|];
    }
  }

  /** How long the call wants to be: long while its target reads as 0. */
  lemma {:induction false} CallLength(v: Word)
    requires v == 0 || v == GOAL
    ensures Wanted(PseudoOps.CALL, v, HOME) == if v == 0 then 8 else 4
    ensures Straight(PseudoOps.CALL, v, HOME)
  {
    hide *;
    HomeBits();
    if v == 0 { FromHome(v, 0); } else { FromHome(v, 0x20_0008); }
  }

  lemma {:induction false} HomeBits()
    ensures Bits(HOME) == 0x20_0000 && Bits(GOAL) == 0x20_0008 && Bits(0) == 0
  {
  }

  lemma {:induction false} FromHome(v: Word, bits: bv32)
    requires Bits(v) == bits && Bits(HOME) == 0x20_0000 && (bits == 0 || bits == 0x20_0008)
    ensures Wanted(PseudoOps.CALL, v, HOME) == if bits == 0 then 8 else 4
    ensures Straight(PseudoOps.CALL, v, HOME)
  {
    hide Bits;
  }

  /** Where pass `p` starts from. */
  ghost predicate Before(st: State, p: nat) {
    At(st, p, 0) && st.sizes == (if p == 0 then [] else [8])
  }

  lemma {:induction false} OrgStep(st: State, p: nat, last: bool)
    requires st.pointerDefined
    ensures var out := DoLine(st, OrgLine, p, last);
      && out == st.(pointer := HOME, listing := out.listing) && |out.listing| == |st.listing| + 1
  {
    hide Evaluate;
    Single(Lookup(st, 0), Number(HOME));
  }

  lemma {:induction false} CallStep(st: State, p: nat, last: bool)
    requires At(st, p, 0) && st.sizes == (if p == 0 then [] else [8]) && st.cursor == 0
    requires st.pointer == HOME && st.pointerDefined && (last ==> p > LINKS)
    ensures var out := DoLine(st, CallLine, p, last);
      && out.symbols == st.symbols && out.sizes == [8] && out.errors == st.errors
      && out.definedCount == st.definedCount && out.redefinedCount == st.redefinedCount
      && (p > LINKS ==> out.undefinedCount == st.undefinedCount)
      && out.listing == st.listing + [Entry(HOME, 8, if p > LINKS then GOAL else 0, [])]
  {
    hide Evaluate, Wanted, Straight;
    Single(Lookup(st, 0), Label(Name(0)));
    InFront(st, p, 0);
    CallLength(if p > LINKS then GOAL else 0);
    assert st.sizes != [] ==> st.sizes[0 := 8] == [8];
  }

  /** One pass over the program. */
  lemma {:induction false} PassOnce(st: State, p: nat, last: bool)
    requires Before(st, p) && (last ==> p > LINKS)
    ensures var out := Pass(CHAIN, st, p, last);
      && At(out, p, LINKS + 1) && out.sizes == [8] && out.errors == 0 && out.redefinedCount == 0
      && (p > LINKS ==> out.definedCount == 0 && out.undefinedCount == 0)
      && |out.listing| >= 2 && out.listing[1] == Entry(HOME, 8, if p > LINKS then GOAL else 0, [])
  {
    hide DoLine, At;
    var s0 := Begin(st);
    SameSymbolsAt(st, s0, p, 0);
    OrgStep(s0, p, last);
    var s1 := DoLine(s0, OrgLine, p, last);
    SameSymbolsAt(s0, s1, p, 0);
    CallStep(s1, p, last);
    var s2 := DoLine(s1, CallLine, p, last);
    SameSymbolsAt(s1, s2, p, 0);
    Links(s2, p, 0, last);
    assert CHAIN[0] == OrgLine && CHAIN[1] == CallLine;
    assert Run(CHAIN, 1, s1, p, last) == Run(CHAIN, 2, s2, p, last);
    var out := Pass(CHAIN, st, p, last);
    assert out.listing[1] == out.listing[..2][1];
  }

  lemma {:induction false} SameSymbolsAt(a: State, b: State, p: nat, i: nat)
    requires At(a, p, i) && b.symbols == a.symbols
    ensures At(b, p, i)
  {
    forall j | 0 <= j < i && j <= LINKS ensures Has(b, j, p) {
      assert Has(a, j, p);
    }
    forall j | i <= j <= LINKS ensures Ahead(b, j, p) {
      assert Ahead(a, j, p);
    }
  }

  lemma {:induction false} NextPass(st: State, p: nat, next: nat)
    requires At(st, p, LINKS + 1) && next == p + 1
    ensures At(st, next, 0)
  {
    forall j | 0 <= j <= LINKS ensures Ahead(st, j, next) {
      assert Has(st, j, p);
    }
  }

  /** The state after `k` passes. */
  lemma {:induction false} PassesKeep(k: nat)
    ensures Before(After(CHAIN, k), k) && After(CHAIN, k).errors == 0
    ensures k > LINKS + 1 ==> Stable(After(CHAIN, k))
  {
    hide Pass, At;
    if k == 0 {
      FreshAt();
    } else {
      PassesKeep(k - 1);
      PassOnce(After(CHAIN, k - 1), k - 1, false);
      NextPass(After(CHAIN, k), k - 1, k);
    }
  }

  lemma {:induction false} FreshAt()
    ensures At(FRESH, 0, 0)
  {
  }

  /** The program is assembled without an error in LINKS + 3 passes, and its call, put at HOME, does not reach GOAL,
      eight bytes on. */
  lemma {:induction false} HeldCallMisses(h: PseudoOps.Hart)
    ensures Finished(CHAIN, LINKS + 3)
    ensures var e := FinalEntry(CHAIN, LINKS + 3, 1);
      && e == Entry(HOME, 8, GOAL, [])
      && (h.pc == Address(e) ==>
            !PseudoOps.Called(h, PseudoOps.ExecuteAll(h, WordsOf(PseudoOps.CALL, 0, e)), Emission.Value(e), 8))
  {
    hide *;
    LastOne();
    var e := FinalEntry(CHAIN, LINKS + 3, 1);
    CallIsLine();
    if h.pc == Address(e) {
      GoalNear(e);
      FinalCall(CHAIN, LINKS + 3, 1, h);
    }
  }

  lemma {:induction false} CallIsLine()
    ensures |CHAIN| > 1 && CHAIN[1].stmt.Variable? && CHAIN[1].stmt.kind == PseudoOps.CALL
  {
  }

  lemma {:induction false} GoalNear(e: Entry)
    requires e == Entry(HOME, 8, GOAL, [])
    ensures PseudoOps.Near(PseudoOps.Offset(Emission.Value(e), Address(e))) && PseudoOps.Even(Address(e))
  {
  }

  lemma {:induction false} LastOne()
    ensures Finished(CHAIN, LINKS + 3) && FinalEntry(CHAIN, LINKS + 3, 1) == Entry(HOME, 8, GOAL, [])
  {
    hide Pass, At, CHAIN;
    PassesKeep(LINKS + 2);
    PassOnce(After(CHAIN, LINKS + 2), LINKS + 2, true);
  }
}
