/** The assembler's expression evaluator (tools/assembler/rva.c, `evaluate` and its nested `Eval_inner`).

Operators wait on one stack of 20 cells shared by all bracket levels.  A level starts with a marker (0 for the
whole expression, 1 for a bracket); above it lie (operand, operator, priority) triples.  `NeedOperand` and
`HaveOperand` describe one level with the triples as a list; the class below runs the code on the stack.
*/
module Evaluator {
  import opened Words
  import opened Expressions

  const STACK_SIZE: nat := 20

  /** An operator waiting for its right operand. */
  datatype Pend = Pend(left: Word, op: Op)

  /** What an evaluation has noticed: its error, the first tolerated error, undefined labels read, a division by 0. */
  datatype Notes = Notes(error: Status, first: Status, misses: nat, divZero: bool)

  datatype Folded = Folded(pend: seq<Pend>, value: Word, log: Notes)

  datatype Result = Result(value: Word, pos: nat, log: Notes)

  /** Applies waiting operators, newest first, as long as their priority is not below `priority`. */
  function Fold(pend: seq<Pend>, operand: Word, priority: nat, log: Notes): Folded
    decreases pend
  {
    if pend == [] || priority > Priority(pend[|pend| - 1].op) then Folded(pend, operand, log)
    else
      var top := pend[|pend| - 1];
      Fold(pend[..|pend| - 1], Apply(top.op, top.left, operand), priority, AfterOp(top.op, operand, log))
  }

  /** A division by zero is an error unless an earlier error is already known. */
  function AfterOp(op: Op, operand: Word, log: Notes): Notes {
    if op == Divide && operand == 0 then
      log.(divZero := true,
           error := if log.error == Okay && log.first == Okay then DivByZero else log.error)
    else log
  }

  function Noted(r: Reading, log: Notes): Notes {
    log.(first := if log.first == Okay then r.Status() else log.first,
         misses := log.misses + if r.Undefined? then 1 else 0)
  }

  /** Stack height of a level whose marker lies below cell `base`. */
  function Height(base: nat, pend: seq<Pend>): nat {
    base + 3 * |pend|
  }

  /** The level is about to read an operand at token `p`. */
  function NeedOperand(env: Env, ts: seq<Token>, p: nat, base: nat, mark: nat, pend: seq<Pend>, log: Notes): (r: Result)
    requires p <= |ts|
    ensures p <= r.pos <= |ts|
    ensures r.log.error == Okay ==> r.pos > p
    decreases |ts| - p, 1
  {
    if p == |ts| then Result(0, p, log.(error := NoOperand))
    else match ts[p]
      case Value(u, leaf) =>
        var reading := env(leaf);
        HaveOperand(env, ts, p + 1, base, mark, pend, ApplyUnary(u, reading.Value()), Noted(reading, log))
      case Open(u) =>
        if Height(base, pend) >= STACK_SIZE then Result(0, p + 1, log.(error := Smashed))
        else
          var inner := NeedOperand(env, ts, p + 1, Height(base, pend) + 1, 1, [], log);
          if inner.log.error != Okay then inner
          else HaveOperand(env, ts, inner.pos, base, mark, pend, ApplyUnary(u, inner.value), inner.log)
      case _ => Result(0, p, log.(error := NoOperand))
  }

  /** The level has read an operand and looks for an operator at token `p`. */
  function HaveOperand(env: Env, ts: seq<Token>, p: nat, base: nat, mark: nat, pend: seq<Pend>, operand: Word,
          log: Notes): (r: Result)
    requires p <= |ts|
    ensures p <= r.pos <= |ts|
    decreases |ts| - p, 0
  {
    if p == |ts| then
      Finish(p, mark, 0, Fold(pend, operand, 0, log))
    else match ts[p]
      case Close => Finish(p + 1, mark, 1, Fold(pend, operand, 1, log))
      case Oper(op) =>
        var f := Fold(pend, operand, Priority(op), log);
        if Height(base, f.pend) + 3 > STACK_SIZE then Result(f.value, p + 1, f.log.(error := StackLimit))
        else if f.log.error != Okay then Result(f.value, p + 1, f.log)
        else NeedOperand(env, ts, p + 1, base, mark, f.pend + [Pend(f.value, op)], f.log)
      case _ => Result(operand, p, log.(error := NoOperator))
  }

  /** A terminator of priority `priority` has been read: it must match the level's marker. */
  function Finish(p: nat, mark: nat, priority: nat, f: Folded): Result {
    if priority == mark then Result(f.value, p, f.log)
    else Result(f.value, p, f.log.(error := if priority == 0 then NotCloseBr else NotOpenBr))
  }

  const Start := Notes(Okay, Okay, 0, false)

  /** evaluate on the token list `ts`. */
  function Evaluate(env: Env, ts: seq<Token>): Result {
    NeedOperand(env, ts, 0, 1, 0, [], Start)
  }

  /** evaluate's return value: a fatal error, else the first tolerated one. */
  function Outcome(r: Result): Status {
    if r.log.error == Okay then r.log.first else r.log.error
  }

  // ---------------------------------------------------------------- expression trees

  datatype Expr = Atom(leaf: Leaf) | Prefixed(u: Unary, e: Expr) | Binary(op: Op, l: Expr, r: Expr)

  /** The tree's value on 32-bit words. */
  function Val(env: Env, e: Expr): Word {
    match e
    case Atom(leaf) => env(leaf).Value()
    case Prefixed(u, e) => ApplyUnary(u, Val(env, e))
    case Binary(op, l, r) => Apply(op, Val(env, l), Val(env, r))
  }

  /** Tokens for a tree in a context that needs priority at least `min`; brackets only where that demands them. */
  function Show(e: Expr, min: nat): seq<Token>
    decreases e, min
  {
    match e
    case Atom(leaf) => [Value(Keep, leaf)]
    case Prefixed(u, Atom(leaf)) => [Value(u, leaf)]
    case Prefixed(u, f) => [Open(u)] + Show(f, 2) + [Close]
    case Binary(op, l, r) =>
      var p := Priority(op);
      if p < min then [Open(Keep)] + Show(e, 2) + [Close]
      else Show(l, p) + [Oper(op)] + Show(r, p + 1)
  }

  /** No division in the tree has a zero divisor. */
  predicate DivFree(env: Env, e: Expr) {
    match e
    case Atom(_) => true
    case Prefixed(_, e) => DivFree(env, e)
    case Binary(op, l, r) => DivFree(env, l) && DivFree(env, r) && (op == Divide ==> Val(env, r) != 0)
  }

  predicate AllFound(env: Env, e: Expr) {
    match e
    case Atom(leaf) => env(leaf).Found?
    case Prefixed(_, e) => AllFound(env, e)
    case Binary(_, l, r) => AllFound(env, l) && AllFound(env, r)
  }

  /** The log after reading the tree's leaves from left to right. */
  function Seen(env: Env, e: Expr, log: Notes): Notes {
    match e
    case Atom(leaf) => Noted(env(leaf), log)
    case Prefixed(_, e) => Seen(env, e, log)
    case Binary(_, l, r) => Seen(env, r, Seen(env, l, log))
  }

  function Max(a: nat, b: nat): nat {
    if a > b then a else b
  }

  /** Stack cells the tree needs above the height at which it is entered. */
  function Peak(e: Expr, min: nat): nat
    decreases e, min
  {
    match e
    case Atom(_) => 0
    case Prefixed(_, Atom(_)) => 0
    case Prefixed(_, f) => 1 + Peak(f, 2)
    case Binary(op, l, r) =>
      var p := Priority(op);
      if p < min then 1 + Peak(e, 2) else Max(Peak(l, p), 3 + Peak(r, p + 1))
  }

  /** A binary tree printed without brackets around it. */
  predicate Bare(e: Expr, min: nat) {
    e.Binary? && Priority(e.op) >= min
  }

  /** Operators of the tree still waiting when its last token has been read. */
  function Spine(env: Env, e: Expr, min: nat): seq<Pend> {
    if Bare(e, min) then [Pend(Val(env, e.l), e.op)] + Spine(env, e.r, Priority(e.op) + 1) else []
  }

  /** The operand in hand at that point. */
  function Last(env: Env, e: Expr, min: nat): Word {
    if Bare(e, min) then Last(env, e.r, Priority(e.op) + 1) else Val(env, e)
  }

  /** The log once the whole tree has been evaluated, its left operand first. */
  function Done(env: Env, e: Expr, log: Notes): Notes {
    match e
    case Atom(leaf) => Noted(env(leaf), log)
    case Prefixed(_, e) => Done(env, e, log)
    case Binary(op, l, r) => AfterOp(op, Val(env, r), Done(env, r, Done(env, l, log)))
  }

  /** The log when the tree's last token has been read. */
  function Read(env: Env, e: Expr, min: nat, log: Notes): Notes {
    if Bare(e, min) then Read(env, e.r, Priority(e.op) + 1, Done(env, e.l, log)) else Done(env, e, log)
  }

  /** What folding the waiting operators adds to the log. */
  function FoldNotes(env: Env, e: Expr, min: nat, log: Notes): Notes {
    if Bare(e, min) then AfterOp(e.op, Val(env, e.r), FoldNotes(env, e.r, Priority(e.op) + 1, log)) else log
  }

  predicate Simple(e: Expr) {
    e.Atom? || (e.Prefixed? && e.e.Atom?)
  }

  /** The expression inside the brackets around a tree, and the operator in front of them. */
  function Inside(e: Expr): Expr {
    if e.Prefixed? then e.e else e
  }

  function Prefix(e: Expr): Unary {
    if e.Prefixed? then e.u else Keep
  }

  /** The first thing that stops the reading of a tree's tokens when `h` cells are in use, from left to right: a marker
      behind the stack, a push it has no room for, a zero divisor that is reported; Okay when nothing does. */
  function Fate(env: Env, e: Expr, min: nat, h: nat, log: Notes): Status
    decreases e, min, 0
  {
    if Bare(e, min) then
      var p := Priority(e.op);
      var s := Fate(env, e.l, p, h, log);
      if s != Okay then s
      else if h + 3 > STACK_SIZE then StackLimit
      else if Done(env, e.l, log).error != Okay then Done(env, e.l, log).error
      else Fate(env, e.r, p + 1, h + 3, Done(env, e.l, log))
    else if Simple(e) then Okay
    else if h >= STACK_SIZE then Smashed
    else LevelFate(env, Inside(e), h + 1, log)
  }

  /** The same for a whole bracket level, whose end folds what is still waiting. */
  function LevelFate(env: Env, e: Expr, h: nat, log: Notes): Status
    decreases e, 2, 1
  {
    var s := Fate(env, e, 2, h, log);
    if s != Okay then s else Done(env, e, log).error
  }

  /** The same for the stack alone: a tree's brackets and operators decide whether it fits and what happens if not. */
  function Trouble(e: Expr, min: nat, h: nat): Status
    decreases e, min
  {
    if Bare(e, min) then
      var p := Priority(e.op);
      var s := Trouble(e.l, p, h);
      if s != Okay then s else if h + 3 > STACK_SIZE then StackLimit else Trouble(e.r, p + 1, h + 3)
    else if Simple(e) then Okay
    else if h >= STACK_SIZE then Smashed
    else Trouble(Inside(e), 2, h + 1)
  }

  /** A division by zero is reported: every label up to the end of its divisor has a value.  `known` says whether all
      labels before the tree have one. */
  predicate Raises(env: Env, e: Expr, known: bool) {
    match e
    case Atom(_) => false
    case Prefixed(_, e) => Raises(env, e, known)
    case Binary(op, l, r) =>
      || Raises(env, l, known) || Raises(env, r, known && AllFound(env, l))
      || (op == Divide && Val(env, r) == 0 && known && AllFound(env, l) && AllFound(env, r))
  }

  // ---------------------------------------------------------------- folding a tree's waiting operators

  ghost predicate Below(pend: seq<Pend>, min: nat) {
    pend != [] ==> Priority(pend[|pend| - 1].op) < min
  }

  lemma {:induction false} FoldSpine(env: Env, e: Expr, min: nat, pend: seq<Pend>, priority: nat, log: Notes)
    requires priority <= min
    ensures Fold(pend + Spine(env, e, min), Last(env, e, min), priority, log)
            == Fold(pend, Val(env, e), priority, FoldNotes(env, e, min, log))
    decreases e
  {
    hide ApplyUnary, Apply, AfterOp;
    if Bare(e, min) {
      var p, x := Priority(e.op), Pend(Val(env, e.l), e.op);
      FoldSpine(env, e.r, p + 1, pend + [x], priority, log);
      assert pend + Spine(env, e, min) == (pend + [x]) + Spine(env, e.r, p + 1);
      assert (pend + [x])[..|pend|] == pend;
    } else {
      assert pend + [] == pend;
    }
  }

  /** Reading and then folding is evaluating. */
  lemma {:induction false} ReadThenFold(env: Env, e: Expr, min: nat, log: Notes)
    ensures FoldNotes(env, e, min, Read(env, e, min, log)) == Done(env, e, log)
    decreases e
  {
    hide Apply, ApplyUnary, AfterOp, Noted;
    if Bare(e, min) { ReadThenFold(env, e.r, Priority(e.op) + 1, Done(env, e.l, log)); }
  }

  /** Folding stops at once when the newest waiting operator binds less. */
  lemma {:induction false} FoldStops(pend: seq<Pend>, operand: Word, priority: nat, log: Notes)
    requires Below(pend, priority)
    ensures Fold(pend, operand, priority, log) == Folded(pend, operand, log)
  {
  }

  /** Which operators folding removes does not depend on the operands. */
  function Trim(pend: seq<Pend>, priority: nat): seq<Pend>
    decreases pend
  {
    if pend == [] || priority > Priority(pend[|pend| - 1].op) then pend else Trim(pend[..|pend| - 1], priority)
  }

  lemma {:induction false} FoldTrims(pend: seq<Pend>, operand: Word, priority: nat, log: Notes)
    ensures Fold(pend, operand, priority, log).pend == Trim(pend, priority)
    decreases pend
  {
    if pend != [] && priority <= Priority(pend[|pend| - 1].op) {
      var top := pend[|pend| - 1];
      FoldTrims(pend[..|pend| - 1], Apply(top.op, top.left, operand), priority, AfterOp(top.op, operand, log));
    }
  }

  // ---------------------------------------------------------------- reading a tree

  /** The tokens of the tree start at `p`. */
  ghost predicate Shown(ts: seq<Token>, p: nat, e: Expr, min: nat) {
    p + |Show(e, min)| <= |ts| && ts[p..p + |Show(e, min)|] == Show(e, min)
  }

  lemma {:induction false} ShownBinary(ts: seq<Token>, p: nat, e: Expr, min: nat)
    requires Shown(ts, p, e, min) && Bare(e, min)
    ensures var q := p + |Show(e.l, Priority(e.op))|;
      && Shown(ts, p, e.l, Priority(e.op)) && q < |ts| && ts[q] == Oper(e.op)
      && Shown(ts, q + 1, e.r, Priority(e.op) + 1)
      && p + |Show(e, min)| == q + 1 + |Show(e.r, Priority(e.op) + 1)|
  {
    hide Priority;
    var a, b := Show(e.l, Priority(e.op)), Show(e.r, Priority(e.op) + 1);
    assert Show(e, min) == a + [Oper(e.op)] + b;
    ThreePieces(ts, p, a, Oper(e.op), b);
  }

  lemma {:induction false} ShownSimple(ts: seq<Token>, p: nat, e: Expr, min: nat)
    requires Shown(ts, p, e, min) && Simple(e)
    ensures p < |ts| && |Show(e, min)| == 1
    ensures ts[p] == if e.Atom? then Value(Keep, e.leaf) else Value(e.u, e.e.leaf)
  {
    assert Show(e, min)[0] == ts[p];
  }

  lemma {:induction false} ShownBracket(ts: seq<Token>, p: nat, e: Expr, min: nat)
    requires Shown(ts, p, e, min) && !Bare(e, min) && !Simple(e)
    ensures var f, q := Inside(e), p + 1 + |Show(Inside(e), 2)|;
      && p < |ts| && ts[p] == Open(Prefix(e)) && Shown(ts, p + 1, f, 2)
      && q < |ts| && ts[q] == Close && p + |Show(e, min)| == q + 1
  {
    hide Priority;
    var f, u := Inside(e), Prefix(e);
    var inner := Show(f, 2);
    assert Show(e, min) == [Open(u)] + inner + [Close];
    hide Show;
    assert [Open(u)] + inner + [Close] == [] + [Open(u)] + (inner + [Close]);
    assert inner + [Close] == inner + [Close] + [];
    ThreePieces(ts, p, [], Open(u), Show(f, 2) + [Close]);
    ThreePieces(ts, p + 1, Show(f, 2), Close, []);
  }

  lemma {:induction false} ThreePieces(ts: seq<Token>, p: nat, a: seq<Token>, t: Token, b: seq<Token>)
    requires p + |a| + 1 + |b| <= |ts|
    requires ts[p..p + |a| + 1 + |b|] == a + [t] + b
    ensures ts[p..p + |a|] == a && ts[p + |a|] == t && ts[p + |a| + 1..p + |a| + 1 + |b|] == b
  {
    var w := a + [t] + b;
    var v := ts[p..p + |w|];
    assert v == w;
    assert w[..|a|] == a && w[|a|] == t && w[|a| + 1..] == b;
    assert v[..|a|] == ts[p..p + |a|] && v[|a|] == ts[p + |a|];
    assert v[|a| + 1..] == ts[p + |a| + 1..p + |w|];
  }

  lemma {:induction false} SimpleValue(env: Env, e: Expr, log: Notes)
    requires Simple(e)
    ensures var leaf := if e.Atom? then e.leaf else e.e.leaf;
            && Val(env, e) == ApplyUnary(if e.Atom? then Keep else e.u, env(leaf).Value())
            && Done(env, e, log) == Noted(env(leaf), log)
  {
    if e.Prefixed? {
      assert Val(env, e.e) == env(e.e.leaf).Value() && Done(env, e.e, log) == Noted(env(e.e.leaf), log);
    }
  }

  lemma {:induction false} AtValue(env: Env, ts: seq<Token>, p: nat, u: Unary, leaf: Leaf, base: nat, mark: nat,
                     pend: seq<Pend>, log: Notes)
    requires p < |ts| && ts[p] == Value(u, leaf)
    ensures NeedOperand(env, ts, p, base, mark, pend, log) ==
            HaveOperand(env, ts, p + 1, base, mark, pend, ApplyUnary(u, env(leaf).Value()), Noted(env(leaf), log))
  {
    hide ApplyUnary, HaveOperand;
  }

  lemma {:induction false} AtOpen(env: Env, ts: seq<Token>, p: nat, u: Unary, base: nat, mark: nat, pend: seq<Pend>,
                     log: Notes)
    requires p < |ts| && ts[p] == Open(u) && Height(base, pend) < STACK_SIZE
    ensures var inner := NeedOperand(env, ts, p + 1, Height(base, pend) + 1, 1, [], log);
            NeedOperand(env, ts, p, base, mark, pend, log) ==
            if inner.log.error != Okay then inner
            else HaveOperand(env, ts, inner.pos, base, mark, pend, ApplyUnary(u, inner.value), inner.log)
  {
    hide ApplyUnary, HaveOperand;
  }

  lemma {:induction false} KeepIsIdentity(v: Word)
    ensures ApplyUnary(Keep, v) == v
  {
  }

  lemma {:induction false} AtOpenFull(env: Env, ts: seq<Token>, p: nat, u: Unary, base: nat, mark: nat,
                     pend: seq<Pend>, log: Notes)
    requires p < |ts| && ts[p] == Open(u) && Height(base, pend) >= STACK_SIZE
    ensures NeedOperand(env, ts, p, base, mark, pend, log) == Result(0, p + 1, log.(error := Smashed))
  {
  }

  /** Reading a tree's tokens leaves its spine waiting on the stack and its last operand in hand, unless its fate stops
      it before. */
  lemma {:induction false} Climb(env: Env, ts: seq<Token>, p: nat, e: Expr, min: nat, base: nat, mark: nat,
                     pend: seq<Pend>, log: Notes)
    requires Shown(ts, p, e, min) && 2 <= min && Below(pend, min)
    requires Height(base, pend) <= STACK_SIZE && log.error == Okay
    ensures var fate := Fate(env, e, min, Height(base, pend), log);
      if fate != Okay then NeedOperand(env, ts, p, base, mark, pend, log).log.error == fate
      else
        && Read(env, e, min, log).error == Okay
        && NeedOperand(env, ts, p, base, mark, pend, log) ==
           HaveOperand(env, ts, p + |Show(e, min)|, base, mark, pend + Spine(env, e, min), Last(env, e, min),
               Read(env, e, min, log))
    decreases e, min, 0
  {
    hide NeedOperand, HaveOperand, Apply, ApplyUnary, Show, Done;
    KeepIsIdentity(Val(env, e));
    assert pend + [] == pend;
    if Bare(e, min) {
      ClimbBinary(env, ts, p, e, min, base, mark, pend, log);
    } else if Simple(e) {
      ShownSimple(ts, p, e, min);
      var u, leaf := if e.Atom? then Keep else e.u, if e.Atom? then e.leaf else e.e.leaf;
      AtValue(env, ts, p, u, leaf, base, mark, pend, log);
      SimpleValue(env, e, log);
    } else {
      ShownBracket(ts, p, e, min);
      if Height(base, pend) >= STACK_SIZE {
        AtOpenFull(env, ts, p, Prefix(e), base, mark, pend, log);
      } else {
        ClimbLevel(env, ts, p + 1, Inside(e), Height(base, pend) + 1, 1, log);
        AtOpen(env, ts, p, Prefix(e), base, mark, pend, log);
        BracketValue(env, e, log);
      }
    }
  }

  /** What a bracket and its prefix stand for. */
  lemma {:induction false} BracketValue(env: Env, e: Expr, log: Notes)
    requires !e.Atom?
    ensures Val(env, e) == ApplyUnary(Prefix(e), Val(env, Inside(e))) && Done(env, e, log) == Done(env, Inside(e), log)
  {
    hide Apply;
  }

  lemma {:induction false} ClimbBinary(env: Env, ts: seq<Token>, p: nat, e: Expr, min: nat, base: nat, mark: nat,
                     pend: seq<Pend>, log: Notes)
    requires Shown(ts, p, e, min) && 2 <= min && Below(pend, min) && Bare(e, min)
    requires Height(base, pend) <= STACK_SIZE && log.error == Okay
    ensures var fate := Fate(env, e, min, Height(base, pend), log);
      if fate != Okay then NeedOperand(env, ts, p, base, mark, pend, log).log.error == fate
      else
        && Read(env, e, min, log).error == Okay
        && NeedOperand(env, ts, p, base, mark, pend, log) ==
           HaveOperand(env, ts, p + |Show(e, min)|, base, mark, pend + Spine(env, e, min), Last(env, e, min),
               Read(env, e, min, log))
    decreases e, 0, 0
  {
    hide NeedOperand, HaveOperand, Apply, ApplyUnary, Show, Done;
    ShownBinary(ts, p, e, min);
    var q, prio, x := p + |Show(e.l, Priority(e.op))|, Priority(e.op), Pend(Val(env, e.l), e.op);
    var done := Done(env, e.l, log);
    Climb(env, ts, p, e.l, prio, base, mark, pend, log);
    if Fate(env, e.l, prio, Height(base, pend), log) == Okay {
      AtOperator(env, ts, q, e.l, e.op, base, mark, pend, log);
      if Height(base, pend) + 3 <= STACK_SIZE && done.error == Okay {
        Climb(env, ts, q + 1, e.r, prio + 1, base, mark, pend + [x], done);
        assert pend + Spine(env, e, min) == (pend + [x]) + Spine(env, e.r, prio + 1);
      }
    }
  }

  /** The operator behind a left operand folds that operand's spine, no more, and is pushed if there is room. */
  lemma {:induction false} AtOperator(env: Env, ts: seq<Token>, q: nat, l: Expr, op: Op, base: nat, mark: nat,
                     pend: seq<Pend>, log: Notes)
    requires q < |ts| && ts[q] == Oper(op) && Below(pend, Priority(op))
    ensures var p, done := Priority(op), Done(env, l, log);
      HaveOperand(env, ts, q, base, mark, pend + Spine(env, l, p), Last(env, l, p), Read(env, l, p, log)) ==
      if Height(base, pend) + 3 > STACK_SIZE then Result(Val(env, l), q + 1, done.(error := StackLimit))
      else if done.error != Okay then Result(Val(env, l), q + 1, done)
      else NeedOperand(env, ts, q + 1, base, mark, pend + [Pend(Val(env, l), op)], done)
  {
    hide Done, Val, Spine, Last, Read, FoldNotes, NeedOperand, Fold;
    FoldSpine(env, l, Priority(op), pend, Priority(op), Read(env, l, Priority(op), log));
    ReadThenFold(env, l, Priority(op), log);
    FoldStops(pend, Val(env, l), Priority(op), Done(env, l, log));
  }

  /** The token that ends a level with this marker stands at `q`. */
  ghost predicate Ends(ts: seq<Token>, q: nat, mark: nat) {
    if mark == 0 then q == |ts| else mark == 1 && q < |ts| && ts[q] == Close
  }

  /** A level gives the value of the tree it encloses and leaves the stack as it was, unless its fate stops it. */
  lemma {:induction false} ClimbLevel(env: Env, ts: seq<Token>, p: nat, f: Expr, base: nat, mark: nat, log: Notes)
    requires Shown(ts, p, f, 2) && Ends(ts, p + |Show(f, 2)|, mark)
    requires base <= STACK_SIZE && log.error == Okay
    ensures var fate, r := LevelFate(env, f, base, log), NeedOperand(env, ts, p, base, mark, [], log);
      if fate != Okay then r.log.error == fate
      else r == Result(Val(env, f), p + |Show(f, 2)| + mark, Done(env, f, log))
    decreases f, 2, 1
  {
    hide NeedOperand, HaveOperand, Apply, ApplyUnary, Show, Done, Read;
    Climb(env, ts, p, f, 2, base, mark, [], log);
    AtEnd(env, ts, p + |Show(f, 2)|, f, base, mark, log);
  }

  lemma {:induction false} AtEnd(env: Env, ts: seq<Token>, q: nat, f: Expr, base: nat, mark: nat, log: Notes)
    requires Ends(ts, q, mark)
    ensures HaveOperand(env, ts, q, base, mark, [] + Spine(env, f, 2), Last(env, f, 2), Read(env, f, 2, log))
            == Result(Val(env, f), q + mark, Done(env, f, log))
  {
    hide Done, Val, Spine, Last, Read, FoldNotes, NeedOperand, Fold;
    FoldSpine(env, f, 2, [], mark, Read(env, f, 2, log));
    ReadThenFold(env, f, 2, log);
    FoldStops([], Val(env, f), mark, Done(env, f, log));
  }

  // ---------------------------------------------------------------- what evaluate promises

  /** The log of a tree: its leaves in order, and its divisions by zero, reported or not. */
  lemma {:induction false} DoneIs(env: Env, e: Expr, log: Notes)
    ensures var raised := log.error == Okay && Raises(env, e, log.first == Okay);
      Done(env, e, log) == Seen(env, e, log).(error := if raised then DivByZero else log.error,
                                               divZero := log.divZero || !DivFree(env, e))
    ensures Seen(env, e, log).first == Okay <==> log.first == Okay && AllFound(env, e)
  {
    hide Apply, ApplyUnary;
    match e
    case Atom(_) =>
    case Prefixed(_, f) => DoneIs(env, f, log);
    case Binary(op, l, r) =>
      var left := Done(env, l, log);
      DoneIs(env, l, log);
      DoneIs(env, r, left);
      SeenApart(env, r, Seen(env, l, log), left);
  }

  /** Reading leaves neither looks at the error and the division flag nor changes them. */
  lemma {:induction false} SeenApart(env: Env, e: Expr, a: Notes, b: Notes)
    requires b == a.(error := b.error, divZero := b.divZero)
    ensures Seen(env, e, b) == Seen(env, e, a).(error := b.error, divZero := b.divZero)
  {
    match e
    case Atom(_) =>
    case Prefixed(_, f) => SeenApart(env, f, a, b);
    case Binary(_, l, r) =>
      SeenApart(env, l, a, b);
      SeenApart(env, r, Seen(env, l, a), Seen(env, l, b));
  }

  lemma {:induction false} AllFoundRaises(env: Env, e: Expr)
    requires AllFound(env, e)
    ensures Raises(env, e, true) <==> !DivFree(env, e)
  {
    hide Apply, ApplyUnary;
    match e
    case Atom(_) =>
    case Prefixed(_, f) => AllFoundRaises(env, f);
    case Binary(_, l, r) =>
      AllFoundRaises(env, l);
      AllFoundRaises(env, r);
  }

  /** A tree fits exactly when the cells it needs are there; what happens if not depends on its shape alone. */
  lemma {:induction false} FitsExactly(e: Expr, min: nat, h: nat)
    requires h <= STACK_SIZE
    ensures var s := Trouble(e, min, h);
      (s == Okay <==> h + Peak(e, min) <= STACK_SIZE) && (s == Okay || s == StackLimit || s == Smashed)
    decreases e, min
  {
    if Bare(e, min) {
      FitsExactly(e.l, Priority(e.op), h);
      if h + 3 <= STACK_SIZE { FitsExactly(e.r, Priority(e.op) + 1, h + 3); }
    } else if !Simple(e) && h < STACK_SIZE {
      FitsExactly(Inside(e), 2, h + 1);
    }
  }

  /** Short of a reported zero divisor, the stack decides; and no such divisor goes unnoticed in a tree that fits. */
  lemma {:induction false} FateIs(env: Env, e: Expr, min: nat, h: nat, log: Notes)
    requires log.error == Okay
    ensures var s, raised := Fate(env, e, min, h, log), Raises(env, e, log.first == Okay);
      (s == Trouble(e, min, h) || (s == DivByZero && raised))
    decreases e, min, 0
  {
    hide Done, Apply, ApplyUnary;
    if Bare(e, min) {
      FateIs(env, e.l, Priority(e.op), h, log);
      DoneIs(env, e.l, log);
      if Done(env, e.l, log).error == Okay && h + 3 <= STACK_SIZE {
        FateIs(env, e.r, Priority(e.op) + 1, h + 3, Done(env, e.l, log));
      }
    } else if !Simple(e) && h < STACK_SIZE {
      FateIs(env, Inside(e), 2, h + 1, log);
      DoneIs(env, Inside(e), log);
      InsideRaises(env, e, log.first == Okay);
    }
  }

  lemma {:induction false} InsideRaises(env: Env, e: Expr, known: bool)
    requires !e.Atom?
    ensures Raises(env, e, known) == Raises(env, Inside(e), known)
  {
  }

  /** Every tree, with any labels unknown.  If it fits the stack, the result is its 32-bit value (unknown labels read as
      0), with each tolerated error and undefined read noted, unless a zero divisor is met while all labels so far are
      known, which is reported instead.  If it does not fit, such a divisor or the full stack ends the evaluation: by
      an error report, or by a marker written behind the stack. */
  lemma {:induction false} EvaluatesTree(env: Env, e: Expr)
    ensures var r, fits, raised := Evaluate(env, Show(e, 2)), Peak(e, 2) < STACK_SIZE, Raises(env, e, true);
      && r.log.error == LevelFate(env, e, 1, Start)
      && (fits && !raised ==>
            r == Result(Val(env, e), |Show(e, 2)|, Seen(env, e, Start).(divZero := !DivFree(env, e))))
      && (fits && raised ==> r.log.error == DivByZero)
      && (!fits ==> r.log.error == Trouble(e, 2, 1) || (raised && r.log.error == DivByZero))
      && (fits <==> Trouble(e, 2, 1) == Okay)
  {
    hide NeedOperand, Apply, ApplyUnary, Show, Fate, Trouble, Raises, Done, Seen, Val, DivFree;
    var ts := Show(e, 2);
    assert ts[0..|ts|] == ts;
    ClimbLevel(env, ts, 0, e, 1, 0, Start);
    FateIs(env, e, 2, 1, Start);
    DoneIs(env, e, Start);
    SeenError(env, e, Start);
    FitsExactly(e, 2, 1);
  }

  /** With every label known: the value exactly when the tree fits and no divisor is zero. */
  lemma {:induction false} EvaluatesKnown(env: Env, e: Expr)
    requires AllFound(env, e)
    ensures var r := Evaluate(env, Show(e, 2));
      && (Outcome(r) == Okay <==> Peak(e, 2) < STACK_SIZE && DivFree(env, e))
      && (Outcome(r) == Okay ==> r == Result(Val(env, e), |Show(e, 2)|, Start))
      && (Peak(e, 2) < STACK_SIZE && !DivFree(env, e) ==> Outcome(r) == DivByZero)
      && (DivFree(env, e) ==> r.log.error == Trouble(e, 2, 1))
  {
    hide Evaluate, Apply, ApplyUnary, Show, Trouble, Raises, Seen, Val, DivFree, Peak, AllFound;
    EvaluatesTree(env, e);
    AllFoundRaises(env, e);
    SeenNothing(env, e, Start);
  }

  /** On a tree that fits, with labels unknown: without a reported zero divisor the outcome is Okay exactly when every
      label is known, and a zero divisor behind an unknown label is only noted. */
  lemma {:induction false} EvaluatesUnresolved(env: Env, e: Expr)
    requires Peak(e, 2) < STACK_SIZE
    ensures var r := Evaluate(env, Show(e, 2));
      if Raises(env, e, true) then Outcome(r) == DivByZero
      else
        && r == Result(Val(env, e), |Show(e, 2)|, Seen(env, e, Start).(divZero := !DivFree(env, e)))
        && (Outcome(r) == Okay <==> AllFound(env, e)) && (AllFound(env, e) ==> DivFree(env, e))
  {
    hide Evaluate, Apply, ApplyUnary, Show, Trouble, Raises, Val, DivFree, Peak;
    EvaluatesTree(env, e);
    DoneIs(env, e, Start);
    SeenError(env, e, Start);
    if AllFound(env, e) { AllFoundRaises(env, e); }
  }

  /** A quotient by a label without a value: all ones, no fatal error, and the division noted. */
  lemma {:induction false} UnresolvedDivisor(env: Env, name: string)
    requires env(Number(100)) == Found(100) && env(Label(name)) == Undefined
    ensures var e := Binary(Divide, Atom(Number(100)), Atom(Label(name)));
      Evaluate(env, Show(e, 2)) == Result(0xFFFF_FFFF, 3, Notes(Okay, LabelUndef, 1, true))
  {
    hide Evaluate;
    var l, r := Atom(Number(100)), Atom(Label(name));
    var e := Binary(Divide, l, r);
    assert Show(l, 4) == [Value(Keep, Number(100))] && Show(r, 5) == [Value(Keep, Label(name))];
    assert Show(e, 2) == Show(l, 4) + [Oper(Divide)] + Show(r, 5);
    assert Peak(l, 4) == 0 && Peak(r, 5) == 0;
    assert Val(env, l) == 100 && Val(env, r) == 0 && Apply(Divide, 100, 0) == 0xFFFF_FFFF;
    assert !Raises(env, l, true) && !Raises(env, r, true) && !AllFound(env, r);
    var left := Seen(env, l, Start);
    assert left == Start && Seen(env, r, left) == Notes(Okay, LabelUndef, 1, false);
    EvaluatesUnresolved(env, e);
  }

  lemma {:induction false} SeenNothing(env: Env, e: Expr, log: Notes)
    requires AllFound(env, e)
    ensures Seen(env, e, log) == log
  {
    match e
    case Atom(_) =>
    case Prefixed(_, f) => SeenNothing(env, f, log);
    case Binary(_, l, r) =>
      SeenNothing(env, l, log);
      SeenNothing(env, r, log);
  }

  /** `k` signs, one inside the other, in front of a number: k - 1 nested brackets. */
  function Signs(k: nat): Expr {
    if k == 0 then Atom(Number(1)) else Prefixed(Negate, Signs(k - 1))
  }

  lemma {:induction false} SignsTrouble(k: nat, min: nat, h: nat)
    requires h <= STACK_SIZE
    ensures Trouble(Signs(k), min, h) == if h + k > STACK_SIZE + 1 then Smashed else Okay
    decreases k
  {
    if k > 1 && h < STACK_SIZE { SignsTrouble(k - 1, 2, h + 1); }
  }

  lemma {:induction false} SignsHarmless(env: Env, k: nat, known: bool)
    ensures !Raises(env, Signs(k), known)
  {
    if k > 0 { SignsHarmless(env, k - 1, known); }
  }

  /** Twenty nested brackets, or more, put a marker behind the stack; nineteen do not. */
  lemma {:induction false} TwentyBracketsSmash(env: Env, k: nat)
    ensures Evaluate(env, Show(Signs(k + 1), 2)).log.error == if k >= 20 then Smashed else Okay
  {
    hide Evaluate, Show, Trouble, Raises, Signs;
    EvaluatesTree(env, Signs(k + 1));
    SignsTrouble(k + 1, 2, 1);
    SignsHarmless(env, k + 1, true);
    SeenError(env, Signs(k + 1), Start);
  }

  /** Six operators, each binding tighter than the one before, so that all of them wait: 1=1+1*1|1&1<<1. */
  const SIX_WAITING: Expr :=
    var tight := Binary(Or, ONE, Binary(And, ONE, Binary(LeftShift, ONE, ONE)));
    Binary(Equals, ONE, Binary(Plus, ONE, Binary(Multiply, ONE, tight)))

  const ONE: Expr := Atom(Number(1))

  const SIX_TOKENS: seq<Token> :=
    var v := Value(Keep, Number(1));
    [v, Oper(Equals), v, Oper(Plus), v, Oper(Multiply), v, Oper(Or), v, Oper(And), v, Oper(LeftShift), v]

  /** In one pair of brackets they just find room; in two the last one is reported. */
  lemma {:induction false} SixWaitingLimit(env: Env)
    ensures Evaluate(env, [Open(Keep)] + SIX_TOKENS + [Close]).log.error == Okay
    ensures Evaluate(env, [Open(Keep)] + ([Open(Keep)] + SIX_TOKENS + [Close]) + [Close]).log.error == StackLimit
  {
    hide Evaluate, Raises, SIX_WAITING;
    SixShown();
    SixTrouble(2);
    SixTrouble(3);
    SixHarmless(env);
    var once := Prefixed(Keep, SIX_WAITING);
    BracketedTrouble(env, once);
    EvaluatesTree(env, once);
    EvaluatesTree(env, Prefixed(Keep, once));
    SeenError(env, once, Start);
  }

  lemma {:induction false} BracketedTrouble(env: Env, once: Expr)
    requires once == Prefixed(Keep, SIX_WAITING)
    ensures Trouble(once, 2, 1) == Trouble(SIX_WAITING, 2, 2)
    ensures Trouble(Prefixed(Keep, once), 2, 1) == Trouble(SIX_WAITING, 2, 3)
    ensures Raises(env, Prefixed(Keep, once), true) == Raises(env, once, true) == Raises(env, SIX_WAITING, true)
    ensures Show(once, 2) == [Open(Keep)] + Show(SIX_WAITING, 2) + [Close]
    ensures Show(Prefixed(Keep, once), 2) == [Open(Keep)] + Show(once, 2) + [Close]
  {
    assert SIX_WAITING.Binary?;
    assert Trouble(once, 2, 2) == Trouble(SIX_WAITING, 2, 3);
  }

  lemma {:induction false} SixShown()
    ensures Show(SIX_WAITING, 2) == SIX_TOKENS
  {
    hide Show, SIX_TOKENS;
    var shift := Binary(LeftShift, ONE, ONE);
    var and := Binary(And, ONE, shift);
    var or := Binary(Or, ONE, and);
    var times := Binary(Multiply, ONE, or);
    OneThen(LeftShift, ONE);
    OneThen(And, shift);
    OneThen(Or, and);
    OneThen(Multiply, or);
    OneThen(Plus, times);
    OneThen(Equals, Binary(Plus, ONE, times));
    SixPieces(Value(Keep, Number(1)));
  }

  lemma {:induction false} SixPieces(v: Token)
    requires v == Value(Keep, Number(1))
    ensures SIX_TOKENS == [v, Oper(Equals)] + ([v, Oper(Plus)] + ([v, Oper(Multiply)] + ([v, Oper(Or)]
                          + ([v, Oper(And)] + ([v, Oper(LeftShift)] + [v])))))
  {
  }

  lemma {:induction false} OneThen(op: Op, r: Expr)
    ensures Show(Binary(op, ONE, r), Priority(op)) == [Value(Keep, Number(1)), Oper(op)] + Show(r, Priority(op) + 1)
    ensures r == ONE ==> Show(r, Priority(op) + 1) == [Value(Keep, Number(1))]
  {
  }

  lemma {:induction false} SixTrouble(h: nat)
    requires h == 2 || h == 3
    ensures Trouble(SIX_WAITING, 2, h) == if h == 2 then Okay else StackLimit
  {
    var shift := Binary(LeftShift, ONE, ONE);
    var and := Binary(And, ONE, shift);
    var or := Binary(Or, ONE, and);
    var times := Binary(Multiply, ONE, or);
    var plus := Binary(Plus, ONE, times);
    assert Trouble(shift, 7, h + 15) == if h == 2 then Okay else StackLimit;
    assert Trouble(and, 6, h + 12) == Trouble(shift, 7, h + 15);
    assert Trouble(or, 5, h + 9) == Trouble(and, 6, h + 12);
    assert Trouble(times, 4, h + 6) == Trouble(or, 5, h + 9);
    assert Trouble(plus, 3, h + 3) == Trouble(times, 4, h + 6);
  }

  lemma {:induction false} SixHarmless(env: Env)
    ensures !Raises(env, SIX_WAITING, true)
  {
    var and := Binary(And, ONE, Binary(LeftShift, ONE, ONE));
    var times := Binary(Multiply, ONE, Binary(Or, ONE, and));
    assert Undivided(and);
    assert Undivided(times);
    NoDivisionHarmless(env, SIX_WAITING, true);
  }

  predicate Undivided(e: Expr) {
    match e
    case Atom(_) => true
    case Prefixed(_, e) => Undivided(e)
    case Binary(op, l, r) => op != Divide && Undivided(l) && Undivided(r)
  }

  lemma {:induction false} NoDivisionHarmless(env: Env, e: Expr, known: bool)
    ensures Undivided(e) ==> !Raises(env, e, known)
  {
    hide Apply, ApplyUnary;
    match e
    case Atom(_) =>
    case Prefixed(_, e) => NoDivisionHarmless(env, e, known);
    case Binary(_, l, r) =>
      NoDivisionHarmless(env, l, known);
      NoDivisionHarmless(env, r, known && AllFound(env, l));
  }

  lemma {:induction false} SeenError(env: Env, e: Expr, log: Notes)
    ensures Seen(env, e, log).error == log.error
  {
    SeenApart(env, e, log, log);
  }

  // ---------------------------------------------------------------- whatever is accepted is a tree's text

  /** An operator waiting for its right operand, with the tree on its left. */
  datatype Wait = Wait(left: Expr, op: Op)

  /** The text of what is waiting. */
  function Spelled(waits: seq<Wait>): seq<Token>
    decreases |waits|
  {
    if waits == [] then []
    else
      var w := waits[|waits| - 1];
      Spelled(waits[..|waits| - 1]) + Show(w.left, Priority(w.op)) + [Oper(w.op)]
  }

  /** The priority a tree behind these operators needs to do without brackets. */
  function Needed(waits: seq<Wait>): (min: nat)
    ensures min >= 2
  {
    if waits == [] then 2 else Priority(waits[|waits| - 1].op) + 1
  }

  ghost predicate Rising(waits: seq<Wait>)
    decreases |waits|
  {
    waits != [] ==>
      && Rising(waits[..|waits| - 1])
      && Priority(waits[|waits| - 1].op) >= Needed(waits[..|waits| - 1])
  }

  /** Printed without brackets where `min` is needed; not a bare leaf, which brackets around it would change. */
  predicate Tight(x: Expr, min: nat) {
    !x.Atom? && (x.Binary? ==> Priority(x.op) >= min)
  }

  lemma {:induction false} TightShow(x: Expr, a: nat, b: nat)
    requires Tight(x, a) && Tight(x, b)
    ensures Show(x, a) == Show(x, b)
  {
  }

  /** Folding, on trees. */
  function Join(waits: seq<Wait>, x: Expr, priority: nat): (seq<Wait>, Expr)
    decreases |waits|
  {
    if waits == [] || priority > Priority(waits[|waits| - 1].op) then (waits, x)
    else
      var top := waits[|waits| - 1];
      Join(waits[..|waits| - 1], Binary(top.op, top.left, x), priority)
  }

  /** It changes nothing in the text. */
  lemma {:induction false} JoinSpells(waits: seq<Wait>, x: Expr, priority: nat)
    requires Rising(waits) && Tight(x, Needed(waits)) && Tight(x, priority)
    ensures var (ws, y) := Join(waits, x, priority);
      && Rising(ws) && Tight(y, Needed(ws)) && Tight(y, priority) && (priority >= 2 ==> priority >= Needed(ws))
      && (priority <= 1 ==> ws == [])
      && Spelled(ws) + Show(y, Needed(ws)) == Spelled(waits) + Show(x, Needed(waits))
    decreases |waits|
  {
    hide Spelled, Show;
    if waits != [] && priority <= Priority(waits[|waits| - 1].op) {
      var rest, top := waits[..|waits| - 1], waits[|waits| - 1];
      var y := Binary(top.op, top.left, x);
      SpelledPush(rest, top);
      assert waits == rest + [top];
      ShowJoined(top, x, Needed(rest));
      SplitThree(Spelled(rest), Show(top.left, Priority(top.op)), [Oper(top.op)], Show(x, Priority(top.op) + 1));
      JoinSpells(rest, y, priority);
    }
  }

  lemma {:induction false} ShowJoined(top: Wait, x: Expr, min: nat)
    requires Priority(top.op) >= min
    ensures Show(Binary(top.op, top.left, x), min)
            == Show(top.left, Priority(top.op)) + [Oper(top.op)] + Show(x, Priority(top.op) + 1)
  {
  }

  lemma {:induction false} SplitThree<T>(a: seq<T>, b: seq<T>, c: seq<T>, d: seq<T>)
    ensures a + (b + c + d) == a + b + c + d
  {
  }

  /** The operators on the stack and those of the trees are the same. */
  ghost predicate Matched(pend: seq<Pend>, waits: seq<Wait>) {
    |pend| == |waits| && forall i :: 0 <= i < |pend| ==> pend[i].op == waits[i].op
  }

  lemma {:induction false} JoinMatched(pend: seq<Pend>, waits: seq<Wait>, x: Expr, priority: nat)
    requires Matched(pend, waits)
    ensures Matched(Trim(pend, priority), Join(waits, x, priority).0)
    decreases |waits|
  {
    if waits != [] && priority <= Priority(waits[|waits| - 1].op) {
      var top := waits[|waits| - 1];
      JoinMatched(pend[..|pend| - 1], waits[..|waits| - 1], Binary(top.op, top.left, x), priority);
    }
  }

  /** A level that ends without a fatal error encloses the text of a tree. */
  lemma {:induction false} NeedShown(env: Env, ts: seq<Token>, p: nat, base: nat, mark: nat, pend: seq<Pend>,
                     log: Notes, start: nat, waits: seq<Wait>) returns (e: Expr)
    requires start <= p <= |ts| && Matched(pend, waits) && Rising(waits) && ts[start..p] == Spelled(waits)
    requires NeedOperand(env, ts, p, base, mark, pend, log).log.error == Okay
    ensures var q := NeedOperand(env, ts, p, base, mark, pend, log).pos - mark;
      p <= q && Ends(ts, q, mark) && Tight(e, 2) && ts[start..q] == Show(e, 2)
    decreases |ts| - p, 1
  {
    hide Apply, ApplyUnary, Fold, HaveOperand, Show, Spelled;
    match ts[p]
    case Value(u, leaf) =>
      var operand, seen := ApplyUnary(u, env(leaf).Value()), Noted(env(leaf), log);
      ValueText(ts, start, p, waits);
      e := HaveShown(env, ts, p + 1, base, mark, pend, operand, seen, start, waits, Prefixed(u, Atom(leaf)));
    case Open(u) =>
      var inner := NeedOperand(env, ts, p + 1, Height(base, pend) + 1, 1, [], log);
      SpelledNothing();
      var f := NeedShown(env, ts, p + 1, Height(base, pend) + 1, 1, [], log, p + 1, []);
      BracketText(ts, start, p, inner.pos - 1, waits, f);
      e := HaveShown(env, ts, inner.pos, base, mark, pend, ApplyUnary(u, inner.value), inner.log, start, waits,
          Prefixed(u, f));
  }

  lemma {:induction false} HaveShown(env: Env, ts: seq<Token>, p: nat, base: nat, mark: nat, pend: seq<Pend>,
                     operand: Word, log: Notes, start: nat, waits: seq<Wait>, x: Expr) returns (e: Expr)
    requires start <= p <= |ts| && Matched(pend, waits) && Rising(waits) && x.Prefixed?
    requires ts[start..p] == Spelled(waits) + Show(x, 2)
    requires HaveOperand(env, ts, p, base, mark, pend, operand, log).log.error == Okay
    ensures var q := HaveOperand(env, ts, p, base, mark, pend, operand, log).pos - mark;
      p <= q && Ends(ts, q, mark) && Tight(e, 2) && ts[start..q] == Show(e, 2)
    decreases |ts| - p, 0
  {
    hide Apply, ApplyUnary, Fold, NeedOperand, Show, Spelled, Trim, Join;
    var priority := if p == |ts| then 0 else if ts[p].Oper? then Priority(ts[p].op) else 1;
    var (ws, y) := Join(waits, x, priority);
    TightShow(x, 2, Needed(waits));
    JoinSpells(waits, x, priority);
    SpelledNothing();
    if p < |ts| && ts[p].Oper? {
      var f := Fold(pend, operand, priority, log);
      FoldTrims(pend, operand, priority, log);
      JoinMatched(pend, waits, x, priority);
      TightShow(y, Needed(ws), priority);
      SpelledPush(ws, Wait(y, ts[p].op));
      assert ts[start..p + 1] == ts[start..p] + [ts[p]];
      var next := ws + [Wait(y, ts[p].op)];
      assert next[..|ws|] == ws;
      e := NeedShown(env, ts, p + 1, base, mark, f.pend + [Pend(f.value, ts[p].op)], f.log, start, next);
    } else {
      e := y;
      assert [] + Show(y, 2) == Show(y, 2);
    }
  }

  lemma {:induction false} ValueText(ts: seq<Token>, start: nat, p: nat, waits: seq<Wait>)
    requires start <= p < |ts| && ts[start..p] == Spelled(waits) && ts[p].Value?
    ensures ts[start..p + 1] == Spelled(waits) + Show(Prefixed(ts[p].u, Atom(ts[p].leaf)), 2)
  {
    hide Spelled;
    assert ts[start..p + 1] == ts[start..p] + [ts[p]];
  }

  lemma {:induction false} BracketText(ts: seq<Token>, start: nat, p: nat, q: nat, waits: seq<Wait>, f: Expr)
    requires start <= p < q < |ts| && ts[start..p] == Spelled(waits) && ts[p].Open? && ts[q] == Close
    requires !f.Atom? && ts[p + 1..q] == Show(f, 2)
    ensures ts[start..q + 1] == Spelled(waits) + Show(Prefixed(ts[p].u, f), 2)
  {
    hide Spelled;
    assert Show(Prefixed(ts[p].u, f), 2) == [Open(ts[p].u)] + Show(f, 2) + [Close];
    SliceAround(ts, start, p, q);
  }

  lemma {:induction false} SliceAround(ts: seq<Token>, start: nat, p: nat, q: nat)
    requires start <= p < q < |ts|
    ensures ts[start..q + 1] == ts[start..p] + ([ts[p]] + ts[p + 1..q] + [ts[q]])
  {
    assert ts[p..q + 1] == [ts[p]] + ts[p + 1..q + 1];
    assert ts[p + 1..q + 1] == ts[p + 1..q] + [ts[q]];
  }

  lemma {:induction false} SpelledNothing()
    ensures Spelled([]) == []
  {
  }

  lemma {:induction false} SpelledPush(waits: seq<Wait>, w: Wait)
    ensures Spelled(waits + [w]) == Spelled(waits) + Show(w.left, Priority(w.op)) + [Oper(w.op)]
  {
    assert (waits + [w])[..|waits|] == waits;
  }

  /** What evaluate accepts, whatever the tokens, is the text of a tree, and what it gives is that tree's value. */
  lemma {:induction false} AcceptedIsTree(env: Env, ts: seq<Token>) returns (e: Expr)
    requires Evaluate(env, ts).log.error == Okay
    ensures ts == Show(e, 2) && Peak(e, 2) < STACK_SIZE && !Raises(env, e, true)
    ensures Evaluate(env, ts) == Result(Val(env, e), |ts|, Seen(env, e, Start).(divZero := !DivFree(env, e)))
  {
    hide NeedOperand, Show, Peak, Raises, Seen, Val, DivFree, Trouble, Spelled;
    SpelledNothing();
    assert ts[0..0] == [];
    e := NeedShown(env, ts, 0, 1, 0, [], Start, 0, []);
    assert ts[0..|ts|] == ts;
    EvaluatesTree(env, e);
    FitsExactly(e, 2, 1);
  }

  /** So the token lists accepted are exactly the texts of the trees that fit the stack and raise no error. */
  lemma {:induction false} AcceptsExactly(env: Env, ts: seq<Token>)
    ensures Evaluate(env, ts).log.error == Okay
            <==> exists e :: ts == Show(e, 2) && Peak(e, 2) < STACK_SIZE && !Raises(env, e, true)
  {
    hide Evaluate, Show, Peak, Raises, Seen, Val, DivFree, Trouble;
    if Evaluate(env, ts).log.error == Okay { var e := AcceptedIsTree(env, ts); }
    if e :| ts == Show(e, 2) && Peak(e, 2) < STACK_SIZE && !Raises(env, e, true) {
      EvaluatesTree(env, e);
      SeenError(env, e, Start);
    }
  }

  // ---------------------------------------------------------------- what binds tighter

  /** The operators by how tightly they bind, the loosest first. */
  const CLASSES: seq<set<Op>> := [
    {Equals, NotEqual, LowerThan, LowerEqual, HigherThan, HigherEqual, LessThan, LessEqual, GreaterThan, GreaterEqual},
    {Plus, Minus},
    {Multiply, Divide, Modulus},
    {Or, Xor},
    {And},
    {LeftShift, RightShift}]

  ghost predicate Tighter(b: Op, a: Op) {
    exists i, j :: 0 <= i < j < |CLASSES| && a in CLASSES[i] && b in CLASSES[j]
  }

  lemma {:induction false} ClassOf(op: Op, i: nat)
    requires i < |CLASSES|
    ensures op in CLASSES[i] <==> i == Priority(op) - 2
  {
  }

  lemma {:induction false} ClassCount()
    ensures |CLASSES| == 6
  {
  }

  lemma {:induction false} TighterIs(b: Op, a: Op)
    ensures Tighter(b, a) <==> Priority(a) < Priority(b)
  {
    hide Priority, CLASSES;
    ClassCount();
    if Priority(a) < Priority(b) {
      ClassOf(a, Priority(a) - 2);
      ClassOf(b, Priority(b) - 2);
    }
    if Tighter(b, a) {
      var i, j :| 0 <= i < j < |CLASSES| && a in CLASSES[i] && b in CLASSES[j];
      ClassOf(a, i);
      ClassOf(b, j);
    }
  }

  /** What two operators make of three operands, by way of `m`, the one that binds tighter first and else the left
      one. */
  ghost predicate Grouped(a: Op, b: Op, x: Word, y: Word, z: Word, m: Word, v: Word) {
    if Tighter(b, a) then Computes(b, y, z, m) && Computes(a, x, m, v)
    else Computes(a, x, y, m) && Computes(b, m, z, v)
  }

  /** Three operands and two operators: what the operators compute, grouped as their classes say, whatever the
      operators and operands, unless a zero divisor is reported. */
  lemma {:induction false} Grouping(env: Env, s: Unary, x: Leaf, a: Op, t: Unary, y: Leaf, b: Op, u: Unary, z: Leaf)
      returns (m: Word)
    ensures var r := Evaluate(env, [Value(s, x), Oper(a), Value(t, y), Oper(b), Value(u, z)]);
      && (r.log.error == Okay || (r.log.error == DivByZero && (a == Divide || b == Divide)))
      && (r.log.error == Okay ==>
            Grouped(a, b, ApplyUnary(s, env(x).Value()), ApplyUnary(t, env(y).Value()),
                    ApplyUnary(u, env(z).Value()), m, r.value))
  {
    hide Evaluate, Apply, ApplyUnary, Computes, Trouble, Raises, Seen, DivFree, Tighter, Undivided;
    if a != Divide && b != Divide { UndividedThree(s, x, a, t, y, b, u, z); }
    var l, c, r := Prefixed(s, Atom(x)), Prefixed(t, Atom(y)), Prefixed(u, Atom(z));
    TighterIs(b, a);
    LeafVal(env, s, x);
    LeafVal(env, t, y);
    LeafVal(env, u, z);
    var e := if Priority(a) < Priority(b) then Binary(a, l, Binary(b, c, r)) else Binary(b, Binary(a, l, c), r);
    ThreeShown(s, x, a, t, y, b, u, z);
    EvaluatesTree(env, e);
    NoDivisionHarmless(env, e, true);
    SeenError(env, e, Start);
    if Priority(a) < Priority(b) {
      m := Val(env, Binary(b, c, r));
      ApplyComputes(b, Val(env, c), Val(env, r));
      ApplyComputes(a, Val(env, l), m);
    } else {
      m := Val(env, Binary(a, l, c));
      ApplyComputes(a, Val(env, l), Val(env, c));
      ApplyComputes(b, m, Val(env, r));
    }
  }

  lemma {:induction false} UndividedThree(s: Unary, x: Leaf, a: Op, t: Unary, y: Leaf, b: Op, u: Unary, z: Leaf)
    requires a != Divide && b != Divide
    ensures var l, c, r := Prefixed(s, Atom(x)), Prefixed(t, Atom(y)), Prefixed(u, Atom(z));
      Undivided(Binary(a, l, Binary(b, c, r))) && Undivided(Binary(b, Binary(a, l, c), r))
  {
    var l, c, r := Prefixed(s, Atom(x)), Prefixed(t, Atom(y)), Prefixed(u, Atom(z));
    assert Undivided(l) && Undivided(c) && Undivided(r);
    assert Undivided(Binary(b, c, r)) && Undivided(Binary(a, l, c));
  }

  lemma {:induction false} LeafVal(env: Env, u: Unary, leaf: Leaf)
    ensures Val(env, Prefixed(u, Atom(leaf))) == ApplyUnary(u, env(leaf).Value())
  {
    hide ApplyUnary;
    assert Val(env, Atom(leaf)) == env(leaf).Value();
  }

  lemma {:induction false} ThreeShown(s: Unary, x: Leaf, a: Op, t: Unary, y: Leaf, b: Op, u: Unary, z: Leaf)
    ensures var l, c, r := Prefixed(s, Atom(x)), Prefixed(t, Atom(y)), Prefixed(u, Atom(z));
      var e := if Priority(a) < Priority(b) then Binary(a, l, Binary(b, c, r)) else Binary(b, Binary(a, l, c), r);
      && Show(e, 2) == [Value(s, x), Oper(a), Value(t, y), Oper(b), Value(u, z)]
      && Peak(e, 2) < STACK_SIZE
  {
    hide Priority;
    var l, c, r := Prefixed(s, Atom(x)), Prefixed(t, Atom(y)), Prefixed(u, Atom(z));
    if Priority(a) < Priority(b) {
      var right := Binary(b, c, r);
      assert Show(right, Priority(a) + 1) == [Value(t, y), Oper(b), Value(u, z)];
      assert Peak(c, Priority(b)) == 0 && Peak(r, Priority(b) + 1) == 0 && Peak(l, Priority(a)) == 0;
      assert Peak(right, Priority(a) + 1) == 3;
    } else {
      var left := Binary(a, l, c);
      assert Show(left, Priority(b)) == [Value(s, x), Oper(a), Value(t, y)];
      assert Peak(l, Priority(a)) == 0 && Peak(c, Priority(a) + 1) == 0 && Peak(r, Priority(b) + 1) == 0;
      assert Peak(left, Priority(b)) == 3;
    }
  }

  // ---------------------------------------------------------------- expressions without brackets

  predicate Overflow(s: Status) {
    s == StackLimit || s == Smashed
  }

  ghost predicate Increasing(pend: seq<Pend>) {
    forall i, j :: 0 <= i < j < |pend| ==> Priority(pend[i].op) < Priority(pend[j].op)
  }

  /** Priorities 2 to 7 leave room for at most six waiting operators. */
  lemma {:induction false} IncreasingShort(pend: seq<Pend>)
    requires Increasing(pend) && pend != []
    ensures |pend| <= Priority(pend[|pend| - 1].op) - 1
  {
    if |pend| > 1 {
      var shorter := pend[..|pend| - 1];
      IncreasingShort(shorter);
      assert Priority(pend[|pend| - 2].op) < Priority(pend[|pend| - 1].op);
    }
  }

  lemma {:induction false} IncreasingPush(pend: seq<Pend>, x: Pend)
    requires Increasing(pend) && Below(pend, Priority(x.op))
    ensures Increasing(pend + [x])
  {
    var next := pend + [x];
    forall i, j | 0 <= i < j < |next| ensures Priority(next[i].op) < Priority(next[j].op) {
      if j == |pend| && i < j - 1 { assert Priority(pend[i].op) < Priority(pend[j - 1].op); }
    }
  }

  lemma {:induction false} TrimIncreasing(pend: seq<Pend>, priority: nat)
    requires Increasing(pend)
    ensures Increasing(Trim(pend, priority)) && Below(Trim(pend, priority), priority)
    decreases pend
  {
    if pend != [] && priority <= Priority(pend[|pend| - 1].op) { TrimIncreasing(pend[..|pend| - 1], priority); }
  }

  /** Priorities above the marker strictly increase, so without brackets 19 cells are enough for any length. */
  lemma {:induction false} NoBracketsNoOverflow(env: Env, ts: seq<Token>, p: nat, pend: seq<Pend>, log: Notes)
    requires p <= |ts| && (forall i :: 0 <= i < |ts| ==> !ts[i].Open?) && Increasing(pend) && !Overflow(log.error)
    ensures !Overflow(NeedOperand(env, ts, p, 1, 0, pend, log).log.error)
    decreases |ts| - p
  {
    hide Apply, ApplyUnary, Fold, Trim, Increasing;
    if p < |ts| && ts[p].Value? {
      var operand := ApplyUnary(ts[p].u, env(ts[p].leaf).Value());
      var seen := Noted(env(ts[p].leaf), log);
      if p + 1 < |ts| && ts[p + 1].Oper? {
        var op := ts[p + 1].op;
        var f := Fold(pend, operand, Priority(op), seen);
        FoldTrims(pend, operand, Priority(op), seen);
        TrimIncreasing(pend, Priority(op));
        FoldErrors(pend, operand, Priority(op), seen);
        var next := f.pend + [Pend(f.value, op)];
        IncreasingPush(f.pend, Pend(f.value, op));
        IncreasingShort(next);
        NoBracketsNoOverflow(env, ts, p + 2, next, f.log);
      } else {
        FoldErrors(pend, operand, 0, seen);
        FoldErrors(pend, operand, 1, seen);
      }
    }
  }

  lemma {:induction false} FoldErrors(pend: seq<Pend>, operand: Word, priority: nat, log: Notes)
    requires !Overflow(log.error)
    ensures !Overflow(Fold(pend, operand, priority, log).log.error)
    decreases pend
  {
    if pend != [] && priority <= Priority(pend[|pend| - 1].op) {
      var top := pend[|pend| - 1];
      FoldErrors(pend[..|pend| - 1], Apply(top.op, top.left, operand), priority, AfterOp(top.op, operand, log));
    }
  }

  // ---------------------------------------------------------------- what an outcome says about the labels

  ghost predicate SameReadings(env: Env, env': Env, ts: seq<Token>) {
    forall i :: 0 <= i < |ts| && ts[i].Value? ==> env(ts[i].leaf) == env'(ts[i].leaf)
  }

  /** An evaluation depends on the symbol table only through the labels its tokens name. */
  lemma {:induction false} NeedSameReadings(env: Env, env': Env, ts: seq<Token>, p: nat, base: nat, mark: nat,
                     pend: seq<Pend>, log: Notes)
    requires p <= |ts| && SameReadings(env, env', ts)
    ensures NeedOperand(env, ts, p, base, mark, pend, log) == NeedOperand(env', ts, p, base, mark, pend, log)
    decreases |ts| - p, 1
  {
    hide Apply, ApplyUnary, Fold, HaveOperand;
    if p < |ts| {
      match ts[p] {
        case Value(u, leaf) =>
          HaveSameReadings(env, env', ts, p + 1, base, mark, pend, ApplyUnary(u, env(leaf).Value()),
              Noted(env(leaf), log));
        case Open(u) =>
          if Height(base, pend) < STACK_SIZE {
            NeedSameReadings(env, env', ts, p + 1, Height(base, pend) + 1, 1, [], log);
            var inner := NeedOperand(env, ts, p + 1, Height(base, pend) + 1, 1, [], log);
            if inner.log.error == Okay {
              HaveSameReadings(env, env', ts, inner.pos, base, mark, pend, ApplyUnary(u, inner.value), inner.log);
            }
          }
        case _ =>
      }
    }
  }

  lemma {:induction false} HaveSameReadings(env: Env, env': Env, ts: seq<Token>, p: nat, base: nat, mark: nat,
                     pend: seq<Pend>, operand: Word, log: Notes)
    requires p <= |ts| && SameReadings(env, env', ts)
    ensures HaveOperand(env, ts, p, base, mark, pend, operand, log)
            == HaveOperand(env', ts, p, base, mark, pend, operand, log)
    decreases |ts| - p, 0
  {
    hide Apply, ApplyUnary, Fold, NeedOperand;
    if p < |ts| && ts[p].Oper? {
      var f := Fold(pend, operand, Priority(ts[p].op), log);
      NeedSameReadings(env, env', ts, p + 1, base, mark, f.pend + [Pend(f.value, ts[p].op)], f.log);
    }
  }

  /** Every label between two token positions has a value. */
  ghost predicate Resolved(env: Env, ts: seq<Token>, p: nat, q: nat) {
    forall i :: p <= i < q && i < |ts| && ts[i].Value? ==> env(ts[i].leaf).Found?
  }

  lemma {:induction false} FoldKeepsFirst(pend: seq<Pend>, operand: Word, priority: nat, log: Notes)
    ensures Fold(pend, operand, priority, log).log.first == log.first
    decreases pend
  {
    hide Apply;
    if pend != [] && priority <= Priority(pend[|pend| - 1].op) {
      var top := pend[|pend| - 1];
      FoldKeepsFirst(pend[..|pend| - 1], Apply(top.op, top.left, operand), priority, AfterOp(top.op, operand, log));
    }
  }

  /** A level that ends without any error has read only labels with values; the outermost one has read everything. */
  lemma {:induction false} NeedOkay(env: Env, ts: seq<Token>, p: nat, base: nat, mark: nat, pend: seq<Pend>, log: Notes)
    requires p <= |ts| && mark <= 1
    requires Outcome(NeedOperand(env, ts, p, base, mark, pend, log)) == Okay
    ensures log.first == Okay
    ensures var r := NeedOperand(env, ts, p, base, mark, pend, log);
            Resolved(env, ts, p, r.pos) && (mark == 0 ==> r.pos == |ts|)
    decreases |ts| - p, 1
  {
    hide Apply, ApplyUnary, Fold, HaveOperand;
    match ts[p] {
      case Value(u, leaf) =>
        HaveOkay(env, ts, p + 1, base, mark, pend, ApplyUnary(u, env(leaf).Value()), Noted(env(leaf), log));
      case Open(u) =>
        var inner := NeedOperand(env, ts, p + 1, Height(base, pend) + 1, 1, [], log);
        HaveOkay(env, ts, inner.pos, base, mark, pend, ApplyUnary(u, inner.value), inner.log);
        NeedOkay(env, ts, p + 1, Height(base, pend) + 1, 1, [], log);
      case _ =>
    }
  }

  lemma {:induction false} HaveOkay(env: Env, ts: seq<Token>, p: nat, base: nat, mark: nat, pend: seq<Pend>,
                     operand: Word, log: Notes)
    requires p <= |ts| && mark <= 1
    requires Outcome(HaveOperand(env, ts, p, base, mark, pend, operand, log)) == Okay
    ensures log.first == Okay
    ensures var r := HaveOperand(env, ts, p, base, mark, pend, operand, log);
            Resolved(env, ts, p, r.pos) && (mark == 0 ==> r.pos == |ts|)
    decreases |ts| - p, 0
  {
    hide Apply, ApplyUnary, Fold, NeedOperand;
    if p == |ts| {
      FoldKeepsFirst(pend, operand, 0, log);
    } else if ts[p].Close? {
      FoldKeepsFirst(pend, operand, 1, log);
    } else if ts[p].Oper? {
      var f := Fold(pend, operand, Priority(ts[p].op), log);
      FoldKeepsFirst(pend, operand, Priority(ts[p].op), log);
      NeedOkay(env, ts, p + 1, base, mark, f.pend + [Pend(f.value, ts[p].op)], f.log);
    }
  }

  /** An evaluation without error means the same under every symbol table that gives its labels the same values. */
  lemma {:induction false} OkayIsStable(env: Env, env': Env, ts: seq<Token>)
    requires Outcome(Evaluate(env, ts)) == Okay
    requires forall i :: 0 <= i < |ts| && ts[i].Value? && env(ts[i].leaf).Found? ==> env'(ts[i].leaf) == env(ts[i].leaf)
    ensures Evaluate(env', ts) == Evaluate(env, ts)
  {
    NeedOkay(env, ts, 0, 1, 0, [], Start);
    NeedSameReadings(env, env', ts, 0, 1, 0, [], Start);
  }

  /** The first tolerated error is never a fatal one. */
  lemma {:induction false} NoFatalFirst(env: Env, ts: seq<Token>)
    ensures var s := Evaluate(env, ts).log.first; s == Okay || s == NoLabel || s == LabelUndef
  {
    NeedFirst(env, ts, 0, 1, 0, [], Start);
  }

  ghost predicate Tolerated(s: Status) {
    s == Okay || s == NoLabel || s == LabelUndef
  }

  lemma {:induction false} NeedFirst(env: Env, ts: seq<Token>, p: nat, base: nat, mark: nat, pend: seq<Pend>,
                     log: Notes)
    requires p <= |ts| && Tolerated(log.first)
    ensures Tolerated(NeedOperand(env, ts, p, base, mark, pend, log).log.first)
    decreases |ts| - p, 1
  {
    hide Apply, ApplyUnary, Fold, HaveOperand;
    if p < |ts| {
      match ts[p] {
        case Value(u, leaf) =>
          HaveFirst(env, ts, p + 1, base, mark, pend, ApplyUnary(u, env(leaf).Value()), Noted(env(leaf), log));
        case Open(u) =>
          if Height(base, pend) < STACK_SIZE {
            NeedFirst(env, ts, p + 1, Height(base, pend) + 1, 1, [], log);
            var inner := NeedOperand(env, ts, p + 1, Height(base, pend) + 1, 1, [], log);
            if inner.log.error == Okay {
              HaveFirst(env, ts, inner.pos, base, mark, pend, ApplyUnary(u, inner.value), inner.log);
            }
          }
        case _ =>
      }
    }
  }

  lemma {:induction false} HaveFirst(env: Env, ts: seq<Token>, p: nat, base: nat, mark: nat, pend: seq<Pend>,
                     operand: Word, log: Notes)
    requires p <= |ts| && Tolerated(log.first)
    ensures Tolerated(HaveOperand(env, ts, p, base, mark, pend, operand, log).log.first)
    decreases |ts| - p, 0
  {
    hide Apply, ApplyUnary, Fold, NeedOperand;
    var priority := if p < |ts| && ts[p].Oper? then Priority(ts[p].op) else if p < |ts| then 1 else 0;
    FoldKeepsFirst(pend, operand, priority, log);
    var f := Fold(pend, operand, priority, log);
    if p < |ts| && ts[p].Oper? {
      NeedFirst(env, ts, p + 1, base, mark, f.pend + [Pend(f.value, ts[p].op)], f.log);
    }
  }

  /** An undefined label is counted, and a division by zero noted. */
  ghost predicate Counted(log: Notes) {
    (log.first == LabelUndef ==> log.misses > 0) && (log.error == DivByZero ==> log.divZero) && log.error != LabelUndef
  }

  ghost predicate Grounded(env: Env, ts: seq<Token>) {
    forall i :: 0 <= i < |ts| && ts[i].Value? ==> !env(ts[i].leaf).Adrift?
  }

  lemma {:induction false} FoldCounted(pend: seq<Pend>, operand: Word, priority: nat, log: Notes)
    requires Counted(log)
    ensures Counted(Fold(pend, operand, priority, log).log)
    decreases pend
  {
    hide Apply;
    if pend != [] && priority <= Priority(pend[|pend| - 1].op) {
      var top := pend[|pend| - 1];
      FoldCounted(pend[..|pend| - 1], Apply(top.op, top.left, operand), priority, AfterOp(top.op, operand, log));
    }
  }

  lemma {:induction false} NeedCounted(env: Env, ts: seq<Token>, p: nat, base: nat, mark: nat, pend: seq<Pend>,
                     log: Notes)
    requires p <= |ts| && Grounded(env, ts) && Counted(log)
    ensures Counted(NeedOperand(env, ts, p, base, mark, pend, log).log)
    decreases |ts| - p, 1
  {
    hide Apply, ApplyUnary, Fold, HaveOperand;
    if p < |ts| {
      match ts[p] {
        case Value(u, leaf) =>
          HaveCounted(env, ts, p + 1, base, mark, pend, ApplyUnary(u, env(leaf).Value()), Noted(env(leaf), log));
        case Open(u) =>
          if Height(base, pend) < STACK_SIZE {
            NeedCounted(env, ts, p + 1, Height(base, pend) + 1, 1, [], log);
            var inner := NeedOperand(env, ts, p + 1, Height(base, pend) + 1, 1, [], log);
            HaveCounted(env, ts, inner.pos, base, mark, pend, ApplyUnary(u, inner.value), inner.log);
          }
        case _ =>
      }
    }
  }

  lemma {:induction false} HaveCounted(env: Env, ts: seq<Token>, p: nat, base: nat, mark: nat, pend: seq<Pend>,
                     operand: Word, log: Notes)
    requires p <= |ts| && Grounded(env, ts) && Counted(log)
    ensures Counted(HaveOperand(env, ts, p, base, mark, pend, operand, log).log)
    decreases |ts| - p, 0
  {
    hide Apply, ApplyUnary, Fold, NeedOperand;
    var priority := if p == |ts| then 0 else if ts[p].Oper? then Priority(ts[p].op) else 1;
    FoldCounted(pend, operand, priority, log);
    if p < |ts| && ts[p].Oper? {
      var f := Fold(pend, operand, priority, log);
      NeedCounted(env, ts, p + 1, base, mark, f.pend + [Pend(f.value, ts[p].op)], f.log);
    }
  }

  /** So an evaluation that has counted nothing met no undefined label and reported no zero divisor. */
  lemma {:induction false} NothingCounted(env: Env, ts: seq<Token>)
    requires Grounded(env, ts) && Evaluate(env, ts).log.misses == 0 && !Evaluate(env, ts).log.divZero
    ensures Outcome(Evaluate(env, ts)) != LabelUndef && Outcome(Evaluate(env, ts)) != DivByZero
  {
    hide NeedOperand;
    NeedCounted(env, ts, 0, 1, 0, [], Start);
    NoFatalFirst(env, ts);
  }

  // ---------------------------------------------------------------- parsing does not depend on values

  ghost predicate SameOps(pend: seq<Pend>, pend': seq<Pend>) {
    |pend| == |pend'| && forall i :: 0 <= i < |pend| ==> pend[i].op == pend'[i].op
  }

  lemma {:induction false} TrimSameOps(pend: seq<Pend>, pend': seq<Pend>, priority: nat)
    requires SameOps(pend, pend')
    ensures SameOps(Trim(pend, priority), Trim(pend', priority))
    decreases pend
  {
    if pend != [] && priority <= Priority(pend[|pend| - 1].op) {
      TrimSameOps(pend[..|pend| - 1], pend'[..|pend| - 1], priority);
    }
  }

  lemma {:induction false} FoldOnlyDivides(pend: seq<Pend>, operand: Word, priority: nat, log: Notes)
    requires log.error == Okay || log.error == DivByZero
    ensures var s := Fold(pend, operand, priority, log).log.error; s == Okay || s == DivByZero
    decreases pend
  {
    hide Apply;
    if pend != [] && priority <= Priority(pend[|pend| - 1].op) {
      var top := pend[|pend| - 1];
      FoldOnlyDivides(pend[..|pend| - 1], Apply(top.op, top.left, operand), priority, AfterOp(top.op, operand, log));
    }
  }

  /** Both evaluations end alike, or one of them has divided by zero. */
  ghost predicate Alike(r: Result, r': Result) {
    (r.log.error == r'.log.error && r.pos == r'.pos) || r.log.error == DivByZero || r'.log.error == DivByZero
  }

  lemma {:induction false} NeedAlike(env: Env, env': Env, ts: seq<Token>, p: nat, base: nat, mark: nat,
                                     pend: seq<Pend>, pend': seq<Pend>, log: Notes, log': Notes)
    requires p <= |ts| && SameOps(pend, pend') && log.error == log'.error == Okay && mark <= 1
    ensures Alike(NeedOperand(env, ts, p, base, mark, pend, log), NeedOperand(env', ts, p, base, mark, pend', log'))
    decreases |ts| - p, 1
  {
    hide Apply, ApplyUnary, Fold, HaveOperand, SameOps;
    SameLength(pend, pend');
    if p < |ts| {
      match ts[p] {
        case Value(u, leaf) =>
          HaveAlike(env, env', ts, p + 1, base, mark, pend, pend', ApplyUnary(u, env(leaf).Value()),
              ApplyUnary(u, env'(leaf).Value()),
                    Noted(env(leaf), log), Noted(env'(leaf), log'));
        case Open(u) =>
          if Height(base, pend) < STACK_SIZE {
            var h := Height(base, pend) + 1;
            EmptyOps();
            NeedAlike(env, env', ts, p + 1, h, 1, [], [], log, log');
            var a, b := NeedOperand(env, ts, p + 1, h, 1, [], log), NeedOperand(env', ts, p + 1, h, 1, [], log');
            if a.log.error == Okay && b.log.error == Okay {
              HaveAlike(env, env', ts, a.pos, base, mark, pend, pend', ApplyUnary(u, a.value),
                  ApplyUnary(u, b.value), a.log, b.log);
            }
          }
        case _ =>
      }
    }
  }

  lemma {:induction false} SameLength(pend: seq<Pend>, pend': seq<Pend>)
    requires SameOps(pend, pend')
    ensures |pend| == |pend'|
  {
  }

  lemma {:induction false} EmptyOps()
    ensures SameOps([], [])
  {
  }

  lemma {:induction false} HaveAlike(env: Env, env': Env, ts: seq<Token>, p: nat, base: nat, mark: nat,
                                     pend: seq<Pend>, pend': seq<Pend>, v: Word, v': Word, log: Notes, log': Notes)
    requires p <= |ts| && SameOps(pend, pend') && log.error == log'.error == Okay && mark <= 1
    ensures Alike(HaveOperand(env, ts, p, base, mark, pend, v, log),
            HaveOperand(env', ts, p, base, mark, pend', v', log'))
    decreases |ts| - p, 0
  {
    hide Apply, ApplyUnary, Fold, NeedOperand;
    var priority := if p < |ts| && ts[p].Oper? then Priority(ts[p].op) else if p < |ts| then 1 else 0;
    var f, f' := Fold(pend, v, priority, log), Fold(pend', v', priority, log');
    FoldTrims(pend, v, priority, log);
    FoldTrims(pend', v', priority, log');
    TrimSameOps(pend, pend', priority);
    FoldOnlyDivides(pend, v, priority, log);
    FoldOnlyDivides(pend', v', priority, log');
    if p < |ts| && ts[p].Oper? && f.log.error == Okay && f'.log.error == Okay {
      NeedAlike(env, env', ts, p + 1, base, mark, f.pend + [Pend(f.value, ts[p].op)],
                f'.pend + [Pend(f'.value, ts[p].op)], f.log, f'.log);
    }
  }

  // ---------------------------------------------------------------- where a marker goes behind the stack

  /** Cells taken by these priorities: a marker one, an operator three. */
  function Cells(stack: seq<nat>): nat
    decreases |stack|
  {
    if stack == [] then 0 else Cells(stack[..|stack| - 1]) + if stack[|stack| - 1] <= 1 then 1 else 3
  }

  /** Without the operators on top that bind at least as much as `priority`. */
  function Unwound(stack: seq<nat>, priority: nat): seq<nat>
    decreases |stack|
  {
    if stack == [] || stack[|stack| - 1] <= 1 || stack[|stack| - 1] < priority then stack
    else Unwound(stack[..|stack| - 1], priority)
  }

  /** A scan of the tokens alone, with the priorities on the stack: whether an opening bracket is met when the stack is
      full.  It stops where the text is no expression, or where an operator finds no room and is reported. */
  predicate Overruns(ts: seq<Token>, p: nat, stack: seq<nat>, operand: bool)
    requires p <= |ts|
    decreases |ts| - p
  {
    if p == |ts| then false
    else match ts[p]
      case Value(_, _) => operand && Overruns(ts, p + 1, stack, false)
      case Open(_) => operand && (Cells(stack) >= STACK_SIZE || Overruns(ts, p + 1, stack + [1], true))
      case Oper(op) =>
        var rest := Unwound(stack, Priority(op));
        !operand && Cells(rest) + 3 <= STACK_SIZE && Overruns(ts, p + 1, rest + [Priority(op)], true)
      case Close =>
        var rest := Unwound(stack, 0);
        !operand && rest != [] && rest[|rest| - 1] == 1 && Overruns(ts, p + 1, rest[..|rest| - 1], false)
      case Bad => false
  }

  /** The priorities of one level above those of the levels around it. */
  function Levels(outer: seq<nat>, mark: nat, pend: seq<Pend>): seq<nat>
    decreases |pend|
  {
    if pend == [] then outer + [mark] else Levels(outer, mark, pend[..|pend| - 1]) + [Priority(pend[|pend| - 1].op)]
  }

  lemma {:induction false} LevelCells(outer: seq<nat>, mark: nat, pend: seq<Pend>)
    requires mark <= 1
    ensures Cells(Levels(outer, mark, pend)) == Height(Cells(outer) + 1, pend)
    decreases |pend|
  {
    if pend == [] {
      assert (outer + [mark])[..|outer|] == outer;
    } else {
      var rest := Levels(outer, mark, pend[..|pend| - 1]);
      LevelCells(outer, mark, pend[..|pend| - 1]);
      assert (rest + [Priority(pend[|pend| - 1].op)])[..|rest|] == rest;
    }
  }

  lemma {:induction false} LevelUnwound(outer: seq<nat>, mark: nat, pend: seq<Pend>, priority: nat)
    requires mark <= 1
    ensures Unwound(Levels(outer, mark, pend), priority) == Levels(outer, mark, Trim(pend, priority))
    decreases |pend|
  {
    if pend != [] {
      var rest := Levels(outer, mark, pend[..|pend| - 1]);
      LevelUnwound(outer, mark, pend[..|pend| - 1], priority);
      assert (rest + [Priority(pend[|pend| - 1].op)])[..|rest|] == rest;
    }
  }

  /** How a level's end and the scan behind it go together. */
  ghost predicate Tracks(ts: seq<Token>, r: Result, overruns: bool, outer: seq<nat>, mark: nat)
    requires r.pos <= |ts|
  {
    match r.log.error
    case Smashed => overruns
    case DivByZero => true
    case Okay => overruns == (mark == 1 && Overruns(ts, r.pos, outer, false))
    case _ => !overruns
  }

  lemma {:induction false} NeedTracks(env: Env, ts: seq<Token>, p: nat, mark: nat, pend: seq<Pend>, log: Notes,
                     outer: seq<nat>)
    requires p <= |ts| && mark <= 1 && log.error == Okay
    ensures Tracks(ts, NeedOperand(env, ts, p, Cells(outer) + 1, mark, pend, log),
                   Overruns(ts, p, Levels(outer, mark, pend), true), outer, mark)
    decreases |ts| - p, 1
  {
    hide Apply, ApplyUnary, Fold, HaveOperand, Cells, Unwound;
    var stack := Levels(outer, mark, pend);
    LevelCells(outer, mark, pend);
    if p < |ts| {
      match ts[p] {
        case Value(u, leaf) =>
          HaveTracks(env, ts, p + 1, mark, pend, ApplyUnary(u, env(leaf).Value()), Noted(env(leaf), log), outer);
        case Open(u) =>
          if Cells(stack) < STACK_SIZE {
            NeedTracks(env, ts, p + 1, 1, [], log, stack);
            var inner := NeedOperand(env, ts, p + 1, Cells(stack) + 1, 1, [], log);
            if inner.log.error == Okay {
              HaveTracks(env, ts, inner.pos, mark, pend, ApplyUnary(u, inner.value), inner.log, outer);
            }
          }
        case _ =>
      }
    }
  }

  lemma {:induction false} HaveTracks(env: Env, ts: seq<Token>, p: nat, mark: nat, pend: seq<Pend>, v: Word,
                     log: Notes, outer: seq<nat>)
    requires p <= |ts| && mark <= 1 && log.error == Okay
    ensures Tracks(ts, HaveOperand(env, ts, p, Cells(outer) + 1, mark, pend, v, log),
                   Overruns(ts, p, Levels(outer, mark, pend), false), outer, mark)
    decreases |ts| - p, 0
  {
    hide Apply, ApplyUnary, Fold, NeedOperand, Cells, Unwound, Trim;
    var priority := if p < |ts| && ts[p].Oper? then Priority(ts[p].op) else if p < |ts| then 1 else 0;
    var f := Fold(pend, v, priority, log);
    FoldTrims(pend, v, priority, log);
    FoldOnlyDivides(pend, v, priority, log);
    LevelUnwound(outer, mark, pend, priority);
    LevelUnwound(outer, mark, pend, 0);
    LevelCells(outer, mark, f.pend);
    if priority <= 1 {
      TrimAll(pend, priority);
      TrimAll(pend, 0);
      assert (outer + [mark])[..|outer|] == outer;
    } else if f.log.error == Okay {
      var next := Pend(f.value, ts[p].op);
      assert (f.pend + [next])[..|f.pend|] == f.pend;
      NeedTracks(env, ts, p + 1, mark, f.pend + [next], f.log, outer);
    }
  }

  /** A marker is written behind the stack exactly when the scan of the tokens says so, unless a zero divisor is
      reported first. */
  lemma {:induction false} SmashesExactly(env: Env, ts: seq<Token>)
    ensures var error := Evaluate(env, ts).log.error;
      (error == Smashed <==> Overruns(ts, 0, [0], true) && error != DivByZero)
  {
    hide NeedOperand, Overruns;
    NeedTracks(env, ts, 0, 0, [], Start, []);
    assert [] + [0] == [0];
  }

  ghost predicate NoDivision(ts: seq<Token>) {
    forall i :: 0 <= i < |ts| ==> ts[i] != Oper(Divide)
  }

  ghost predicate NoneWaiting(pend: seq<Pend>) {
    forall i :: 0 <= i < |pend| ==> pend[i].op != Divide
  }

  lemma {:induction false} FoldNoDivision(pend: seq<Pend>, operand: Word, priority: nat, log: Notes)
    requires NoneWaiting(pend)
    ensures var f := Fold(pend, operand, priority, log); f.log == log && NoneWaiting(f.pend)
    decreases pend
  {
    if pend != [] && priority <= Priority(pend[|pend| - 1].op) {
      var top := pend[|pend| - 1];
      FoldNoDivision(pend[..|pend| - 1], Apply(top.op, top.left, operand), priority, AfterOp(top.op, operand, log));
    }
  }

  lemma {:induction false} NeedNoDivision(env: Env, ts: seq<Token>, p: nat, base: nat, mark: nat, pend: seq<Pend>,
                     log: Notes)
    requires p <= |ts| && NoDivision(ts) && NoneWaiting(pend) && log.error != DivByZero
    ensures NeedOperand(env, ts, p, base, mark, pend, log).log.error != DivByZero
    decreases |ts| - p, 1
  {
    hide Apply, ApplyUnary, Fold, HaveOperand;
    if p < |ts| {
      match ts[p] {
        case Value(u, leaf) =>
          var operand := ApplyUnary(u, env(leaf).Value());
          HaveNoDivision(env, ts, p + 1, base, mark, pend, operand, Noted(env(leaf), log));
        case Open(u) =>
          if Height(base, pend) < STACK_SIZE {
            NeedNoDivision(env, ts, p + 1, Height(base, pend) + 1, 1, [], log);
            var inner := NeedOperand(env, ts, p + 1, Height(base, pend) + 1, 1, [], log);
            HaveNoDivision(env, ts, inner.pos, base, mark, pend, ApplyUnary(u, inner.value), inner.log);
          }
        case _ =>
      }
    }
  }

  lemma {:induction false} HaveNoDivision(env: Env, ts: seq<Token>, p: nat, base: nat, mark: nat, pend: seq<Pend>,
                     operand: Word, log: Notes)
    requires p <= |ts| && NoDivision(ts) && NoneWaiting(pend) && log.error != DivByZero
    ensures HaveOperand(env, ts, p, base, mark, pend, operand, log).log.error != DivByZero
    decreases |ts| - p, 0
  {
    hide Apply, ApplyUnary, Fold, NeedOperand;
    var priority := if p == |ts| then 0 else if ts[p].Oper? then Priority(ts[p].op) else 1;
    FoldNoDivision(pend, operand, priority, log);
    if p < |ts| && ts[p].Oper? {
      var f := Fold(pend, operand, priority, log);
      NeedNoDivision(env, ts, p + 1, base, mark, f.pend + [Pend(f.value, ts[p].op)], f.log);
    }
  }

  /** Of a text without a division the tokens alone tell. */
  lemma {:induction false} SmashesByText(env: Env, ts: seq<Token>)
    requires NoDivision(ts)
    ensures Evaluate(env, ts).log.error == Smashed <==> Overruns(ts, 0, [0], true)
  {
    hide NeedOperand, Overruns;
    SmashesExactly(env, ts);
    NeedNoDivision(env, ts, 0, 1, 0, [], Start);
  }

  // ---------------------------------------------------------------- the code, on its shared stack

  /** One cell of math_stack: an operand, an operator code, or a priority. */
  datatype Cell = Operand(w: Word) | Operator(op: Op) | Level(priority: nat)

  /** The three cells at `at` hold `x`. */
  ghost predicate Triple(stack: seq<Cell>, at: nat, x: Pend) {
    at + 3 <= |stack| &&
    stack[at] == Operand(x.left) && stack[at + 1] == Operator(x.op) && stack[at + 2] == Level(Priority(x.op))
  }

  /** A level lies on the stack: its marker below `base`, its waiting operators from `base` on. */
  ghost predicate Stacked(stack: seq<Cell>, base: nat, mark: nat, pend: seq<Pend>) {
    && 1 <= base && Height(base, pend) <= |stack| && stack[base - 1] == Level(mark)
    && forall i :: 0 <= i < |pend| ==> Triple(stack, base + 3 * i, pend[i])
  }

  lemma {:induction false} StackedFrame(m: seq<Cell>, n: seq<Cell>, base: nat, mark: nat, pend: seq<Pend>)
    requires Stacked(m, base, mark, pend) && |m| == |n| && m[..Height(base, pend)] == n[..Height(base, pend)]
    ensures Stacked(n, base, mark, pend)
  {
    var h := Height(base, pend);
    assert forall i :: 0 <= i < h ==> m[i] == m[..h][i] == n[..h][i] == n[i];
  }

  /** What the top of the stack says about a level's waiting operators. */
  lemma {:induction false} TopTriple(stack: seq<Cell>, base: nat, mark: nat, pend: seq<Pend>)
    requires Stacked(stack, base, mark, pend)
    ensures 1 <= base <= Height(base, pend) <= |stack|
    ensures var top := Height(base, pend) - 1;
      if pend == [] then stack[top] == Level(mark)
      else
        var x := pend[|pend| - 1];
        && 3 <= top && Triple(stack, top - 2, x)
        && Height(base, pend[..|pend| - 1]) == Height(base, pend) - 3
        && Stacked(stack, base, mark, pend[..|pend| - 1])
  {
    if pend != [] {
      assert Triple(stack, base + 3 * (|pend| - 1), pend[|pend| - 1]);
    }
  }

  lemma {:induction false} Push(m: seq<Cell>, n: seq<Cell>, base: nat, mark: nat, pend: seq<Pend>, x: Pend)
    requires Stacked(m, base, mark, pend) && |m| == |n| && Height(base, pend) + 3 <= |n|
    requires m[..Height(base, pend)] == n[..Height(base, pend)] && Triple(n, Height(base, pend), x)
    ensures Stacked(n, base, mark, pend + [x]) && n[..base - 1] == m[..base - 1]
  {
    StackedFrame(m, n, base, mark, pend);
    assert forall i :: 0 <= i < |pend| ==> (pend + [x])[i] == pend[i];
    var h := Height(base, pend);
    assert n[..base - 1] == n[..h][..base - 1] == m[..h][..base - 1] == m[..base - 1];
  }

  lemma {:induction false} TrimAll(pend: seq<Pend>, priority: nat)
    requires priority <= 1
    ensures Trim(pend, priority) == []
    decreases pend
  {
    if pend != [] { TrimAll(pend[..|pend| - 1], priority); }
  }

  lemma {:induction false} DivideByZero(l: Word)
    ensures Apply(Divide, l, 0) == 0xFFFF_FFFF
  {
  }

  lemma {:induction false} AtNothing(env: Env, ts: seq<Token>, p: nat, base: nat, mark: nat, pend: seq<Pend>,
                     log: Notes)
    requires p == |ts| || (p < |ts| && !ts[p].Value? && !ts[p].Open?)
    ensures NeedOperand(env, ts, p, base, mark, pend, log) == Result(0, p, log.(error := NoOperand))
  {
  }

  /** What a level makes of the token behind an operand. */
  lemma {:induction false} AtToken(env: Env, ts: seq<Token>, p: nat, base: nat, mark: nat, pend: seq<Pend>,
                     operand: Word, log: Notes)
    requires p <= |ts|
    ensures HaveOperand(env, ts, p, base, mark, pend, operand, log) ==
      if p == |ts| then Finish(p, mark, 0, Fold(pend, operand, 0, log))
      else match ts[p]
        case Close => Finish(p + 1, mark, 1, Fold(pend, operand, 1, log))
        case Oper(op) =>
          var f := Fold(pend, operand, Priority(op), log);
          if Height(base, f.pend) + 3 > STACK_SIZE then Result(f.value, p + 1, f.log.(error := StackLimit))
          else if f.log.error != Okay then Result(f.value, p + 1, f.log)
          else NeedOperand(env, ts, p + 1, base, mark, f.pend + [Pend(f.value, op)], f.log)
        case _ => Result(operand, p, log.(error := NoOperator))
  {
    hide Fold, NeedOperand;
  }

  class Evaluation {
    const env: Env
    const input: seq<Token>
    const mathStack: array<Cell>
    var mathSP: nat
    var pos: nat
    var error: Status
    var firstError: Status
    var undefinedCount: nat
    var divZero: bool

    constructor (env: Env, input: seq<Token>)
      ensures this.env == env && this.input == input && mathStack.Length == STACK_SIZE && fresh(mathStack)
      ensures mathSP == 0 && pos == 0 && Now() == Start
    {
      this.env, this.input := env, input;
      mathStack := new Cell[STACK_SIZE](_ => Level(0));
      mathSP, pos, error, firstError, undefinedCount, divZero := 0, 0, Okay, Okay, 0, false;
    }

    function Now(): Notes
      reads this
    {
      Notes(error, firstError, undefinedCount, divZero)
    }

    /** get_variable: an operand or an opening bracket, with the unary operator in front of it. */
    method GetVariable() returns (status: Status, operand: Word, unary: Unary, bracket: bool)
      requires pos <= |input|
      modifies this`pos, this`undefinedCount
      ensures bracket <==> old(pos) < |input| && input[old(pos)].Open?
      ensures if old(pos) < |input| && (input[old(pos)].Value? || input[old(pos)].Open?) then
                pos == old(pos) + 1 && unary == input[old(pos)].u
              else pos == old(pos) && status == NoOperand && operand == 0
      ensures bracket ==> status == Okay
      ensures old(pos) < |input| && input[old(pos)].Value? ==>
                var r := env(input[old(pos)].leaf);
                status == r.Status() && operand == r.Value() &&
                undefinedCount == old(undefinedCount) + if r.Undefined? then 1 else 0
      ensures status == NoOperand || bracket ==> undefinedCount == old(undefinedCount)
    {
      status, operand, unary, bracket := NoOperand, 0, Keep, false;
      if pos < |input| {
        match input[pos] {
          case Value(u, leaf) =>
            unary := u;
            var r := env(leaf);
            operand, status := r.Value(), r.Status();
            if r.Undefined? { undefinedCount := undefinedCount + 1; }
            pos := pos + 1;
          case Open(u) =>
            unary, bracket, status := u, true, Okay;
            pos := pos + 1;
          case _ =>
        }
      }
    }

    /** get_operator: an operator or terminator with its priority; only 0 (end of text) is not consumed. */
    method GetOperator() returns (status: Status, operator: Op, priority: nat)
      requires pos <= |input|
      modifies this`pos
      ensures if old(pos) == |input| then status == Okay && priority == 0 && pos == old(pos)
              else match input[old(pos)]
                case Close => status == Okay && priority == 1 && pos == old(pos) + 1
                case Oper(op) => status == Okay && operator == op && priority == Priority(op) && pos == old(pos) + 1
                case _ => status == NoOperator && pos == old(pos)
    {
      status, operator, priority := NoOperator, Plus, 0;
      if pos == |input| {
        status := Okay;
      } else {
        match input[pos] {
          case Close =>
            status, priority := Okay, 1;
            pos := pos + 1;
          case Oper(op) =>
            status, operator, priority := Okay, op, Priority(op);
            pos := pos + 1;
          case _ =>
        }
      }
    }

    /** The reduction loop of Eval_inner: operators of at least this priority are applied and popped. */
    method Reduce(operand0: Word, priority: nat, ghost base: nat, ghost mark: nat, ghost pend0: seq<Pend>)
      returns (operand: Word, ghost pend: seq<Pend>)
      requires mathStack.Length == STACK_SIZE && mark <= 1
      requires Stacked(mathStack[..], base, mark, pend0) && mathSP == Height(base, pend0)
      modifies this`mathSP, this`error, this`divZero
      ensures Folded(pend, operand, Now()) == Fold(pend0, operand0, priority, old(Now()))
      ensures Stacked(mathStack[..], base, mark, pend) && mathSP == Height(base, pend) <= old(mathSP)
    {
      hide Apply, Stacked;
      operand, pend := operand0, pend0;
      TopTriple(mathStack[..], base, mark, pend);
      while priority <= mathStack[mathSP - 1].priority && mathStack[mathSP - 1].priority > 1
        invariant Stacked(mathStack[..], base, mark, pend) && mathSP == Height(base, pend) <= old(mathSP)
        invariant 1 <= base <= mathSP <= STACK_SIZE && mathStack[mathSP - 1].Level?
        invariant Fold(pend, operand, priority, Now()) == Fold(pend0, operand0, priority, old(Now()))
        decreases mathSP
      {
        TopTriple(mathStack[..], base, mark, pend);
        var op, left := mathStack[mathSP - 2].op, mathStack[mathSP - 3].w;
        DivideByZero(left);
        if op == Divide && operand == 0 {
          if error == Okay && firstError == Okay { error := DivByZero; }
          divZero := true;
          operand := 0xFFFF_FFFF;
        } else {
          operand := Apply(op, left, operand);
        }
        mathSP := mathSP - 3;
        pend := pend[..|pend| - 1];
        TopTriple(mathStack[..], base, mark, pend);
      }
      TopTriple(mathStack[..], base, mark, pend);
    }

    /** The first half of Eval_inner's loop body: an operand, possibly a bracket, with its unary operator applied. */
    method ReadOperand(ghost base: nat, ghost mark: nat, ghost pend: seq<Pend>) returns (operand: Word)
      requires mathStack.Length == STACK_SIZE && pos <= |input| && error == Okay
      requires Stacked(mathStack[..], base, mark, pend) && mathSP == Height(base, pend)
      modifies this`mathSP, this`pos, this`error, this`firstError, this`undefinedCount, this`divZero, mathStack
      ensures old(pos) <= pos <= |input|
      ensures old(NeedOperand(env, input, pos, base, mark, pend, Now())) ==
              if error == Okay then HaveOperand(env, input, pos, base, mark, pend, operand, Now())
              else Result(operand, pos, Now())
      ensures mathStack[..old(mathSP)] == old(mathStack[..mathSP])
      ensures error == Okay ==> mathSP == old(mathSP) && pos > old(pos)
      decreases |input| - pos, 0
    {
      hide NeedOperand, HaveOperand, ApplyUnary, Stacked;
      ghost var p, log := pos, Now();
      var unary, bracket;
      error, operand, unary, bracket := GetVariable();
      if error == NoLabel || error == LabelUndef {
        if firstError == Okay { firstError := error; }
        error := Okay;
      }
      if error == Okay {
        if bracket {
          if mathSP < STACK_SIZE {
            AtOpen(env, input, p, unary, base, mark, pend, log);
            operand := EvalInner(1);
          } else {
            // The source writes the marker behind the array here.
            AtOpenFull(env, input, p, unary, base, mark, pend, log);
            operand, error := 0, Smashed;
          }
        } else {
          AtValue(env, input, p, unary, input[p].leaf, base, mark, pend, log);
        }
        if error == Okay {
          operand := ApplyUnary(unary, operand);
        }
      } else {
        AtNothing(env, input, p, base, mark, pend, log);
      }
    }

    /** The PUSH of Eval_inner. */
    method PushOperator(operand: Word, operator: Op, ghost base: nat, ghost mark: nat, ghost pend: seq<Pend>)
      requires mathStack.Length == STACK_SIZE && mathSP + 3 <= STACK_SIZE
      requires Stacked(mathStack[..], base, mark, pend) && mathSP == Height(base, pend)
      modifies this`mathSP, mathStack
      ensures Stacked(mathStack[..], base, mark, pend + [Pend(operand, operator)])
      ensures mathSP == old(mathSP) + 3 && mathStack[..base - 1] == old(mathStack[..base - 1])
    {
      ghost var m := mathStack[..];
      mathStack[mathSP] := Operand(operand);
      mathStack[mathSP + 1] := Operator(operator);
      mathStack[mathSP + 2] := Level(Priority(operator));
      mathSP := mathSP + 3;
      Push(m, mathStack[..], base, mark, pend, Pend(operand, operator));
    }

    /** The second half: the operator behind the operand, the reductions it causes, and push or terminate. */
    method TakeOperator(operand0: Word, ghost base: nat, ghost mark: nat, ghost pend0: seq<Pend>)
      returns (operand: Word, done: bool, ghost pend: seq<Pend>)
      requires mathStack.Length == STACK_SIZE && pos <= |input| && error == Okay && mark <= 1
      requires Stacked(mathStack[..], base, mark, pend0) && mathSP == Height(base, pend0)
      modifies this`mathSP, this`pos, this`error, this`divZero, mathStack
      ensures old(pos) <= pos <= |input|
      ensures old(HaveOperand(env, input, pos, base, mark, pend0, operand0, Now())) ==
              if done then Result(operand, pos, Now()) else NeedOperand(env, input, pos, base, mark, pend, Now())
      ensures mathStack[..base - 1] == old(mathStack[..base - 1])
      ensures done && error == Okay ==> mathSP == base - 1
      ensures !done ==> error == Okay && Stacked(mathStack[..], base, mark, pend) && mathSP == Height(base, pend)
      ensures !done ==> pos > old(pos)
    {
      hide Apply, Stacked, Fold, NeedOperand, HaveOperand, Trim, Triple;
      ghost var log := Now();
      AtToken(env, input, pos, base, mark, pend0, operand0, log);
      TopTriple(mathStack[..], base, mark, pend0);
      operand, pend := operand0, pend0;
      var operator, priority;
      error, operator, priority := GetOperator();
      if error != Okay { return operand, true, pend; }
      operand, pend := Reduce(operand, priority, base, mark, pend);
      done := priority <= 1;
      TopTriple(mathStack[..], base, mark, pend);
      FoldTrims(pend0, operand0, priority, log);
      if !done {
        if mathSP + 3 <= STACK_SIZE {
          PushOperator(operand, operator, base, mark, pend);
          pend := pend + [Pend(operand, operator)];
        } else {
          error := StackLimit;
        }
      } else {
        TrimAll(pend0, priority);
        EndLevel(priority);
      }
      if error != Okay { done := true; }
    }

    /** The end of a bracket level must match the marker on the top of the stack, which goes with it. */
    method EndLevel(priority: nat)
      requires mathStack.Length == STACK_SIZE && 0 < mathSP <= STACK_SIZE
      modifies this`mathSP, this`error
      ensures if mathStack[old(mathSP) - 1] == Level(priority) then mathSP == old(mathSP) - 1 && error == old(error)
              else mathSP == old(mathSP) && error == if priority == 0 then NotCloseBr else NotOpenBr
    {
      if mathStack[mathSP - 1] == Level(priority) {
        mathSP := mathSP - 1;
      } else if priority == 0 {
        error := NotCloseBr;
      } else {
        error := NotOpenBr;
      }
    }

    /** Eval_inner: one bracket level, started by the marker `mark`. */
    method EvalInner(mark: nat) returns (value: Word)
      requires mathStack.Length == STACK_SIZE && mark <= 1 && pos <= |input| && mathSP < STACK_SIZE
      requires error == Okay
      modifies this`mathSP, this`pos, this`error, this`firstError, this`undefinedCount, this`divZero, mathStack
      ensures Result(value, pos, Now()) == old(NeedOperand(env, input, pos, mathSP + 1, mark, [], Now()))
      ensures error == Okay ==> mathSP == old(mathSP)
      ensures mathStack[..old(mathSP)] == old(mathStack[..mathSP])
      decreases |input| - pos, 1
    {
      hide NeedOperand, HaveOperand;
      ghost var spec, base := NeedOperand(env, input, pos, mathSP + 1, mark, [], Now()), mathSP + 1;
      ghost var below := mathStack[..mathSP];
      ghost var pend: seq<Pend> := [];
      var done := false;
      mathStack[mathSP] := Level(mark);
      mathSP := mathSP + 1;
      value := 0;
      while !done
        invariant old(pos) <= pos <= |input| && mathStack[..base - 1] == below
        invariant !done ==> error == Okay && mathSP == Height(base, pend)
        invariant !done ==> Stacked(mathStack[..], base, mark, pend)
        invariant !done ==> spec == NeedOperand(env, input, pos, base, mark, pend, Now())
        invariant done ==> spec == Result(value, pos, Now()) && (error == Okay ==> mathSP == base - 1)
        decreases !done, |input| - pos
      {
        ghost var m := mathStack[..];
        value := ReadOperand(base, mark, pend);
        assert mathStack[..base - 1] == mathStack[..Height(base, pend)][..base - 1];
        if error != Okay {
          done := true;
        } else {
          StackedFrame(m, mathStack[..], base, mark, pend);
          value, done, pend := TakeOperator(value, base, mark, pend);
        }
      }
    }

    /** evaluate: the whole expression, and the error code it returns; Smashed where the source has written behind its
        stack, which the tokens alone foretell. */
    method Run() returns (value: Word, outcome: Status)
      requires mathStack.Length == STACK_SIZE && mathSP == 0 && pos == 0 && Now() == Start
      modifies this`mathSP, this`pos, this`error, this`firstError, this`undefinedCount, this`divZero, mathStack
      ensures Result(value, pos, Now()) == Evaluate(env, input)
      ensures outcome == Outcome(Evaluate(env, input))
      ensures outcome == Smashed <==> Overruns(input, 0, [0], true) && outcome != DivByZero
    {
      SmashesExactly(env, input);
      NoFatalFirst(env, input);
      value := EvalInner(0);
      outcome := if error == Okay then firstError else error;
    }
  }
}
