/** Which errors the passes count and which they let go (tools/assembler/rva.c, allow_error and the pass loop), and for
which programs only the last pass can find any. */
module Progress {
  import opened Options
  import opened Words
  import opened Expressions
  import opened Evaluator
  import opened Passes

  // ---------------------------------------------------------------- one line's errors

  /** The test an operand's value has to pass. */
  predicate Tested(stmt: Stmt, value: Word, pointer: Word) {
    match stmt
    case Instr(form, _, _) => Fits(form, value, pointer)
    case Variable(kind, _) => Straight(kind, value, pointer)
    case _ => true
  }

  /** An operand read with this outcome is an error: on the last pass, unless it has a value that passes its test;
      before, if it does not even fail that test and is more than a label or divisor still unknown, on the first pass a
      name never seen too. */
  predicate Complains(s: Status, passes: bool, pass: nat, last: bool) {
    if last then s != Okay || !passes
    else passes && s !in {Okay, LabelUndef, DivByZero} && (pass > 0 || s != NoLabel)
  }

  /** When a statement's operand adds an error.  Between the first pass and the last most instructions do not read
      theirs: then they only take their place. */
  lemma {:induction false} OperandErrors(st: State, stmt: Stmt, pass: nat, last: bool)
    requires (stmt.Instr? || stmt.Global? || stmt.Variable? || stmt.Space?) && (last ==> pass > 0)
    ensures var out, r := DoStmt(st, stmt, pass, last), Eval(st, stmt.operand);
      if stmt.Instr? && !stmt.always && 0 < pass && !last then
        out == st.(pointer := Wrap(st.pointer + 4), listing := st.listing + [Entry(st.pointer, 4, 0, [])])
      else
        && (out.errors == st.errors
            + if Complains(Outcome(r), Tested(stmt, r.value, st.pointer), pass, last) then 1 else 0)
        && out.undefinedCount == st.undefinedCount + r.log.misses
  {
    hide Evaluate, Fits, Straight, Wanted;
  }

  /** A definition is in error exactly when one of its items is. */
  lemma {:induction false} ItemErrors(st: State, unit: nat, items: seq<seq<Token>>, length: Word, values: seq<Word>,
                     pass: nat, last: bool)
    requires last ==> pass > 0
    ensures DoItems(st, unit, items, length, values, pass, last).bad <==>
            exists k :: 0 <= k < |items| && ItemComplains(st, unit, items, length, k, pass, last)
    decreases items
  {
    hide Evaluate, ItemComplains;
    if items != [] {
      var r := Evaluate(Lookup(st, length), items[0]);
      FirstItem(st, unit, items, length, pass, last);
      if Failed(r, pass, last) { return; }
      var next, rest, behind := Tally(st, r), items[1..], Wrap(length + unit);
      ItemErrors(next, unit, rest, behind, values + [r.value], pass, last);
      if j :| 0 <= j < |rest| && ItemComplains(next, unit, rest, behind, j, pass, last) {
        NextItem(st, r, unit, items, length, j + 1, pass, last);
      }
      if k :| 0 <= k < |items| && ItemComplains(st, unit, items, length, k, pass, last) {
        NextItem(st, r, unit, items, length, k, pass, last);
      }
    }
  }

  lemma {:induction false} FirstItem(st: State, unit: nat, items: seq<seq<Token>>, length: Word, pass: nat, last: bool)
    requires items != [] && (last ==> pass > 0)
    ensures ItemComplains(st, unit, items, length, 0, pass, last)
            <==> Failed(Evaluate(Lookup(st, length), items[0]), pass, last)
  {
    hide Evaluate;
    WrapWord(length);
    assert Wrap(length + unit * 0) == length;
  }

  predicate ItemComplains(st: State, unit: nat, items: seq<seq<Token>>, length: Word, k: nat, pass: nat, last: bool) {
    k < |items| && Complains(Outcome(Evaluate(Lookup(st, Wrap(length + unit * k)), items[k])), true, pass, last)
  }

  lemma {:induction false} NextItem(st: State, r: Result, unit: nat, items: seq<seq<Token>>, length: Word, k: nat,
                     pass: nat, last: bool)
    requires 0 < k < |items|
    ensures ItemComplains(st, unit, items, length, k, pass, last)
            <==> ItemComplains(Tally(st, r), unit, items[1..], Wrap(length + unit), k - 1, pass, last)
  {
    hide Evaluate;
    WrapSum(length + unit, unit * (k - 1));
    assert unit * k == unit + unit * (k - 1);
    TallyReads(st, r, Wrap(length + unit * k), items[k]);
  }

  lemma {:induction false} TallyReads(st: State, r: Result, increment: Word, ts: seq<Token>)
    ensures Evaluate(Lookup(Tally(st, r), increment), ts) == Evaluate(Lookup(st, increment), ts)
  {
    hide Evaluate;
    SameEvaluation(Lookup(Tally(st, r), increment), Lookup(st, increment), ts);
  }

  /** A label met again on the same pass: at the same address it is let go; at another one it is an error, it has the
      new value, and the rest of the line is left out. */
  lemma {:induction false} DuplicateLabel(st: State, name: string, stmt: Stmt, pass: nat, last: bool)
    requires name in st.symbols && st.symbols[name].defined && st.symbols[name].pass == pass && st.pointerDefined
    requires !PlacesItself(stmt)
    ensures var out := DoLine(st, Line(Some(name), stmt), pass, last);
      if st.symbols[name].value == st.pointer then out == DoLine(st, Line(None, stmt), pass, last)
      else
        && out.errors == st.errors + 1 && out.symbols == st.symbols[name := Symbol(st.pointer, true, pass)]
        && out.pointer == st.pointer && out.listing == st.listing + [Entry(st.pointer, 0, 0, [])]
  {
    hide DoStmt;
    assert st.symbols[name].value == st.pointer ==> st.symbols[name := st.symbols[name]] == st.symbols;
  }

  /** Behind an ORG the pointer is its operand's value; while that is not known, labels have no value either. */
  lemma {:induction false} BehindOrg(st: State, ts: seq<Token>, name: string, stmt: Stmt, last: bool)
    requires name !in st.symbols && !PlacesItself(stmt)
    ensures var r := Eval(st, ts);
      var out := DoLine(DoLine(st, Line(None, Org(ts)), 0, last), Line(Some(name), stmt), 0, last);
      && name in out.symbols && out.symbols[name].value == r.value
      && (out.symbols[name].defined <==> Outcome(r) == Okay)
  {
    hide DoStmt, Eval;
    var mid := DoLine(st, Line(None, Org(ts)), 0, last);
    WrapWord(Eval(st, ts).value);
    var s0 := Enter(mid, Some(name), 0);
    StmtEffect(RedefineIn(s0, Some(name), s0.pointer, s0.pointerDefined, Okay, 0, last).0, stmt, 0, last);
  }

  // ---------------------------------------------------------------- programs that get to the last pass

  /** The text of a tree that fits the stack, with these names only. */
  ghost predicate Written(ts: seq<Token>, names: set<string>) {
    && (exists e :: ts == Show(e, 2) && Peak(e, 2) < STACK_SIZE)
    && forall i :: 0 <= i < |ts| && ts[i].Value? && ts[i].leaf.Label? ==> ts[i].leaf.name in names
  }

  /** Where nothing but numbers has a value. */
  const NOTHING: Env := (leaf: Leaf) => if leaf.Number? then Found(leaf.w) else Missing

  /** Operands are expressions over these names; ALIGN's has a value of its own or is not there; EQU has a name. */
  ghost predicate Sensible(line: Line, names: set<string>) {
    match line.stmt
    case Blank => true
    case Data(_, items) => forall i :: 0 <= i < |items| ==> Written(items[i], names)
    case Align(ts) => ts == [] || Outcome(Evaluate(NOTHING, ts)) == Okay
    case Equ(ts) => line.name.Some? && Written(ts, names)
    case _ => Written(line.stmt.operand, names)
  }

  /** The program's labels. */
  ghost function Names(prog: seq<Line>): set<string> {
    set i | 0 <= i < |prog| && prog[i].name.Some? :: prog[i].name.value
  }

  /** Every line is sensible with the labels there are, and no label is there twice. */
  ghost predicate SensibleProgram(prog: seq<Line>) {
    && (forall i :: 0 <= i < |prog| ==> Sensible(prog[i], Names(prog)))
    && forall i, j :: 0 <= i < j < |prog| && prog[i].name.Some? ==> prog[i].name != prog[j].name
  }

  ghost predicate NoneMissing(env: Env, ts: seq<Token>) {
    forall i :: 0 <= i < |ts| && ts[i].Value? ==> !env(ts[i].leaf).Missing?
  }

  ghost predicate NoneUndefined(env: Env, ts: seq<Token>) {
    forall i :: 0 <= i < |ts| && ts[i].Value? ==> !env(ts[i].leaf).Undefined?
  }

  /** What may be noted on the way. */
  ghost predicate Notable(before: Notes, after: Notes, missing: bool, undefined: bool) {
    && (!missing && before.first != NoLabel ==> after.first != NoLabel)
    && (!undefined ==> after.misses == before.misses)
  }

  lemma {:induction false} FoldKeeps(pend: seq<Pend>, operand: Word, priority: nat, log: Notes)
    ensures var r := Fold(pend, operand, priority, log).log; r.first == log.first && r.misses == log.misses
    decreases pend
  {
    hide Apply;
    if pend != [] && priority <= Priority(pend[|pend| - 1].op) {
      var top := pend[|pend| - 1];
      FoldKeeps(pend[..|pend| - 1], Apply(top.op, top.left, operand), priority, AfterOp(top.op, operand, log));
    }
  }

  lemma {:induction false} NeedNotable(env: Env, ts: seq<Token>, p: nat, base: nat, mark: nat, pend: seq<Pend>,
                     log: Notes)
    requires p <= |ts|
    ensures Notable(log, NeedOperand(env, ts, p, base, mark, pend, log).log, !NoneMissing(env, ts),
                    !NoneUndefined(env, ts))
    decreases |ts| - p, 1
  {
    hide Apply, ApplyUnary, Fold, HaveOperand;
    if p < |ts| {
      match ts[p] {
        case Value(u, leaf) =>
          HaveNotable(env, ts, p + 1, base, mark, pend, ApplyUnary(u, env(leaf).Value()), Noted(env(leaf), log));
        case Open(u) =>
          if Height(base, pend) < STACK_SIZE {
            NeedNotable(env, ts, p + 1, Height(base, pend) + 1, 1, [], log);
            var inner := NeedOperand(env, ts, p + 1, Height(base, pend) + 1, 1, [], log);
            HaveNotable(env, ts, inner.pos, base, mark, pend, ApplyUnary(u, inner.value), inner.log);
          }
        case _ =>
      }
    }
  }

  lemma {:induction false} HaveNotable(env: Env, ts: seq<Token>, p: nat, base: nat, mark: nat, pend: seq<Pend>,
                     operand: Word, log: Notes)
    requires p <= |ts|
    ensures Notable(log, HaveOperand(env, ts, p, base, mark, pend, operand, log).log, !NoneMissing(env, ts),
                    !NoneUndefined(env, ts))
    decreases |ts| - p, 0
  {
    hide Apply, ApplyUnary, Fold, NeedOperand;
    var priority := if p == |ts| then 0 else if ts[p].Oper? then Priority(ts[p].op) else 1;
    FoldKeeps(pend, operand, priority, log);
    if p < |ts| && ts[p].Oper? {
      var f := Fold(pend, operand, priority, log);
      NeedNotable(env, ts, p + 1, base, mark, f.pend + [Pend(f.value, ts[p].op)], f.log);
    }
  }

  /** How an expression can end. */
  lemma {:induction false} WrittenOutcome(env: Env, ts: seq<Token>, names: set<string>)
    requires Written(ts, names)
    ensures Outcome(Evaluate(env, ts)) in {Okay, NoLabel, LabelUndef, DivByZero}
    ensures NoneMissing(env, ts) ==> Outcome(Evaluate(env, ts)) != NoLabel
    ensures NoneUndefined(env, ts) ==> Evaluate(env, ts).log.misses == 0
  {
    hide NeedOperand, Show, Peak, Raises, Val, Seen, Trouble, DivFree;
    var e :| ts == Show(e, 2) && Peak(e, 2) < STACK_SIZE;
    EvaluatesTree(env, e);
    SeenError(env, e, Start);
    NoFatalFirst(env, ts);
    NeedNotable(env, ts, 0, 1, 0, [], Start);
  }

  // ---------------------------------------------------------------- no errors before the last pass

  /** Line `i` is still to come on this pass: its label and those behind it have not been met on it. */
  ghost predicate Ahead(prog: seq<Line>, i: nat, st: State, pass: nat) {
    && st.errors == 0 && (pass > 0 ==> Names(prog) <= st.symbols.Keys)
    && (forall j :: 0 <= j < i <= |prog| && prog[j].name.Some? ==> prog[j].name.value in st.symbols)
    && (forall n :: n in st.symbols ==> st.symbols[n].pass <= pass)
    && (forall j :: (i <= j < |prog| && prog[j].name.Some? && prog[j].name.value in st.symbols) ==>
          (st.symbols[prog[j].name.value].defined ==> st.symbols[prog[j].name.value].pass < pass))
  }

  lemma {:induction false} NamesHas(prog: seq<Line>, i: nat)
    requires i < |prog| && prog[i].name.Some?
    ensures prog[i].name.value in Names(prog)
  {
  }

  lemma {:induction false} NoneMissingIn(st: State, increment: Word, ts: seq<Token>, names: set<string>)
    requires Written(ts, names) && names <= st.symbols.Keys
    ensures NoneMissing(Lookup(st, increment), ts)
  {
  }

  lemma {:induction false} NoneUndefinedIn(st: State, increment: Word, ts: seq<Token>)
    requires forall n :: n in st.symbols ==> st.symbols[n].defined
    ensures NoneUndefined(Lookup(st, increment), ts)
  {
  }

  /** Reading an expression is no error before the last pass. */
  lemma {:induction false} ReadsQuietly(st: State, increment: Word, ts: seq<Token>, names: set<string>, pass: nat)
    requires Written(ts, names) && (pass > 0 ==> names <= st.symbols.Keys)
    ensures !Failed(Evaluate(Lookup(st, increment), ts), pass, false)
    ensures (forall n :: n in st.symbols ==> st.symbols[n].defined) ==>
              Evaluate(Lookup(st, increment), ts).log.misses == 0
  {
    hide Evaluate, Written;
    WrittenOutcome(Lookup(st, increment), ts, names);
    if pass > 0 { NoneMissingIn(st, increment, ts, names); }
    if forall n :: n in st.symbols ==> st.symbols[n].defined { NoneUndefinedIn(st, increment, ts); }
  }

  lemma {:induction false} ItemsQuiet(st: State, unit: nat, items: seq<seq<Token>>, length: Word, values: seq<Word>,
                     names: set<string>, pass: nat)
    requires (forall i :: 0 <= i < |items| ==> Written(items[i], names)) && (pass > 0 ==> names <= st.symbols.Keys)
    ensures var d := DoItems(st, unit, items, length, values, pass, false);
      !d.bad && ((forall n :: n in st.symbols ==> st.symbols[n].defined) ==> d.st.undefinedCount == st.undefinedCount)
    decreases items
  {
    hide Evaluate, Written, Failed;
    if items != [] {
      ReadsQuietly(st, length, items[0], names, pass);
      var r := Evaluate(Lookup(st, length), items[0]);
      ItemsQuiet(Tally(st, r), unit, items[1..], Wrap(length + unit), values + [r.value], names, pass);
    }
  }

  /** A statement's own part in this. */
  lemma {:induction false} StmtQuiet(st: State, line: Line, names: set<string>, pass: nat)
    requires !PlacesItself(line.stmt) && Sensible(line, names) && (pass > 0 ==> names <= st.symbols.Keys)
    ensures var out := DoStmt(st, line.stmt, pass, false);
      && out.errors == st.errors && out.pointerDefined == st.pointerDefined
      && ((forall n :: n in st.symbols ==> st.symbols[n].defined) ==> out.undefinedCount == st.undefinedCount)
  {
    hide Evaluate, Written, Fits, Straight, Wanted, Allot;
    if line.stmt.Data? {
      ItemsQuiet(st, line.stmt.unit, line.stmt.items, 0, [], names, pass);
      ItemsEffect(st, line.stmt.unit, line.stmt.items, 0, [], pass, false);
    } else if !line.stmt.Blank? {
      ReadsQuietly(st, 0, line.stmt.operand, names, pass);
    }
  }

  /** ALIGN's operand reads the same wherever it stands. */
  lemma {:induction false} AlignReads(st: State, ts: seq<Token>)
    requires ts == [] || Outcome(Evaluate(NOTHING, ts)) == Okay
    ensures Outcome(Eval(st, ts)) == if ts == [] then NoOperand else Okay
  {
    hide Evaluate;
    if ts == [] {
      AtNothing(Lookup(st, 0), ts, 0, 1, 0, [], Start);
      EvaluateIs(Lookup(st, 0), ts);
    } else {
      OkayIsStable(NOTHING, Lookup(st, 0), ts);
    }
  }

  lemma {:induction false} EvaluateIs(env: Env, ts: seq<Token>)
    ensures Evaluate(env, ts) == NeedOperand(env, ts, 0, 1, 0, [], Start)
  {
  }

  lemma {:induction false} PlacingQuiet(st: State, line: Line, names: set<string>, pass: nat)
    requires PlacesItself(line.stmt) && Sensible(line, names) && (pass > 0 ==> names <= st.symbols.Keys)
    requires line.name.Some? ==> line.name.value in st.symbols
    requires line.name.Some? && st.symbols[line.name.value].defined ==> st.symbols[line.name.value].pass < pass
    ensures var out, c := DoPlacing(st, line.name, line.stmt, pass, false), PlanOf(st, line.stmt, pass, false).call;
      && out.errors == st.errors && c.Some?
      && out.symbols ==
         RedefineIn(st, line.name, c.value.value, c.value.valueDefined, c.value.status, pass, false).0.symbols
  {
    hide Evaluate, Written, Eval, Skip;
    if line.stmt.Align? {
      AlignReads(st, line.stmt.operand);
    } else {
      ReadsQuietly(st, 0, line.stmt.operand, names, pass);
      EvalIs(st, line.stmt.operand);
    }
  }

  lemma {:induction false} EvalIs(st: State, ts: seq<Token>)
    ensures Eval(st, ts) == Evaluate(Lookup(st, 0), ts)
  {
  }

  /** One line of a pass before the last. */
  lemma {:induction false} LineQuiet(prog: seq<Line>, i: nat, st: State, pass: nat)
    requires SensibleProgram(prog) && i < |prog| && Ahead(prog, i, st, pass)
    ensures Ahead(prog, i + 1, DoLine(st, prog[i], pass, false), pass)
  {
    hide DoStmt, DoPlacing, PlanOf, Sensible, Names;
    var line := prog[i];
    var s0 := Enter(st, line.name, pass);
    if line.name.Some? { NamesHas(prog, i); }
    if PlacesItself(line.stmt) {
      PlacingQuiet(s0, line, Names(prog), pass);
      var c := PlanOf(s0, line.stmt, pass, false).call.value;
      LabelMet(prog, i, s0, c.value, c.valueDefined, c.status, pass, DoLine(st, line, pass, false));
    } else {
      var s1 := RedefineIn(s0, line.name, s0.pointer, s0.pointerDefined, Okay, pass, false).0;
      StmtQuiet(s1, line, Names(prog), pass);
      StmtEffect(s1, line.stmt, pass, false);
      LabelMet(prog, i, s0, s0.pointer, s0.pointerDefined, Okay, pass, DoLine(st, line, pass, false));
    }
  }

  /** The label's call leaves the labels behind it as they were. */
  lemma {:induction false} LabelMet(prog: seq<Line>, i: nat, st: State, value: Word, valueDefined: bool, s: Status,
                     pass: nat, out: State)
    requires SensibleProgram(prog) && i < |prog| && Ahead(prog, i, st, pass) && out.errors == 0
    requires prog[i].name.Some? ==> prog[i].name.value in st.symbols
    requires out.symbols == RedefineIn(st, prog[i].name, value, valueDefined, s, pass, false).0.symbols
    ensures Ahead(prog, i + 1, out, pass)
  {
    hide Names;
  }

  lemma {:induction false} RunQuiet(prog: seq<Line>, i: nat, st: State, pass: nat)
    requires SensibleProgram(prog) && i <= |prog| && Ahead(prog, i, st, pass)
    ensures Ahead(prog, |prog|, Run(prog, i, st, pass, false), pass)
    decreases |prog| - i
  {
    hide DoLine, Ahead, SensibleProgram;
    if i < |prog| {
      LineQuiet(prog, i, st, pass);
      RunQuiet(prog, i + 1, DoLine(st, prog[i], pass, false), pass);
    }
  }

  /** Whatever is used before it is defined: a sensible program has no error on any pass but the last. */
  lemma {:induction false} NoErrorsBefore(prog: seq<Line>, k: nat)
    requires SensibleProgram(prog)
    ensures After(prog, k).errors == 0 && (k > 0 ==> Ahead(prog, |prog|, After(prog, k), k - 1))
  {
    hide SensibleProgram, DoLine, Run;
    if k > 0 {
      NoErrorsBefore(prog, k - 1);
      Starts(prog, k - 1);
      RunQuiet(prog, 0, Begin(After(prog, k - 1)), k - 1);
    }
  }

  lemma {:induction false} Starts(prog: seq<Line>, k: nat)
    requires k > 0 ==> Ahead(prog, |prog|, After(prog, k), k - 1)
    ensures Ahead(prog, 0, Begin(After(prog, k)), k)
  {
    hide After;
    if k == 0 { FreshSymbols(prog); } else { AllNamed(prog, After(prog, k), k - 1); }
  }

  lemma {:induction false} FreshSymbols(prog: seq<Line>)
    ensures After(prog, 0).symbols == map[]
  {
  }

  lemma {:induction false} AllNamed(prog: seq<Line>, st: State, pass: nat)
    requires Ahead(prog, |prog|, st, pass)
    ensures Names(prog) <= st.symbols.Keys
  {
  }

  // ---------------------------------------------------------------- when the next pass is the last

  /** Sensible, and nothing but labels, code, data and space. */
  ghost predicate PlainProgram(prog: seq<Line>) {
    SensibleProgram(prog) && forall i :: 0 <= i < |prog| ==> !PlacesItself(prog[i].stmt)
  }

  /** The label `n` has the same value before and after. */
  ghost predicate Unmoved(before: State, after: State, n: string) {
    n in before.symbols && n in after.symbols && before.symbols[n].value == after.symbols[n].value
  }

  /** All labels are defined and none was read undefined; those of lines from `i` on are as before the pass, and the
      counters are clear exactly when those before `i` are too. */
  ghost predicate Steady(prog: seq<Line>, i: nat, before: State, st: State) {
    && i <= |prog| && st.pointerDefined && st.undefinedCount == 0
    && (forall n :: n in st.symbols ==> st.symbols[n].defined)
    && (forall n :: n in before.symbols ==> before.symbols[n].defined)
    && (forall j :: i <= j < |prog| && prog[j].name.Some? ==> AsBefore(before, st, prog[j].name.value))
    && (st.definedCount == 0 && st.redefinedCount == 0 <==>
        forall j :: 0 <= j < i && prog[j].name.Some? ==> Unmoved(before, st, prog[j].name.value))
  }

  ghost predicate AsBefore(before: State, st: State, n: string) {
    (n in before.symbols <==> n in st.symbols) && (n in st.symbols ==> before.symbols[n] == st.symbols[n])
  }

  lemma {:induction false} LineSteady(prog: seq<Line>, i: nat, before: State, st: State, pass: nat)
    requires PlainProgram(prog) && i < |prog| && Ahead(prog, i, st, pass) && Steady(prog, i, before, st)
    ensures Steady(prog, i + 1, before, DoLine(st, prog[i], pass, false))
  {
    hide DoStmt, DoPlacing, Sensible, Names, Steady;
    var line := prog[i];
    var s0 := Enter(st, line.name, pass);
    if line.name.Some? { NamesHas(prog, i); }
    EnteredDefined(prog, i, before, st, pass);
    var s1 := RedefineIn(s0, line.name, s0.pointer, s0.pointerDefined, Okay, pass, false).0;
    StmtQuiet(s1, line, Names(prog), pass);
    StmtEffect(s1, line.stmt, pass, false);
    SteadyOf(prog, i + 1, before, s1, DoLine(st, line, pass, false));
  }

  /** What the label's call does to the invariant. */
  lemma {:induction false} EnteredDefined(prog: seq<Line>, i: nat, before: State, st: State, pass: nat)
    requires PlainProgram(prog) && i < |prog| && Ahead(prog, i, st, pass) && Steady(prog, i, before, st)
    ensures var s0 := Enter(st, prog[i].name, pass);
      var (s1, bad) := RedefineIn(s0, prog[i].name, s0.pointer, s0.pointerDefined, Okay, pass, false);
      !bad && Steady(prog, i + 1, before, s1) && (forall n :: n in s1.symbols ==> s1.symbols[n].defined)
  {
    hide Sensible, Names, Unmoved;
    var s0 := Enter(st, prog[i].name, pass);
    var (s1, bad) := RedefineIn(s0, prog[i].name, s0.pointer, s0.pointerDefined, Okay, pass, false);
    if prog[i].name.Some? {
      NamesHas(prog, i);
      var n := prog[i].name.value;
      CallMoves(before, st, n, pass);
      forall j | 0 <= j < |prog| && j != i && prog[j].name.Some?
        ensures Unmoved(before, s1, prog[j].name.value) <==> Unmoved(before, st, prog[j].name.value) {
        OthersMove(before, st, s1, prog[j].name.value);
      }
    }
  }

  lemma {:induction false} OthersMove(before: State, a: State, b: State, n: string)
    requires (n in a.symbols <==> n in b.symbols) && (n in a.symbols ==> a.symbols[n] == b.symbols[n])
    ensures Unmoved(before, a, n) <==> Unmoved(before, b, n)
  {
  }

  /** The call defines the label, and counts it exactly unless it stays where it was. */
  lemma {:induction false} CallMoves(before: State, st: State, n: string, pass: nat)
    requires AsBefore(before, st, n) && st.pointerDefined && (pass == 0 || n in st.symbols)
    requires n in st.symbols ==> st.symbols[n].defined && st.symbols[n].pass < pass
    ensures var s0 := Enter(st, Some(n), pass);
      var (s1, bad) := RedefineIn(s0, Some(n), s0.pointer, s0.pointerDefined, Okay, pass, false);
      && !bad && s1.symbols == st.symbols[n := Symbol(st.pointer, true, pass)]
      && s1 == st.(symbols := s1.symbols, definedCount := s1.definedCount, redefinedCount := s1.redefinedCount)
      && s1.definedCount >= st.definedCount && s1.redefinedCount >= st.redefinedCount
      && (s1.definedCount == st.definedCount && s1.redefinedCount == st.redefinedCount <==> Unmoved(before, s1, n))
  {
  }

  lemma {:induction false} SteadyOf(prog: seq<Line>, i: nat, before: State, a: State, b: State)
    requires Steady(prog, i, before, a) && a.symbols == b.symbols && a.pointerDefined == b.pointerDefined
    requires a.undefinedCount == b.undefinedCount && a.definedCount == b.definedCount
    requires a.redefinedCount == b.redefinedCount
    ensures Steady(prog, i, before, b)
  {
  }

  lemma {:induction false} RunSteady(prog: seq<Line>, i: nat, before: State, st: State, pass: nat)
    requires PlainProgram(prog) && i <= |prog| && Ahead(prog, i, st, pass) && Steady(prog, i, before, st)
    ensures Steady(prog, |prog|, before, Run(prog, i, st, pass, false))
    decreases |prog| - i
  {
    hide DoLine, Ahead, SensibleProgram, Steady;
    if i < |prog| {
      LineQuiet(prog, i, st, pass);
      LineSteady(prog, i, before, st, pass);
      RunSteady(prog, i + 1, before, DoLine(st, prog[i], pass, false), pass);
    }
  }

  lemma {:induction false} StaysSteady(prog: seq<Line>, k: nat)
    requires PlainProgram(prog)
    ensures k > 0 ==> Steady(prog, |prog|, After(prog, k - 1), After(prog, k))
    ensures forall n :: n in After(prog, k).symbols ==> After(prog, k).symbols[n].defined
  {
    hide SensibleProgram, DoLine, Run, Ahead;
    if k == 0 {
      FreshSymbols(prog);
    } else {
      StaysSteady(prog, k - 1);
      NoErrorsBefore(prog, k - 1);
      Starts(prog, k - 1);
      var before := After(prog, k - 1);
      assert Steady(prog, 0, before, Begin(before));
      RunSteady(prog, 0, before, Begin(before), k - 1);
    }
  }

  /** In a plain program every label has a value from the first pass on, no pass reads one without, and the pass after
      number `k` is the last one exactly when number `k` left every label where the pass before it had put it. */
  lemma {:induction false} StableExactly(prog: seq<Line>, k: nat, n: string)
    requires PlainProgram(prog) && k > 0
    ensures n in Names(prog) ==> n in After(prog, k).symbols && After(prog, k).symbols[n].defined
    ensures After(prog, k).undefinedCount == 0
    ensures LastPass(prog, k + 1) <==> forall n :: n in Names(prog) ==> Unmoved(After(prog, k - 1), After(prog, k), n)
  {
    hide SensibleProgram, After, Unmoved;
    StaysSteady(prog, k);
    NoErrorsBefore(prog, k);
    AllNamed(prog, After(prog, k), k - 1);
    if forall n :: n in Names(prog) ==> Unmoved(After(prog, k - 1), After(prog, k), n) {
      forall j | 0 <= j < |prog| && prog[j].name.Some?
        ensures Unmoved(After(prog, k - 1), After(prog, k), prog[j].name.value) {
        NamesHas(prog, j);
      }
    }
  }

  /** A plain program whose last pass follows an ordinary one without a zero divisor is accepted exactly when the
      operands of all its code have values and pass their tests where they finally are. */
  lemma {:induction false} PlainAccepted(prog: seq<Line>, passes: nat)
    requires PlainProgram(prog) && passes > 2 && LastPass(prog, passes) && !After(prog, passes - 1).divZero
    ensures var final := Ended(prog, passes);
      && |final.listing| == |prog|
      && (final.errors == 0 <==> forall k :: 0 <= k < |prog| ==> Fine(prog[k], final.listing[k], final))
  {
    hide SensibleProgram, Pass, Fine;
    NoErrorsBefore(prog, passes - 1);
    AcceptedExactly(prog, After(prog, passes - 2), passes - 2);
  }
}
