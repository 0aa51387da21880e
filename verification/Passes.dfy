/** The assembler's passes over its source (tools/assembler/rva.c: the pass loop of `main`, `assemble_line`,
`assemble_redef_label`, `variable_item_size`, `allow_error`).

A program is its lines; a pass folds `DoLine` over them.  The state carries what survives a pass (symbols and
size records) and what each pass starts afresh (assembly pointer, counters, listing).
*/
module Passes {
  import opened Options
  import opened Words
  import opened Expressions
  import opened Evaluator
  import PseudoOps

  const MAX_PASSES: nat := 20
  const SHRINK_STOP: nat := MAX_PASSES - 10

  /** Pseudo-operations whose length depends on an operand. */
  type Pseudo = PseudoOps.Pseudo

  /** How an instruction's operand goes into its word, and so the test it has to pass. */
  datatype Form =
    | Plain      // none, or one of the tests not modelled
    | Upper      // LUI, AUIPC
    | Immediate  // twelve signed bits
    | Branch
    | Jal
    | Jump       // J, whose test is JAL's without alignment

  datatype Stmt =
    | Blank
    | Instr(form: Form, operand: seq<Token>, always: bool)  // one word; read on every pass or only the first and last
    | Global(operand: seq<Token>)               // load or store of a named address: AUIPC and the access
    | Variable(kind: Pseudo, operand: seq<Token>)
    | Data(unit: nat, items: seq<seq<Token>>)   // DEFB, DEFH, DEFW
    | Space(operand: seq<Token>)                // DEFS
    | Equ(operand: seq<Token>)
    | Org(operand: seq<Token>)
    | Align(operand: seq<Token>)

  datatype Line = Line(name: Option<string>, stmt: Stmt)

  /** A symbol's value, whether it is a defined one, and the pass of its last encounter. */
  datatype Symbol = Symbol(value: Word, defined: bool, pass: nat)

  /** One listing line: where it was put, its length in bytes, the operand value read on this pass, and the values of
      a definition's items. */
  datatype Entry = Entry(address: Word, size: Word, value: Word, items: seq<Word>)

  datatype State = State(
    symbols: map<string, Symbol>,
    sizes: seq<nat>,
    cursor: nat,
    pointer: Word,
    pointerDefined: bool,
    definedCount: nat,
    redefinedCount: nat,
    undefinedCount: nat,
    errors: nat,
    divZero: bool,
    listing: seq<Entry>)

  // ---------------------------------------------------------------- labels and sizes

  /** allow_error. */
  predicate Allowed(s: Status, first: bool, last: bool) {
    match s
    case NoLabel => first
    case LabelUndef | DivByZero => !last || first
    case _ => false
  }

  /** assemble_redef_label on one symbol: the new record, and whether an error remains. */
  function Redefine(was: Symbol, value: Word, valueDefined: bool, s: Status, pass: nat, last: bool): (Symbol, bool) {
    if pass != was.pass || !was.defined then
      if valueDefined && s == Okay then (Symbol(value, true, pass), false)
      else (Symbol(value, false, pass), s != Okay && !Allowed(s, pass == 0, last))
    else
      (Symbol(value, true, pass), !(valueDefined && s == Okay) || value != was.value)
  }

  /** The same with the pass's counters; a line without a known label only keeps its error. */
  function RedefineIn(st: State, name: Option<string>, value: Word, valueDefined: bool, s: Status, pass: nat,
          last: bool): (State, bool) {
    if name.Some? && name.value in st.symbols then
      var sym := st.symbols[name.value];
      var (now, bad) := Redefine(sym, value, valueDefined, s, pass, last);
      var genuine := (pass != sym.pass || !sym.defined) && valueDefined && s == Okay;
      (st.(symbols := st.symbols[name.value := now],
           definedCount := st.definedCount + if genuine && !sym.defined then 1 else 0,
           redefinedCount := st.redefinedCount + if genuine && sym.defined && sym.value != value then 1 else 0), bad)
    else (st, s != Okay && !Allowed(s, pass == 0, last))
  }

  /** variable_item_size after the first pass: the size allotted, which is also the record's new content. */
  function Allot(record: nat, wanted: nat, pass: nat): nat {
    if record != wanted && (pass < SHRINK_STOP || record < wanted) then wanted else record
  }

  /** A word as the machine has it. */
  function Bits(w: Word): bv32 { w as bv32 }

  /** The value a pseudo-operation's words are made from: LA and CALL take theirs relative to the pointer. */
  function Relative(kind: Pseudo, value: Word, pointer: Word): bv32 {
    if kind.LI? then Bits(value) else PseudoOps.Offset(Bits(value), Bits(pointer))
  }

  /** Bytes a pseudo-operation asks for, from its operand's value. */
  function Wanted(kind: Pseudo, value: Word, pointer: Word): (n: nat)
    ensures n == 4 || n == 8
  {
    if PseudoOps.TwoWords(kind, Relative(kind, value, pointer)) then 8 else 4
  }

  /** A CALL needs an even distance. */
  predicate Straight(kind: Pseudo, value: Word, pointer: Word) {
    kind.CALL? ==> PseudoOps.Even(Relative(kind, value, pointer))
  }

  predicate Fits(form: Form, value: Word, pointer: Word) {
    var v, offset := Bits(value), PseudoOps.Offset(Bits(value), Bits(pointer));
    match form
    case Plain => true
    case Upper => v & 0xFFF == 0
    case Immediate => PseudoOps.ByteRange(v)
    case Branch => PseudoOps.Even(offset) && PseudoOps.BranchRange(offset)
    case Jal => PseudoOps.Even(offset) && PseudoOps.JumpRange(offset)
    case Jump => PseudoOps.JumpRange(offset)
  }

  /** Bytes ALIGN skips, as 32-bit arithmetic has it. */
  function Skip(pointer: Word, operand: Word): Word {
    if operand == 0 then 0 else Wrap(operand - (Wrap(pointer - 1) % operand + 1))
  }

  // ---------------------------------------------------------------- one line

  /** What the evaluator sees, `increment` bytes into the line. */
  function Lookup(st: State, increment: Word): Env {
    (leaf: Leaf) =>
      match leaf
      case Number(w) => Found(w)
      case Label(n) =>
        if n !in st.symbols then Missing else if st.symbols[n].defined then Found(st.symbols[n].value) else Undefined
      case Here => if st.pointerDefined then Found(Wrap(st.pointer + increment)) else Adrift
  }

  function Eval(st: State, ts: seq<Token>): Result {
    Evaluate(Lookup(st, 0), ts)
  }

  /** The counters an evaluation leaves behind. */
  function Tally(st: State, r: Result): State {
    st.(undefinedCount := st.undefinedCount + r.log.misses, divZero := st.divZero || r.log.divZero)
  }

  predicate Failed(r: Result, pass: nat, last: bool) {
    Outcome(r) != Okay && !Allowed(Outcome(r), pass == 0, last)
  }

  /** An operand that fails its test has the test's error, which is tolerated until the last pass, in place of any the
      evaluation gave. */
  predicate Rejected(fits: bool, r: Result, pass: nat, last: bool) {
    if fits then Failed(r, pass, last) else last && pass > 0
  }

  function Erred(st: State, bad: bool): State {
    if bad then st.(errors := st.errors + 1) else st
  }

  /** The line takes `size` bytes from the pointer on. */
  function Advance(st: State, size: Word, value: Word, items: seq<Word>): State {
    st.(pointer := Wrap(st.pointer + size), listing := st.listing + [Entry(st.pointer, size, value, items)])
  }

  /** A label met for the first time on the first pass enters the table without a value. */
  function Enter(st: State, name: Option<string>, pass: nat): State {
    if name.Some? && name.value !in st.symbols && pass == 0 then
      st.(symbols := st.symbols[name.value := Symbol(0, false, 0)])
    else st
  }

  predicate PlacesItself(stmt: Stmt) {
    stmt.Equ? || stmt.Org? || stmt.Align?
  }

  function DoLine(st: State, line: Line, pass: nat, last: bool): State {
    var st := Enter(st, line.name, pass);
    if PlacesItself(line.stmt) then DoPlacing(st, line.name, line.stmt, pass, last)
    else
      var (st, bad) := RedefineIn(st, line.name, st.pointer, st.pointerDefined, Okay, pass, last);
      if bad then Advance(Erred(st, true), 0, 0, []) else DoStmt(st, line.stmt, pass, last)
  }

  /** Statements whose label stands for the line's own address. */
  function DoStmt(st: State, stmt: Stmt, pass: nat, last: bool): State {
    match stmt
    case Instr(form, ts, always) =>
      if always || pass == 0 || last then
        var r := Eval(st, ts);
        Advance(Erred(Tally(st, r), Rejected(Fits(form, r.value, st.pointer), r, pass, last)), 4, r.value, [])
      else Advance(st, 4, 0, [])
    case Global(ts) =>
      var r := Eval(st, ts);
      Advance(Erred(Tally(st, r), Failed(r, pass, last)), if Failed(r, pass, last) then 4 else 8, r.value, [])
    case Variable(kind, ts) =>
      var r := Eval(st, ts);
      var (st', size) := TakeSize(Tally(st, r), Wanted(kind, r.value, st.pointer), pass);
      Advance(Erred(st', Rejected(Straight(kind, r.value, st.pointer), r, pass, last)), size, r.value, [])
    case Data(unit, items) =>
      var d := DoItems(st, unit, items, 0, [], pass, last);
      Advance(Erred(d.st, d.bad), d.length, 0, d.values)
    case Space(ts) =>
      var r := Eval(st, ts);
      Advance(Erred(Tally(st, r), Failed(r, pass, last)), if Failed(r, pass, last) then 0 else r.value, r.value, [])
    case _ => Advance(st, 0, 0, [])
  }

  /** variable_item_size: append a record on the first pass, consult and step over one later. */
  function TakeSize(st: State, wanted: nat, pass: nat): (State, Word) {
    if pass == 0 then (st.(sizes := st.sizes + [wanted]), wanted % MODULUS_32)
    else if st.cursor < |st.sizes| then
      var size := Allot(st.sizes[st.cursor], wanted, pass);
      (st.(sizes := st.sizes[st.cursor := size], cursor := st.cursor + 1), size % MODULUS_32)
    else (st, wanted % MODULUS_32)
  }

  /** A definition's outcome: the counters, its length, the values of its items, and whether an error ended it. */
  datatype Definition = Definition(st: State, length: Word, values: seq<Word>, bad: bool)

  /** assemble_define: items until the first one with an error that is not tolerated. */
  function DoItems(st: State, unit: nat, items: seq<seq<Token>>, length: Word, values: seq<Word>, pass: nat,
          last: bool): Definition
    decreases items
  {
    if items == [] then Definition(st, length, values, false)
    else
      var r := Evaluate(Lookup(st, length), items[0]);
      if Failed(r, pass, last) then Definition(Tally(st, r), length, values, true)
      else DoItems(Tally(st, r), unit, items[1..], Wrap(length + unit), values + [r.value], pass, last)
  }

  /** The call of assemble_redef_label a line makes. */
  datatype LabelCall = LabelCall(value: Word, valueDefined: bool, status: Status)

  /** EQU, ORG and ALIGN: the label call they make (none when the operand is unusable), the pointer before the
      bytes they skip, and how many those are. */
  datatype Plan = Plan(call: Option<LabelCall>, pointer: Word, pointerDefined: bool, skip: Word)

  function PlanOf(st: State, stmt: Stmt, pass: nat, last: bool): Plan
    requires PlacesItself(stmt)
  {
    var r := Eval(st, stmt.operand);
    var s := Outcome(r);
    match stmt
    case Equ(_) => Plan(Some(LabelCall(r.value, true, s)), st.pointer, st.pointerDefined, 0)
    case Org(_) =>
      Plan(Some(LabelCall(r.value, s == Okay, if Allowed(s, pass == 0, last) then Okay else s)), r.value, s == Okay, 0)
    case Align(_) =>
      if s == NoOperand || s == Okay then
        var skip := Skip(st.pointer, if s == Okay then r.value else 4);
        Plan(Some(LabelCall(Wrap(st.pointer + skip), st.pointerDefined, Okay)), st.pointer, st.pointerDefined, skip)
      else Plan(None, st.pointer, st.pointerDefined, 0)
  }

  /** EQU, ORG and ALIGN give their label another value than the pointer at the line's start. */
  function DoPlacing(st: State, name: Option<string>, stmt: Stmt, pass: nat, last: bool): State
    requires PlacesItself(stmt)
  {
    var r := Eval(st, stmt.operand);
    var plan := PlanOf(st, stmt, pass, last);
    var moved := Tally(st, r).(pointer := plan.pointer, pointerDefined := plan.pointerDefined);
    if plan.call.None? then Advance(Erred(moved, true), 0, r.value, [])
    else
      var c := plan.call.value;
      var (st', bad) := RedefineIn(moved, name, c.value, c.valueDefined, c.status, pass, last);
      var unnamed := stmt.Equ? && !(name.Some? && name.value in st.symbols);
      Advance(Erred(st', bad || unnamed), plan.skip, r.value, [])
  }

  /** ALIGN moves to the next multiple of its operand, by less than the operand, except at address 0 when the operand
      does not divide 2^32; by nothing when its operand is 0. */
  lemma {:induction false} AlignExact(pointer: Word, operand: Word)
    ensures operand == 0 ==> Skip(pointer, operand) == 0
    ensures operand > 0 ==> 0 <= Skip(pointer, operand) < operand
    ensures operand > 0 ==>
              ((pointer + Skip(pointer, operand)) % operand == 0 <==> pointer > 0 || MODULUS_32 % operand == 0)
  {
    if operand == 0 { return; }
    var p := Wrap(pointer - 1);
    var q := p / operand;
    SkipIs(p, operand);
    var s := Skip(pointer, operand);
    if pointer > 0 {
      IsMultiple(operand, pointer + s, q + 1);
    } else {
      SkipAtZero(operand, q, s);
    }
  }

  lemma {:induction false} SkipIs(p: Word, operand: Word)
    requires operand > 0
    ensures var s := Wrap(operand - (p % operand + 1)); 0 <= s < operand && p + 1 + s == operand * (p / operand + 1)
  {
    var q, r := p / operand, p % operand;
    assert p == operand * q + r && 0 <= r < operand;
    assert operand * (q + 1) == operand * q + operand;
  }

  lemma {:induction false} SkipAtZero(operand: Word, q: nat, s: nat)
    requires 0 <= s < operand && MODULUS_32 + s == operand * (q + 1)
    ensures s % operand == 0 <==> MODULUS_32 % operand == 0
  {
    SmallMod(s, operand);
    if s == 0 {
      IsMultiple(operand, MODULUS_32, q + 1);
    } else if MODULUS_32 % operand == 0 {
      NoRoom(MODULUS_32, operand, q, s);
    }
  }

  lemma {:induction false} SmallMod(s: nat, n: nat)
    requires s < n
    ensures s % n == s
  {
  }

  lemma {:induction false} NoRoom(x: nat, n: nat, q: nat, s: nat)
    requires 0 <= s < n && x % n == 0 && x + s == n * (q + 1)
    ensures s == 0
  {
    var m := x / n;
    assert x == n * m;
    assert n * (q + 1 - m) == n * (q + 1) - n * m;
    LessThanOne(n, q + 1 - m, s);
  }

  lemma {:induction false} IsMultiple(n: nat, x: nat, k: int)
    requires n > 0 && x == n * k
    ensures x % n == 0
  {
    var q, r := x / n, x % n;
    assert x == n * q + r && 0 <= r < n;
    assert n * (k - q) == n * k - n * q;
    LessThanOne(n, k - q, r);
  }

  /** A multiple of `n` that is less than `n` and not negative is 0. */
  lemma {:induction false} LessThanOne(n: nat, k: int, s: int)
    requires n > 0 && 0 <= s < n
    ensures s == n * k ==> s == 0
  {
    if k >= 1 { assert n * k == n + n * (k - 1); }
    if k < 0 { assert n * k == -(n * -k); }
  }

  /** A definition takes its unit for each item read, which are all of them unless an error ends it. */
  lemma {:induction false} ItemsLength(st: State, unit: nat, items: seq<seq<Token>>, length: Word, values: seq<Word>,
                     pass: nat, last: bool)
    ensures var d := DoItems(st, unit, items, length, values, pass, last);
      && |values| <= |d.values| && d.length == Wrap(length + unit * (|d.values| - |values|))
      && (!d.bad ==> |d.values| == |values| + |items| && d.length == Wrap(length + unit * |items|))
    decreases items
  {
    hide Evaluate, Failed, Lookup, Tally, Wrap;
    WrapWord(length);
    if items != [] {
      var r := Evaluate(Lookup(st, length), items[0]);
      if !Failed(r, pass, last) {
        ItemsLength(Tally(st, r), unit, items[1..], Wrap(length + unit), values + [r.value], pass, last);
        var n := |DoItems(st, unit, items, length, values, pass, last).values| - |values|;
        OneMore(length, unit, n);
      }
    }
  }

  lemma {:induction false} OneMore(length: int, unit: nat, n: int)
    ensures Wrap(Wrap(length + unit) + unit * (n - 1)) == Wrap(length + unit * n)
  {
    WrapSum(length + unit, unit * (n - 1));
    assert unit * n == unit + unit * (n - 1);
  }

  lemma {:induction false} WrapSum(a: int, b: int)
    ensures Wrap(Wrap(a) + b) == Wrap(a + b)
  {
  }

  // ---------------------------------------------------------------- a pass

  function Begin(st: State): State {
    st.(cursor := 0, pointer := 0, pointerDefined := true, definedCount := 0, redefinedCount := 0,
        undefinedCount := 0, errors := 0, divZero := false, listing := [])
  }

  function Run(prog: seq<Line>, i: nat, st: State, pass: nat, last: bool): State
    requires i <= |prog|
    decreases |prog| - i
  {
    if i == |prog| then st else Run(prog, i + 1, DoLine(st, prog[i], pass, last), pass, last)
  }

  function Pass(prog: seq<Line>, st: State, pass: nat, last: bool): State {
    Run(prog, 0, Begin(st), pass, last)
  }

  // ---------------------------------------------------------------- what a line does to the symbols

  ghost predicate Defined(st: State, n: string, v: Word) {
    n in st.symbols && st.symbols[n].defined && st.symbols[n].value == v
  }

  function CallOf(st: State, stmt: Stmt, pass: nat, last: bool): Option<LabelCall> {
    if PlacesItself(stmt) then PlanOf(st, stmt, pass, last).call
    else Some(LabelCall(st.pointer, st.pointerDefined, Okay))
  }

  function Labelled(st: State, line: Line, c: LabelCall, pass: nat, last: bool): (State, bool) {
    RedefineIn(Enter(st, line.name, pass), line.name, c.value, c.valueDefined, c.status, pass, last)
  }

  /** A line changes the symbols and their counters by that one call only; a remaining error is counted. */
  lemma {:induction false} LineEffect(st: State, line: Line, pass: nat, last: bool)
    ensures var out, call := DoLine(st, line, pass, last), CallOf(Enter(st, line.name, pass), line.stmt, pass, last);
      && out.errors >= st.errors
      && (call.None? ==> out.errors > st.errors)
      && (call.Some? ==>
            var (l, bad) := Labelled(st, line, call.value, pass, last);
            && out.symbols == l.symbols && out.definedCount == l.definedCount && out.redefinedCount == l.redefinedCount
            && (bad ==> out.errors > st.errors))
  {
    hide DoStmt, DoPlacing, CallOf, RedefineIn;
    var s0 := Enter(st, line.name, pass);
    if PlacesItself(line.stmt) {
      PlacingEffect(s0, line.name, line.stmt, pass, last);
    } else {
      PlainCall(s0, line.stmt, pass, last);
      RedefineFrame(s0, s0, line.name, s0.pointer, s0.pointerDefined, Okay, pass, last);
      StmtEffect(RedefineIn(s0, line.name, s0.pointer, s0.pointerDefined, Okay, pass, last).0, line.stmt, pass, last);
    }
  }

  lemma {:induction false} PlainCall(st: State, stmt: Stmt, pass: nat, last: bool)
    requires !PlacesItself(stmt)
    ensures CallOf(st, stmt, pass, last) == Some(LabelCall(st.pointer, st.pointerDefined, Okay))
  {
  }

  lemma {:induction false} StmtEffect(st: State, stmt: Stmt, pass: nat, last: bool)
    requires !PlacesItself(stmt)
    ensures var out := DoStmt(st, stmt, pass, last);
      && out.errors >= st.errors && out.symbols == st.symbols
      && out.definedCount == st.definedCount && out.redefinedCount == st.redefinedCount
  {
    hide Evaluate, Wanted, Straight, Fits, Allot;
    if stmt.Data? { ItemsEffect(st, stmt.unit, stmt.items, 0, [], pass, last); }
  }

  lemma {:induction false} PlacingEffect(st: State, name: Option<string>, stmt: Stmt, pass: nat, last: bool)
    requires PlacesItself(stmt)
    ensures var out, call := DoPlacing(st, name, stmt, pass, last), CallOf(st, stmt, pass, last);
      && out.errors >= st.errors
      && (call.None? ==> out.errors > st.errors)
      && (call.Some? ==>
            var c := call.value;
            var (l, bad) := RedefineIn(st, name, c.value, c.valueDefined, c.status, pass, last);
            && out.symbols == l.symbols && out.definedCount == l.definedCount && out.redefinedCount == l.redefinedCount
            && (bad ==> out.errors > st.errors))
  {
    hide Evaluate, Eval, PlanOf, RedefineIn;
    var plan := PlanOf(st, stmt, pass, last);
    if plan.call.Some? {
      var c := plan.call.value;
      var moved := Tally(st, Eval(st, stmt.operand)).(pointer := plan.pointer, pointerDefined := plan.pointerDefined);
      RedefineFrame(moved, st, name, c.value, c.valueDefined, c.status, pass, last);
    }
  }

  /** assemble_redef_label reads only the symbols and the two definition counters. */
  lemma {:induction false} RedefineFrame(a: State, b: State, name: Option<string>, value: Word, valueDefined: bool,
                     s: Status, pass: nat, last: bool)
    requires a.symbols == b.symbols && a.definedCount == b.definedCount && a.redefinedCount == b.redefinedCount
    ensures var (x, bad) := RedefineIn(a, name, value, valueDefined, s, pass, last);
            var (y, bad') := RedefineIn(b, name, value, valueDefined, s, pass, last);
            && x == a.(symbols := x.symbols, definedCount := x.definedCount, redefinedCount := x.redefinedCount)
            && x.symbols == y.symbols && x.definedCount == y.definedCount && x.redefinedCount == y.redefinedCount
            && bad == bad'
  {
    hide Redefine;
  }

  lemma {:induction false} ItemsEffect(st: State, unit: nat, items: seq<seq<Token>>, length: Word, values: seq<Word>,
                     pass: nat, last: bool)
    ensures var out := DoItems(st, unit, items, length, values, pass, last).st;
            out == st.(undefinedCount := out.undefinedCount, divZero := out.divZero)
    decreases items
  {
    hide Evaluate;
    if items != [] {
      var r := Evaluate(Lookup(st, length), items[0]);
      if !Failed(r, pass, last) {
        ItemsEffect(Tally(st, r), unit, items[1..], Wrap(length + unit), values + [r.value], pass, last);
      }
    }
  }

  /** A pass state in which nothing was defined, redefined or reported. */
  ghost predicate Quiet(st: State) {
    st.errors == 0 && st.definedCount == 0 && st.redefinedCount == 0
  }

  /** One line of a quiet pass: definitions can only disappear, and one made on this pass stays. */
  lemma {:induction false} QuietLine(st: State, line: Line, pass: nat, last: bool)
    requires DoLine(st, line, pass, last).errors == 0
    ensures var out := DoLine(st, line, pass, last);
      && st.errors == 0
      && out.definedCount >= st.definedCount && out.redefinedCount >= st.redefinedCount
      && (Quiet(out) ==> forall n, v :: Defined(out, n, v) ==> Defined(st, n, v))
      && (forall n :: n in st.symbols && st.symbols[n].defined && st.symbols[n].pass == pass ==>
            n in out.symbols && out.symbols[n] == st.symbols[n])
      && st.symbols.Keys <= out.symbols.Keys && (pass > 0 ==> st.symbols.Keys == out.symbols.Keys)
  {
    hide DoLine, CallOf;
    LineEffect(st, line, pass, last);
  }

  lemma {:induction false} QuietRun(prog: seq<Line>, i: nat, st: State, pass: nat, last: bool)
    requires i <= |prog| && Run(prog, i, st, pass, last).errors == 0
    ensures var out := Run(prog, i, st, pass, last);
      && st.errors == 0
      && out.definedCount >= st.definedCount && out.redefinedCount >= st.redefinedCount
      && (Quiet(out) ==> forall n, v :: Defined(out, n, v) ==> Defined(st, n, v))
      && (forall n :: n in st.symbols && st.symbols[n].defined && st.symbols[n].pass == pass ==>
            n in out.symbols && out.symbols[n] == st.symbols[n])
      && st.symbols.Keys <= out.symbols.Keys && (pass > 0 ==> st.symbols.Keys == out.symbols.Keys)
    decreases |prog| - i
  {
    hide DoLine;
    if i < |prog| {
      QuietRun(prog, i + 1, DoLine(st, prog[i], pass, last), pass, last);
      QuietLine(st, prog[i], pass, last);
    }
  }

  // ---------------------------------------------------------------- size records

  /** Size records already passed on this pass. */
  function Passed(st: State, pass: nat): nat {
    if pass == 0 then |st.sizes| else st.cursor
  }

  /** A later state has the same records up to this state's position. */
  ghost predicate SizesKept(st: State, r: State, pass: nat) {
    && Passed(st, pass) <= Passed(r, pass) && Passed(st, pass) <= |st.sizes| <= |r.sizes|
    && (pass > 0 ==> |st.sizes| == |r.sizes|)
    && forall c :: 0 <= c < Passed(st, pass) ==> r.sizes[c] == st.sizes[c]
  }

  lemma {:induction false} StmtSizes(st: State, stmt: Stmt, pass: nat, last: bool)
    requires !PlacesItself(stmt) && Passed(st, pass) <= |st.sizes|
    ensures SizesKept(st, DoStmt(st, stmt, pass, last), pass)
    ensures !stmt.Variable? ==> var out := DoStmt(st, stmt, pass, last);
            out.sizes == st.sizes && out.cursor == st.cursor
    ensures Passed(DoStmt(st, stmt, pass, last), pass) <= |DoStmt(st, stmt, pass, last).sizes|
  {
    hide Evaluate, Wanted, Straight, Fits, Allot;
    if stmt.Data? { ItemsEffect(st, stmt.unit, stmt.items, 0, [], pass, last); }
  }

  lemma {:induction false} LineSizes(st: State, line: Line, pass: nat, last: bool)
    requires Passed(st, pass) <= |st.sizes|
    ensures SizesKept(st, DoLine(st, line, pass, last), pass)
    ensures Passed(DoLine(st, line, pass, last), pass) <= |DoLine(st, line, pass, last).sizes|
  {
    hide Evaluate, PlanOf, DoStmt, RedefineIn, Eval;
    var s0 := Enter(st, line.name, pass);
    if PlacesItself(line.stmt) {
      PlacingSizes(s0, line.name, line.stmt, pass, last);
    } else {
      RedefineFrame(s0, s0, line.name, s0.pointer, s0.pointerDefined, Okay, pass, last);
      StmtSizes(RedefineIn(s0, line.name, s0.pointer, s0.pointerDefined, Okay, pass, last).0, line.stmt, pass, last);
    }
  }

  lemma {:induction false} PlacingSizes(st: State, name: Option<string>, stmt: Stmt, pass: nat, last: bool)
    requires PlacesItself(stmt)
    ensures var out := DoPlacing(st, name, stmt, pass, last); out.sizes == st.sizes && out.cursor == st.cursor
  {
    hide Evaluate, PlanOf, Redefine, Eval;
  }

  lemma {:induction false} RunSizes(prog: seq<Line>, i: nat, st: State, pass: nat, last: bool)
    requires i <= |prog| && Passed(st, pass) <= |st.sizes|
    ensures SizesKept(st, Run(prog, i, st, pass, last), pass)
    decreases |prog| - i
  {
    hide DoLine;
    if i < |prog| {
      LineSizes(st, prog[i], pass, last);
      RunSizes(prog, i + 1, DoLine(st, prog[i], pass, last), pass, last);
    }
  }

  /** A size allotted on one pass is allotted again on the next, if the operand asks for the same. */
  lemma {:induction false} AllotAgain(record: nat, wanted: nat, pass: nat)
    ensures Allot(Allot(record, wanted, pass), wanted, pass + 1) == Allot(record, wanted, pass)
  {
  }

  // ---------------------------------------------------------------- two passes side by side

  /** What the end `r` of a quiet pass still says about its state `s`. */
  ghost predicate Leads(s: State, r: State, pass: nat) {
    && (forall n, v :: Defined(r, n, v) ==> Defined(s, n, v))
    && (forall n :: n in s.symbols && s.symbols[n].defined && s.symbols[n].pass == pass ==>
          n in r.symbols && r.symbols[n] == s.symbols[n])
    && s.symbols.Keys <= r.symbols.Keys && (pass > 0 ==> s.symbols.Keys == r.symbols.Keys)
    && SizesKept(s, r, pass)
  }

  ghost predicate SameShape(a: seq<Entry>, b: seq<Entry>) {
    |a| == |b| && forall i :: 0 <= i < |a| ==> a[i].address == b[i].address && a[i].size == b[i].size
  }

  /** The second pass's cursor stands where the first pass has got to, and the records from there on are final. */
  ghost predicate InStep(s: State, t: State, r: State, pass: nat) {
    && t.cursor == Passed(s, pass) <= |s.sizes| && |t.sizes| == |r.sizes|
    && forall c :: t.cursor <= c < |r.sizes| ==> t.sizes[c] == r.sizes[c]
  }

  /** State `s` of a quiet pass ending in `r`, and state `t` of the pass after it, stand at the same line. */
  ghost predicate Twin(s: State, t: State, r: State, pass: nat) {
    && t.pointer == s.pointer && t.pointerDefined == s.pointerDefined && SameShape(s.listing, t.listing)
    && InStep(s, t, r, pass) && SameSymbols(t, r)
  }

  ghost predicate SameSymbols(t: State, r: State) {
    t.symbols.Keys == r.symbols.Keys && forall n, v :: Defined(t, n, v) <==> Defined(r, n, v)
  }

  /** The same label call on both passes keeps the second one's symbols in step with the end of the first. */
  lemma {:induction false} TwinLabel(s: State, t: State, r: State, name: Option<string>, value: Word,
                     valueDefined: bool, pass: nat)
    requires SameSymbols(t, r)
    requires name.Some? && name.value in t.symbols ==> name.value in s.symbols
    requires var (s', bad) := RedefineIn(s, name, value, valueDefined, Okay, pass, false);
             && !bad && (forall n, v :: Defined(r, n, v) ==> Defined(s', n, v))
             && (forall n :: n in s'.symbols && s'.symbols[n].defined && s'.symbols[n].pass == pass ==>
                   n in r.symbols && r.symbols[n] == s'.symbols[n])
    requires !RedefineIn(t, name, value, valueDefined, Okay, pass + 1, true).1
    ensures SameSymbols(RedefineIn(t, name, value, valueDefined, Okay, pass + 1, true).0, r)
  {
    var s', t' := RedefineIn(s, name, value, valueDefined, Okay, pass, false).0,
        RedefineIn(t, name, value, valueDefined, Okay, pass + 1, true).0;
    if name.Some? && name.value in t.symbols {
      var x := name.value;
      assert t'.symbols.Keys == t.symbols.Keys;
      forall n, v ensures Defined(t', n, v) <==> Defined(r, n, v) {
        if n == x {
          assert s'.symbols[x].value == value;
          if valueDefined {
            assert s'.symbols[x] == Symbol(value, true, pass) == r.symbols[x];
          } else {
            assert !Defined(s', x, v);
          }
        }
      }
    }
  }

  /** An operand that reads without error on the last pass reads the same on the pass before. */
  lemma {:induction false} SameOperand(s: State, t: State, r: State, increment: Word, ts: seq<Token>)
    requires s.pointer == t.pointer && s.pointerDefined == t.pointerDefined && SameSymbols(t, r)
    requires forall n, v :: Defined(r, n, v) ==> Defined(s, n, v)
    requires Outcome(Evaluate(Lookup(t, increment), ts)) == Okay
    ensures Evaluate(Lookup(s, increment), ts) == Evaluate(Lookup(t, increment), ts)
  {
    hide Evaluate;
    var e, f := Lookup(t, increment), Lookup(s, increment);
    forall i | 0 <= i < |ts| && ts[i].Value? && e(ts[i].leaf).Found? ensures f(ts[i].leaf) == e(ts[i].leaf) {
      if ts[i].leaf.Label? {
        assert Defined(t, ts[i].leaf.name, e(ts[i].leaf).v);
      }
    }
    OkayIsStable(e, f, ts);
  }

  /** The two passes read alike what the statement's place and length depend on. */
  ghost predicate Agreed(s: State, t: State, stmt: Stmt, pass: nat) {
    if PlacesItself(stmt) then
      var a, b := PlanOf(s, stmt, pass, false), PlanOf(t, stmt, pass + 1, true);
      a == b && b.call.Some? && b.call.value.status == Okay
    else if stmt.Variable? then Eval(s, stmt.operand) == Eval(t, stmt.operand)
    else if stmt.Data? then
      DoItems(s, stmt.unit, stmt.items, 0, [], pass, false).length
      == DoItems(t, stmt.unit, stmt.items, 0, [], pass + 1, true).length
    else SimpleLength(s, stmt, pass, false) == SimpleLength(t, stmt, pass + 1, true)
  }

  /** The body of a line, on both passes. */
  lemma {:induction false} TwinStmt(s: State, t: State, r: State, stmt: Stmt, pass: nat)
    requires Twin(s, t, r, pass) && !PlacesItself(stmt) && Agreed(s, t, stmt, pass)
    requires SizesKept(DoStmt(s, stmt, pass, false), r, pass)
    ensures Twin(DoStmt(s, stmt, pass, false), DoStmt(t, stmt, pass + 1, true), r, pass)
  {
    hide DoStmt, Twin, SizesKept, SimpleLength, DoItems;
    match stmt
    case Variable(kind, ts) => TwinVariable(s, t, r, kind, ts, pass);
    case Data(unit, items) => TwinData(s, t, r, unit, items, pass);
    case _ => TwinSimple(s, t, r, stmt, pass);
  }

  lemma {:induction false} TwinSimple(s: State, t: State, r: State, stmt: Stmt, pass: nat)
    requires Twin(s, t, r, pass) && !PlacesItself(stmt) && !stmt.Variable? && !stmt.Data?
    requires SimpleLength(s, stmt, pass, false) == SimpleLength(t, stmt, pass + 1, true)
    ensures Twin(DoStmt(s, stmt, pass, false), DoStmt(t, stmt, pass + 1, true), r, pass)
  {
    hide DoStmt, SameSymbols, SimpleLength;
    SimpleShape(s, stmt, pass, false);
    SimpleShape(t, stmt, pass + 1, true);
    SameSymbolsOf(t, DoStmt(t, stmt, pass + 1, true), r);
  }

  /** They do when the last pass has no error. */
  lemma {:induction false} StmtAgrees(s: State, t: State, r: State, stmt: Stmt, pass: nat)
    requires Twin(s, t, r, pass) && !PlacesItself(stmt)
    requires forall n, v :: Defined(r, n, v) ==> Defined(s, n, v)
    requires DoStmt(t, stmt, pass + 1, true).errors == 0
    ensures Agreed(s, t, stmt, pass)
  {
    hide Evaluate, Wanted, Straight, Fits, SameSymbols, TakeSize, DoItems, SimpleLength, InStep;
    match stmt
    case Variable(kind, ts) =>
      TakeFrame(Tally(t, Eval(t, ts)), Wanted(kind, Eval(t, ts).value, t.pointer), pass + 1);
      SameOperand(s, t, r, 0, ts);
    case Data(unit, items) =>
      ItemsEffect(t, unit, items, 0, [], pass + 1, true);
      TwinItems(s, t, r, unit, items, 0, [], pass);
    case _ => SimpleAlike(s, t, r, stmt, pass);
  }

  /** The bytes an instruction or a space takes. */
  function SimpleLength(st: State, stmt: Stmt, pass: nat, last: bool): Word
    requires !PlacesItself(stmt) && !stmt.Variable? && !stmt.Data?
  {
    match stmt
    case Instr(_, _, _) => 4
    case Global(ts) => if Failed(Eval(st, ts), pass, last) then 4 else 8
    case Space(ts) => if Failed(Eval(st, ts), pass, last) then 0 else Eval(st, ts).value
    case Blank => 0
  }

  lemma {:induction false} SimpleShape(st: State, stmt: Stmt, pass: nat, last: bool)
    requires !PlacesItself(stmt) && !stmt.Variable? && !stmt.Data?
    ensures var out, size := DoStmt(st, stmt, pass, last), SimpleLength(st, stmt, pass, last);
      && out.pointer == Wrap(st.pointer + size) && out.pointerDefined == st.pointerDefined && out.symbols == st.symbols
      && out.sizes == st.sizes && out.cursor == st.cursor
      && exists v :: out.listing == st.listing + [Entry(st.pointer, size, v, [])]
  {
    hide Eval, Fits, Failed, Rejected;
    var out, size := DoStmt(st, stmt, pass, last), SimpleLength(st, stmt, pass, last);
    assert out.listing == st.listing + [Entry(st.pointer, size, out.listing[|st.listing|].value, [])];
  }

  lemma {:induction false} SimpleAlike(s: State, t: State, r: State, stmt: Stmt, pass: nat)
    requires s.pointer == t.pointer && s.pointerDefined == t.pointerDefined && SameSymbols(t, r)
    requires !PlacesItself(stmt) && !stmt.Variable? && !stmt.Data?
    requires forall n, v :: Defined(r, n, v) ==> Defined(s, n, v)
    requires DoStmt(t, stmt, pass + 1, true).errors == 0
    ensures SimpleLength(s, stmt, pass, false) == SimpleLength(t, stmt, pass + 1, true)
  {
    hide Evaluate, Fits, SameSymbols;
    if stmt.Global? || stmt.Space? { SameOperand(s, t, r, 0, stmt.operand); }
  }

  lemma {:induction false} SameSymbolsOf(t: State, t': State, r: State)
    requires SameSymbols(t, r) && t'.symbols == t.symbols
    ensures SameSymbols(t', r)
  {
    assert forall n, v :: Defined(t', n, v) <==> Defined(t, n, v);
  }

  lemma {:induction false} TwinVariable(s: State, t: State, r: State, kind: Pseudo, ts: seq<Token>, pass: nat)
    requires Twin(s, t, r, pass) && Eval(s, ts) == Eval(t, ts)
    requires SizesKept(DoStmt(s, Variable(kind, ts), pass, false), r, pass)
    ensures Twin(DoStmt(s, Variable(kind, ts), pass, false), DoStmt(t, Variable(kind, ts), pass + 1, true), r, pass)
  {
    hide Eval, Wanted, Straight, Allot, SameSymbols, TakeSize, SizesKept;
    var x := Eval(t, ts);
    var wanted := Wanted(kind, x.value, t.pointer);
    TakeFrame(Tally(t, x), wanted, pass + 1);
    var s1 := TakeSize(Tally(s, x), wanted, pass).0;
    TakeFrame(Tally(s, x), wanted, pass);
    KeptTo(s1, DoStmt(s, Variable(kind, ts), pass, false), r, pass);
    TwinRecord(Tally(s, x), Tally(t, x), r, wanted, pass);
    SameSymbolsOf(t, DoStmt(t, Variable(kind, ts), pass + 1, true), r);
  }

  lemma {:induction false} KeptTo(a: State, b: State, r: State, pass: nat)
    requires a.sizes == b.sizes && a.cursor == b.cursor
    ensures SizesKept(a, r, pass) <==> SizesKept(b, r, pass)
  {
  }

  lemma {:induction false} TakeFrame(st: State, wanted: nat, pass: nat)
    ensures var out := TakeSize(st, wanted, pass).0; out == st.(sizes := out.sizes, cursor := out.cursor)
  {
    hide Allot;
  }

  /** Both passes allot the same. */
  lemma {:induction false} TwinRecord(s: State, t: State, r: State, wanted: nat, pass: nat)
    requires InStep(s, t, r, pass) && SizesKept(TakeSize(s, wanted, pass).0, r, pass)
    ensures InStep(TakeSize(s, wanted, pass).0, TakeSize(t, wanted, pass + 1).0, r, pass)
    ensures TakeSize(s, wanted, pass).1 == TakeSize(t, wanted, pass + 1).1
  {
    hide Allot;
    var s' := TakeSize(s, wanted, pass).0;
    var c := t.cursor;
    if c < |r.sizes| {
      if pass > 0 { AllotAgain(s.sizes[c], wanted, pass); } else { AllotFirst(wanted, pass + 1); }
      assert r.sizes[c] == s'.sizes[c];
    }
  }

  lemma {:induction false} AllotFirst(wanted: nat, pass: nat)
    ensures Allot(wanted, wanted, pass) == wanted
  {
  }

  lemma {:induction false} TwinData(s: State, t: State, r: State, unit: nat, items: seq<seq<Token>>, pass: nat)
    requires Twin(s, t, r, pass)
    requires DoItems(s, unit, items, 0, [], pass, false).length == DoItems(t, unit, items, 0, [], pass + 1, true).length
    ensures Twin(DoStmt(s, Data(unit, items), pass, false), DoStmt(t, Data(unit, items), pass + 1, true), r, pass)
  {
    hide Evaluate, SameSymbols, DoItems;
    ItemsEffect(s, unit, items, 0, [], pass, false);
    ItemsEffect(t, unit, items, 0, [], pass + 1, true);
    SameSymbolsOf(t, DoStmt(t, Data(unit, items), pass + 1, true), r);
  }

  lemma {:induction false} TwinItems(s: State, t: State, r: State, unit: nat, items: seq<seq<Token>>, length: Word,
                     values: seq<Word>, pass: nat)
    requires s.pointer == t.pointer && s.pointerDefined == t.pointerDefined && SameSymbols(t, r)
    requires forall n, v :: Defined(r, n, v) ==> Defined(s, n, v)
    requires !DoItems(t, unit, items, length, values, pass + 1, true).bad
    ensures var a, b := DoItems(s, unit, items, length, values, pass, false),
            DoItems(t, unit, items, length, values, pass + 1, true);
      !a.bad && a.length == b.length && a.values == b.values
    decreases items
  {
    hide Evaluate, SameSymbols;
    if items != [] {
      SameOperand(s, t, r, length, items[0]);
      var x := Evaluate(Lookup(t, length), items[0]);
      SameSymbolsOf(t, Tally(t, x), r);
      assert forall n, v :: Defined(Tally(s, x), n, v) <==> Defined(s, n, v);
      TwinItems(Tally(s, x), Tally(t, x), r, unit, items[1..], Wrap(length + unit), values + [x.value], pass);
    }
  }

  /** EQU, ORG and ALIGN plan the same on both passes. */
  lemma {:induction false} TwinPlan(s: State, t: State, r: State, name: Option<string>, stmt: Stmt, pass: nat)
    requires Twin(s, t, r, pass) && PlacesItself(stmt)
    requires forall n, v :: Defined(r, n, v) ==> Defined(s, n, v)
    requires DoPlacing(s, name, stmt, pass, false).errors == 0 && DoPlacing(t, name, stmt, pass + 1, true).errors == 0
    ensures PlanOf(s, stmt, pass, false) == PlanOf(t, stmt, pass + 1, true)
    ensures PlanOf(t, stmt, pass + 1, true).call.Some? && PlanOf(t, stmt, pass + 1, true).call.value.status == Okay
  {
    hide Evaluate, Eval, SameSymbols, DoPlacing, PlanOf;
    PlacingEffect(s, name, stmt, pass, false);
    PlacingEffect(t, name, stmt, pass + 1, true);
    if stmt.Align? && Outcome(Eval(t, stmt.operand)) == NoOperand {
      TwinAlign(s, t, stmt, pass);
    } else {
      PlanOkay(t, name, stmt, pass + 1);
      assert Eval(s, stmt.operand) == Eval(t, stmt.operand) by {
        EvalIs(s, stmt.operand);
        EvalIs(t, stmt.operand);
        SameOperand(s, t, r, 0, stmt.operand);
      }
      SamePlan(s, t, stmt, pass);
    }
  }

  lemma {:induction false} EvalIs(st: State, ts: seq<Token>)
    ensures Eval(st, ts) == Evaluate(Lookup(st, 0), ts)
  {
  }

  /** Equal readings make equal plans. */
  lemma {:induction false} SamePlan(s: State, t: State, stmt: Stmt, pass: nat)
    requires PlacesItself(stmt) && s.pointer == t.pointer && s.pointerDefined == t.pointerDefined
    requires Eval(s, stmt.operand) == Eval(t, stmt.operand) && Outcome(Eval(t, stmt.operand)) == Okay
    ensures PlanOf(s, stmt, pass, false) == PlanOf(t, stmt, pass + 1, true)
    ensures PlanOf(t, stmt, pass + 1, true).call.Some? && PlanOf(t, stmt, pass + 1, true).call.value.status == Okay
  {
    hide Eval, Skip;
  }

  /** ALIGN without an operand, unless dividing by zero got in the way. */
  lemma {:induction false} TwinAlign(s: State, t: State, stmt: Stmt, pass: nat)
    requires stmt.Align? && s.pointer == t.pointer && s.pointerDefined == t.pointerDefined
    requires Outcome(Eval(t, stmt.operand)) == NoOperand && CallOf(s, stmt, pass, false).Some?
    ensures PlanOf(s, stmt, pass, false) == PlanOf(t, stmt, pass + 1, true)
    ensures PlanOf(t, stmt, pass + 1, true).call.Some? && PlanOf(t, stmt, pass + 1, true).call.value.status == Okay
  {
    hide Eval, Skip;
    EvalAlike(s, t, stmt.operand);
  }

  lemma {:induction false} EvalAlike(s: State, t: State, ts: seq<Token>)
    requires Outcome(Eval(t, ts)) == NoOperand
    ensures Outcome(Eval(s, ts)) == NoOperand || Outcome(Eval(s, ts)) == DivByZero
  {
    hide NeedOperand;
    NoFatalFirst(Lookup(t, 0), ts);
    NeedAlike(Lookup(s, 0), Lookup(t, 0), ts, 0, 1, 0, [], [], Start, Start);
  }

  /** On the last pass a planned operand that raises no error was read without any. */
  lemma {:induction false} PlanOkay(t: State, name: Option<string>, stmt: Stmt, pass: nat)
    requires PlacesItself(stmt) && pass > 0 && DoPlacing(t, name, stmt, pass, true).errors == 0
    requires !(stmt.Align? && Outcome(Eval(t, stmt.operand)) == NoOperand)
    ensures Outcome(Eval(t, stmt.operand)) == Okay
  {
    hide Evaluate, Skip;
    PlacingEffect(t, name, stmt, pass, true);
  }

  /** The same plan carried out on both passes, without an error left by its label call. */
  lemma {:induction false} TwinPlacing(s: State, t: State, r: State, name: Option<string>, stmt: Stmt, pass: nat)
    requires Twin(s, t, r, pass) && PlacesItself(stmt) && Agreed(s, t, stmt, pass)
    requires name.Some? && name.value in t.symbols ==> name.value in s.symbols
    requires DoPlacing(s, name, stmt, pass, false).errors == 0 && Leads(DoPlacing(s, name, stmt, pass, false), r, pass)
    requires var c := PlanOf(t, stmt, pass + 1, true).call.value;
             !RedefineIn(t, name, c.value, c.valueDefined, c.status, pass + 1, true).1
    ensures Twin(DoPlacing(s, name, stmt, pass, false), DoPlacing(t, name, stmt, pass + 1, true), r, pass)
  {
    hide Evaluate, Eval, PlanOf, RedefineIn, SameSymbols;
    PlacingEffect(s, name, stmt, pass, false);
    PlacingEffect(t, name, stmt, pass + 1, true);
    PlacingSizes(s, name, stmt, pass, false);
    PlacingSizes(t, name, stmt, pass + 1, true);
    var s', t' := DoPlacing(s, name, stmt, pass, false), DoPlacing(t, name, stmt, pass + 1, true);
    var c := PlanOf(t, stmt, pass + 1, true).call.value;
    var l := RedefineIn(s, name, c.value, c.valueDefined, Okay, pass, false).0;
    assert forall n, v :: Defined(s', n, v) <==> Defined(l, n, v);
    TwinLabel(s, t, r, name, c.value, c.valueDefined, pass);
    SameSymbolsOf(RedefineIn(t, name, c.value, c.valueDefined, Okay, pass + 1, true).0, t', r);
    PlacingShape(s, name, stmt, pass, false);
    PlacingShape(t, name, stmt, pass + 1, true);
  }

  lemma {:induction false} PlacingShape(st: State, name: Option<string>, stmt: Stmt, pass: nat, last: bool)
    requires PlacesItself(stmt) && PlanOf(st, stmt, pass, last).call.Some?
    ensures var out, plan := DoPlacing(st, name, stmt, pass, last), PlanOf(st, stmt, pass, last);
      && out.pointer == Wrap(plan.pointer + plan.skip) && out.pointerDefined == plan.pointerDefined
      && out.listing == st.listing + [Entry(plan.pointer, plan.skip, Eval(st, stmt.operand).value, [])]
  {
    hide Evaluate, Eval, PlanOf, Redefine;
  }

  /** What a line's label call and its statement need on both passes. */
  ghost predicate InAgreement(s: State, t: State, name: Option<string>, stmt: Stmt, pass: nat) {
    if PlacesItself(stmt) then
      Agreed(s, t, stmt, pass) &&
      var c := PlanOf(t, stmt, pass + 1, true).call.value;
      !RedefineIn(t, name, c.value, c.valueDefined, c.status, pass + 1, true).1
    else
      var (s1, bad) := RedefineIn(s, name, s.pointer, s.pointerDefined, Okay, pass, false);
      var (t1, bad') := RedefineIn(t, name, t.pointer, t.pointerDefined, Okay, pass + 1, true);
      !bad && !bad' && Agreed(s1, t1, stmt, pass)
  }

  /** A whole line, on both passes. */
  lemma {:induction false} TwinLine(s: State, t: State, r: State, line: Line, pass: nat)
    requires Twin(s, t, r, pass) && (pass > 0 ==> s.symbols.Keys == r.symbols.Keys)
    requires DoLine(s, line, pass, false).errors == 0
             && InAgreement(Enter(s, line.name, pass), t, line.name, line.stmt, pass)
    requires (forall n, v :: Defined(r, n, v) ==> Defined(s, n, v)) && Leads(DoLine(s, line, pass, false), r, pass)
    ensures Twin(DoLine(s, line, pass, false), DoLine(t, line, pass + 1, true), r, pass)
  {
    hide DoLine, DoPlacing, DoStmt, RedefineIn, Agreed;
    var s0 := Enter(s, line.name, pass);
    assert forall n, v :: Defined(s0, n, v) <==> Defined(s, n, v);
    LineForm(s, line, pass, false);
    LineForm(t, line, pass + 1, true);
    if PlacesItself(line.stmt) {
      TwinPlacing(s0, t, r, line.name, line.stmt, pass);
    } else {
      TwinPlain(s0, t, r, line.name, line.stmt, pass);
    }
  }

  /** The two ways through a line whose label call leaves no error. */
  lemma {:induction false} LineForm(st: State, line: Line, pass: nat, last: bool)
    ensures var s0 := Enter(st, line.name, pass);
      if PlacesItself(line.stmt) then DoLine(st, line, pass, last) == DoPlacing(s0, line.name, line.stmt, pass, last)
      else
        var (s1, bad) := RedefineIn(s0, line.name, s0.pointer, s0.pointerDefined, Okay, pass, last);
        && (DoLine(st, line, pass, last).errors == 0 ==> !bad)
        && (!bad ==> DoLine(st, line, pass, last) == DoStmt(s1, line.stmt, pass, last))
  {
    hide DoPlacing, DoStmt, RedefineIn;
    LineEffect(st, line, pass, last);
  }

  lemma {:induction false} TwinPlain(s: State, t: State, r: State, name: Option<string>, stmt: Stmt, pass: nat)
    requires Twin(s, t, r, pass) && !PlacesItself(stmt) && InAgreement(s, t, name, stmt, pass)
    requires name.Some? && name.value in t.symbols ==> name.value in s.symbols
    requires var s1 := RedefineIn(s, name, s.pointer, s.pointerDefined, Okay, pass, false).0;
             Leads(DoStmt(s1, stmt, pass, false), r, pass)
    ensures var s1 := RedefineIn(s, name, s.pointer, s.pointerDefined, Okay, pass, false).0;
            var t1 := RedefineIn(t, name, t.pointer, t.pointerDefined, Okay, pass + 1, true).0;
            && Twin(s1, t1, r, pass) && (forall n, v :: Defined(r, n, v) ==> Defined(s1, n, v))
            && Twin(DoStmt(s1, stmt, pass, false), DoStmt(t1, stmt, pass + 1, true), r, pass)
  {
    hide DoStmt, RedefineIn, SameSymbols, Agreed;
    TwinCalled(s, t, r, name, stmt, pass);
    TwinStmt(RedefineIn(s, name, s.pointer, s.pointerDefined, Okay, pass, false).0,
             RedefineIn(t, name, t.pointer, t.pointerDefined, Okay, pass + 1, true).0, r, stmt, pass);
  }

  /** After the label call of a line that stands for itself. */
  lemma {:induction false} TwinCalled(s: State, t: State, r: State, name: Option<string>, stmt: Stmt, pass: nat)
    requires Twin(s, t, r, pass) && !PlacesItself(stmt)
    requires name.Some? && name.value in t.symbols ==> name.value in s.symbols
    requires var (s1, bad) := RedefineIn(s, name, s.pointer, s.pointerDefined, Okay, pass, false);
             !bad && Leads(DoStmt(s1, stmt, pass, false), r, pass)
    requires !RedefineIn(t, name, t.pointer, t.pointerDefined, Okay, pass + 1, true).1
    ensures var s1 := RedefineIn(s, name, s.pointer, s.pointerDefined, Okay, pass, false).0;
            var t1 := RedefineIn(t, name, t.pointer, t.pointerDefined, Okay, pass + 1, true).0;
            Twin(s1, t1, r, pass) && forall n, v :: Defined(r, n, v) ==> Defined(s1, n, v)
  {
    hide DoStmt, RedefineIn, SameSymbols;
    var s1 := RedefineIn(s, name, s.pointer, s.pointerDefined, Okay, pass, false).0;
    RedefineFrame(s, s, name, s.pointer, s.pointerDefined, Okay, pass, false);
    RedefineFrame(t, t, name, t.pointer, t.pointerDefined, Okay, pass + 1, true);
    StmtEffect(s1, stmt, pass, false);
    var s' := DoStmt(s1, stmt, pass, false);
    assert forall n, v :: Defined(s', n, v) <==> Defined(s1, n, v);
    TwinLabel(s, t, r, name, s.pointer, s.pointerDefined, pass);
  }

  /** The two passes agree on a line that has no error on either. */
  lemma {:induction false} LineAgrees(s: State, t: State, r: State, line: Line, pass: nat)
    requires Ready(s, t, r, line, pass)
    ensures InAgreement(Enter(s, line.name, pass), t, line.name, line.stmt, pass)
  {
    hide DoLine, DoPlacing, DoStmt, RedefineIn, Agreed, PlanOf;
    var s0 := Enter(s, line.name, pass);
    assert forall n, v :: Defined(s0, n, v) <==> Defined(s, n, v);
    LineForm(s, line, pass, false);
    LineForm(t, line, pass + 1, true);
    if PlacesItself(line.stmt) {
      TwinPlan(s0, t, r, line.name, line.stmt, pass);
      PlanAgrees(s0, t, line.stmt, pass);
      PlacingEffect(t, line.name, line.stmt, pass + 1, true);
      CallIs(t, line.stmt, pass + 1, true);
    } else {
      TwinCalled(s0, t, r, line.name, line.stmt, pass);
      StmtAgrees(RedefineIn(s0, line.name, s0.pointer, s0.pointerDefined, Okay, pass, false).0,
                 RedefineIn(t, line.name, t.pointer, t.pointerDefined, Okay, pass + 1, true).0, r, line.stmt, pass);
    }
  }

  lemma {:induction false} PlanAgrees(s: State, t: State, stmt: Stmt, pass: nat)
    requires PlacesItself(stmt) && PlanOf(s, stmt, pass, false) == PlanOf(t, stmt, pass + 1, true)
    requires PlanOf(t, stmt, pass + 1, true).call.Some? && PlanOf(t, stmt, pass + 1, true).call.value.status == Okay
    ensures Agreed(s, t, stmt, pass)
  {
    hide PlanOf;
  }

  lemma {:induction false} CallIs(st: State, stmt: Stmt, pass: nat, last: bool)
    requires PlacesItself(stmt)
    ensures CallOf(st, stmt, pass, last) == PlanOf(st, stmt, pass, last).call
  {
    hide PlanOf;
  }

  /** From the same line on, the pass after a quiet one lays out the same. */
  lemma {:induction false} TwinRun(prog: seq<Line>, i: nat, s: State, t: State, r: State, pass: nat)
    requires i <= |prog| && Run(prog, i, s, pass, false) == r && Quiet(r) && Twin(s, t, r, pass)
    requires Run(prog, i, t, pass + 1, true).errors == 0
    ensures Twin(r, Run(prog, i, t, pass + 1, true), r, pass)
    decreases |prog| - i
  {
    hide DoLine, Twin, Leads, SizesKept;
    if i < |prog| {
      TwinStep(prog, i, s, t, r, pass);
      TwinRun(prog, i + 1, DoLine(s, prog[i], pass, false), DoLine(t, prog[i], pass + 1, true), r, pass);
    }
  }

  lemma {:induction false} TwinStep(prog: seq<Line>, i: nat, s: State, t: State, r: State, pass: nat)
    requires i < |prog| && Run(prog, i, s, pass, false) == r && Quiet(r) && Twin(s, t, r, pass)
    requires Run(prog, i, t, pass + 1, true).errors == 0
    ensures Ready(s, t, r, prog[i], pass)
    ensures Twin(DoLine(s, prog[i], pass, false), DoLine(t, prog[i], pass + 1, true), r, pass)
  {
    hide DoLine;
    var s', t' := DoLine(s, prog[i], pass, false), DoLine(t, prog[i], pass + 1, true);
    QuietRun(prog, i, s, pass, false);
    QuietRun(prog, i + 1, s', pass, false);
    QuietRun(prog, i + 1, t', pass + 1, true);
    LineSizes(s, prog[i], pass, false);
    RunSizes(prog, i + 1, s', pass, false);
    LineAgrees(s, t, r, prog[i], pass);
    TwinLine(s, t, r, prog[i], pass);
  }

  /** What TwinLine asks of two states in front of one line. */
  ghost predicate Ready(s: State, t: State, r: State, line: Line, pass: nat) {
    && Twin(s, t, r, pass) && (pass > 0 ==> s.symbols.Keys == r.symbols.Keys)
    && DoLine(s, line, pass, false).errors == 0 && DoLine(t, line, pass + 1, true).errors == 0
    && (forall n, v :: Defined(r, n, v) ==> Defined(s, n, v)) && Leads(DoLine(s, line, pass, false), r, pass)
  }

  /** A quiet pass fixes the layout: an error-free last pass after it puts every line at the same address with the
      same size and leaves every symbol the same value, even if the quiet pass itself changed size records. */
  lemma {:induction false} StablePassFixesLayout(prog: seq<Line>, st: State, pass: nat)
    requires pass == 0 ==> st.sizes == []
    requires Quiet(Pass(prog, st, pass, false))
    requires Pass(prog, Pass(prog, st, pass, false), pass + 1, true).errors == 0
    ensures var stable := Pass(prog, st, pass, false);
      var final := Pass(prog, stable, pass + 1, true);
      SameShape(stable.listing, final.listing) && SameSymbols(final, stable) && final.pointer == stable.pointer
  {
    hide DoLine, Run;
    var r := Pass(prog, st, pass, false);
    TwinRun(prog, 0, Begin(st), Begin(r), r, pass);
  }

  // ---------------------------------------------------------------- the last pass when it has errors

  /** A pass state in which nothing was undefined or divided by zero either. */
  ghost predicate Clean(st: State) {
    Quiet(st) && st.undefinedCount == 0 && !st.divZero
  }

  lemma {:induction false} ItemsCount(st: State, unit: nat, items: seq<seq<Token>>, length: Word, values: seq<Word>,
                     pass: nat, last: bool)
    ensures var out := DoItems(st, unit, items, length, values, pass, last).st;
      out.undefinedCount >= st.undefinedCount && (st.divZero ==> out.divZero)
    decreases items
  {
    hide Evaluate;
    if items != [] {
      var r := Evaluate(Lookup(st, length), items[0]);
      if !Failed(r, pass, last) {
        ItemsCount(Tally(st, r), unit, items[1..], Wrap(length + unit), values + [r.value], pass, last);
      }
    }
  }

  /** The two counters only go up. */
  lemma {:induction false} LineCounts(st: State, line: Line, pass: nat, last: bool)
    ensures var out := DoLine(st, line, pass, last);
      out.undefinedCount >= st.undefinedCount && (st.divZero ==> out.divZero)
  {
    hide DoStmt, DoPlacing, RedefineIn;
    var s0 := Enter(st, line.name, pass);
    if PlacesItself(line.stmt) {
      PlacingCounts(s0, line.name, line.stmt, pass, last);
    } else {
      RedefineFrame(s0, s0, line.name, s0.pointer, s0.pointerDefined, Okay, pass, last);
      StmtCounts(RedefineIn(s0, line.name, s0.pointer, s0.pointerDefined, Okay, pass, last).0, line.stmt, pass, last);
    }
  }

  lemma {:induction false} PlacingCounts(st: State, name: Option<string>, stmt: Stmt, pass: nat, last: bool)
    requires PlacesItself(stmt)
    ensures var out, r := DoPlacing(st, name, stmt, pass, last), Eval(st, stmt.operand);
      out.undefinedCount == st.undefinedCount + r.log.misses && (out.divZero <==> st.divZero || r.log.divZero)
  {
    hide Eval, PlanOf, Redefine;
  }

  lemma {:induction false} StmtCounts(st: State, stmt: Stmt, pass: nat, last: bool)
    requires !PlacesItself(stmt)
    ensures var out := DoStmt(st, stmt, pass, last);
      out.undefinedCount >= st.undefinedCount && (st.divZero ==> out.divZero)
  {
    hide Evaluate, Wanted, Straight, Fits, Allot, DoItems;
    if stmt.Data? { ItemsCount(st, stmt.unit, stmt.items, 0, [], pass, last); }
  }

  /** What a clean pass reads without an error that stays, it reads without any. */
  lemma {:induction false} CleanRead(st: State, increment: Word, ts: seq<Token>, pass: nat)
    requires pass > 0 && st.pointerDefined
    requires var r := Evaluate(Lookup(st, increment), ts); r.log.misses == 0 && !r.log.divZero
    ensures var s := Outcome(Evaluate(Lookup(st, increment), ts)); s == Okay || !Allowed(s, false, false)
  {
    hide Evaluate;
    NothingCounted(Lookup(st, increment), ts);
  }

  /** One line of a clean pass after the first: every definition stays as it is. */
  lemma {:induction false} CleanLine(st: State, line: Line, pass: nat)
    requires pass > 0 && st.pointerDefined && Clean(DoLine(st, line, pass, false))
    ensures var out := DoLine(st, line, pass, false); out.pointerDefined && Clean(st) && SameSymbols(st, out)
  {
    hide DoLine, DoStmt, DoPlacing, RedefineIn;
    var out := DoLine(st, line, pass, false);
    QuietLine(st, line, pass, false);
    LineCounts(st, line, pass, false);
    LineForm(st, line, pass, false);
    LineEffect(st, line, pass, false);
    if PlacesItself(line.stmt) {
      CleanPlacing(st, line.name, line.stmt, pass);
      var c := PlanOf(st, line.stmt, pass, false).call.value;
      CallIs(st, line.stmt, pass, false);
      CleanCall(st, out, line.name, c, pass);
    } else {
      StmtKeepsPointer(RedefineIn(st, line.name, st.pointer, true, Okay, pass, false).0, line.stmt, pass, false);
      RedefineFrame(st, st, line.name, st.pointer, true, Okay, pass, false);
      PlainCall(st, line.stmt, pass, false);
      CleanCall(st, out, line.name, LabelCall(st.pointer, true, Okay), pass);
    }
  }

  /** A genuine value that is no new one. */
  lemma {:induction false} CleanCall(st: State, out: State, name: Option<string>, c: LabelCall, pass: nat)
    requires pass > 0 && c.valueDefined && c.status == Okay && Quiet(st) && Quiet(out)
    requires var (l, bad) := RedefineIn(st, name, c.value, true, Okay, pass, false);
             && !bad && out.symbols == l.symbols
             && out.definedCount == l.definedCount && out.redefinedCount == l.redefinedCount
    ensures SameSymbols(st, out)
  {
  }

  lemma {:induction false} CleanPlacing(st: State, name: Option<string>, stmt: Stmt, pass: nat)
    requires PlacesItself(stmt) && pass > 0 && st.pointerDefined && Clean(DoPlacing(st, name, stmt, pass, false))
    ensures DoPlacing(st, name, stmt, pass, false).pointerDefined && Okay == PlaceStatus(st, stmt)
    ensures var plan := PlanOf(st, stmt, pass, false);
      plan.call.Some? && plan.call.value.valueDefined && plan.call.value.status == Okay
  {
    hide Evaluate, Skip, RedefineIn, DoPlacing;
    PlacingCounts(st, name, stmt, pass, false);
    PlacingEffect(st, name, stmt, pass, false);
    EvalIs(st, stmt.operand);
    CleanRead(st, 0, stmt.operand, pass);
    PlacingShapeOrNot(st, name, stmt, pass);
    CallIs(st, stmt, pass, false);
    var call := PlanOf(st, stmt, pass, false).call;
    if call.Some? && call.value.status != Okay { RedefineBad(st, name, call.value, pass); }
  }

  /** An error that is not tolerated stays. */
  lemma {:induction false} RedefineBad(st: State, name: Option<string>, c: LabelCall, pass: nat)
    requires pass > 0 && c.status != Okay && !Allowed(c.status, false, false)
    ensures RedefineIn(st, name, c.value, c.valueDefined, c.status, pass, false).1
  {
  }

  /** The outcome of the operand, but that ALIGN may have none. */
  function PlaceStatus(st: State, stmt: Stmt): Status
    requires PlacesItself(stmt)
  {
    var s := Outcome(Eval(st, stmt.operand));
    if stmt.Align? && s == NoOperand then Okay else s
  }

  lemma {:induction false} PlacingShapeOrNot(st: State, name: Option<string>, stmt: Stmt, pass: nat)
    requires PlacesItself(stmt)
    ensures PlanOf(st, stmt, pass, false).call.Some? ==>
              DoPlacing(st, name, stmt, pass, false).pointerDefined == PlanOf(st, stmt, pass, false).pointerDefined
  {
    hide PlanOf;
    if PlanOf(st, stmt, pass, false).call.Some? { PlacingShape(st, name, stmt, pass, false); }
  }

  lemma {:induction false} ReadsAlike(s: State, t: State, r: State, increment: Word, ts: seq<Token>)
    requires s.pointer == t.pointer && s.pointerDefined == t.pointerDefined && SameSymbols(s, r) && SameSymbols(t, r)
    ensures Evaluate(Lookup(s, increment), ts) == Evaluate(Lookup(t, increment), ts)
  {
    hide Evaluate, SameSymbols;
    var e, f := Lookup(s, increment), Lookup(t, increment);
    forall i | 0 <= i < |ts| && ts[i].Value? ensures e(ts[i].leaf) == f(ts[i].leaf) {
      if ts[i].leaf.Label? {
        SameReading(s, r, ts[i].leaf.name);
        SameReading(t, r, ts[i].leaf.name);
      }
    }
    SameEvaluation(e, f, ts);
  }

  lemma {:induction false} CleanItems(s: State, t: State, r: State, unit: nat, items: seq<seq<Token>>, length: Word,
                     values: seq<Word>, pass: nat)
    requires pass > 0 && s.pointer == t.pointer && s.pointerDefined && t.pointerDefined
    requires SameSymbols(s, r) && SameSymbols(t, r)
    requires var d := DoItems(s, unit, items, length, values, pass, false);
             !d.bad && d.st.undefinedCount == 0 && !d.st.divZero
    ensures DoItems(s, unit, items, length, values, pass, false).length
            == DoItems(t, unit, items, length, values, pass + 1, true).length
    ensures !DoItems(t, unit, items, length, values, pass + 1, true).bad
    decreases items
  {
    hide Evaluate, SameSymbols;
    if items != [] {
      ReadsAlike(s, t, r, length, items[0]);
      var x := Evaluate(Lookup(s, length), items[0]);
      ItemsCount(Tally(s, x), unit, items[1..], Wrap(length + unit), values + [x.value], pass, false);
      CleanRead(s, length, items[0], pass);
      SameSymbolsOf(s, Tally(s, x), r);
      SameSymbolsOf(t, Tally(t, x), r);
      CleanItems(Tally(s, x), Tally(t, x), r, unit, items[1..], Wrap(length + unit), values + [x.value], pass);
    }
  }

  /** On a statement of a clean pass the two passes agree, whatever errors the second one has. */
  lemma {:induction false} CleanStmtAgrees(s: State, t: State, r: State, stmt: Stmt, pass: nat)
    requires pass > 0 && !PlacesItself(stmt) && s.pointer == t.pointer && s.pointerDefined && t.pointerDefined
    requires SameSymbols(s, r) && SameSymbols(t, r) && Clean(DoStmt(s, stmt, pass, false))
    ensures Agreed(s, t, stmt, pass)
  {
    hide Evaluate, Wanted, Straight, Fits, SameSymbols, Allot, DoItems;
    match stmt
    case Variable(_, ts) => ReadsAlike(s, t, r, 0, ts);
    case Data(unit, items) =>
      ItemsEffect(s, unit, items, 0, [], pass, false);
      CleanItems(s, t, r, unit, items, 0, [], pass);
    case Global(ts) =>
      ReadsAlike(s, t, r, 0, ts);
      CleanRead(s, 0, ts, pass);
    case Space(ts) =>
      ReadsAlike(s, t, r, 0, ts);
      CleanRead(s, 0, ts, pass);
    case _ =>
  }

  lemma {:induction false} CleanPlanAgrees(s: State, t: State, r: State, name: Option<string>, stmt: Stmt, pass: nat)
    requires PlacesItself(stmt) && pass > 0 && s.pointer == t.pointer && s.pointerDefined && t.pointerDefined
    requires SameSymbols(s, r) && SameSymbols(t, r) && Clean(DoPlacing(s, name, stmt, pass, false))
    ensures Agreed(s, t, stmt, pass)
  {
    hide Evaluate, SameSymbols, Skip, DoPlacing;
    CleanPlacing(s, name, stmt, pass);
    ReadsAlike(s, t, r, 0, stmt.operand);
  }

  /** A label that names the same on both passes leaves no error on the second. */
  lemma {:induction false} NotBad(s: State, t: State, r: State, name: Option<string>, value: Word, pass: nat)
    requires SameSymbols(t, r) && (name.Some? && name.value in t.symbols ==> name.value in s.symbols)
    requires var s' := RedefineIn(s, name, value, true, Okay, pass, false).0;
             forall n, v :: Defined(r, n, v) ==> Defined(s', n, v)
    ensures !RedefineIn(t, name, value, true, Okay, pass + 1, true).1
  {
    if name.Some? && name.value in t.symbols && t.symbols[name.value].defined {
      var x := name.value;
      assert Defined(t, x, t.symbols[x].value);
      assert Defined(RedefineIn(s, name, value, true, Okay, pass, false).0, x, t.symbols[x].value);
    }
  }

  lemma {:induction false} CleanAgrees(s: State, t: State, r: State, line: Line, pass: nat)
    requires pass > 0 && Twin(s, t, r, pass) && s.pointerDefined && Clean(DoLine(s, line, pass, false))
    requires SameSymbols(s, r) && SameSymbols(DoLine(s, line, pass, false), r)
             && Leads(DoLine(s, line, pass, false), r, pass)
    ensures InAgreement(s, t, line.name, line.stmt, pass)
  {
    hide DoLine, DoPlacing, DoStmt, RedefineIn, Agreed, PlanOf;
    var out := DoLine(s, line, pass, false);
    LineForm(s, line, pass, false);
    if PlacesItself(line.stmt) {
      CleanPlacing(s, line.name, line.stmt, pass);
      CleanPlanAgrees(s, t, r, line.name, line.stmt, pass);
      PlansOf(s, t, line.stmt, pass);
      var c := PlanOf(s, line.stmt, pass, false).call.value;
      PlacingEffect(s, line.name, line.stmt, pass, false);
      CallIs(s, line.stmt, pass, false);
      var l := RedefineIn(s, line.name, c.value, true, Okay, pass, false).0;
      assert forall n, v :: Defined(out, n, v) <==> Defined(l, n, v);
      NotBad(s, t, r, line.name, c.value, pass);
    } else {
      var s1 := RedefineIn(s, line.name, s.pointer, true, Okay, pass, false).0;
      StmtEffect(s1, line.stmt, pass, false);
      assert forall n, v :: Defined(out, n, v) <==> Defined(s1, n, v);
      NotBad(s, t, r, line.name, s.pointer, pass);
      RedefineFrame(s, s, line.name, s.pointer, true, Okay, pass, false);
      RedefineFrame(t, t, line.name, s.pointer, true, Okay, pass + 1, true);
      TwinLabel(s, t, r, line.name, s.pointer, true, pass);
      SameSymbolsOf(out, s1, r);
      CleanStmtAgrees(s1, RedefineIn(t, line.name, s.pointer, true, Okay, pass + 1, true).0, r, line.stmt, pass);
    }
  }

  lemma {:induction false} PlansOf(s: State, t: State, stmt: Stmt, pass: nat)
    requires PlacesItself(stmt) && Agreed(s, t, stmt, pass)
    ensures var a, b := PlanOf(s, stmt, pass, false), PlanOf(t, stmt, pass + 1, true);
      a == b && b.call.Some? && b.call.value.status == Okay
  {
    hide PlanOf;
  }

  lemma {:induction false} CleanRun(prog: seq<Line>, i: nat, s: State, pass: nat)
    requires i <= |prog| && Clean(Run(prog, i, s, pass, false))
    ensures Clean(s)
    ensures pass > 0 && s.pointerDefined ==> SameSymbols(s, Run(prog, i, s, pass, false))
    decreases |prog| - i
  {
    hide DoLine;
    if i < |prog| {
      var next := DoLine(s, prog[i], pass, false);
      CleanRun(prog, i + 1, next, pass);
      QuietRun(prog, i, s, pass, false);
      LineCounts(s, prog[i], pass, false);
      if pass > 0 && s.pointerDefined { CleanLine(s, prog[i], pass); }
    }
  }

  lemma {:induction false} CleanStep(prog: seq<Line>, i: nat, s: State, t: State, r: State, pass: nat)
    requires i < |prog| && pass > 0 && Run(prog, i, s, pass, false) == r && Clean(r) && Twin(s, t, r, pass)
             && s.pointerDefined
    ensures var next := DoLine(s, prog[i], pass, false);
      next.pointerDefined && Twin(next, DoLine(t, prog[i], pass + 1, true), r, pass)
  {
    hide DoLine, Clean;
    var s' := DoLine(s, prog[i], pass, false);
    CleanIsQuiet(r);
    CleanRun(prog, i, s, pass);
    CleanRun(prog, i + 1, s', pass);
    CleanLine(s, prog[i], pass);
    CleanRun(prog, i + 1, s', pass);
    CleanIsQuiet(s');
    QuietRun(prog, i, s, pass, false);
    QuietRun(prog, i + 1, s', pass, false);
    LineSizes(s, prog[i], pass, false);
    RunSizes(prog, i + 1, s', pass, false);
    CleanAgrees(s, t, r, prog[i], pass);
    TwinLine(s, t, r, prog[i], pass);
  }

  lemma {:induction false} CleanIsQuiet(st: State)
    requires Clean(st)
    ensures Quiet(st)
  {
  }

  lemma {:induction false} CleanTwinRun(prog: seq<Line>, i: nat, s: State, t: State, r: State, pass: nat)
    requires i <= |prog| && pass > 0 && Run(prog, i, s, pass, false) == r && Clean(r) && Twin(s, t, r, pass)
             && s.pointerDefined
    ensures Twin(r, Run(prog, i, t, pass + 1, true), r, pass)
    decreases |prog| - i
  {
    hide DoLine, Twin, Clean;
    if i < |prog| {
      CleanStep(prog, i, s, t, r, pass);
      CleanTwinRun(prog, i + 1, DoLine(s, prog[i], pass, false), DoLine(t, prog[i], pass + 1, true), r, pass);
    }
  }

  /** A stable pass without a zero divisor, other than the first, fixes the layout for good: the pass after it moves no
      line and changes no symbol, whatever errors it reports. */
  lemma {:induction false} CleanPassFixesLayout(prog: seq<Line>, st: State, pass: nat)
    requires pass > 0 && Clean(Pass(prog, st, pass, false))
    ensures var stable := Pass(prog, st, pass, false);
      var final := Pass(prog, stable, pass + 1, true);
      SameShape(stable.listing, final.listing) && SameSymbols(final, stable) && final.pointer == stable.pointer
  {
    hide DoLine, Run;
    var r := Pass(prog, st, pass, false);
    CleanTwinRun(prog, 0, Begin(st), Begin(r), r, pass);
  }

  // ---------------------------------------------------------------- what the last pass emits

  /** The symbols as they stand at the end, seen from a line at `address`. */
  function FinalEnv(st: State, address: Word): Env {
    (leaf: Leaf) =>
      match leaf
      case Number(w) => Found(w)
      case Label(n) =>
        if n !in st.symbols then Missing else if st.symbols[n].defined then Found(st.symbols[n].value) else Undefined
      case Here => Found(address)
  }

  /** `v` is the operand's value when it is read at `address` with every symbol at its final value. */
  ghost predicate ReadAt(st: State, address: Word, ts: seq<Token>, v: Word) {
    var r := Evaluate(FinalEnv(st, address), ts);
    Outcome(r) == Okay && r.value == v
  }

  /** ALIGN has skipped what its operand asks for, 4 when it has none. */
  ghost predicate AlignedBy(st: State, e: Entry, ts: seq<Token>) {
    var r := Evaluate(FinalEnv(st, e.address), ts);
    || (Outcome(r) == Okay && r.value == e.value && e.size == Skip(e.address, e.value))
    || (Outcome(r) == NoOperand && e.size == Skip(e.address, 4))
  }

  /** The value a line gives its label. */
  function Labels(stmt: Stmt, e: Entry): Word {
    match stmt
    case Equ(_) => e.value
    case Align(_) => Wrap(e.address + e.size)
    case _ => e.address
  }

  /** The line begins where the one before it ended, at `from`, unless it is an ORG; its label has the value the line
      gives it; every operand was read with every name at its final value; and its size is what these values ask for. */
  ghost predicate Emitted(line: Line, from: Word, e: Entry, st: State) {
    && (line.stmt.Org? || e.address == from)
    && (line.name.Some? && line.name.value in st.symbols ==> Defined(st, line.name.value, Labels(line.stmt, e)))
    && (match line.stmt
        case Blank => e.size == 0
        case Instr(_, ts, _) => ReadAt(st, e.address, ts, e.value) && e.size == 4
        case Global(ts) => ReadAt(st, e.address, ts, e.value) && e.size == 8
        case Variable(_, ts) => ReadAt(st, e.address, ts, e.value)
        case Data(unit, items) => ItemsRead(st, e.address, unit, items, e.items) && e.size == Wrap(unit * |items|)
        case Space(ts) => ReadAt(st, e.address, ts, e.value) && e.size == e.value
        case Equ(ts) => ReadAt(st, e.address, ts, e.value) && e.size == 0 && line.name.Some?
            && line.name.value in st.symbols
        case Org(ts) => ReadAt(st, from, ts, e.value) && e.address == e.value && e.size == 0
        case Align(ts) => AlignedBy(st, e, ts))
  }

  /** Every item of a definition was read at its own address. */
  ghost predicate ItemsRead(st: State, address: Word, unit: nat, items: seq<seq<Token>>, values: seq<Word>) {
    |values| == |items| && forall k :: 0 <= k < |items| ==> ReadAt(st, Wrap(address + unit * k), items[k], values[k])
  }

  /** Where the first `n` lines of a listing end. */
  function Reached(listing: seq<Entry>, n: nat): Word {
    if 0 < n <= |listing| then Wrap(listing[n - 1].address + listing[n - 1].size) else 0
  }

  /** Reading now, with the symbols in step with the final ones, is reading at the end. */
  lemma {:induction false} ReadsFinal(t: State, r: State, increment: Word, ts: seq<Token>)
    requires SameSymbols(t, r) && t.pointerDefined
    ensures Evaluate(FinalEnv(r, Wrap(t.pointer + increment)), ts) == Evaluate(Lookup(t, increment), ts)
  {
    hide Evaluate;
    var e, f := Lookup(t, increment), FinalEnv(r, Wrap(t.pointer + increment));
    forall i | 0 <= i < |ts| && ts[i].Value? ensures e(ts[i].leaf) == f(ts[i].leaf) {
      if ts[i].leaf.Label? { SameReading(t, r, ts[i].leaf.name); }
    }
    SameEvaluation(e, f, ts);
  }

  lemma {:induction false} SameReading(a: State, b: State, n: string)
    requires SameSymbols(a, b)
    ensures n in a.symbols <==> n in b.symbols
    ensures n in a.symbols ==> (a.symbols[n].defined <==> b.symbols[n].defined)
    ensures n in a.symbols && a.symbols[n].defined ==> a.symbols[n].value == b.symbols[n].value
  {
    if n in a.symbols {
      assert Defined(a, n, a.symbols[n].value) <==> Defined(b, n, a.symbols[n].value);
      assert Defined(a, n, b.symbols[n].value) <==> Defined(b, n, b.symbols[n].value);
    }
  }

  lemma {:induction false} SameEvaluation(e: Env, f: Env, ts: seq<Token>)
    requires SameReadings(e, f, ts)
    ensures Evaluate(e, ts) == Evaluate(f, ts)
  {
    NeedSameReadings(e, f, ts, 0, 1, 0, [], Start);
  }

  /** The items of a definition, the first `k` of which have been read. */
  lemma {:induction false} EmitsItems(t: State, r: State, unit: nat, items: seq<seq<Token>>, k: nat,
                     values: seq<Word>, pass: nat)
    requires SameSymbols(t, r) && t.pointerDefined && pass > 0 && k <= |items|
    requires ItemsRead(r, t.pointer, unit, items[..k], values)
    requires !DoItems(t, unit, items[k..], Wrap(unit * k), values, pass, true).bad
    ensures ItemsRead(r, t.pointer, unit, items,
            DoItems(t, unit, items[k..], Wrap(unit * k), values, pass, true).values)
    decreases |items| - k
  {
    hide Evaluate, SameSymbols, ReadAt;
    if k < |items| {
      assert items[k..][0] == items[k] && items[k..][1..] == items[k + 1..];
      ReadsFinal(t, r, Wrap(unit * k), items[k]);
      WrapRight(t.pointer, unit * k);
      var x := Evaluate(Lookup(t, Wrap(unit * k)), items[k]);
      ReadAtIs(r, Wrap(t.pointer + unit * k), items[k], x.value);
      assert unit * k + unit == unit * (k + 1);
      WrapSum(unit * k, unit);
      SameSymbolsOf(t, Tally(t, x), r);
      EmitsItems(Tally(t, x), r, unit, items, k + 1, values + [x.value], pass);
    } else {
      assert items[..k] == items;
    }
  }

  lemma {:induction false} ReadAtIs(st: State, address: Word, ts: seq<Token>, v: Word)
    ensures var r := Evaluate(FinalEnv(st, address), ts);
            ReadAt(st, address, ts, v) <==> Outcome(r) == Okay && r.value == v
  {
    hide Evaluate;
  }

  lemma {:induction false} WrapRight(a: int, b: int)
    ensures Wrap(a + Wrap(b)) == Wrap(a + b)
  {
  }

  lemma {:induction false} WrapWord(w: Word)
    ensures Wrap(w + 0) == w
  {
  }

  /** What a statement adds to the listing, and where that takes the pointer. */
  ghost predicate EmitsHere(t: State, out: State, r: State, stmt: Stmt) {
    && |out.listing| == |t.listing| + 1 && Emitted(Line(None, stmt), t.pointer, out.listing[|t.listing|], r)
    && out.pointer == Wrap(out.listing[|t.listing|].address + out.listing[|t.listing|].size)
  }

  lemma {:induction false} EmitsStmt(t: State, r: State, stmt: Stmt, pass: nat)
    requires !PlacesItself(stmt) && SameSymbols(t, r) && pass > 0 && DoStmt(t, stmt, pass, true).errors == 0
    requires t.pointerDefined
    ensures EmitsHere(t, DoStmt(t, stmt, pass, true), r, stmt)
  {
    hide DoStmt, EmitsHere, SameSymbols;
    match stmt
    case Data(unit, items) => EmitsData(t, r, unit, items, pass);
    case Variable(kind, ts) => EmitsVariable(t, r, kind, ts, pass);
    case _ => EmitsSimple(t, r, stmt, pass);
  }

  lemma {:induction false} EmitsData(t: State, r: State, unit: nat, items: seq<seq<Token>>, pass: nat)
    requires SameSymbols(t, r) && pass > 0 && DoStmt(t, Data(unit, items), pass, true).errors == 0 && t.pointerDefined
    ensures EmitsHere(t, DoStmt(t, Data(unit, items), pass, true), r, Data(unit, items))
  {
    hide Evaluate, SameSymbols, DoItems, ItemsRead;
    ItemsEffect(t, unit, items, 0, [], pass, true);
    ItemsLength(t, unit, items, 0, [], pass, true);
    assert items[0..] == items;
    NoItems(r, t.pointer, unit);
    assert items[..0] == [];
    EmitsItems(t, r, unit, items, 0, [], pass);
  }

  lemma {:induction false} NoItems(st: State, address: Word, unit: nat)
    ensures ItemsRead(st, address, unit, [], [])
  {
  }

  lemma {:induction false} EmitsVariable(t: State, r: State, kind: Pseudo, ts: seq<Token>, pass: nat)
    requires SameSymbols(t, r) && pass > 0 && DoStmt(t, Variable(kind, ts), pass, true).errors == 0 && t.pointerDefined
    ensures EmitsHere(t, DoStmt(t, Variable(kind, ts), pass, true), r, Variable(kind, ts))
  {
    hide Evaluate, Wanted, Straight, SameSymbols, TakeSize;
    WrapWord(t.pointer);
    TakeFrame(Tally(t, Eval(t, ts)), Wanted(kind, Eval(t, ts).value, t.pointer), pass);
    ReadsFinal(t, r, 0, ts);
  }

  lemma {:induction false} EmitsSimple(t: State, r: State, stmt: Stmt, pass: nat)
    requires !PlacesItself(stmt) && !stmt.Variable? && !stmt.Data? && SameSymbols(t, r)
    requires pass > 0 && DoStmt(t, stmt, pass, true).errors == 0 && t.pointerDefined
    ensures EmitsHere(t, DoStmt(t, stmt, pass, true), r, stmt)
  {
    hide Evaluate, Fits, SameSymbols;
    WrapWord(t.pointer);
    if !stmt.Blank? { ReadsFinal(t, r, 0, stmt.operand); }
  }

  lemma {:induction false} EmitsPlain(t: State, r: State, line: Line, pass: nat)
    requires !PlacesItself(line.stmt) && pass > 0 && DoLine(t, line, pass, true).errors == 0 && t.pointerDefined
    requires SameSymbols(DoLine(t, line, pass, true), r)
    ensures EmitsOne(t, DoLine(t, line, pass, true), r, line)
  {
    hide DoLine, DoStmt, Evaluate, SameSymbols, ReadAt, ItemsRead;
    LineForm(t, line, pass, true);
    var out, t1 := DoLine(t, line, pass, true),
        RedefineIn(t, line.name, t.pointer, t.pointerDefined, Okay, pass, true).0;
    RedefineFrame(t, t, line.name, t.pointer, t.pointerDefined, Okay, pass, true);
    StmtEffect(t1, line.stmt, pass, true);
    SameSymbolsOf(out, t1, r);
    EmitsStmt(t1, r, line.stmt, pass);
    StmtKeepsPointer(t1, line.stmt, pass, true);
    LabelGiven(t, t1, out, r, line.name, t.pointer, pass);
  }

  /** What one line of the last pass adds. */
  ghost predicate EmitsOne(t: State, out: State, r: State, line: Line) {
    && |out.listing| == |t.listing| + 1 && out.listing[..|t.listing|] == t.listing && out.pointerDefined
    && Emitted(line, t.pointer, out.listing[|t.listing|], r) && out.pointer == Reached(out.listing, |out.listing|)
  }

  lemma {:induction false} LabelGiven(t: State, t1: State, out: State, r: State, name: Option<string>, value: Word,
                     pass: nat)
    requires var (l, bad) := RedefineIn(t, name, value, true, Okay, pass, true); l.symbols == t1.symbols && !bad
    requires out.symbols == t1.symbols && SameSymbols(out, r)
    ensures name.Some? && name.value in r.symbols ==> Defined(r, name.value, value)
  {
    if name.Some? && name.value in r.symbols {
      assert name.value in out.symbols;
      assert Defined(out, name.value, value);
    }
  }

  lemma {:induction false} StmtKeepsPointer(st: State, stmt: Stmt, pass: nat, last: bool)
    requires !PlacesItself(stmt)
    ensures DoStmt(st, stmt, pass, last).pointerDefined == st.pointerDefined
    ensures var out := DoStmt(st, stmt, pass, last).listing;
            |out| == |st.listing| + 1 && out[..|st.listing|] == st.listing
  {
    hide Evaluate, Wanted, Straight, Fits, Allot;
    if stmt.Data? { ItemsEffect(st, stmt.unit, stmt.items, 0, [], pass, last); }
  }

  lemma {:induction false} EmitsPlacing(t: State, r: State, name: Option<string>, stmt: Stmt, pass: nat)
    requires PlacesItself(stmt) && pass > 0 && DoPlacing(t, name, stmt, pass, true).errors == 0 && t.pointerDefined
    requires SameSymbols(t, r) && SameSymbols(DoPlacing(t, name, stmt, pass, true), r)
    ensures EmitsOne(t, DoPlacing(t, name, stmt, pass, true), r, Line(name, stmt))
  {
    hide DoPlacing, Evaluate, SameSymbols, Eval, Skip, RedefineIn;
    var out := DoPlacing(t, name, stmt, pass, true);
    PlacingEffect(t, name, stmt, pass, true);
    PlacingShape(t, name, stmt, pass, true);
    EvalIs(t, stmt.operand);
    ReadsFinal(t, r, 0, stmt.operand);
    WrapWord(t.pointer);
    if !stmt.Align? { PlanOkay(t, name, stmt, pass); }
    if stmt.Equ? { Named(t, name, stmt, pass); SameReading(t, r, name.value); }
    var c := PlanOf(t, stmt, pass, true).call.value;
    LabelGiven(t, out, out, r, name, c.value, pass);
  }

  /** EQU without a label is an error. */
  lemma {:induction false} Named(t: State, name: Option<string>, stmt: Stmt, pass: nat)
    requires stmt.Equ? && DoPlacing(t, name, stmt, pass, true).errors == 0
    ensures name.Some? && name.value in t.symbols
  {
    hide Evaluate, Eval, Redefine;
  }

  /** One line of the last pass after a quiet one. */
  lemma {:induction false} EmitsLine(s: State, t: State, r: State, line: Line, pass: nat)
    requires Ready(s, t, r, line, pass) && t.pointerDefined
    ensures EmitsOne(t, DoLine(t, line, pass + 1, true), r, line)
  {
    hide DoLine, DoStmt, DoPlacing, RedefineIn, SameSymbols, Emitted;
    LineForm(t, line, pass + 1, true);
    LineAgrees(s, t, r, line, pass);
    TwinLine(s, t, r, line, pass);
    if PlacesItself(line.stmt) {
      EmitsPlacing(t, r, line.name, line.stmt, pass + 1);
      assert line == Line(line.name, line.stmt);
    } else {
      EmitsPlain(t, r, line, pass + 1);
    }
  }

  /** Every line from `i` on in its place, under the symbols of `st`. */
  ghost predicate Laid(prog: seq<Line>, i: nat, listing: seq<Entry>, st: State) {
    |listing| == |prog| && forall k :: i <= k < |prog| ==> Emitted(prog[k], Reached(listing, k), listing[k], st)
  }

  lemma {:induction false} EmitsRun(prog: seq<Line>, i: nat, s: State, t: State, r: State, pass: nat)
    requires i <= |prog| && Run(prog, i, s, pass, false) == r && Quiet(r) && Twin(s, t, r, pass) && t.pointerDefined
    requires Run(prog, i, t, pass + 1, true).errors == 0
    requires |t.listing| == i && t.pointer == Reached(t.listing, i)
    ensures var out := Run(prog, i, t, pass + 1, true); Laid(prog, i, out.listing, r) && out.listing[..i] == t.listing
    decreases |prog| - i
  {
    hide DoLine, Twin, Ready, Emitted;
    if i < |prog| {
      var t' := DoLine(t, prog[i], pass + 1, true);
      TwinStep(prog, i, s, t, r, pass);
      EmitsLine(s, t, r, prog[i], pass);
      EmitsRun(prog, i + 1, DoLine(s, prog[i], pass, false), t', r, pass);
      var out := Run(prog, i, t, pass + 1, true);
      assert out.listing[..i] == out.listing[..i + 1][..i];
      assert out.listing[i] == out.listing[..i + 1][i];
      ReachedWithin(out.listing, i + 1, i);
      ReachedWithin(t'.listing, i, i);
    }
  }

  lemma {:induction false} ReachedWithin(listing: seq<Entry>, m: nat, n: nat)
    requires n <= m <= |listing|
    ensures Reached(listing[..m], n) == Reached(listing, n)
  {
  }

  lemma {:induction false} EmittedUnder(line: Line, from: Word, e: Entry, a: State, b: State)
    requires Emitted(line, from, e, a) && SameSymbols(a, b)
    ensures Emitted(line, from, e, b)
  {
    hide Evaluate, SameSymbols, Skip;
    if line.name.Some? { SameReading(a, b, line.name.value); }
    if line.stmt.Data? {
      ItemsUnder(e.address, line.stmt.unit, line.stmt.items, e.items, a, b);
    } else if !line.stmt.Blank? {
      ReadUnder(if line.stmt.Org? then from else e.address, a, b, line.stmt.operand);
    }
  }

  lemma {:induction false} ItemsUnder(address: Word, unit: nat, items: seq<seq<Token>>, values: seq<Word>, a: State,
                     b: State)
    requires SameSymbols(a, b) && ItemsRead(a, address, unit, items, values)
    ensures ItemsRead(b, address, unit, items, values)
  {
    hide Evaluate, SameSymbols;
    forall k | 0 <= k < |items| ensures ReadAt(b, Wrap(address + unit * k), items[k], values[k]) {
      ReadUnder(Wrap(address + unit * k), a, b, items[k]);
    }
  }

  lemma {:induction false} ReadUnder(address: Word, a: State, b: State, ts: seq<Token>)
    requires SameSymbols(a, b)
    ensures Evaluate(FinalEnv(a, address), ts) == Evaluate(FinalEnv(b, address), ts)
  {
    hide Evaluate;
    var f, g := FinalEnv(a, address), FinalEnv(b, address);
    forall i | 0 <= i < |ts| && ts[i].Value? ensures f(ts[i].leaf) == g(ts[i].leaf) {
      if ts[i].leaf.Label? { SameReading(a, b, ts[i].leaf.name); }
    }
    SameEvaluation(f, g, ts);
  }

  /** After a quiet pass, the lines of an error-free last pass follow one another without gap or overlap but for ORG,
      every label has the value its line gives it, and every operand and data item it emits is the expression's value
      under these final symbols, at its own address. */
  lemma {:induction false} LastPassIsConsistent(prog: seq<Line>, st: State, pass: nat)
    requires pass == 0 ==> st.sizes == []
    requires Quiet(Pass(prog, st, pass, false))
    requires Pass(prog, Pass(prog, st, pass, false), pass + 1, true).errors == 0
    ensures var final := Pass(prog, Pass(prog, st, pass, false), pass + 1, true); Laid(prog, 0, final.listing, final)
  {
    hide DoLine, Run, Emitted;
    var r := Pass(prog, st, pass, false);
    var final := Pass(prog, r, pass + 1, true);
    StablePassFixesLayout(prog, st, pass);
    EmitsRun(prog, 0, Begin(st), Begin(r), r, pass);
    forall k | 0 <= k < |prog| ensures Emitted(prog[k], Reached(final.listing, k), final.listing[k], final) {
      EmittedUnder(prog[k], Reached(final.listing, k), final.listing[k], r, final);
    }
  }

  // ---------------------------------------------------------------- exactly when the last pass has errors

  /** The operand of the line's code, read at the end, has a value, and passes its test. */
  ghost predicate Fine(line: Line, e: Entry, st: State) {
    match line.stmt
    case Instr(form, ts, _) => ReadAt(st, e.address, ts, e.value) && Fits(form, e.value, e.address)
    case Variable(kind, ts) => ReadAt(st, e.address, ts, e.value) && Straight(kind, e.value, e.address)
    case _ => true
  }

  /** A line of the pass after a clean one adds an entry, and an error exactly when it is not fine. */
  ghost predicate Adds(t: State, out: State, line: Line, r: State) {
    && |out.listing| == |t.listing| + 1 && out.listing[..|t.listing|] == t.listing
    && out.errors == t.errors + if Fine(line, out.listing[|t.listing|], r) then 0 else 1
  }

  lemma {:induction false} StmtErrors(s: State, t: State, r: State, stmt: Stmt, pass: nat)
    requires pass > 0 && !PlacesItself(stmt) && s.pointer == t.pointer && s.pointerDefined && t.pointerDefined
    requires SameSymbols(s, r) && SameSymbols(t, r) && Clean(DoStmt(s, stmt, pass, false))
    ensures Adds(t, DoStmt(t, stmt, pass + 1, true), Line(None, stmt), r)
  {
    hide DoStmt, Adds, SameSymbols, Clean;
    match stmt
    case Data(unit, items) => DataErrors(s, t, r, unit, items, pass);
    case Variable(kind, ts) => VariableErrors(s, t, r, kind, ts, pass);
    case _ => SimpleErrors(s, t, r, stmt, pass);
  }

  lemma {:induction false} DataErrors(s: State, t: State, r: State, unit: nat, items: seq<seq<Token>>, pass: nat)
    requires pass > 0 && s.pointer == t.pointer && s.pointerDefined && t.pointerDefined
    requires SameSymbols(s, r) && SameSymbols(t, r) && Clean(DoStmt(s, Data(unit, items), pass, false))
    ensures Adds(t, DoStmt(t, Data(unit, items), pass + 1, true), Line(None, Data(unit, items)), r)
  {
    hide Evaluate, SameSymbols, DoItems;
    ItemsEffect(s, unit, items, 0, [], pass, false);
    ItemsEffect(t, unit, items, 0, [], pass + 1, true);
    CleanItems(s, t, r, unit, items, 0, [], pass);
  }

  lemma {:induction false} VariableErrors(s: State, t: State, r: State, kind: Pseudo, ts: seq<Token>, pass: nat)
    requires pass > 0 && s.pointer == t.pointer && s.pointerDefined && t.pointerDefined
    requires SameSymbols(s, r) && SameSymbols(t, r) && Clean(DoStmt(s, Variable(kind, ts), pass, false))
    ensures Adds(t, DoStmt(t, Variable(kind, ts), pass + 1, true), Line(None, Variable(kind, ts)), r)
  {
    hide Evaluate, Wanted, Straight, SameSymbols, TakeSize;
    var x := Eval(t, ts);
    ReadsAlike(s, t, r, 0, ts);
    TakeFrame(Tally(s, x), Wanted(kind, x.value, t.pointer), pass);
    TakeFrame(Tally(t, x), Wanted(kind, x.value, t.pointer), pass + 1);
    CleanRead(s, 0, ts, pass);
    ReadsFinal(t, r, 0, ts);
    WrapWord(t.pointer);
  }

  lemma {:induction false} SimpleErrors(s: State, t: State, r: State, stmt: Stmt, pass: nat)
    requires pass > 0 && s.pointer == t.pointer && s.pointerDefined && t.pointerDefined
    requires !PlacesItself(stmt) && !stmt.Variable? && !stmt.Data?
    requires SameSymbols(s, r) && SameSymbols(t, r) && Clean(DoStmt(s, stmt, pass, false))
    ensures Adds(t, DoStmt(t, stmt, pass + 1, true), Line(None, stmt), r)
  {
    hide Evaluate, Fits, SameSymbols;
    if !stmt.Blank? {
      ReadsAlike(s, t, r, 0, stmt.operand);
      ReadsFinal(t, r, 0, stmt.operand);
      WrapWord(t.pointer);
    }
    if stmt.Global? || stmt.Space? { CleanRead(s, 0, stmt.operand, pass); }
  }

  /** EQU, ORG and ALIGN leave no error where they left none. */
  lemma {:induction false} PlacingErrors(s: State, t: State, r: State, name: Option<string>, stmt: Stmt, pass: nat)
    requires PlacesItself(stmt) && Agreed(s, t, stmt, pass) && SameSymbols(s, r) && SameSymbols(t, r)
    requires DoPlacing(s, name, stmt, pass, false).errors == 0
    requires var c := PlanOf(t, stmt, pass + 1, true).call.value;
             !RedefineIn(t, name, c.value, c.valueDefined, c.status, pass + 1, true).1
    ensures Adds(t, DoPlacing(t, name, stmt, pass + 1, true), Line(name, stmt), r)
  {
    hide Evaluate, Eval, PlanOf, Redefine;
    PlansOf(s, t, stmt, pass);
  }

  lemma {:induction false} LineErrors(s: State, t: State, r: State, line: Line, pass: nat)
    requires pass > 0 && Twin(s, t, r, pass) && s.pointerDefined && Clean(DoLine(s, line, pass, false))
    requires SameSymbols(s, r) && SameSymbols(DoLine(s, line, pass, false), r)
    requires Leads(DoLine(s, line, pass, false), r, pass)
    ensures Adds(t, DoLine(t, line, pass + 1, true), line, r)
  {
    hide DoLine, DoPlacing, DoStmt, RedefineIn, Agreed, PlanOf, Fine;
    CleanAgrees(s, t, r, line, pass);
    LineForm(s, line, pass, false);
    LineForm(t, line, pass + 1, true);
    if PlacesItself(line.stmt) {
      PlacingErrors(s, t, r, line.name, line.stmt, pass);
      assert line == Line(line.name, line.stmt);
    } else {
      var s1 := RedefineIn(s, line.name, s.pointer, true, Okay, pass, false).0;
      var t1 := RedefineIn(t, line.name, s.pointer, true, Okay, pass + 1, true).0;
      RedefineFrame(s, s, line.name, s.pointer, true, Okay, pass, false);
      RedefineFrame(t, t, line.name, s.pointer, true, Okay, pass + 1, true);
      StmtEffect(s1, line.stmt, pass, false);
      SameSymbolsOf(DoLine(s, line, pass, false), s1, r);
      TwinCalled(s, t, r, line.name, line.stmt, pass);
      StmtErrors(s1, t1, r, line.stmt, pass);
      Unnamed(line, r);
    }
  }

  /** A line's label has no part in this. */
  lemma {:induction false} Unnamed(line: Line, r: State)
    ensures forall e :: Fine(line, e, r) <==> Fine(Line(None, line.stmt), e, r)
  {
    hide ReadAt, Fits, Straight;
  }

  lemma {:induction false} ErrorsRun(prog: seq<Line>, i: nat, s: State, t: State, r: State, pass: nat)
    requires i <= |prog| && pass > 0 && Run(prog, i, s, pass, false) == r && Clean(r) && Twin(s, t, r, pass)
    requires s.pointerDefined && |t.listing| == i
    ensures var out := Run(prog, i, t, pass + 1, true);
      && |out.listing| == |prog| && out.listing[..i] == t.listing && out.errors >= t.errors
      && (out.errors == t.errors <==> forall k :: i <= k < |prog| ==> Fine(prog[k], out.listing[k], r))
    decreases |prog| - i
  {
    hide DoLine, Twin, Clean, Fine, Leads;
    if i < |prog| {
      var s', t' := DoLine(s, prog[i], pass, false), DoLine(t, prog[i], pass + 1, true);
      CleanStep(prog, i, s, t, r, pass);
      LineAdds(prog, i, s, t, r, pass);
      ErrorsRun(prog, i + 1, s', t', r, pass);
      var out := Run(prog, i, t, pass + 1, true);
      assert out.listing[..i] == out.listing[..i + 1][..i];
      assert out.listing[i] == out.listing[..i + 1][i];
    }
  }

  lemma {:induction false} LineAdds(prog: seq<Line>, i: nat, s: State, t: State, r: State, pass: nat)
    requires i < |prog| && pass > 0 && Run(prog, i, s, pass, false) == r && Clean(r) && Twin(s, t, r, pass)
    requires s.pointerDefined
    ensures Adds(t, DoLine(t, prog[i], pass + 1, true), prog[i], r)
  {
    hide DoLine, Clean, Adds;
    var s' := DoLine(s, prog[i], pass, false);
    CleanIsQuiet(r);
    CleanRun(prog, i, s, pass);
    CleanRun(prog, i + 1, s', pass);
    CleanLine(s, prog[i], pass);
    CleanRun(prog, i + 1, s', pass);
    CleanIsQuiet(s');
    QuietRun(prog, i, s, pass, false);
    QuietRun(prog, i + 1, s', pass, false);
    LineSizes(s, prog[i], pass, false);
    RunSizes(prog, i + 1, s', pass, false);
    LineErrors(s, t, r, prog[i], pass);
  }

  /** After a stable pass without a zero divisor, other than the first, the last pass has no error exactly when the
      operands of all code have values under the final symbols and pass their tests. */
  lemma {:induction false} AcceptedExactly(prog: seq<Line>, st: State, pass: nat)
    requires pass > 0 && Clean(Pass(prog, st, pass, false))
    ensures var final := Pass(prog, Pass(prog, st, pass, false), pass + 1, true);
      && |final.listing| == |prog|
      && (final.errors == 0 <==> forall k :: 0 <= k < |prog| ==> Fine(prog[k], final.listing[k], final))
  {
    hide DoLine, Run, Fine;
    var r := Pass(prog, st, pass, false);
    var final := Pass(prog, r, pass + 1, true);
    CleanPassFixesLayout(prog, st, pass);
    ErrorsRun(prog, 0, Begin(st), Begin(r), r, pass);
    forall k | 0 <= k < |prog| ensures Fine(prog[k], final.listing[k], final) <==> Fine(prog[k], final.listing[k], r) {
      FineUnder(prog[k], final.listing[k], final, r);
    }
  }

  lemma {:induction false} FineUnder(line: Line, e: Entry, a: State, b: State)
    requires SameSymbols(a, b)
    ensures Fine(line, e, a) <==> Fine(line, e, b)
  {
    hide Evaluate, SameSymbols, Fits, Straight;
    if line.stmt.Instr? || line.stmt.Variable? { ReadUnder(e.address, a, b, line.stmt.operand); }
  }

  // ---------------------------------------------------------------- sizes over many passes

  /** Records only grow, and stay four or eight bytes. */
  ghost predicate Grown(before: State, after: State) {
    |before.sizes| == |after.sizes| && forall c :: 0 <= c < |before.sizes| ==> before.sizes[c] <= after.sizes[c]
  }

  ghost predicate Lengths(st: State) {
    forall n :: n in st.sizes ==> n == 4 || n == 8
  }

  lemma {:induction false} LineGrows(st: State, line: Line, pass: nat, last: bool)
    ensures var out := DoLine(st, line, pass, last);
      && (Lengths(st) ==> Lengths(out)) && (pass >= SHRINK_STOP ==> Grown(st, out))
  {
    hide DoPlacing, DoStmt, RedefineIn;
    var s0 := Enter(st, line.name, pass);
    if PlacesItself(line.stmt) {
      PlacingSizes(s0, line.name, line.stmt, pass, last);
    } else {
      var s1 := RedefineIn(s0, line.name, s0.pointer, s0.pointerDefined, Okay, pass, last).0;
      RedefineFrame(s0, s0, line.name, s0.pointer, s0.pointerDefined, Okay, pass, last);
      StmtGrows(s1, line.stmt, pass, last);
    }
  }

  lemma {:induction false} StmtGrows(st: State, stmt: Stmt, pass: nat, last: bool)
    requires !PlacesItself(stmt)
    ensures var out := DoStmt(st, stmt, pass, last);
      && (Lengths(st) ==> Lengths(out)) && (pass >= SHRINK_STOP ==> Grown(st, out))
  {
    hide Evaluate, Wanted, Straight, Fits, Allot, Lengths, Grown, TakeSize;
    SameSizes(st, DoStmt(st, stmt, pass, last));
    if stmt.Data? { ItemsEffect(st, stmt.unit, stmt.items, 0, [], pass, last); }
    if stmt.Variable? {
      var r := Eval(st, stmt.operand);
      var wanted := Wanted(stmt.kind, r.value, st.pointer);
      TakeGrows(st, Tally(st, r), wanted, pass);
      SameSizes(TakeSize(Tally(st, r), wanted, pass).0, DoStmt(st, stmt, pass, last));
      GrownTo(st, TakeSize(Tally(st, r), wanted, pass).0, DoStmt(st, stmt, pass, last));
    }
  }

  lemma {:induction false} SameSizes(a: State, b: State)
    ensures a.sizes == b.sizes ==> Grown(a, b) && (Lengths(a) <==> Lengths(b))
  {
  }

  lemma {:induction false} GrownTo(a: State, b: State, c: State)
    requires b.sizes == c.sizes
    ensures Grown(a, b) <==> Grown(a, c)
  {
  }

  lemma {:induction false} TakeGrows(before: State, st: State, wanted: nat, pass: nat)
    requires (wanted == 4 || wanted == 8) && before.sizes == st.sizes
    ensures var out := TakeSize(st, wanted, pass).0;
      && (Lengths(before) ==> Lengths(out)) && (pass >= SHRINK_STOP ==> Grown(before, out))
  {
    var out := TakeSize(st, wanted, pass).0;
    if Lengths(before) {
      forall n | n in out.sizes ensures n == 4 || n == 8 {
        assert n in st.sizes || n == wanted;
      }
    }
  }

  lemma {:induction false} RunGrows(prog: seq<Line>, i: nat, st: State, pass: nat, last: bool)
    requires i <= |prog|
    ensures var out := Run(prog, i, st, pass, last);
      && (Lengths(st) ==> Lengths(out)) && (pass >= SHRINK_STOP ==> Grown(st, out))
    decreases |prog| - i
  {
    hide DoLine, Lengths;
    if i < |prog| {
      LineGrows(st, prog[i], pass, last);
      RunGrows(prog, i + 1, DoLine(st, prog[i], pass, last), pass, last);
    }
  }

  /** The state before anything was assembled. */
  const FRESH: State := State(map[], [], 0, 0, true, 0, 0, 0, 0, false, [])

  /** The state after `k` ordinary passes. */
  function After(prog: seq<Line>, k: nat): State {
    if k == 0 then FRESH else Pass(prog, After(prog, k - 1), k - 1, false)
  }

  lemma {:induction false} AfterLengths(prog: seq<Line>, k: nat)
    ensures Lengths(After(prog, k))
  {
    hide Pass, Lengths;
    if k == 0 { FreshLengths(); }
    if k > 0 {
      AfterLengths(prog, k - 1);
      PassGrows(prog, After(prog, k - 1), k - 1, false);
    }
  }

  lemma {:induction false} FreshLengths()
    ensures Lengths(FRESH)
  {
  }

  lemma {:induction false} PassGrows(prog: seq<Line>, st: State, pass: nat, last: bool)
    ensures Lengths(st) ==> Lengths(Pass(prog, st, pass, last))
    ensures pass >= SHRINK_STOP ==> Grown(st, Pass(prog, st, pass, last))
  {
    hide Run;
    RunGrows(prog, 0, Begin(st), pass, last);
  }

  /** From pass SHRINK_STOP on no record shrinks, however many passes follow. */
  lemma {:induction false} SizesNeverShrink(prog: seq<Line>, j: nat, k: nat)
    requires SHRINK_STOP <= j <= k
    ensures Grown(After(prog, j), After(prog, k))
  {
    hide Pass;
    if j < k {
      SizesNeverShrink(prog, j, k - 1);
      PassGrows(prog, After(prog, k - 1), k - 1, false);
    }
  }

  /** So each item changes size at most once more, from four bytes to eight. */
  lemma {:induction false} SizesSettle(prog: seq<Line>, j: nat, k: nat, l: nat, c: nat)
    requires SHRINK_STOP <= j <= k <= l && c < |After(prog, j).sizes|
    ensures c < |After(prog, k).sizes| && c < |After(prog, l).sizes|
    ensures After(prog, j).sizes[c] != After(prog, k).sizes[c] ==>
              After(prog, j).sizes[c] == 4 && After(prog, k).sizes[c] == 8 && After(prog, l).sizes[c] == 8
  {
    hide After;
    SizesNeverShrink(prog, j, k);
    SizesNeverShrink(prog, k, l);
    AfterLengths(prog, j);
    AfterLengths(prog, k);
    AfterLengths(prog, l);
    assert After(prog, j).sizes[c] in After(prog, j).sizes && After(prog, k).sizes[c] in After(prog, k).sizes
           && After(prog, l).sizes[c] in After(prog, l).sizes;
  }

  /** On this pass, a pseudo-operation is given four or eight bytes, and no fewer than its operand asks for, exactly as
      many on the first ten passes; the operand passes its test. */
  ghost predicate Sized(line: Line, e: Entry, pass: nat) {
    && (line.stmt.Instr? ==> Fits(line.stmt.form, e.value, e.address))
    && (line.stmt.Variable? ==>
          && (e.size == 4 || e.size == 8) && Wanted(line.stmt.kind, e.value, e.address) <= e.size
          && (pass < 10 ==> e.size == Wanted(line.stmt.kind, e.value, e.address))
          && Straight(line.stmt.kind, e.value, e.address))
  }

  lemma {:induction false} StmtSized(st: State, stmt: Stmt, pass: nat)
    requires !PlacesItself(stmt) && Lengths(st) && pass > 0 && DoStmt(st, stmt, pass, true).errors == 0
    ensures var out := DoStmt(st, stmt, pass, true).listing;
      |out| == |st.listing| + 1 && out[..|st.listing|] == st.listing && Sized(Line(None, stmt), out[|st.listing|], pass)
  {
    hide Evaluate, Wanted, Straight, Fits;
    StmtKeepsPointer(st, stmt, pass, true);
    if stmt.Variable? {
      var r := Eval(st, stmt.operand);
      var wanted := Wanted(stmt.kind, r.value, st.pointer);
      var (_, size) := TakeSize(Tally(st, r), wanted, pass);
      assert st.cursor < |st.sizes| ==> st.sizes[st.cursor] in st.sizes;
      assert wanted <= size && (size == 4 || size == 8);
    }
  }

  lemma {:induction false} LineSized(st: State, line: Line, pass: nat)
    requires Lengths(st) && pass > 0 && DoLine(st, line, pass, true).errors == 0
    ensures var out := DoLine(st, line, pass, true).listing;
      |out| == |st.listing| + 1 && out[..|st.listing|] == st.listing && Sized(line, out[|st.listing|], pass)
  {
    hide DoLine, DoStmt, DoPlacing, RedefineIn, CallOf, Wanted, PlanOf, Fits, Straight;
    LineForm(st, line, pass, true);
    LineEffect(st, line, pass, true);
    if PlacesItself(line.stmt) {
      PlacingListing(st, line, pass, true);
    } else {
      RedefineFrame(st, st, line.name, st.pointer, st.pointerDefined, Okay, pass, true);
      var s1 := RedefineIn(st, line.name, st.pointer, st.pointerDefined, Okay, pass, true).0;
      StmtSized(s1, line.stmt, pass);
    }
  }

  lemma {:induction false} PlacingListing(st: State, line: Line, pass: nat, last: bool)
    requires PlacesItself(line.stmt)
    ensures var out := DoPlacing(st, line.name, line.stmt, pass, last).listing;
      |out| == |st.listing| + 1 && out[..|st.listing|] == st.listing
  {
    hide Evaluate, Eval, PlanOf, Redefine;
  }

  lemma {:induction false} RunSized(prog: seq<Line>, i: nat, st: State, pass: nat)
    requires i <= |prog| && Lengths(st) && pass > 0 && Run(prog, i, st, pass, true).errors == 0 && |st.listing| == i
    ensures var out := Run(prog, i, st, pass, true).listing;
      && |out| == |prog| && out[..i] == st.listing
      && forall k :: i <= k < |prog| ==> Sized(prog[k], out[k], pass)
    decreases |prog| - i
  {
    hide DoLine, Sized, Lengths;
    if i < |prog| {
      var next := DoLine(st, prog[i], pass, true);
      QuietRun(prog, i + 1, next, pass, true);
      LineSized(st, prog[i], pass);
      LineGrows(st, prog[i], pass, true);
      RunSized(prog, i + 1, next, pass);
      var out := Run(prog, i, st, pass, true).listing;
      assert out[..i] == out[..i + 1][..i];
      assert out[i] == out[..i + 1][i];
    }
  }

  // ---------------------------------------------------------------- the pass loop

  /** The pass loop's test for making the next pass the last one. */
  predicate Stable(st: State) {
    st.definedCount == 0 && st.redefinedCount == 0 && st.undefinedCount == 0
  }

  /** The state passes end in when the last of them is number `passes`. */
  function Ended(prog: seq<Line>, passes: nat): State
    requires passes > 0
  {
    Pass(prog, After(prog, passes - 1), passes - 1, LastPass(prog, passes))
  }

  /** Whether pass number `passes` is the last one, being the first after a stable pass. */
  predicate LastPass(prog: seq<Line>, passes: nat) {
    passes > 1 && Stable(After(prog, passes - 1))
  }

  /** The passes before number `passes` were all error-free, and none but the one just before it stable. */
  ghost predicate Undecided(prog: seq<Line>, passes: nat) {
    forall k :: 1 <= k < passes ==> After(prog, k).errors == 0 && (k < passes - 1 ==> !Stable(After(prog, k)))
  }

  lemma {:induction false} SettledLayout(prog: seq<Line>, passes: nat)
    requires LastPass(prog, passes) && After(prog, passes - 1).errors == 0 && Ended(prog, passes).errors == 0
    ensures var st := Ended(prog, passes);
      SameShape(After(prog, passes - 1).listing, st.listing) && Laid(prog, 0, st.listing, st)
  {
    hide Pass, Emitted, SameShape;
    StablePassFixesLayout(prog, After(prog, passes - 2), passes - 2);
    LastPassIsConsistent(prog, After(prog, passes - 2), passes - 2);
  }

  /** Where code is dumped, the lines lie as on the stable pass even if the last pass has errors. */
  lemma {:induction false} DumpedLayout(prog: seq<Line>, passes: nat)
    requires passes > 2 && LastPass(prog, passes)
    requires After(prog, passes - 1).errors == 0 && !After(prog, passes - 1).divZero
    ensures SameShape(After(prog, passes - 1).listing, Ended(prog, passes).listing)
  {
    hide Pass, SameShape;
    CleanPassFixesLayout(prog, After(prog, passes - 2), passes - 2);
  }

  lemma {:induction false} SettledSizes(prog: seq<Line>, passes: nat)
    requires LastPass(prog, passes) && Ended(prog, passes).errors == 0
    ensures var st := Ended(prog, passes);
      |st.listing| == |prog| && forall k :: 0 <= k < |prog| ==> Sized(prog[k], st.listing[k], passes - 1)
  {
    hide Run, Sized, Lengths;
    AfterLengths(prog, passes - 1);
    var st := Begin(After(prog, passes - 1));
    SameSizes(After(prog, passes - 1), st);
    RunSized(prog, 0, st, passes - 1);
  }
}
