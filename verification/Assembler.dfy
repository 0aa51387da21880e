/** The assembler's globals and the routines that update them (tools/assembler/rva.c), each shown to do what the
functions of `Passes` say. */
module Assembler {
  import opened Options
  import opened Words
  import opened Expressions
  import opened Evaluator
  import opened Passes

  datatype Ending =
    | Errors   // a pass reported errors
    | Settled  // a last pass was made after a stable one
    | GaveUp   // the passes ran out

  /** What RedefLabel does, case by case. */
  lemma {:induction false} Relabelled(was: State, now: State, bad: bool, name: Option<string>, value: Word,
                     isDefined: bool,
                   status: Status, pass: nat, last: bool)
    requires var tolerated := status == Okay || Allowed(status, pass == 0, last);
      if name.Some? && name.value in was.symbols then
        var sym, genuine := was.symbols[name.value], status == Okay && isDefined;
        if pass == sym.pass && sym.defined then
          && now == was.(symbols := was.symbols[name.value := Symbol(value, true, pass)])
          && bad == (!genuine || value != sym.value)
        else
          && now == was.(symbols := was.symbols[name.value := Symbol(value, genuine, pass)],
                         definedCount := was.definedCount + if genuine && !sym.defined then 1 else 0,
                         redefinedCount := was.redefinedCount + if genuine && sym.defined
                             && sym.value != value then 1 else 0)
          && bad == !tolerated
      else now == was && bad == !tolerated
    ensures RedefineIn(was, name, value, isDefined, status, pass, last) == (now, bad)
  {
    hide Allowed;
  }

  /** The state once an EQU, ORG or ALIGN has read its operand and set the pointer. */
  function Moved(st: State, r: Result, plan: Plan): State {
    Tally(st, r).(pointer := plan.pointer, pointerDefined := plan.pointerDefined)
  }

  lemma {:induction false} PlacingIs(st: State, name: Option<string>, stmt: Stmt, pass: nat, last: bool)
    requires PlacesItself(stmt)
    ensures var r, plan := Evaluate(Lookup(st, 0), stmt.operand), PlanOf(st, stmt, pass, last);
      DoPlacing(st, name, stmt, pass, last) ==
      if plan.call.None? then Advance(Erred(Moved(st, r, plan), true), 0, r.value, [])
      else
        var c := plan.call.value;
        var (st', bad) := RedefineIn(Moved(st, r, plan), name, c.value, c.valueDefined, c.status, pass, last);
        Advance(Erred(st', bad || (stmt.Equ? && !(name.Some? && name.value in st.symbols))), plan.skip, r.value, [])
  {
    hide Evaluate, PlanOf, RedefineIn;
  }

  lemma {:induction false} MovedIs(st: State, r: Result, plan: Plan)
    ensures Moved(st, r, plan) == Tally(st, r).(pointer := plan.pointer, pointerDefined := plan.pointerDefined)
  {
    hide Tally;
  }

  class Assembly {
    var symbols: map<string, Symbol>
    var sizes: seq<nat>           // size_record_list
    var current: nat              // size_record_current
    var pointer: Word             // assembly_pointer
    var pointerDefined: bool
    var definedCount: nat
    var redefinedCount: nat
    var undefinedCount: nat
    var errors: nat
    var divZero: bool
    var listing: seq<Entry>

    function Now(): State
      reads this
    {
      State(symbols, sizes, current, pointer, pointerDefined, definedCount, redefinedCount, undefinedCount, errors,
            divZero, listing)
    }

    constructor ()
      ensures Now() == FRESH
    {
      symbols, sizes, current, pointer, pointerDefined := map[], [], 0, 0, true;
      definedCount, redefinedCount, undefinedCount, errors, divZero, listing := 0, 0, 0, 0, false, [];
    }

    method StartPass()
      modifies this
      ensures Now() == Begin(old(Now()))
    {
      current, pointer, pointerDefined := 0, 0, true;
      definedCount, redefinedCount, undefinedCount, errors, divZero, listing := 0, 0, 0, 0, false, [];
    }

    /** The counters assemble_redef_label moves for a genuine value. */
    method NoteValue(sym: Symbol, value: Word)
      modifies this`definedCount, this`redefinedCount
      ensures definedCount == old(definedCount) + if !sym.defined then 1 else 0
      ensures redefinedCount == old(redefinedCount) + if sym.defined && sym.value != value then 1 else 0
    {
      if !sym.defined {
        definedCount := definedCount + 1;
      } else if sym.value != value {
        redefinedCount := redefinedCount + 1;
      }
    }

    /** assemble_redef_label, on the label of the current line if it has one. */
    method RedefLabel(name: Option<string>, value: Word, isDefined: bool, status: Status, passCount: nat,
            lastPass: bool)
      returns (bad: bool)
      modifies this`symbols, this`definedCount, this`redefinedCount
      ensures (Now(), bad) == RedefineIn(old(Now()), name, value, isDefined, status, passCount, lastPass)
    {
      hide Allowed, RedefineIn, Redefine;
      ghost var was := Now();
      bad := status != Okay && !Allowed(status, passCount == 0, lastPass);
      if name.Some? && name.value in symbols {
        var sym := symbols[name.value];
        var valueDefined := status == Okay && isDefined;
        if passCount == sym.pass && sym.defined {
          bad := !valueDefined || value != sym.value;
          symbols := symbols[name.value := Symbol(value, true, passCount)];
        } else {
          if valueDefined {
            NoteValue(sym, value);
          }
          symbols := symbols[name.value := Symbol(value, valueDefined, passCount)];
        }
      }
      Relabelled(was, Now(), bad, name, value, isDefined, status, passCount, lastPass);
    }

    /** variable_item_size; behind the last record the wanted size is taken as it is. */
    method VariableItemSize(firstPass: bool, wanted: nat, passCount: nat) returns (size: Word)
      requires firstPass <==> passCount == 0
      modifies this`sizes, this`current
      ensures (Now(), size) == TakeSize(old(Now()), wanted, passCount)
    {
      var allotted := wanted;
      if firstPass {
        sizes := sizes + [wanted];
      } else if current < |sizes| {
        if sizes[current] != allotted {
          if passCount < SHRINK_STOP || sizes[current] < allotted {
            sizes := sizes[current := allotted];
          } else {
            allotted := sizes[current];
          }
        }
        assert sizes == old(sizes)[current := allotted];
        current := current + 1;
      }
      size := allotted % MODULUS_32;
    }

    /** One expression, `increment` bytes into the line, and the counters it moves. */
    method Read(ts: seq<Token>, increment: Word) returns (r: Result)
      modifies this`undefinedCount, this`divZero
      ensures r == Evaluate(Lookup(old(Now()), increment), ts) && Now() == Tally(old(Now()), r)
    {
      r := Evaluate(Lookup(Now(), increment), ts);
      undefinedCount := undefinedCount + r.log.misses;
      divZero := divZero || r.log.divZero;
    }

    method Report(bad: bool)
      modifies this`errors
      ensures Now() == Erred(old(Now()), bad)
    {
      if bad {
        errors := errors + 1;
      }
    }

    method Place(size: Word, value: Word, items: seq<Word>)
      modifies this`pointer, this`listing
      ensures Now() == Advance(old(Now()), size, value, items)
    {
      listing := listing + [Entry(pointer, size, value, items)];
      pointer := Wrap(pointer + size);
    }

    /** assemble_define. */
    method Define(unit: nat, items: seq<seq<Token>>, passCount: nat, lastPass: bool)
      returns (increment: Word, values: seq<Word>, bad: bool)
      modifies this`undefinedCount, this`divZero
      ensures Definition(Now(), increment, values, bad) == DoItems(old(Now()), unit, items, 0, [], passCount, lastPass)
    {
      hide Evaluate;
      var k := 0;
      increment, values, bad := 0, [], false;
      while k < |items| && !bad
        invariant k <= |items|
        invariant DoItems(old(Now()), unit, items, 0, [], passCount, lastPass)
                  == if bad then Definition(Now(), increment, values, true)
                     else DoItems(Now(), unit, items[k..], increment, values, passCount, lastPass)
        decreases |items| - k, !bad
      {
        assert items[k..][1..] == items[k + 1..];
        var r := Read(items[k], increment);
        if Failed(r, passCount, lastPass) {
          bad := true;
        } else {
          increment := Wrap(increment + unit);
          values := values + [r.value];
          k := k + 1;
        }
      }
    }

    /** parse_source_line and assemble_line. */
    method AssembleLine(line: Line, passCount: nat, lastPass: bool)
      modifies this
      ensures Now() == DoLine(old(Now()), line, passCount, lastPass)
    {
      hide Evaluate, RedefineIn, DoStmt, DoPlacing, Erred, Advance;
      if line.name.Some? && line.name.value !in symbols && passCount == 0 {
        symbols := symbols[line.name.value := Symbol(0, false, 0)];
      }
      if PlacesItself(line.stmt) {
        AssemblePlacing(line.name, line.stmt, passCount, lastPass);
      } else {
        var bad := RedefLabel(line.name, pointer, pointerDefined, Okay, passCount, lastPass);
        if bad {
          Report(true);
          Place(0, 0, []);
        } else {
          AssembleStmt(line.stmt, passCount, lastPass);
        }
      }
    }

    method AssembleStmt(stmt: Stmt, passCount: nat, lastPass: bool)
      requires !PlacesItself(stmt)
      modifies this
      ensures Now() == DoStmt(old(Now()), stmt, passCount, lastPass)
    {
      hide Evaluate, Wanted, Straight, Fits, TakeSize, DoItems;
      match stmt {
        case Instr(form, ts, always) =>
          var value: Word := 0;
          if always || passCount == 0 || lastPass {
            var r := Read(ts, 0);
            Report(Rejected(Fits(form, r.value, pointer), r, passCount, lastPass));
            value := r.value;
          }
          Place(4, value, []);
        case Global(ts) =>
          var r := Read(ts, 0);
          var failed := Failed(r, passCount, lastPass);
          Report(failed);
          Place(if failed then 4 else 8, r.value, []);
        case Variable(kind, ts) =>
          var r := Read(ts, 0);
          var rejected := Rejected(Straight(kind, r.value, pointer), r, passCount, lastPass);
          var size := VariableItemSize(passCount == 0, Wanted(kind, r.value, pointer), passCount);
          Report(rejected);
          Place(size, r.value, []);
        case Data(unit, items) =>
          var n, values, bad := Define(unit, items, passCount, lastPass);
          Report(bad);
          Place(n, 0, values);
        case Space(ts) =>
          var r := Read(ts, 0);
          var failed := Failed(r, passCount, lastPass);
          Report(failed);
          Place(if failed then 0 else r.value, r.value, []);
        case Blank => Place(0, 0, []);
        case _ => assert false;
      }
    }

    /** EQU, ORG and ALIGN. */
    method AssemblePlacing(name: Option<string>, stmt: Stmt, passCount: nat, lastPass: bool)
      requires PlacesItself(stmt)
      modifies this
      ensures Now() == DoPlacing(old(Now()), name, stmt, passCount, lastPass)
    {
      hide Evaluate, RedefineIn, PlanOf, Erred, Advance, Lookup, Tally, DoPlacing, Moved;
      PlacingIs(Now(), name, stmt, passCount, lastPass);
      ghost var was, read := Now(), Evaluate(Lookup(Now(), 0), stmt.operand);
      var plan := PlanOf(Now(), stmt, passCount, lastPass);
      var unnamed := stmt.Equ? && !(name.Some? && name.value in symbols);
      var r := Read(stmt.operand, 0);
      MovedIs(was, read, plan);
      pointer, pointerDefined := plan.pointer, plan.pointerDefined;
      assert Now() == Moved(was, read, plan);
      if plan.call.None? {
        Report(true);
        Place(0, r.value, []);
      } else {
        var c := plan.call.value;
        var bad := RedefLabel(name, c.value, c.valueDefined, c.status, passCount, lastPass);
        Report(bad || unnamed);
        Place(plan.skip, r.value, []);
      }
    }

    /** code_pass: every line of the source. */
    method CodePass(prog: seq<Line>, passCount: nat, lastPass: bool)
      modifies this
      ensures Now() == Pass(prog, old(Now()), passCount, lastPass)
    {
      hide DoLine;
      StartPass();
      var i := 0;
      while i < |prog|
        invariant i <= |prog|
        invariant Run(prog, i, Now(), passCount, lastPass) == Pass(prog, old(Now()), passCount, lastPass)
      {
        AssembleLine(prog[i], passCount, lastPass);
        i := i + 1;
      }
    }

    /** The pass loop of `main`.  At most 22 passes are made.  A last pass is made exactly after the
        first stable one; its layout is then the stable pass's, and what it emits is consistent. */
    method Assemble(prog: seq<Line>) returns (passes: nat, dumpCode: bool, ending: Ending)
      requires Now() == FRESH
      modifies this
      ensures 1 <= passes <= 22 && Undecided(prog, passes) && Now() == Ended(prog, passes)
      ensures ending.Errors? <==> errors != 0
      ensures ending.Settled? <==> errors == 0 && LastPass(prog, passes)
      ensures ending.GaveUp? ==> passes == 22
      ensures ending.Settled? ==> (
                SameShape(After(prog, passes - 1).listing, listing) && Laid(prog, 0, listing, Now()))
      ensures dumpCode <==> LastPass(prog, passes) && !After(prog, passes - 1).divZero
      ensures dumpCode && passes > 2 ==> SameShape(After(prog, passes - 1).listing, listing)
    {
      hide Pass, Laid, SameShape;
      var passCount, lastPass, finished := 0, false, false;
      passes := 0;
      dumpCode := false;
      ending := GaveUp;
      while !finished
        invariant 0 <= passCount <= MAX_PASSES + 1
        invariant passes == if finished then passCount + 1 else passCount
        invariant Undecided(prog, passCount + 1) && (lastPass <==> LastPass(prog, passCount + 1))
        invariant dumpCode <==> lastPass && !After(prog, passCount).divZero
        invariant !finished ==> Now() == After(prog, passCount)
        invariant finished ==> Now() == Ended(prog, passes)
        invariant finished ==> (ending.Errors? <==> errors != 0)
        invariant finished ==> (ending.Settled? <==> errors == 0 && lastPass)
        invariant finished && ending.GaveUp? ==> passCount == MAX_PASSES + 1
        decreases !finished, MAX_PASSES + 1 - passCount
      {
        CodePass(prog, passCount, lastPass);
        passes := passes + 1;
        if errors != 0 {
          finished, ending := true, Errors;
        } else if lastPass || passCount > MAX_PASSES {
          finished, ending := true, if lastPass then Settled else GaveUp;
        } else {
          assert Now() == After(prog, passCount + 1);
          if definedCount == 0 && redefinedCount == 0 && undefinedCount == 0 {
            lastPass := true;
            dumpCode := !divZero;
          }
          passCount := passCount + 1;
        }
      }
      if ending.Settled? {
        SettledLayout(prog, passes);
      }
      if dumpCode && passes > 2 {
        DumpedLayout(prog, passes);
      }
    }
  }
}
