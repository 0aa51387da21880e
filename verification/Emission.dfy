/** The passes and the planted words together (tools/assembler/rva.c): what the pseudo-operations of a finished program
do when they are executed where they were put. */
module Emission {
  import opened Options
  import opened Words
  import opened Expressions
  import opened Evaluator
  import opened Passes
  import PseudoOps

  /** The assembler has made its last pass without an error. */
  ghost predicate Finished(prog: seq<Line>, passes: nat) {
    LastPass(prog, passes) && After(prog, passes - 1).errors == 0 && Ended(prog, passes).errors == 0
  }

  /** Line `k` in the final listing, which has an entry for every line. */
  ghost function FinalEntry(prog: seq<Line>, passes: nat, k: nat): Entry
    requires passes > 0
  {
    var listing := Ended(prog, passes).listing;
    if k < |listing| then listing[k] else Entry(0, 0, 0, [])
  }

  /** The entry's value is the operand's under the final symbols, read at the entry's address. */
  ghost predicate FinalValue(prog: seq<Line>, passes: nat, k: nat)
    requires passes > 0 && k < |prog| && HasOperand(prog[k].stmt)
  {
    var e := FinalEntry(prog, passes, k);
    ReadAt(Ended(prog, passes), e.address, prog[k].stmt.operand, e.value)
  }

  /** Statements that put their operand into code. */
  predicate HasOperand(stmt: Stmt) {
    stmt.Instr? || stmt.Global? || stmt.Variable?
  }

  /** The entry's value and address as machine words. */
  function Value(e: Entry): bv32 { Bits(e.value) }

  function Address(e: Entry): bv32 { Bits(e.address) }

  /** How far from the entry's address its value is. */
  function Distance(e: Entry): bv32 { PseudoOps.Offset(Value(e), Address(e)) }

  lemma {:induction false} RelativeIs(kind: Pseudo, e: Entry)
    ensures Relative(kind, e.value, e.address)
            == if kind.LI? then Value(e) else PseudoOps.Offset(Value(e), Address(e))
  {
    hide PseudoOps.Offset, Bits;
  }

  /** The words planted for an entry of the listing. */
  function WordsOf(kind: Pseudo, rd: PseudoOps.Register, e: Entry): seq<bv32> {
    PseudoOps.Planted(kind, rd, Relative(kind, e.value, e.address), e.size)
  }

  lemma {:induction false} EntryOf(prog: seq<Line>, passes: nat, k: nat)
    requires passes > 0 && Finished(prog, passes) && k < |prog|
    ensures Emitted(prog[k], Reached(Ended(prog, passes).listing, k), FinalEntry(prog, passes, k), Ended(prog, passes))
    ensures Sized(prog[k], FinalEntry(prog, passes, k), passes - 1)
  {
    hide Emitted, Sized, After, Ended, LastPass, SameShape;
    SettledLayout(prog, passes);
    SettledSizes(prog, passes);
  }

  /** What the last pass says of a pseudo-operation. */
  lemma {:induction false} VariableOf(prog: seq<Line>, passes: nat, k: nat, kind: Pseudo)
    requires passes > 0 && Finished(prog, passes) && k < |prog| && prog[k].stmt.Variable? && prog[k].stmt.kind == kind
    ensures HasOperand(prog[k].stmt) && FinalValue(prog, passes, k)
    ensures var e := FinalEntry(prog, passes, k);
      && (e.size == 4 || e.size == 8) && Wanted(kind, e.value, e.address) <= e.size
      && (passes <= 10 ==> e.size == Wanted(kind, e.value, e.address)) && Straight(kind, e.value, e.address)
  {
    hide Wanted, Straight, Fits, Ended, Finished, FinalEntry, ReadAt;
    EntryOf(prog, passes, k);
  }

  /** As many words as the layout left room for. */
  lemma {:induction false} FillsItsPlace(kind: Pseudo, rd: PseudoOps.Register, e: Entry)
    requires (e.size == 4 || e.size == 8) && Wanted(kind, e.value, e.address) <= e.size
    ensures 4 * |WordsOf(kind, rd, e)| == e.size
  {
    hide PseudoOps.TwoWords, PseudoOps.Expand, Relative;
  }

  /** LI: its register ends up with the operand's final value. */
  lemma {:induction false} FinalLoadImmediate(prog: seq<Line>, passes: nat, k: nat, rd: PseudoOps.Register,
                     h: PseudoOps.Hart)
    requires passes > 0 && Finished(prog, passes) && k < |prog| && prog[k].stmt.Variable?
             && prog[k].stmt.kind == PseudoOps.LI
    requires rd != 0
    ensures HasOperand(prog[k].stmt) && FinalValue(prog, passes, k)
    ensures var e := FinalEntry(prog, passes, k);
      var ws := WordsOf(PseudoOps.LI, rd, e);
      && 4 * |ws| == e.size
      && PseudoOps.Leaves(h, PseudoOps.ExecuteAll(h, ws), rd, Value(e), if |ws| == 1 then 4 else 8)
  {
    hide *;
    VariableOf(prog, passes, k, PseudoOps.LI);
    var e := FinalEntry(prog, passes, k);
    FillsItsPlace(PseudoOps.LI, rd, e);
    RelativeIs(PseudoOps.LI, e);
    WordsAre(PseudoOps.LI, rd, e);
    PseudoOps.LoadImmediate(h, rd, Value(e), e.size);
  }

  /** LA: executed where it was put, its register ends up with the final address. */
  lemma {:induction false} FinalLoadAddress(prog: seq<Line>, passes: nat, k: nat, rd: PseudoOps.Register,
                     h: PseudoOps.Hart)
    requires passes > 0 && Finished(prog, passes) && k < |prog| && prog[k].stmt.Variable?
             && prog[k].stmt.kind == PseudoOps.LA
    requires rd != 0 && h.pc == Address(FinalEntry(prog, passes, k))
    ensures HasOperand(prog[k].stmt) && FinalValue(prog, passes, k)
    ensures var e := FinalEntry(prog, passes, k);
      PseudoOps.Leaves(h, PseudoOps.ExecuteAll(h, WordsOf(PseudoOps.LA, rd, e)), rd, Value(e), 8)
  {
    hide *;
    VariableOf(prog, passes, k, PseudoOps.LA);
    AddressWords(h, rd, FinalEntry(prog, passes, k));
  }

  /** CALL: executed where it was put, at an address a hart can execute at, it gets to the final address and links
      behind itself, exactly when the layout does not hold it at two words within reach of one; always in a program
      finished in at most ten passes. */
  lemma {:induction false} FinalCall(prog: seq<Line>, passes: nat, k: nat, h: PseudoOps.Hart)
    requires passes > 0 && Finished(prog, passes) && k < |prog| && prog[k].stmt.Variable?
             && prog[k].stmt.kind == PseudoOps.CALL
    requires h.pc == Address(FinalEntry(prog, passes, k)) && PseudoOps.Even(h.pc)
    ensures HasOperand(prog[k].stmt) && FinalValue(prog, passes, k)
    ensures var e := FinalEntry(prog, passes, k);
      var ws, target := WordsOf(PseudoOps.CALL, 0, e), Value(e);
      && 4 * |ws| == e.size
      && (PseudoOps.Called(h, PseudoOps.ExecuteAll(h, ws), target, if |ws| == 1 then 4 else 8)
          <==> (PseudoOps.Near(PseudoOps.Offset(target, h.pc)) ==> e.size != 8))
      && (passes <= 10 ==> PseudoOps.Called(h, PseudoOps.ExecuteAll(h, ws), target, if |ws| == 1 then 4 else 8))
  {
    hide *;
    VariableOf(prog, passes, k, PseudoOps.CALL);
    var e := FinalEntry(prog, passes, k);
    FillsItsPlace(PseudoOps.CALL, 0, e);
    StraightIs(e);
    CallWords(h, e);
    DistanceIs(e);
    if PseudoOps.Near(Distance(e)) { WantedNear(e); }
  }

  /** A CALL within reach wants four bytes. */
  lemma {:induction false} WantedNear(e: Entry)
    requires PseudoOps.Even(Distance(e)) && PseudoOps.Near(Distance(e))
    ensures Wanted(PseudoOps.CALL, e.value, e.address) == 4
  {
    hide PseudoOps.Even, PseudoOps.Near, PseudoOps.Offset, Bits;
  }

  lemma {:induction false} StraightIs(e: Entry)
    ensures Straight(PseudoOps.CALL, e.value, e.address) <==> PseudoOps.Even(PseudoOps.Offset(Value(e), Address(e)))
  {
    hide PseudoOps.Even, Value, Address, Relative, PseudoOps.Offset;
    RelativeIs(PseudoOps.CALL, e);
  }

  lemma {:induction false} AddressWords(h: PseudoOps.Hart, rd: PseudoOps.Register, e: Entry)
    requires rd != 0 && h.pc == Address(e)
    ensures PseudoOps.Leaves(h, PseudoOps.ExecuteAll(h, WordsOf(PseudoOps.LA, rd, e)), rd, Value(e), 8)
  {
    hide *;
    RelativeIs(PseudoOps.LA, e);
    WordsAre(PseudoOps.LA, rd, e);
    PseudoOps.LoadAddress(h, rd, Value(e), e.size);
  }

  lemma {:induction false} WordsAre(kind: Pseudo, rd: PseudoOps.Register, e: Entry)
    ensures WordsOf(kind, rd, e) == PseudoOps.Planted(kind, rd, Relative(kind, e.value, e.address), e.size)
  {
    hide PseudoOps.Planted, Relative;
  }

  lemma {:induction false} CallWords(h: PseudoOps.Hart, e: Entry)
    requires h.pc == Address(e) && PseudoOps.Even(h.pc) && PseudoOps.Even(PseudoOps.Offset(Value(e), h.pc))
    ensures var ws := WordsOf(PseudoOps.CALL, 0, e);
      PseudoOps.Called(h, PseudoOps.ExecuteAll(h, ws), Value(e), if |ws| == 1 then 4 else 8)
      <==> (PseudoOps.Near(PseudoOps.Offset(Value(e), h.pc)) ==> e.size != 8)
  {
    hide *;
    RelativeIs(PseudoOps.CALL, e);
    WordsAre(PseudoOps.CALL, 0, e);
    PseudoOps.CallReaches(h, Value(e), e.size);
  }

  // ---------------------------------------------------------------- instructions

  /** What the last pass says of an instruction of this form. */
  lemma {:induction false} InstrOf(prog: seq<Line>, passes: nat, k: nat, form: Form)
    requires passes > 0 && Finished(prog, passes) && k < |prog| && prog[k].stmt.Instr? && prog[k].stmt.form == form
    ensures HasOperand(prog[k].stmt) && FinalValue(prog, passes, k)
    ensures Fits(form, FinalEntry(prog, passes, k).value, FinalEntry(prog, passes, k).address)
  {
    hide Wanted, Straight, Fits, Ended, Finished, FinalEntry, ReadAt;
    EntryOf(prog, passes, k);
  }

  lemma {:induction false} FitsIs(form: Form, e: Entry)
    ensures Fits(form, e.value, e.address) <==>
            match form
            case Plain => true
            case Upper => Value(e) & 0xFFF == 0
            case Immediate => PseudoOps.ByteRange(Value(e))
            case Branch => PseudoOps.Even(Distance(e)) && PseudoOps.BranchRange(Distance(e))
            case Jal => PseudoOps.Even(Distance(e)) && PseudoOps.JumpRange(Distance(e))
            case Jump => PseudoOps.JumpRange(Distance(e))
  {
    hide PseudoOps.Even, PseudoOps.BranchRange, PseudoOps.JumpRange, PseudoOps.ByteRange, PseudoOps.Offset, Bits;
  }

  /** A branch's operand passes its test exactly when the branch then leads there. */
  lemma {:induction false} BranchFits(e: Entry, word: bv32)
    requires word & 0xFE00_0F80 == 0
    ensures Fits(Branch, e.value, e.address)
            <==> PseudoOps.Sum(Address(e), PseudoOps.ImmB(word | PseudoOps.BOffset(Distance(e)))) == Value(e)
  {
    hide *;
    FitsIs(Branch, e);
    DistanceIs(e);
    PseudoOps.BranchReaches(word, Address(e), Value(e));
  }

  /** So does a JAL's. */
  lemma {:induction false} LinkFits(e: Entry, word: bv32)
    requires word & 0xFFFF_F000 == 0
    ensures Fits(Jal, e.value, e.address)
            <==> PseudoOps.Sum(Address(e), PseudoOps.ImmJ(word | PseudoOps.ImmJal(Distance(e)))) == Value(e)
  {
    hide *;
    FitsIs(Jal, e);
    DistanceIs(e);
    PseudoOps.JumpReaches(word, Address(e), Value(e));
  }

  /** A J's exactly when it leads there but for the lowest bit of the distance. */
  lemma {:induction false} JumpFits(e: Entry, word: bv32)
    requires word & 0xFFFF_F000 == 0
    ensures Fits(Jump, e.value, e.address)
            <==> PseudoOps.ImmJ(word | PseudoOps.ImmJal(Distance(e))) == PseudoOps.Aligned(Distance(e))
  {
    hide *;
    FitsIs(Jump, e);
    PseudoOps.JumpTruncates(word, Distance(e));
  }

  /** An immediate's exactly when the word then holds it. */
  lemma {:induction false} ImmediateFits(e: Entry, word: bv32)
    requires word & 0xFFF0_0000 == 0
    ensures Fits(Immediate, e.value, e.address) <==> PseudoOps.ImmI(word | ((Value(e) & 0xFFF) << 20)) == Value(e)
  {
    hide *;
    FitsIs(Immediate, e);
    PseudoOps.ImmediateDecodes(word, Value(e));
  }

  lemma {:induction false} UpperFits(e: Entry, word: bv32)
    requires word & 0xFFFF_F000 == 0
    ensures Fits(Upper, e.value, e.address) <==> PseudoOps.ImmU(word | Value(e)) == Value(e)
  {
    hide *;
    FitsIs(Upper, e);
    PseudoOps.UpperExactly(word, Value(e));
  }

  /** A CALL's exactly when the distance is even; LI and LA take any. */
  lemma {:induction false} CallFits(kind: Pseudo, e: Entry)
    ensures Straight(kind, e.value, e.address) <==> kind != PseudoOps.CALL || Distance(e) & 1 == 0
  {
    hide *;
    StraightIs(e);
    DistanceIs(e);
    PseudoOps.EvenIs(Distance(e));
    if kind != PseudoOps.CALL { OthersStraight(kind, e); }
  }

  lemma {:induction false} OthersStraight(kind: Pseudo, e: Entry)
    requires kind != PseudoOps.CALL
    ensures Straight(kind, e.value, e.address)
  {
  }

  /** A branch of a finished program, executed where it was put, leads to its operand's final value. */
  lemma {:induction false} FinalBranch(prog: seq<Line>, passes: nat, k: nat, word: bv32)
    requires passes > 0 && Finished(prog, passes) && k < |prog| && prog[k].stmt.Instr? && prog[k].stmt.form == Branch
    requires word & 0xFE00_0F80 == 0
    ensures HasOperand(prog[k].stmt) && FinalValue(prog, passes, k)
    ensures var e := FinalEntry(prog, passes, k);
      PseudoOps.Sum(Address(e), PseudoOps.ImmB(word | PseudoOps.BOffset(Distance(e)))) == Value(e)
  {
    hide *;
    InstrOf(prog, passes, k, Branch);
    var e := FinalEntry(prog, passes, k);
    FitsIs(Branch, e);
    DistanceIs(e);
    PseudoOps.BranchReaches(word, Address(e), Value(e));
  }

  lemma {:induction false} DistanceIs(e: Entry)
    ensures Distance(e) == PseudoOps.Offset(Value(e), Address(e))
  {
    hide PseudoOps.Offset;
  }

  /** A jump too, except that J, whose target is not looked at for alignment, misses an odd distance. */
  lemma {:induction false} FinalJump(prog: seq<Line>, passes: nat, k: nat, word: bv32)
    requires passes > 0 && Finished(prog, passes) && k < |prog| && prog[k].stmt.Instr?
    requires (prog[k].stmt.form == Jal || prog[k].stmt.form == Jump) && word & 0xFFFF_F000 == 0
    ensures HasOperand(prog[k].stmt) && FinalValue(prog, passes, k)
    ensures var e := FinalEntry(prog, passes, k);
      PseudoOps.Sum(Address(e), PseudoOps.ImmJ(word | PseudoOps.ImmJal(Distance(e)))) == Value(e)
      <==> prog[k].stmt.form == Jal || PseudoOps.Even(Distance(e))
  {
    hide *;
    InstrOf(prog, passes, k, prog[k].stmt.form);
    var e := FinalEntry(prog, passes, k);
    FitsIs(prog[k].stmt.form, e);
    DistanceIs(e);
    PseudoOps.JumpReaches(word, Address(e), Value(e));
  }

  /** Twelve-bit immediates and upper immediates of a finished program are the operand's final value. */
  lemma {:induction false} FinalImmediate(prog: seq<Line>, passes: nat, k: nat, word: bv32)
    requires passes > 0 && Finished(prog, passes) && k < |prog| && prog[k].stmt.Instr?
    ensures HasOperand(prog[k].stmt) && FinalValue(prog, passes, k)
    ensures var v := Value(FinalEntry(prog, passes, k));
      && (prog[k].stmt.form == Immediate && word & 0xFFF0_0000 == 0 ==> PseudoOps.ImmI(word | ((v & 0xFFF) << 20)) == v)
      && (prog[k].stmt.form == Upper && word & 0xFFFF_F000 == 0 ==> PseudoOps.ImmU(word | v) == v)
  {
    hide *;
    InstrOf(prog, passes, k, prog[k].stmt.form);
    var e := FinalEntry(prog, passes, k);
    FitsIs(prog[k].stmt.form, e);
    if prog[k].stmt.form == Immediate && word & 0xFFF0_0000 == 0 { PseudoOps.ImmediateDecodes(word, Value(e)); }
    if prog[k].stmt.form == Upper && word & 0xFFFF_F000 == 0 { PseudoOps.UpperDecodes(word, Value(e)); }
  }

  /** What the last pass says of a load or store of a named address. */
  lemma {:induction false} GlobalOf(prog: seq<Line>, passes: nat, k: nat)
    requires passes > 0 && Finished(prog, passes) && k < |prog| && prog[k].stmt.Global?
    ensures HasOperand(prog[k].stmt) && FinalValue(prog, passes, k) && FinalEntry(prog, passes, k).size == 8
  {
    hide Wanted, Straight, Fits, Ended, Finished, FinalEntry, ReadAt;
    EntryOf(prog, passes, k);
  }

  /** A load of a named address in a finished program, executed where it was put, reads from the final address: exactly
      when its register is not x0, or the upper part of the address is 0 anyway. */
  lemma {:induction false} FinalLoad(prog: seq<Line>, passes: nat, k: nat, rd: PseudoOps.Register, funct3: bv32,
                     h: PseudoOps.Hart)
    requires passes > 0 && Finished(prog, passes) && k < |prog| && prog[k].stmt.Global?
    requires h.pc == Address(FinalEntry(prog, passes, k)) && funct3 < 8
    ensures HasOperand(prog[k].stmt) && FinalValue(prog, passes, k)
    ensures var e := FinalEntry(prog, passes, k);
      var mid := PseudoOps.Execute(h, PseudoOps.Decode(PseudoOps.GlobalPrefix(rd, Distance(e))));
      var word := PseudoOps.Decode(PseudoOps.LoadWord(rd, funct3, PseudoOps.Packed(rd, Distance(e))));
      && e.size == 8 && mid.Some? && word.Load? && word.rd == rd && word.width == funct3
      && (PseudoOps.AddressOf(mid.value, word) == Value(e)
          <==> rd != 0 || PseudoOps.Sum(h.pc, PseudoOps.High(Distance(e))) == 0)
    ensures var e := FinalEntry(prog, passes, k);
      var ws := [PseudoOps.GlobalPrefix(rd, Distance(e)),
                 PseudoOps.LoadWord(rd, funct3, PseudoOps.Packed(rd, Distance(e)))];
      rd != 0 ==> PseudoOps.Leaves(h, PseudoOps.ExecuteAll(h, ws), rd, h.memory(Value(e), funct3), 8)
  {
    hide *;
    GlobalOf(prog, passes, k);
    DistanceIs(FinalEntry(prog, passes, k));
    if rd != 0 { PseudoOps.GlobalLoads(h, rd, funct3, Value(FinalEntry(prog, passes, k))); }
    PseudoOps.GlobalLoad(h, rd, funct3, Value(FinalEntry(prog, passes, k)));
  }

  /** A store likewise, under the same condition on its extra register. */
  lemma {:induction false} FinalStore(prog: seq<Line>, passes: nat, k: nat, base: PseudoOps.Register,
                     rs: PseudoOps.Register, funct3: bv32, h: PseudoOps.Hart)
    requires passes > 0 && Finished(prog, passes) && k < |prog| && prog[k].stmt.Global?
    requires h.pc == Address(FinalEntry(prog, passes, k)) && funct3 < 8
    ensures HasOperand(prog[k].stmt) && FinalValue(prog, passes, k)
    ensures var e := FinalEntry(prog, passes, k);
      var mid := PseudoOps.Execute(h, PseudoOps.Decode(PseudoOps.GlobalPrefix(base, Distance(e))));
      var word := PseudoOps.Decode(PseudoOps.StoreWord(rs, funct3, PseudoOps.Packed(base, Distance(e))));
      var high := PseudoOps.Sum(h.pc, PseudoOps.High(Distance(e)));
      && e.size == 8 && mid.Some? && word.Store? && word.data == rs && word.width == funct3
      && (PseudoOps.AddressOf(mid.value, word) == Value(e) <==> base != 0 || high == 0)
      && (mid.value.Read(word.data) == h.Read(rs) <==> rs != base || base == 0 || h.Read(rs) == high)
  {
    hide *;
    GlobalOf(prog, passes, k);
    DistanceIs(FinalEntry(prog, passes, k));
    PseudoOps.GlobalStore(h, base, rs, funct3, Value(FinalEntry(prog, passes, k)));
  }
}
