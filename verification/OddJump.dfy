/** A program whose J does not reach its label (tools/assembler/rva.c, the J case of `rv32i_mnemonic`): one byte of data
lies in between, and the distance is not looked at for alignment. */
module OddJump {
  import opened Options
  import opened Words
  import opened Expressions
  import opened Evaluator
  import opened Passes
  import opened Emission
  import HeldCall
  import PseudoOps

  const THERE: Word := 5

  const JumpLine: Line := Line(None, Instr(Jump, [Value(Keep, Label("there"))], false))
  const ByteLine: Line := Line(None, Data(1, [[Value(Keep, Number(0))]]))
  const LabelLine: Line := Line(Some("there"), Blank)

  /** The jump, a byte, and the label behind it. */
  const OVER_BYTE: seq<Line> := [JumpLine, ByteLine, LabelLine]

  /** The symbols in front of pass `p`. */
  function Table(p: nat): map<string, Symbol> {
    if p == 0 then map[] else map["there" := Symbol(THERE, true, p - 1)]
  }

  /** What the jump reads on pass `p`, if it is read. */
  function Target(p: nat, last: bool): Word {
    if p > 0 && last then THERE else 0
  }

  lemma {:induction false} ThereFits(v: Word)
    requires v == 0 || v == THERE
    ensures Fits(Jump, v, 0)
  {
    hide *;
    ZeroBits();
    if v == 0 { NearFits(v, 0); } else { NearFits(v, 5); }
  }

  lemma {:induction false} ZeroBits()
    ensures Bits(0) == 0 && Bits(THERE) == 5
  {
  }

  lemma {:induction false} NearFits(v: Word, bits: bv32)
    requires Bits(v) == bits && Bits(0) == 0 && (bits == 0 || bits == 5)
    ensures Fits(Jump, v, 0)
  {
    hide Bits;
  }

  lemma {:induction false} JumpStep(st: State, p: nat, last: bool)
    requires st.symbols == Table(p) && st.pointer == 0 && st.pointerDefined && (last ==> p > 0)
    ensures var out := DoLine(st, JumpLine, p, last);
      out == st.(pointer := 4, listing := st.listing + [Entry(0, 4, Target(p, last), [])], divZero := out.divZero)
  {
    hide Evaluate, Fits;
    HeldCall.Single(Lookup(st, 0), Label("there"));
    ThereFits(Target(p, last));
  }

  lemma {:induction false} ByteStep(st: State, p: nat, last: bool)
    requires st.pointer == 4 && st.pointerDefined
    ensures var out := DoLine(st, ByteLine, p, last);
      out == st.(pointer := THERE, listing := st.listing + [Entry(4, 1, 0, [0])], divZero := out.divZero)
  {
    hide Evaluate;
    HeldCall.Single(Lookup(st, 0), Number(0));
    var items, r := [[Value(Keep, Number(0))]], Evaluate(Lookup(st, 0), [Value(Keep, Number(0))]);
    assert items[1..] == [];
    assert DoItems(Tally(st, r), 1, [], 1, [0], p, last) == Definition(Tally(st, r), 1, [0], false);
    assert DoItems(st, 1, items, 0, [], p, last) == Definition(Tally(st, r), 1, [0], false);
  }

  lemma {:induction false} LabelStep(st: State, p: nat, last: bool)
    requires st.symbols == Table(p) && st.pointer == THERE && st.pointerDefined
    ensures var out := DoLine(st, LabelLine, p, last);
      && out.symbols == Table(p + 1) && out.errors == st.errors && out.undefinedCount == st.undefinedCount
      && out.redefinedCount == st.redefinedCount && (p > 0 ==> out.definedCount == st.definedCount)
      && out.listing == st.listing + [Entry(THERE, 0, 0, [])]
  {
  }

  lemma {:induction false} OnePass(st: State, p: nat, last: bool)
    requires st.symbols == Table(p) && (last ==> p > 0)
    ensures var out := Pass(OVER_BYTE, st, p, last);
      && out.symbols == Table(p + 1) && out.errors == 0 && out.redefinedCount == 0 && out.undefinedCount == 0
      && (p > 0 ==> out.definedCount == 0) && |out.listing| == 3 && out.listing[0] == Entry(0, 4, Target(p, last), [])
  {
    hide DoLine;
    var s0 := Begin(st);
    JumpStep(s0, p, last);
    var s1 := DoLine(s0, JumpLine, p, last);
    ByteStep(s1, p, last);
    var s2 := DoLine(s1, ByteLine, p, last);
    LabelStep(s2, p, last);
    var s3 := DoLine(s2, LabelLine, p, last);
    assert Run(OVER_BYTE, 3, s3, p, last) == s3;
    assert Run(OVER_BYTE, 2, s2, p, last) == s3;
    assert Run(OVER_BYTE, 1, s1, p, last) == s3;
  }

  /** The program is assembled without an error in three passes, and its jump, at 0, does not lead to the label at 5. */
  lemma {:induction false} OddJumpMisses(word: bv32)
    requires word & 0xFFFF_F000 == 0
    ensures Finished(OVER_BYTE, 3)
    ensures var e := FinalEntry(OVER_BYTE, 3, 0);
      && e == Entry(0, 4, THERE, [])
      && PseudoOps.Sum(Address(e), PseudoOps.ImmJ(word | PseudoOps.ImmJal(Distance(e)))) != Emission.Value(e)
  {
    hide *;
    LastOne();
    JumpIsLine();
    FinalJump(OVER_BYTE, 3, 0, word);
    OddDistance(FinalEntry(OVER_BYTE, 3, 0));
  }

  lemma {:induction false} JumpIsLine()
    ensures |OVER_BYTE| > 0 && OVER_BYTE[0].stmt.Instr? && OVER_BYTE[0].stmt.form == Jump
  {
  }

  lemma {:induction false} OddDistance(e: Entry)
    requires e == Entry(0, 4, THERE, [])
    ensures !PseudoOps.Even(Distance(e))
  {
    hide PseudoOps.Even;
    ZeroBits();
    FiveIsOdd();
  }

  lemma {:induction false} FiveIsOdd()
    ensures PseudoOps.Offset(5, 0) == 5 && !PseudoOps.Even(5)
  {
  }

  lemma {:induction false} LastOne()
    ensures Finished(OVER_BYTE, 3) && FinalEntry(OVER_BYTE, 3, 0) == Entry(0, 4, THERE, [])
  {
    hide Pass, OVER_BYTE, Table;
    FreshTable();
    OnePass(After(OVER_BYTE, 0), 0, false);
    OnePass(After(OVER_BYTE, 1), 1, false);
    OnePass(After(OVER_BYTE, 2), 2, true);
  }

  lemma {:induction false} FreshTable()
    ensures FRESH.symbols == Table(0)
  {
  }
}
