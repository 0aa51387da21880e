/** Which error evaluate reports (tools/assembler/rva.c, Eval_inner and get_variable). */
module Diagnosis {
  import opened Words
  import opened Expressions
  import opened Evaluator

  // ---------------------------------------------------------------- the first label without a value

  /** The log after the operands of these tokens. */
  function Scan(env: Env, ts: seq<Token>, log: Notes): Notes
    decreases |ts|
  {
    if ts == [] then log else Scan(env, ts[1..], if ts[0].Value? then Noted(env(ts[0].leaf), log) else log)
  }

  lemma {:induction false} ScanBoth(env: Env, a: seq<Token>, b: seq<Token>, log: Notes)
    ensures Scan(env, a + b, log) == Scan(env, b, Scan(env, a, log))
    decreases |a|
  {
    if a == [] {
      assert a + b == b;
    } else {
      assert (a + b)[1..] == a[1..] + b;
      ScanBoth(env, a[1..], b, if a[0].Value? then Noted(env(a[0].leaf), log) else log);
    }
  }

  lemma {:induction false} ScanOne(env: Env, t: Token, log: Notes)
    ensures Scan(env, [t], log) == if t.Value? then Noted(env(t.leaf), log) else log
  {
    assert [t][1..] == [];
  }

  lemma {:induction false} ScanBracket(env: Env, u: Unary, ts: seq<Token>, log: Notes)
    ensures Scan(env, [Open(u)] + ts + [Close], log) == Scan(env, ts, log)
  {
    ScanBoth(env, [Open(u)] + ts, [Close], log);
    ScanBoth(env, [Open(u)], ts, log);
    ScanOne(env, Open(u), log);
    ScanOne(env, Close, Scan(env, ts, log));
  }

  lemma {:induction false} ScanPair(env: Env, a: seq<Token>, op: Op, b: seq<Token>, log: Notes)
    ensures Scan(env, a + [Oper(op)] + b, log) == Scan(env, b, Scan(env, a, log))
  {
    ScanBoth(env, a + [Oper(op)], b, log);
    ScanBoth(env, a, [Oper(op)], log);
    ScanOne(env, Oper(op), Scan(env, a, log));
  }

  /** A tree's leaves are its text's. */
  lemma {:induction false} SeenScans(env: Env, e: Expr, min: nat, log: Notes)
    ensures Seen(env, e, log) == Scan(env, Show(e, min), log)
    decreases e, min
  {
    hide Scan, Noted;
    match e
    case Atom(leaf) => ScanOne(env, Value(Keep, leaf), log);
    case Prefixed(u, f) =>
      if f.Atom? {
        ScanOne(env, Value(u, f.leaf), log);
        assert Seen(env, f, log) == Noted(env(f.leaf), log);
      } else {
        SeenScans(env, f, 2, log);
        ScanBracket(env, u, Show(f, 2), log);
      }
    case Binary(op, l, r) =>
      var p := Priority(op);
      if p < min {
        SeenScans(env, e, 2, log);
        ScanBracket(env, Keep, Show(e, 2), log);
      } else {
        SeenScans(env, l, p, log);
        SeenScans(env, r, p + 1, Seen(env, l, log));
        ScanPair(env, Show(l, p), op, Show(r, p + 1), log);
      }
  }

  /** Nothing behind the first error changes it. */
  lemma {:induction false} ScanFirst(env: Env, ts: seq<Token>, log: Notes)
    ensures log.first != Okay ==> Scan(env, ts, log).first == log.first
    ensures log.first == Okay && (forall i :: 0 <= i < |ts| && ts[i].Value? ==> env(ts[i].leaf).Found?) ==>
              Scan(env, ts, log).first == Okay
    decreases |ts|
  {
    if ts != [] { ScanFirst(env, ts[1..], if ts[0].Value? then Noted(env(ts[0].leaf), log) else log); }
  }

  /** The error tolerated on early passes is that of the first label, in the order of the text, without a value. */
  lemma {:induction false} FirstReported(env: Env, ts: seq<Token>, i: nat)
    requires Evaluate(env, ts).log.error == Okay && i < |ts| && ts[i].Value? && !env(ts[i].leaf).Found?
    requires forall k :: 0 <= k < i && ts[k].Value? ==> env(ts[k].leaf).Found?
    ensures Outcome(Evaluate(env, ts)) == if env(ts[i].leaf).Missing? then NoLabel else LabelUndef
  {
    hide Evaluate, Show, Scan, Peak, Raises, Val, DivFree;
    var e := AcceptedIsTree(env, ts);
    SeenScans(env, e, 2, Start);
    var before := Scan(env, ts[..i], Start);
    ScanFirst(env, ts[..i], Start);
    assert ts == ts[..i] + [ts[i]] + ts[i + 1..];
    ScanBoth(env, ts[..i] + [ts[i]], ts[i + 1..], Start);
    ScanBoth(env, ts[..i], [ts[i]], Start);
    ScanOne(env, ts[i], before);
    ScanFirst(env, ts[i + 1..], Scan(env, [ts[i]], before));
  }

  // ---------------------------------------------------------------- text that is no expression

  /** What a level makes of a tree's text in front of more. */
  lemma {:induction false} Reads(env: Env, ts: seq<Token>, p: nat, e: Expr, base: nat, mark: nat)
    requires Shown(ts, p, e, 2) && base + Peak(e, 2) <= STACK_SIZE && !Raises(env, e, true)
    ensures NeedOperand(env, ts, p, base, mark, [], Start)
            == HaveOperand(env, ts, p + |Show(e, 2)|, base, mark, Spine(env, e, 2), Last(env, e, 2),
                   Read(env, e, 2, Start))
  {
    hide NeedOperand, HaveOperand, Show, Fate, Trouble, Raises, Peak, Read;
    Climb(env, ts, p, e, 2, base, mark, [], Start);
    FateIs(env, e, 2, base, Start);
    FitsExactly(e, 2, base);
    assert [] + Spine(env, e, 2) == Spine(env, e, 2);
  }

  lemma {:induction false} Folds(env: Env, e: Expr, priority: nat)
    requires priority <= 1 && !Raises(env, e, true)
    ensures var f := Fold(Spine(env, e, 2), Last(env, e, 2), priority, Read(env, e, 2, Start)); f.log.error == Okay
  {
    hide Fold, Raises, Read, FoldNotes, Done, Val, Spine, Last;
    assert [] + Spine(env, e, 2) == Spine(env, e, 2);
    FoldSpine(env, e, 2, [], priority, Read(env, e, 2, Start));
    ReadThenFold(env, e, 2, Start);
    FoldStops([], Val(env, e), priority, Done(env, e, Start));
    DoneIs(env, e, Start);
    SeenError(env, e, Start);
  }

  lemma {:induction false} ShownFirst(a: seq<Token>, e: Expr, b: seq<Token>, min: nat)
    requires a == Show(e, min) + b
    ensures Shown(a, 0, e, min)
  {
    assert a[0..|Show(e, min)|] == Show(e, min);
  }

  /** A closing bracket too many. */
  lemma {:induction false} CloseReported(env: Env, e: Expr, rest: seq<Token>)
    requires Peak(e, 2) < STACK_SIZE && !Raises(env, e, true)
    ensures Evaluate(env, Show(e, 2) + [Close] + rest).log.error == NotOpenBr
  {
    hide NeedOperand, HaveOperand, Show, Raises, Peak, Read, Fold, Spine, Last;
    var ts := Show(e, 2) + [Close] + rest;
    assert ts == Show(e, 2) + ([Close] + rest) && ts[|Show(e, 2)|] == Close;
    ShownFirst(ts, e, [Close] + rest, 2);
    Reads(env, ts, 0, e, 1, 0);
    Folds(env, e, 1);
    AtToken(env, ts, |Show(e, 2)|, 1, 0, Spine(env, e, 2), Last(env, e, 2), Read(env, e, 2, Start));
    EvaluateIs(env, ts);
  }

  lemma {:induction false} EvaluateIs(env: Env, ts: seq<Token>)
    ensures Evaluate(env, ts) == NeedOperand(env, ts, 0, 1, 0, [], Start)
  {
  }

  /** A closing bracket missing. */
  lemma {:induction false} OpenReported(env: Env, u: Unary, e: Expr)
    requires Peak(e, 2) + 1 < STACK_SIZE && !Raises(env, e, true)
    ensures Evaluate(env, [Open(u)] + Show(e, 2)).log.error == NotCloseBr
  {
    hide NeedOperand, HaveOperand, Show, Raises, Peak, Read, Fold, Spine, Last;
    var ts := [Open(u)] + Show(e, 2);
    assert ts[1..1 + |Show(e, 2)|] == Show(e, 2);
    Reads(env, ts, 1, e, 2, 1);
    Folds(env, e, 0);
    AtToken(env, ts, |ts|, 2, 1, Spine(env, e, 2), Last(env, e, 2), Read(env, e, 2, Start));
    AtOpen(env, ts, 0, u, 1, 0, [], Start);
    EvaluateIs(env, ts);
  }

  /** Something else than an operator behind an operand. */
  lemma {:induction false} OperatorReported(env: Env, e: Expr, t: Token, rest: seq<Token>)
    requires Peak(e, 2) < STACK_SIZE && !Raises(env, e, true) && (t.Value? || t.Open? || t.Bad?)
    ensures Evaluate(env, Show(e, 2) + [t] + rest).log.error == NoOperator
  {
    hide NeedOperand, HaveOperand, Show, Raises, Peak, Read, Fold, Spine, Last;
    var ts := Show(e, 2) + [t] + rest;
    assert ts == Show(e, 2) + ([t] + rest) && ts[|Show(e, 2)|] == t;
    ShownFirst(ts, e, [t] + rest, 2);
    Reads(env, ts, 0, e, 1, 0);
    AtToken(env, ts, |Show(e, 2)|, 1, 0, Spine(env, e, 2), Last(env, e, 2), Read(env, e, 2, Start));
    EvaluateIs(env, ts);
  }

  /** Nothing, or something else than an operand, at the start of the text. */
  lemma {:induction false} OperandReported(env: Env, t: Token, rest: seq<Token>)
    requires t.Oper? || t.Close? || t.Bad?
    ensures Evaluate(env, []).log.error == NoOperand && Evaluate(env, [t] + rest).log.error == NoOperand
  {
    hide NeedOperand;
    AtNothing(env, [], 0, 1, 0, [], Start);
    AtNothing(env, [t] + rest, 0, 1, 0, [], Start);
    EvaluateIs(env, []);
    EvaluateIs(env, [t] + rest);
  }

  /** The same behind an operator. */
  lemma {:induction false} RightReported(env: Env, l: Expr, op: Op, rest: seq<Token>)
    requires Peak(l, Priority(op)) < STACK_SIZE && !Raises(env, l, true)
    requires rest != [] ==> rest[0].Oper? || rest[0].Close? || rest[0].Bad?
    ensures Evaluate(env, Show(l, Priority(op)) + [Oper(op)] + rest).log.error == NoOperand
  {
    hide NeedOperand, HaveOperand, Show, Raises, Peak, Read, Fold, Spine, Last, Fate, Trouble, Done, Val;
    var p := Priority(op);
    var q := |Show(l, p)|;
    var ts := Show(l, p) + [Oper(op)] + rest;
    assert ts == Show(l, p) + ([Oper(op)] + rest) && ts[q] == Oper(op);
    ShownFirst(ts, l, [Oper(op)] + rest, p);
    Climb(env, ts, 0, l, p, 1, 0, [], Start);
    FateIs(env, l, p, 1, Start);
    FitsExactly(l, p, 1);
    AtOperator(env, ts, q, l, op, 1, 0, [], Start);
    DoneIs(env, l, Start);
    SeenError(env, l, Start);
    assert q + 1 < |ts| ==> ts[q + 1] == rest[0];
    AtNothing(env, ts, q + 1, 1, 0, [] + [Pend(Val(env, l), op)], Done(env, l, Start));
    EvaluateIs(env, ts);
  }
}
