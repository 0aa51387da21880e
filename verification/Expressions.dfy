/** The assembler's expressions: operators, tokens and the trees they are written from
(tools/assembler/rva.c, operator and unary codes, get_variable, get_operator). */
module Expressions {
  import opened Words

  /** The diadic operators get_operator recognises. */
  datatype Op =
    | Plus | Minus | Multiply | Divide | Modulus | LeftShift | RightShift | And | Or | Xor
    | Equals | NotEqual | LowerThan | LowerEqual | HigherThan | HigherEqual
    | LessThan | LessEqual | GreaterThan | GreaterEqual

  /** Unary operators in front of a value or an opening bracket; `Keep` is '+' or nothing. */
  datatype Unary = Keep | Negate | Not | Log

  /** What get_variable may find instead of a bracket: a constant, a label, or '.'. */
  datatype Leaf = Number(w: Word) | Label(name: string) | Here

  /** One lexical item.  `Bad` stands for text that is neither an operand nor an operator. */
  datatype Token = Value(u: Unary, leaf: Leaf) | Open(u: Unary) | Oper(op: Op) | Close | Bad

  datatype Status =
    | Okay | NoLabel | LabelUndef | DivByZero                      // tolerated on some passes
    | NoOperand | NoOperator | NotCloseBr | NotOpenBr | StackLimit // always errors
    | Smashed                                                      // a marker was written behind the stack's end

  /** A symbol table lookup: a value, a name that is not in the table, a name without a value yet, or '.' while
      the assembly pointer has no value. */
  datatype Reading = Found(v: Word) | Missing | Undefined | Adrift {
    function Value(): Word {
      if Found? then v else 0
    }

    function Status(): Status {
      match this
      case Found(_) => Okay
      case Missing => NoLabel
      case Undefined | Adrift => LabelUndef
    }
  }

  type Env = Leaf -> Reading

  /** Priority look-up of get_operator; 0 and 1 are the terminator and the closing bracket. */
  function Priority(op: Op): (p: nat)
    ensures 2 <= p <= 7
  {
    match op
    case Plus | Minus => 3
    case Multiply | Divide | Modulus => 4
    case LeftShift | RightShift => 7
    case And => 6
    case Or | Xor => 5
    case _ => 2
  }

  /** One diadic operation on 32-bit words.  A zero divisor gives all ones, a zero modulus leaves the operand. */
  function Apply(op: Op, l: Word, r: Word): Word {
    match op
    case Plus => Wrap(l + r)
    case Minus => Wrap(l - r)
    case Multiply => Wrap(l * r)
    case Divide => Quotient(l, r)
    case Modulus => Remainder(l, r)
    case LeftShift => ShiftLeft(l, r)
    case RightShift => ShiftRight(l, r)
    case And => Bitwise((a, b) => a && b, l, r)
    case Or => Bitwise((a, b) => a || b, l, r)
    case Xor => Bitwise((a, b) => a != b, l, r)
    case Equals => Truth(l == r)
    case NotEqual => Truth(l != r)
    case LowerThan => Truth(l < r)
    case LowerEqual => Truth(l <= r)
    case HigherThan => Truth(l > r)
    case HigherEqual => Truth(l >= r)
    case LessThan => Truth(Signed(l) < Signed(r))
    case LessEqual => Truth(Signed(l) <= Signed(r))
    case GreaterThan => Truth(Signed(l) > Signed(r))
    case GreaterEqual => Truth(Signed(l) >= Signed(r))
  }

  /** Two numbers' last `n` binary digits, put together digit by digit. */
  function Combine(f: (bool, bool) -> bool, l: nat, r: nat, n: nat): (v: nat)
    ensures v < Pow2(n)
  {
    if n == 0 then 0
    else 2 * Combine(f, l / 2, r / 2, n - 1) + if f(l % 2 == 1, r % 2 == 1) then 1 else 0
  }

  function Bitwise(f: (bool, bool) -> bool, l: Word, r: Word): Word {
    WordLength();
    Combine(f, l, r, 32)
  }

  lemma {:induction false} WordLength()
    ensures Pow2(32) == MODULUS_32
  {
    assert Pow2(8) == 0x100;
    assert Pow2(16) == 0x1_0000;
    assert Pow2(24) == 0x100_0000;
  }

  function Quotient(l: Word, r: Word): Word {
    if r == 0 then 0xFFFF_FFFF else l / r
  }

  function Remainder(l: Word, r: Word): Word {
    if r == 0 then r else l % r
  }

  /** What the host makes of shifts by 32 or more, which C leaves undefined: direction, operand and count to a result.
      Nothing is said of its contents, so what is proved holds for any host. */
  const HOST_SHIFTS: map<(bool, Word, Word), Word>

  function HostShift(left: bool, l: Word, r: Word): Word {
    if (left, l, r) in HOST_SHIFTS then HOST_SHIFTS[(left, l, r)] else 0
  }

  function ShiftLeft(l: Word, r: Word): Word
    decreases r
  {
    if r == 0 then l else if r >= 32 then HostShift(true, l, r) else ShiftLeft(Wrap(2 * l), r - 1)
  }

  function ShiftRight(l: Word, r: Word): Word
    decreases r
  {
    if r == 0 then l else if r >= 32 then HostShift(false, l, r) else ShiftRight(l / 2, r - 1)
  }

  function Pow2(k: nat): (p: nat)
    ensures p >= 1
  {
    if k == 0 then 1 else 2 * Pow2(k - 1)
  }

  /** The position of the highest bit set. */
  function FloorLog(v: nat): (k: nat)
    requires v > 0
    ensures Pow2(k) <= v < 2 * Pow2(k)
  {
    if v == 1 then 0 else 1 + FloorLog(v / 2)
  }

  /** The LOG operator; the logarithm of 0 comes out as -1. */
  function Log2(v: Word): Word {
    if v == 0 then 0xFFFF_FFFF else Wrap(FloorLog(v))
  }

  function ApplyUnary(u: Unary, v: Word): Word {
    match u
    case Keep => v
    case Negate => Wrap(-(v as int))
    case Not => 0xFFFF_FFFF - v
    case Log => Log2(v)
  }

  // ---------------------------------------------------------------- what the operators mean

  /** A left shift by less than the word's length multiplies by a power of two. */
  lemma {:induction false} ShiftLeftIs(l: Word, r: Word)
    requires r < 32
    ensures ShiftLeft(l, r) == Wrap(l * Pow2(r))
    decreases r
  {
    if r > 0 {
      ShiftLeftIs(Wrap(2 * l), r - 1);
      WrapTimes(2 * l, Pow2(r - 1));
      Regroup(l, Pow2(r - 1));
    }
  }

  lemma {:induction false} Doubled(p: int, s: int)
    ensures (2 * p) * s == 2 * (p * s)
  {
  }

  lemma {:induction false} Regroup(a: int, p: int)
    ensures (2 * a) * p == a * (2 * p)
  {
  }

  lemma {:induction false} WrapTimes(a: int, b: int)
    ensures Wrap(Wrap(a) * b) == Wrap(a * b)
  {
    var q := a / MODULUS_32;
    assert a == MODULUS_32 * q + Wrap(a);
    assert a * b == MODULUS_32 * (q * b) + Wrap(a) * b;
    WrapMultiple(Wrap(a) * b, q * b);
  }

  lemma {:induction false} WrapMultiple(a: int, k: int)
    ensures Wrap(MODULUS_32 * k + a) == Wrap(a)
  {
  }

  /** A right shift divides. */
  lemma {:induction false} ShiftRightIs(l: Word, r: Word)
    requires r < 32
    ensures Pow2(r) * ShiftRight(l, r) <= l < Pow2(r) * (ShiftRight(l, r) + 1)
    decreases r
  {
    if r > 0 {
      ShiftRightIs(l / 2, r - 1);
      var s, p := ShiftRight(l / 2, r - 1), Pow2(r - 1);
      Doubled(p, s);
      Doubled(p, s + 1);
    }
  }

  /** Digit `k` of a number in binary. */
  predicate BitAt(w: nat, k: nat) {
    if k == 0 then w % 2 == 1 else BitAt(w / 2, k - 1)
  }

  lemma {:induction false} CombineBit(f: (bool, bool) -> bool, l: nat, r: nat, n: nat, k: nat)
    requires k < n
    ensures BitAt(Combine(f, l, r, n), k) == f(BitAt(l, k), BitAt(r, k))
  {
    var rest, bit := Combine(f, l / 2, r / 2, n - 1), if f(l % 2 == 1, r % 2 == 1) then 1 else 0;
    assert (2 * rest + bit) / 2 == rest && (2 * rest + bit) % 2 == bit;
    if k > 0 { CombineBit(f, l / 2, r / 2, n - 1, k - 1); }
  }

  /** `v` is what the operator makes of `l` and `r`, each said on its own: numbers modulo 2^32, digits, order. */
  ghost predicate Computes(op: Op, l: Word, r: Word, v: Word) {
    match op
    case Plus => v == (l + r) % 0x1_0000_0000
    case Minus => v == (l - r) % 0x1_0000_0000
    case Multiply => v == (l * r) % 0x1_0000_0000
    case Divide => if r == 0 then v == 0xFFFF_FFFF else v * r <= l < (v + 1) * r
    case Modulus => if r == 0 then v == 0 else v < r && exists q: nat :: l == Times(q, r) + v
    case LeftShift => r < 32 ==> v == (l * Pow2(r)) % 0x1_0000_0000
    case RightShift => r < 32 ==> Pow2(r) * v <= l < Pow2(r) * (v + 1)
    case And => forall k: nat :: k < 32 ==> (BitAt(v, k) <==> BitAt(l, k) && BitAt(r, k))
    case Or => forall k: nat :: k < 32 ==> (BitAt(v, k) <==> BitAt(l, k) || BitAt(r, k))
    case Xor => forall k: nat :: k < 32 ==> (BitAt(v, k) <==> BitAt(l, k) != BitAt(r, k))
    case Equals => Says(v, l == r)
    case NotEqual => Says(v, l != r)
    case LowerThan => Says(v, l < r)
    case LowerEqual => Says(v, l <= r)
    case HigherThan => Says(v, r < l)
    case HigherEqual => Says(v, r <= l)
    case LessThan => Says(v, Biased(l) < Biased(r))
    case LessEqual => Says(v, Biased(l) <= Biased(r))
    case GreaterThan => Says(v, Biased(r) < Biased(l))
    case GreaterEqual => Says(v, Biased(r) <= Biased(l))
  }

  function Times(a: nat, b: nat): nat { a * b }

  /** All ones for true, 0 for false. */
  predicate Says(v: Word, b: bool) {
    (v == 0xFFFF_FFFF && b) || (v == 0 && !b)
  }

  /** The words in the order of the numbers they stand for as signed ones, smallest at 0. */
  function Biased(w: Word): nat {
    (w + 0x8000_0000) % 0x1_0000_0000
  }

  /** Every operator computes what it should. */
  lemma {:induction false} ApplyComputes(op: Op, l: Word, r: Word)
    ensures Computes(op, l, r, Apply(op, l, r))
  {
    hide Computes, Apply;
    match op
    case Divide | Modulus => DivisionComputes(l, r);
    case LeftShift | RightShift => ShiftComputes(l, r);
    case And | Or | Xor => BitsCompute(l, r);
    case LessThan | LessEqual | GreaterThan | GreaterEqual => SignedCompute(l, r);
    case _ => PlainComputes(op, l, r);
  }

  lemma {:induction false} DivisionComputes(l: Word, r: Word)
    ensures Computes(Divide, l, r, Apply(Divide, l, r)) && Computes(Modulus, l, r, Apply(Modulus, l, r))
  {
    DivisionIs(l, r);
    DivisionBound(l, r);
    assert r > 0 ==> l == Times(Quotient(l, r), r) + Remainder(l, r);
  }

  lemma {:induction false} ShiftComputes(l: Word, r: Word)
    ensures Computes(LeftShift, l, r, Apply(LeftShift, l, r)) && Computes(RightShift, l, r, Apply(RightShift, l, r))
  {
    hide ShiftLeft, ShiftRight, Pow2;
    if r < 32 {
      ShiftLeftIs(l, r);
      ShiftRightIs(l, r);
    }
  }

  lemma {:induction false} BitsCompute(l: Word, r: Word)
    ensures Computes(And, l, r, Apply(And, l, r)) && Computes(Or, l, r, Apply(Or, l, r))
    ensures Computes(Xor, l, r, Apply(Xor, l, r))
  {
    hide Bitwise, BitAt;
    BitwiseIs((a, b) => a && b, l, r);
    BitwiseIs((a, b) => a || b, l, r);
    BitwiseIs((a, b) => a != b, l, r);
  }

  lemma {:induction false} SignedCompute(l: Word, r: Word)
    ensures Computes(LessThan, l, r, Apply(LessThan, l, r)) && Computes(LessEqual, l, r, Apply(LessEqual, l, r))
    ensures Computes(GreaterThan, l, r, Apply(GreaterThan, l, r))
    ensures Computes(GreaterEqual, l, r, Apply(GreaterEqual, l, r))
  {
    hide Biased, Signed;
    BiasedOrder(l, r);
    BiasedOrder(r, l);
  }

  lemma {:induction false} BiasedOrder(l: Word, r: Word)
    ensures Biased(l) < Biased(r) <==> Signed(l) < Signed(r)
  {
    hide Biased;
    BiasedIs(l);
    BiasedIs(r);
  }

  lemma {:induction false} BiasedIs(w: Word)
    ensures Biased(w) == Signed(w) + 0x8000_0000
  {
  }

  lemma {:induction false} PlainComputes(op: Op, l: Word, r: Word)
    requires op !in {Divide, Modulus, LeftShift, RightShift, And, Or, Xor}
    requires op !in {LessThan, LessEqual, GreaterThan, GreaterEqual}
    ensures Computes(op, l, r, Apply(op, l, r))
  {
  }

  /** So do the unary ones: the negative, the complement, and the logarithm rounded down, all ones for that of 0. */
  lemma {:induction false} UnaryComputes(v: Word)
    ensures ApplyUnary(Keep, v) == v && (ApplyUnary(Negate, v) + v) % 0x1_0000_0000 == 0
    ensures ApplyUnary(Not, v) + v == 0xFFFF_FFFF
    ensures v == 0 ==> ApplyUnary(Log, v) == 0xFFFF_FFFF
    ensures v > 0 ==> Pow2(ApplyUnary(Log, v)) <= v < 2 * Pow2(ApplyUnary(Log, v))
  {
    hide Pow2;
    WrapOnce(-(v as int));
    if v > 0 {
      LogSmall(v, FloorLog(v));
      WrapOnce(FloorLog(v));
    }
  }

  lemma {:induction false} LogSmall(v: nat, k: nat)
    requires Pow2(k) <= v
    ensures k < v
  {
    PowGrows(k);
  }

  lemma {:induction false} PowGrows(k: nat)
    ensures k < Pow2(k)
  {
    if k > 0 { PowGrows(k - 1); }
  }

  lemma {:induction false} DivisionBound(l: Word, r: Word)
    ensures r > 0 ==> Quotient(l, r) * r <= l < (Quotient(l, r) + 1) * r
  {
    DivisionIs(l, r);
  }

  lemma {:induction false} BitwiseIs(f: (bool, bool) -> bool, l: Word, r: Word)
    ensures forall k: nat :: k < 32 ==> BitAt(Bitwise(f, l, r), k) == f(BitAt(l, k), BitAt(r, k))
  {
    forall k: nat | k < 32 ensures BitAt(Bitwise(f, l, r), k) == f(BitAt(l, k), BitAt(r, k)) {
      CombineBit(f, l, r, 32, k);
    }
  }

  /** Quotient and remainder belong together; a zero divisor gives all ones and leaves no remainder. */
  lemma {:induction false} DivisionIs(l: Word, r: Word)
    ensures r > 0 ==> Quotient(l, r) * r + Remainder(l, r) == l && Remainder(l, r) < r
    ensures r == 0 ==> Quotient(l, r) == 0xFFFF_FFFF && Remainder(l, r) == 0
  {
  }

  /** Reduction of a number that is at most one modulus out of range. */
  lemma {:induction false} WrapOnce(x: int)
    requires -MODULUS_32 <= x < 2 * MODULUS_32
    ensures Wrap(x) == if x < 0 then x + MODULUS_32 else if x < MODULUS_32 then x else x - MODULUS_32
  {
    if x < 0 {
      WrapMultiple(x, 1);
    } else if x >= MODULUS_32 {
      WrapMultiple(x - MODULUS_32, 1);
    }
  }

  /** Subtraction undoes addition on either side, and negation is subtraction from zero. */
  lemma {:induction false} SubtractionUndoes(l: Word, r: Word)
    ensures Apply(Minus, Apply(Plus, l, r), r) == l && Apply(Plus, Apply(Minus, l, r), r) == l
    ensures ApplyUnary(Negate, r) == Apply(Minus, 0, r) && ApplyUnary(Not, r) == Apply(Minus, ApplyUnary(Negate, r), 1)
  {
    hide Wrap;
    WrapOnce(l + r);
    WrapOnce(Wrap(l + r) - r);
    WrapOnce(l - r);
    WrapOnce(Wrap(l - r) + r);
    WrapOnce(0 - r);
    WrapOnce(-(r as int));
    WrapOnce(Wrap(-(r as int)) - 1);
  }

  /** The signed comparisons are the unsigned ones with both operands moved by half the range. */
  lemma {:induction false} SignedOrder(l: Word, r: Word)
    ensures var a, b := Wrap(l + 0x8000_0000), Wrap(r + 0x8000_0000);
      && Apply(LessThan, l, r) == Apply(LowerThan, a, b) && Apply(LessEqual, l, r) == Apply(LowerEqual, a, b)
      && Apply(GreaterThan, l, r) == Apply(HigherThan, a, b) && Apply(GreaterEqual, l, r) == Apply(HigherEqual, a, b)
  {
  }
}
