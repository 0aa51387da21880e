/** The words the assembler plants for pseudo-operations and PC-relative operands (tools/assembler/rva.c,
`rv32i_mnemonic`, `addr_mode`, `b_offset`, `imm_jal`), against the meaning of those words.

The first part decodes and executes RV32I words as the RISC-V Unprivileged ISA (20191213) has it: the immediate formats
of section 2.3, LUI, AUIPC and ADDI of section 2.4, JAL, JALR and branches of section 2.5, loads and stores of
section 2.6.
*/
module PseudoOps {
  import opened Options

  type Register = r: bv32 | r < 32

  /** 32-bit sums and differences. */
  function Sum(a: bv32, b: bv32): bv32 { a + b }

  /** JALR clears the lowest bit. */
  function Aligned(a: bv32): bv32 { a & 0xFFFF_FFFE }

  function Offset(target: bv32, pc: bv32): bv32 { target - pc }

  // ---------------------------------------------------------------- the machine

  /** The registers, of which x0 reads as zero, the program counter, and what a load of some width finds at an
      address. */
  datatype Hart = Hart(regs: bv32 -> bv32, pc: bv32, memory: (bv32, bv32) -> bv32) {
    function Read(r: bv32): bv32 {
      if r == 0 then 0 else regs(r)
    }

    function Write(r: bv32, v: bv32): Hart {
      this.(regs := (x: bv32) => if x == r then v else regs(x))
    }

    function Skip(): Hart {
      this.(pc := Sum(pc, 4))
    }
  }

  function Opcode(w: bv32): bv32 { w & 0x7F }

  function Funct3(w: bv32): bv32 { (w >> 12) & 7 }

  function Rd(w: bv32): bv32 { (w >> 7) & 0x1F }

  function Rs1(w: bv32): bv32 { (w >> 15) & 0x1F }

  function Rs2(w: bv32): bv32 { (w >> 20) & 0x1F }

  function ImmI(w: bv32): bv32 { (w >> 20) | if w & 0x8000_0000 != 0 then 0xFFFF_F000 else 0 }

  function ImmS(w: bv32): bv32 {
    ((w >> 25) << 5) | ((w >> 7) & 0x1F) | if w & 0x8000_0000 != 0 then 0xFFFF_F000 else 0
  }

  function ImmB(w: bv32): bv32 {
    ((w >> 7) & 0x1E) | ((w >> 20) & 0x7E0) | ((w << 4) & 0x800)
    | if w & 0x8000_0000 != 0 then 0xFFFF_F000 else 0
  }

  function ImmU(w: bv32): bv32 { w & 0xFFFF_F000 }

  function ImmJ(w: bv32): bv32 {
    Joined((w >> 20) & 0x7FE, (w >> 9) & 0x800, w & 0x0F_F000, w & 0x8000_0000)
  }

  function Joined(low: bv32, middle: bv32, high: bv32, sign: bv32): bv32 {
    low | middle | high | if sign & 0x8000_0000 != 0 then 0xFFF0_0000 else 0
  }

  /** The instructions an expansion is made of. */
  datatype Instr =
    | Lui(rd: bv32, imm: bv32)
    | Auipc(rd: bv32, imm: bv32)
    | Addi(rd: bv32, rs: bv32, imm: bv32)
    | Jal(rd: bv32, imm: bv32)
    | Jalr(rd: bv32, rs: bv32, imm: bv32)
    | Load(rd: bv32, width: bv32, rs: bv32, imm: bv32)
    | Store(data: bv32, width: bv32, rs: bv32, imm: bv32)
    | Other

  function Decode(w: bv32): Instr {
    if Opcode(w) == 0x37 then Lui(Rd(w), ImmU(w))
    else if Opcode(w) == 0x17 then Auipc(Rd(w), ImmU(w))
    else if Opcode(w) == 0x13 && Funct3(w) == 0 then Addi(Rd(w), Rs1(w), ImmI(w))
    else if Opcode(w) == 0x6F then Jal(Rd(w), ImmJ(w))
    else if Opcode(w) == 0x67 && Funct3(w) == 0 then Jalr(Rd(w), Rs1(w), ImmI(w))
    else if Opcode(w) == 0x03 then Load(Rd(w), Funct3(w), Rs1(w), ImmI(w))
    else if Opcode(w) == 0x23 then Store(Rs2(w), Funct3(w), Rs1(w), ImmS(w))
    else Other
  }

  /** One instruction; none for a word outside the subset, or a store, of which only the address and the data are
      looked at. */
  function Execute(h: Hart, i: Instr): Option<Hart> {
    match i
    case Lui(rd, imm) => Some(h.Write(rd, imm).Skip())
    case Auipc(rd, imm) => Some(h.Write(rd, Sum(h.pc, imm)).Skip())
    case Addi(rd, rs, imm) => Some(h.Write(rd, Sum(h.Read(rs), imm)).Skip())
    case Jal(rd, imm) => Some(h.Write(rd, Sum(h.pc, 4)).(pc := Sum(h.pc, imm)))
    case Jalr(rd, rs, imm) => Some(h.Write(rd, Sum(h.pc, 4)).(pc := Aligned(Sum(h.Read(rs), imm))))
    case Load(rd, width, rs, imm) => Some(h.Write(rd, h.memory(Sum(h.Read(rs), imm), width)).Skip())
    case _ => None
  }

  /** The words of one expansion, executed one after the other. */
  function ExecuteAll(h: Hart, ws: seq<bv32>): Option<Hart>
    decreases |ws|
  {
    if ws == [] then Some(h)
    else match Execute(h, Decode(ws[0]))
      case None => None
      case Some(h') => ExecuteAll(h', ws[1..])
  }

  /** Everything but register `r` and the program counter is as before. */
  ghost predicate OnlyChanges(h: Hart, h': Hart, r: bv32) {
    forall x: bv32 :: x != r ==> h'.Read(x) == h.Read(x)
  }

  // ---------------------------------------------------------------- immediate fields

  function ImmJal(value: bv32): bv32 {
    ((value & 0x10_0000) << 11) | (value & 0x0F_F000) | ((value & 0x800) << 9) | ((value & 0x7FE) << 20)
  }

  /** The encoding bits of b_offset. */
  function BOffset(value: bv32): bv32 {
    ((value & 0x1000) << 19) | ((value & 0x0800) >> 4) | ((value & 0x07E0) << 20) | ((value & 0x001E) << 7)
  }

  /** The offset bits of an S-type word. */
  function SOffset(value: bv32): bv32 {
    ((value & 0xFE0) << 20) | ((value & 0x1F) << 7)
  }

  predicate Even(value: bv32) { value & 1 == 0 }

  predicate BranchRange(value: bv32) { value & 0xFFFF_F000 == 0 || value & 0xFFFF_F000 == 0xFFFF_F000 }

  predicate JumpRange(value: bv32) { value & 0xFFF0_0000 == 0 || value & 0xFFF0_0000 == 0xFFF0_0000 }

  predicate ByteRange(value: bv32) { value & 0xFFFF_F800 == 0 || value & 0xFFFF_F800 == 0xFFFF_F800 }

  /** A branch's offset, put into a word whose offset bits are clear, decodes to itself exactly when b_offset accepts
      it, and disturbs no other field. */
  lemma {:induction false} BranchDecodes(word: bv32, value: bv32)
    requires word & 0xFE00_0F80 == 0
    ensures ImmB(word | BOffset(value)) == value <==> Even(value) && BranchRange(value)
    ensures (word | BOffset(value)) & 0x01FF_F07F == word
  {
    hide *;
    BranchFits(word, value);
    BranchKeeps(word, value);
    EvenIs(value);
    BranchRangeIs(value);
  }

  lemma {:induction false} BranchFits(word: bv32, value: bv32)
    requires word & 0xFE00_0F80 == 0
    ensures ImmB(word | BOffset(value)) == value
            <==> value & 1 == 0 && (value & 0xFFFF_F000 == 0 || value & 0xFFFF_F000 == 0xFFFF_F000)
  {
  }

  lemma {:induction false} BranchKeeps(word: bv32, value: bv32)
    requires word & 0xFE00_0F80 == 0
    ensures (word | BOffset(value)) & 0x01FF_F07F == word
  {
  }

  lemma {:induction false} EvenIs(value: bv32)
    ensures Even(value) <==> value & 1 == 0
  {
  }

  lemma {:induction false} BranchRangeIs(value: bv32)
    ensures BranchRange(value) <==> value & 0xFFFF_F000 == 0 || value & 0xFFFF_F000 == 0xFFFF_F000
  {
  }

  lemma {:induction false} JumpRangeIs(value: bv32)
    ensures JumpRange(value) <==> value & 0xFFF0_0000 == 0 || value & 0xFFF0_0000 == 0xFFF0_0000
  {
  }

  lemma {:induction false} ByteRangeIs(value: bv32)
    ensures ByteRange(value) <==> value & 0xFFFF_F800 == 0 || value & 0xFFFF_F800 == 0xFFFF_F800
  {
  }

  lemma {:induction false} JumpDecodes(word: bv32, value: bv32)
    requires word & 0xFFFF_F000 == 0
    ensures ImmJ(word | ImmJal(value)) == value <==> Even(value) && JumpRange(value)
    ensures (word | ImmJal(value)) & 0xFFF == word
  {
    hide *;
    JumpFields(word, value);
    JumpArgs(word | ImmJal(value), value & 0x7FE, value & 0x800, value & 0x0F_F000, (value & 0x10_0000) << 11);
    JumpFits(value);
    EvenIs(value);
    JumpRangeIs(value);
  }

  lemma {:induction false} JumpArgs(w: bv32, low: bv32, middle: bv32, high: bv32, sign: bv32)
    requires (w >> 20) & 0x7FE == low && (w >> 9) & 0x800 == middle && w & 0x0F_F000 == high && w & 0x8000_0000 == sign
    ensures ImmJ(w) == Joined(low, middle, high, sign)
  {
    hide Joined;
  }

  /** Where imm_jal puts the bits of the offset. */
  lemma {:induction false} JumpFields(word: bv32, value: bv32)
    requires word & 0xFFFF_F000 == 0
    ensures var w := word | ImmJal(value);
      && (w >> 20) & 0x7FE == value & 0x7FE && (w >> 9) & 0x800 == value & 0x800 && w & 0x0F_F000 == value & 0x0F_F000
      && w & 0x8000_0000 == (value & 0x10_0000) << 11 && w & 0xFFF == word
  {
  }

  lemma {:induction false} JumpFits(value: bv32)
    ensures Joined(value & 0x7FE, value & 0x800, value & 0x0F_F000, (value & 0x10_0000) << 11) == value
            <==> value & 1 == 0 && (value & 0xFFF0_0000 == 0 || value & 0xFFF0_0000 == 0xFFF0_0000)
  {
  }

  lemma {:induction false} StoreDecodes(word: bv32, value: bv32)
    requires word & 0xFE00_0F80 == 0
    ensures ImmS(word | SOffset(value & 0xFFF)) == value <==> ByteRange(value)
    ensures (word | SOffset(value & 0xFFF)) & 0x01FF_F07F == word
  {
    hide *;
    StoreFits(word, value);
    StoreKeeps(word, value);
    ByteRangeIs(value);
  }

  lemma {:induction false} StoreFits(word: bv32, value: bv32)
    requires word & 0xFE00_0F80 == 0
    ensures ImmS(word | SOffset(value & 0xFFF)) == value
            <==> value & 0xFFFF_F800 == 0 || value & 0xFFFF_F800 == 0xFFFF_F800
  {
  }

  lemma {:induction false} StoreKeeps(word: bv32, value: bv32)
    requires word & 0xFE00_0F80 == 0
    ensures (word | SOffset(value & 0xFFF)) & 0x01FF_F07F == word
  {
  }

  lemma {:induction false} ImmediateDecodes(word: bv32, value: bv32)
    requires word & 0xFFF0_0000 == 0
    ensures ImmI(word | ((value & 0xFFF) << 20)) == value <==> ByteRange(value)
    ensures (word | ((value & 0xFFF) << 20)) & 0x000F_FFFF == word
  {
    hide *;
    ImmediateFits(word, value);
    ImmediateKeeps(word, value);
    ByteRangeIs(value);
  }

  lemma {:induction false} ImmediateFits(word: bv32, value: bv32)
    requires word & 0xFFF0_0000 == 0
    ensures ImmI(word | ((value & 0xFFF) << 20)) == value
            <==> value & 0xFFFF_F800 == 0 || value & 0xFFFF_F800 == 0xFFFF_F800
  {
  }

  lemma {:induction false} ImmediateKeeps(word: bv32, value: bv32)
    requires word & 0xFFF0_0000 == 0
    ensures (word | ((value & 0xFFF) << 20)) & 0x000F_FFFF == word
  {
  }

  lemma {:induction false} UpperDecodes(word: bv32, value: bv32)
    requires word & 0xFFFF_F000 == 0
    ensures value & 0xFFF == 0 ==> ImmU(word | value) == value && (word | value) & 0xFFF == word
  {
  }

  lemma {:induction false} UpperExactly(word: bv32, value: bv32)
    requires word & 0xFFFF_F000 == 0
    ensures ImmU(word | value) == value <==> value & 0xFFF == 0
  {
  }

  /** Without the test for alignment the lowest bit is lost. */
  lemma {:induction false} JumpTruncates(word: bv32, value: bv32)
    requires word & 0xFFFF_F000 == 0
    ensures ImmJ(word | ImmJal(value)) == Aligned(value) <==> JumpRange(value)
  {
    hide *;
    JumpFields(word, value);
    JumpArgs(word | ImmJal(value), value & 0x7FE, value & 0x800, value & 0x0F_F000, (value & 0x10_0000) << 11);
    JumpTrims(value);
    JumpRangeIs(value);
  }

  lemma {:induction false} JumpTrims(value: bv32)
    ensures Joined(value & 0x7FE, value & 0x800, value & 0x0F_F000, (value & 0x10_0000) << 11) == Aligned(value)
            <==> value & 0xFFF0_0000 == 0 || value & 0xFFF0_0000 == 0xFFF0_0000
  {
  }

  // ---------------------------------------------------------------- LI, LA and CALL

  datatype Pseudo = LI | LA | CALL

  /** `value` lies within reach of a JAL. */
  predicate Near(value: bv32) { (value + 0x10_0000) & 0xFFE0_0000 == 0 }

  /** Words of the U and I formats, put together as the assembler does. */
  function UType(rd: bv32, imm: bv32, op: bv32): bv32 { (rd << 7) | (imm & 0xFFFF_F000) | op }

  function IType(rd: bv32, rs: bv32, imm: bv32, op: bv32): bv32 {
    (rd << 7) | (rs << 15) | ((imm << 20) & 0xFFF0_0000) | op
  }

  datatype Pair = Pair(prefix: bv32, word: bv32)

  /** The value whose upper bits, rounded for the sign of the lower ones, go into the prefix. */
  function Upper(value: bv32): bv32 { value + 0x800 }

  /** Whether both words are needed. */
  predicate TwoWords(kind: Pseudo, value: bv32) {
    match kind
    case LI => Upper(value) & 0xFFFF_F000 != 0 && value & 0xFFF != 0
    case LA => true
    case CALL => !(Even(value) && Near(value))
  }

  /** The two words; `value` is relative to the pointer for LA and CALL.  CALL's registers come from its token: x1
      throughout. */
  function Expand(kind: Pseudo, rd: Register, value: bv32): Pair {
    match kind
    case LI =>
      if Upper(value) & 0xFFFF_F000 == 0 then
        Pair(UType(rd, Upper(value), 0x37), IType(rd, rd, value, 0x13) & !0x000F_8000)
      else if value & 0xFFF == 0 then
        Pair(UType(rd, Upper(value), 0x37), (UType(rd, Upper(value), 0x37) & 0xFFF) | value)
      else Pair(UType(rd, Upper(value), 0x37), IType(rd, rd, value, 0x13))
    case LA => Pair(UType(rd, Upper(value), 0x17), IType(rd, rd, value, 0x13))
    case CALL =>
      if !Even(value) then Pair(UType(1, Upper(value), 0), IType(1, 1, value, 0))
      else if Near(value) then Pair(UType(1, Upper(value), 0), 0xEF | ImmJal(value))
      else Pair(UType(1, Upper(value), 0x17), IType(1, 1, value, 0x67))
  }

  /** What is planted when the size list allots `size` bytes, which may be more than the flag asks for. */
  function Planted(kind: Pseudo, rd: Register, value: bv32, size: nat): seq<bv32> {
    var p := Expand(kind, rd, value);
    if TwoWords(kind, value) || size == 8 then [p.prefix, p.word] else [p.word]
  }

  /** The low twelve bits, sign-extended. */
  function Low(value: bv32): bv32 { (value & 0xFFF) | if value & 0x800 != 0 then 0xFFFF_F000 else 0 }

  /** The rounded upper part that makes up for that sign. */
  function High(value: bv32): bv32 { Upper(value) & 0xFFFF_F000 }

  lemma {:induction false} HighAndLow(value: bv32)
    ensures Sum(High(value), Low(value)) == value
  {
    hide *;
    if value & 0x800 == 0 { HighAndLowUp(value); } else { HighAndLowDown(value); }
  }

  lemma {:induction false} HighAndLowUp(value: bv32)
    requires value & 0x800 == 0
    ensures Sum(High(value), Low(value)) == value
  {
  }

  lemma {:induction false} HighAndLowDown(value: bv32)
    requires value & 0x800 != 0
    ensures Sum(High(value), Low(value)) == value
  {
  }

  lemma {:induction false} HighIs(value: bv32)
    ensures High(value) == Upper(value) & 0xFFFF_F000
  {
    hide Upper;
  }

  lemma {:induction false} HighAlone(value: bv32)
    ensures High(value) == 0 ==> Low(value) == value
    ensures value & 0xFFF == 0 ==> value & 0xFFFF_F000 == value
  {
  }

  lemma {:induction false} UpperWord(rd: bv32, imm: bv32, op: bv32)
    requires rd < 32 && op < 0x80
    ensures var w := UType(rd, imm, op); Opcode(w) == op && Rd(w) == rd && ImmU(w) == imm & 0xFFFF_F000
  {
  }

  lemma {:induction false} ImmediateWord(rd: bv32, rs: bv32, imm: bv32, op: bv32)
    requires rd < 32 && rs < 32 && op < 0x80
    ensures var w := IType(rd, rs, imm, op);
      Opcode(w) == op && Funct3(w) == 0 && Rd(w) == rd && Rs1(w) == rs && ImmI(w) == Low(imm)
  {
    hide *;
    ImmediatePlaces(rd, rs, imm, op);
    ImmediateOffset(rd, rs, imm, op);
  }

  lemma {:induction false} ImmediatePlaces(rd: bv32, rs: bv32, imm: bv32, op: bv32)
    requires rd < 32 && rs < 32 && op < 0x80
    ensures var w := IType(rd, rs, imm, op); Opcode(w) == op && Funct3(w) == 0 && Rd(w) == rd && Rs1(w) == rs
  {
  }

  lemma {:induction false} ImmediateOffset(rd: bv32, rs: bv32, imm: bv32, op: bv32)
    requires rd < 32 && rs < 32 && op < 0x80
    ensures ImmI(IType(rd, rs, imm, op)) == Low(imm)
  {
  }

  lemma {:induction false} JumpWord(imm: bv32)
    requires Even(imm) && Near(imm)
    ensures var w := 0xEF | ImmJal(imm); Opcode(w) == 0x6F && Rd(w) == 1 && ImmJ(w) == imm
  {
    hide *;
    NearJumps(imm);
    JumpDecodes(0xEF, imm);
    LinkPlaces(0xEF | ImmJal(imm));
  }

  lemma {:induction false} NearJumps(imm: bv32)
    requires Near(imm)
    ensures JumpRange(imm)
  {
  }

  lemma {:induction false} LinkPlaces(w: bv32)
    requires w & 0xFFF == 0xEF
    ensures Opcode(w) == 0x6F && Rd(w) == 1
  {
  }

  /** The one-word form with its base register cleared. */
  lemma {:induction false} ShortWord(rd: bv32, imm: bv32)
    requires rd < 32
    ensures IType(rd, rd, imm, 0x13) & !0x000F_8000 == IType(rd, 0, imm, 0x13)
  {
  }

  lemma {:induction false} LuiWord(rd: bv32, imm: bv32)
    requires rd < 32 && imm & 0xFFF == 0
    ensures (UType(rd, Upper(imm), 0x37) & 0xFFF) | imm == UType(rd, imm, 0x37)
  {
  }

  lemma {:induction false} DecodeLui(rd: bv32, imm: bv32)
    requires rd < 32
    ensures Decode(UType(rd, imm, 0x37)) == Lui(rd, imm & 0xFFFF_F000)
  {
    hide UType, Opcode, Rd, ImmU;
    UpperWord(rd, imm, 0x37);
  }

  lemma {:induction false} DecodeAuipc(rd: bv32, imm: bv32)
    requires rd < 32
    ensures Decode(UType(rd, imm, 0x17)) == Auipc(rd, imm & 0xFFFF_F000)
  {
    hide UType, Opcode, Rd, ImmU;
    UpperWord(rd, imm, 0x17);
  }

  lemma {:induction false} DecodeAddi(rd: bv32, rs: bv32, imm: bv32)
    requires rd < 32 && rs < 32
    ensures Decode(IType(rd, rs, imm, 0x13)) == Addi(rd, rs, Low(imm))
  {
    hide IType, Opcode, Rd, Rs1, ImmI, Funct3, Low;
    ImmediateWord(rd, rs, imm, 0x13);
  }

  lemma {:induction false} DecodeJalr(rd: bv32, rs: bv32, imm: bv32)
    requires rd < 32 && rs < 32
    ensures Decode(IType(rd, rs, imm, 0x67)) == Jalr(rd, rs, Low(imm))
  {
    hide IType, Opcode, Rd, Rs1, ImmI, Funct3, Low;
    ImmediateWord(rd, rs, imm, 0x67);
  }

  lemma {:induction false} DecodeJal(imm: bv32)
    requires Even(imm) && Near(imm)
    ensures Decode(0xEF | ImmJal(imm)) == Jal(1, imm)
  {
    hide ImmJal, Opcode, Rd, ImmJ, Even, Near;
    JumpWord(imm);
  }

  lemma {:induction false} ExecuteOne(h: Hart, a: bv32)
    ensures ExecuteAll(h, [a]) == Execute(h, Decode(a))
  {
    hide Execute, Decode;
  }

  lemma {:induction false} ExecuteTwo(h: Hart, a: bv32, b: bv32)
    ensures ExecuteAll(h, [a, b]) ==
            if Execute(h, Decode(a)).None? then None else Execute(Execute(h, Decode(a)).value, Decode(b))
  {
    hide Execute, Decode;
    assert [a, b][1..] == [b];
    if Execute(h, Decode(a)).Some? { ExecuteOne(Execute(h, Decode(a)).value, b); }
  }

  /** The instructions LI comes to. */
  lemma {:induction false} ExpandPrefix(rd: Register, value: bv32)
    ensures Decode(Expand(LI, rd, value).prefix) == Lui(rd, High(value))
  {
    hide UType, IType, Decode;
    DecodeLui(rd, Upper(value));
    HighIs(value);
  }

  lemma {:induction false} ExpandLong(rd: Register, value: bv32)
    requires TwoWords(LI, value)
    ensures Decode(Expand(LI, rd, value).word) == Addi(rd, rd, Low(value))
  {
    hide UType, IType, Decode, Low;
    DecodeAddi(rd, rd, value);
  }

  lemma {:induction false} ExpandShort(rd: Register, value: bv32)
    requires High(value) == 0
    ensures Decode(Expand(LI, rd, value).word) == Addi(rd, 0, Low(value))
  {
    hide UType, IType, Decode, Low;
    ShortWord(rd, value);
    DecodeAddi(rd, 0, value);
  }

  lemma {:induction false} ExpandUpper(rd: Register, value: bv32)
    requires High(value) != 0 && value & 0xFFF == 0
    ensures Decode(Expand(LI, rd, value).word) == Lui(rd, value & 0xFFFF_F000)
  {
    hide UType, IType, Decode, Low;
    LuiWord(rd, value);
    DecodeLui(rd, value);
  }

  /** Register `rd` has the value `v`, `n` bytes further on, and nothing else has changed. */
  ghost predicate Leaves(h: Hart, out: Option<Hart>, rd: bv32, v: bv32, n: bv32) {
    out.Some? && out.value.Read(rd) == v && OnlyChanges(h, out.value, rd) && out.value.pc == Sum(h.pc, n)
  }

  lemma {:induction false} WriteLeaves(h: Hart, rd: bv32, v: bv32)
    requires rd != 0
    ensures Leaves(h, Some(h.Write(rd, v).Skip()), rd, v, 4)
  {
  }

  lemma {:induction false} WriteTwice(h: Hart, rd: bv32, u: bv32, v: bv32)
    requires rd != 0
    ensures Leaves(h, Some(h.Write(rd, u).Skip().Write(rd, v).Skip()), rd, v, 8)
  {
  }

  lemma {:induction false} LoadShort(h: Hart, rd: Register, value: bv32)
    requires rd != 0 && !TwoWords(LI, value)
    ensures Leaves(h, ExecuteAll(h, [Expand(LI, rd, value).word]), rd, value, 4)
  {
    hide Expand, Decode, ExecuteAll, Low, High, Leaves, Sum, Offset;
    var w := Expand(LI, rd, value).word;
    ExecuteOne(h, w);
    DecodeShort(rd, value);
    Zero(value);
    WriteLeaves(h, rd, value);
  }

  /** A one-word LI has either of two forms. */
  lemma {:induction false} DecodeShort(rd: Register, value: bv32)
    requires !TwoWords(LI, value)
    ensures Decode(Expand(LI, rd, value).word) == Addi(rd, 0, value)
            || Decode(Expand(LI, rd, value).word) == Lui(rd, value)
  {
    hide Decode, UType, IType;
    HighAlone(value);
    if High(value) == 0 {
      ExpandShort(rd, value);
    } else {
      ExpandUpper(rd, value);
    }
  }

  lemma {:induction false} LoadLong(h: Hart, rd: Register, value: bv32)
    requires rd != 0
    ensures var p := Expand(LI, rd, value); Leaves(h, ExecuteAll(h, [p.prefix, p.word]), rd, value, 8)
  {
    hide Expand, Decode, ExecuteAll, Low, High, Leaves, Sum, Offset;
    var p := Expand(LI, rd, value);
    ExecuteTwo(h, p.prefix, p.word);
    ExpandPrefix(rd, value);
    HighAndLow(value);
    Zero(value);
    if TwoWords(LI, value) { ExpandLong(rd, value); } else { DecodeShort(rd, value); }
    WriteTwice(h, rd, High(value), value);
  }

  /** LI leaves the value in its register whether it takes one word, needs two, or is held at two. */
  lemma {:induction false} LoadImmediate(h: Hart, rd: Register, value: bv32, size: nat)
    requires rd != 0
    ensures var ws := Planted(LI, rd, value, size);
      Leaves(h, ExecuteAll(h, ws), rd, value, if |ws| == 1 then 4 else 8)
  {
    hide Expand, ExecuteAll, Leaves;
    if |Planted(LI, rd, value, size)| == 1 { LoadShort(h, rd, value); } else { LoadLong(h, rd, value); }
  }

  lemma {:induction false} ExpandAddress(rd: Register, value: bv32)
    ensures var p := Expand(LA, rd, value);
      TwoWords(LA, value) && Decode(p.prefix) == Auipc(rd, High(value)) && Decode(p.word) == Addi(rd, rd, Low(value))
  {
    hide UType, IType, Decode, Low;
    DecodeAuipc(rd, Upper(value));
    HighIs(value);
    DecodeAddi(rd, rd, value);
  }

  /** LA leaves the address named in its register. */
  lemma {:induction false} LoadAddress(h: Hart, rd: Register, target: bv32, size: nat)
    requires rd != 0
    ensures Leaves(h, ExecuteAll(h, Planted(LA, rd, Offset(target, h.pc), size)), rd, target, 8)
  {
    hide Expand, Decode, ExecuteAll, Low, High, Leaves, Sum, Offset;
    var value := Offset(target, h.pc);
    var p := Expand(LA, rd, value);
    ExpandAddress(rd, value);
    ExecuteTwo(h, p.prefix, p.word);
    HighAndLow(value);
    SumsTo(h.pc, High(value), Low(value), target);
    WriteTwice(h, rd, Sum(h.pc, High(value)), target);
  }

  lemma {:induction false} SumsTo(pc: bv32, high: bv32, low: bv32, target: bv32)
    requires Sum(high, low) == Offset(target, pc)
    ensures Sum(Sum(pc, high), low) == target
  {
    hide Sum, Offset;
    Associates(pc, high, low);
    ThereAgain(pc, target);
  }

  lemma {:induction false} Associates(a: bv32, b: bv32, c: bv32)
    ensures Sum(Sum(a, b), c) == Sum(a, Sum(b, c))
  {
    hide *;
    Regrouped(a, b, c);
    InnerRight(a, b, c);
    InnerLeft(a, b, c);
  }

  lemma {:induction false} Regrouped(a: bv32, b: bv32, c: bv32)
    ensures Sum(a, b + c) == Sum(a + b, c)
  {
  }

  lemma {:induction false} InnerRight(a: bv32, b: bv32, c: bv32)
    ensures Sum(a, Sum(b, c)) == Sum(a, b + c)
  {
  }

  lemma {:induction false} InnerLeft(a: bv32, b: bv32, c: bv32)
    ensures Sum(Sum(a, b), c) == Sum(a + b, c)
  {
  }

  lemma {:induction false} ThereAgain(pc: bv32, target: bv32)
    ensures Sum(pc, Offset(target, pc)) == target
  {
    hide *;
    Cancelled(pc, target);
    OffsetInside(pc, target);
  }

  lemma {:induction false} Cancelled(pc: bv32, target: bv32)
    ensures Sum(pc, target - pc) == target
  {
  }

  lemma {:induction false} OffsetInside(pc: bv32, target: bv32)
    ensures Sum(pc, Offset(target, pc)) == Sum(pc, target - pc)
  {
  }

  lemma {:induction false} Zero(a: bv32)
    ensures Sum(0, a) == a
  {
  }

  lemma {:induction false} Eight(a: bv32)
    ensures Sum(Sum(a, 4), 4) == Sum(a, 8)
  {
  }

  /** A call has got to `target` with the return address in x1. */
  ghost predicate Called(h: Hart, out: Option<Hart>, target: bv32, n: bv32) {
    out.Some? && out.value.pc == target && out.value.Read(1) == Sum(h.pc, n) && OnlyChanges(h, out.value, 1)
  }

  lemma {:induction false} ExpandNear(value: bv32)
    requires Even(value) && Near(value)
    ensures var p := Expand(CALL, 0, value);
      !TwoWords(CALL, value) && Decode(p.word) == Jal(1, value) && Decode(p.prefix) == Other
  {
    hide Decode, ImmJal, UType, Even, Near;
    DecodeJal(value);
    NoOpcode(Upper(value));
  }

  lemma {:induction false} NoOpcode(imm: bv32)
    ensures Decode(UType(1, imm, 0)) == Other
  {
    hide UType, Rd, ImmU, Rs1, ImmI, Funct3, ImmJ, ImmS, Rs2, Opcode;
    UpperWord(1, imm, 0);
  }

  lemma {:induction false} ExpandFar(value: bv32)
    requires Even(value) && !Near(value)
    ensures var p := Expand(CALL, 0, value);
      TwoWords(CALL, value) && Decode(p.prefix) == Auipc(1, High(value)) && Decode(p.word) == Jalr(1, 1, Low(value))
  {
    hide UType, IType, Decode, Low, Even, Near;
    DecodeAuipc(1, Upper(value));
    HighIs(value);
    DecodeJalr(1, 1, value);
  }

  lemma {:induction false} CallNear(h: Hart, target: bv32)
    requires Even(Offset(target, h.pc)) && Near(Offset(target, h.pc))
    ensures Called(h, ExecuteAll(h, [Expand(CALL, 0, Offset(target, h.pc)).word]), target, 4)
  {
    hide Expand, Decode, ExecuteAll, Even, Near, Sum, Offset;
    ExecuteOne(h, Expand(CALL, 0, Offset(target, h.pc)).word);
    ExpandNear(Offset(target, h.pc));
    ThereAgain(h.pc, target);
  }

  lemma {:induction false} CallFar(h: Hart, target: bv32)
    requires Even(h.pc) && Even(Offset(target, h.pc)) && !Near(Offset(target, h.pc))
    ensures var p := Expand(CALL, 0, Offset(target, h.pc)); Called(h, ExecuteAll(h, [p.prefix, p.word]), target, 8)
  {
    hide Expand, Decode, ExecuteAll, Near, Even, Low, High, Sum, Offset, Aligned;
    var value := Offset(target, h.pc);
    var p := Expand(CALL, 0, value);
    ExecuteTwo(h, p.prefix, p.word);
    ExpandFar(value);
    HighAndLow(value);
    SumsTo(h.pc, High(value), Low(value), target);
    EvenTarget(h.pc, target);
    EvenStays(target);
    Eight(h.pc);
  }

  lemma {:induction false} EvenTarget(pc: bv32, target: bv32)
    requires Even(pc) && Even(Offset(target, pc))
    ensures Even(target)
  {
  }

  lemma {:induction false} EvenStays(a: bv32)
    requires Even(a)
    ensures Aligned(a) == a
  {
  }

  /** A held-long call within reach of JAL starts with a word that is no instruction. */
  lemma {:induction false} CallHeld(h: Hart, target: bv32)
    requires Even(Offset(target, h.pc)) && Near(Offset(target, h.pc))
    ensures var p := Expand(CALL, 0, Offset(target, h.pc)); ExecuteAll(h, [p.prefix, p.word]) == None
  {
    hide Expand, Decode, ExecuteAll, Even, Near, Sum, Offset;
    var p := Expand(CALL, 0, Offset(target, h.pc));
    ExecuteTwo(h, p.prefix, p.word);
    ExpandNear(Offset(target, h.pc));
  }

  /** CALL, where a hart can execute it, reaches its target and comes back behind itself, exactly when it is not held at
      two words while one would do. */
  lemma {:induction false} CallReaches(h: Hart, target: bv32, size: nat)
    requires Even(h.pc) && Even(Offset(target, h.pc))
    ensures var ws := Planted(CALL, 0, Offset(target, h.pc), size);
      Called(h, ExecuteAll(h, ws), target, if |ws| == 1 then 4 else 8) <==> (Near(Offset(target, h.pc)) ==> size != 8)
  {
    hide Expand, ExecuteAll, Called, Even, Near, Offset;
    var value := Offset(target, h.pc);
    if Near(value) {
      ExpandNear(value);
      CallNear(h, target);
      CallHeld(h, target);
      NotCalled(h, target);
    } else {
      ExpandFar(value);
      CallFar(h, target);
    }
  }

  lemma {:induction false} NotCalled(h: Hart, target: bv32)
    ensures !Called(h, None, target, 8)
  {
  }

  /** One word is taken for a CALL exactly when JAL reaches, and for an LI exactly when LUI or ADDI alone will do: no
      other way to leave the value in one word is passed over. */
  lemma {:induction false} OneWordEnough(kind: Pseudo, value: bv32)
    ensures TwoWords(CALL, value) <==> !(Even(value) && JumpRange(value))
    ensures TwoWords(LI, value) <==> !ByteRange(value) && value & 0xFFF != 0
  {
    NearIsReach(value);
    UpperIsByteRange(value);
  }

  lemma {:induction false} NearIsReach(value: bv32)
    ensures Near(value) <==> JumpRange(value)
  {
  }

  lemma {:induction false} UpperIsByteRange(value: bv32)
    ensures Upper(value) & 0xFFFF_F000 == 0 <==> ByteRange(value)
  {
  }

  /** If any one LUI, or ADDI from x0, leaves the value in its register, LI takes one word. */
  lemma {:induction false} LoadMinimal(rd: Register, value: bv32, word: bv32)
    requires Decode(word) == Lui(rd, value) || Decode(word) == Addi(rd, 0, value)
    ensures !TwoWords(LI, value)
  {
    hide Decode, TwoWords;
    OneWordEnough(LI, value);
    DecodedRanges(word);
    ByteRangeIs(value);
  }

  lemma {:induction false} DecodedRanges(word: bv32)
    ensures Decode(word).Lui? ==> Decode(word).imm & 0xFFF == 0
    ensures Decode(word).Addi? ==> ByteRange(Decode(word).imm)
  {
    hide ByteRange, ImmU, ImmI;
    ImmURange(word);
    ImmIRange(word);
  }

  lemma {:induction false} ImmURange(word: bv32)
    ensures ImmU(word) & 0xFFF == 0
  {
  }

  lemma {:induction false} ImmIRange(word: bv32)
    ensures ByteRange(ImmI(word))
  {
  }

  // ---------------------------------------------------------------- loads and stores of a named address

  /** The AUIPC addr_mode puts in front; its base register is the load's own, or the store's extra one. */
  function GlobalPrefix(base: Register, offset: bv32): bv32 {
    (0x17 | ((base as bv32) << 7))
    | if offset & 0x800 == 0 then offset & 0xFFFF_F000 else (offset & 0xFFFF_F000) + 0x1000
  }

  /** addr_mode's packed result. */
  function Packed(base: Register, offset: bv32): bv32 {
    ((base as bv32) << 16) | (offset & 0xFFF)
  }

  function LoadWord(rd: Register, funct3: bv32, packed: bv32): bv32 {
    (((rd as bv32) << 7) | (funct3 << 12) | 0x03) | ((packed & 0xFFF) << 20) | ((packed & 0x001F_0000) >> 1)
  }

  function StoreWord(rs: Register, funct3: bv32, packed: bv32): bv32 {
    (((rs as bv32) << 20) | (funct3 << 12) | 0x23) | SOffset(packed) | ((packed & 0x001F_0000) >> 1)
  }

  lemma {:induction false} GlobalPrefixIs(base: Register, offset: bv32)
    ensures GlobalPrefix(base, offset) == UType(base, High(offset), 0x17)
  {
  }

  lemma {:induction false} LoadFields(base: Register, rd: Register, funct3: bv32, offset: bv32)
    requires funct3 < 8
    ensures var w := LoadWord(rd, funct3, Packed(base, offset));
            Opcode(w) == 0x03 && Rd(w) == rd && Funct3(w) == funct3 && Rs1(w) == base && ImmI(w) == Low(offset)
  {
    hide *;
    LoadPlaces(base, rd, funct3, offset);
    LoadOffset(base, rd, funct3, offset);
  }

  lemma {:induction false} LoadPlaces(base: Register, rd: Register, funct3: bv32, offset: bv32)
    requires funct3 < 8
    ensures var w := LoadWord(rd, funct3, Packed(base, offset));
      Opcode(w) == 0x03 && Rd(w) == rd && Funct3(w) == funct3 && Rs1(w) == base
  {
  }

  lemma {:induction false} LoadOffset(base: Register, rd: Register, funct3: bv32, offset: bv32)
    requires funct3 < 8
    ensures ImmI(LoadWord(rd, funct3, Packed(base, offset))) == Low(offset)
  {
  }

  lemma {:induction false} StoreFields(base: Register, rs: Register, funct3: bv32, offset: bv32)
    requires funct3 < 8
    ensures var w := StoreWord(rs, funct3, Packed(base, offset));
      Opcode(w) == 0x23 && Funct3(w) == funct3 && Rs1(w) == base && Rs2(w) == rs && ImmS(w) == Low(offset)
  {
    hide *;
    StorePlaces(base, rs, funct3, offset);
    StoreOffset(base, rs, funct3, offset);
  }

  lemma {:induction false} StorePlaces(base: Register, rs: Register, funct3: bv32, offset: bv32)
    requires funct3 < 8
    ensures var w := StoreWord(rs, funct3, Packed(base, offset));
      Opcode(w) == 0x23 && Funct3(w) == funct3 && Rs1(w) == base && Rs2(w) == rs
  {
  }

  lemma {:induction false} StoreOffset(base: Register, rs: Register, funct3: bv32, offset: bv32)
    requires funct3 < 8
    ensures ImmS(StoreWord(rs, funct3, Packed(base, offset))) == Low(offset)
  {
  }

  lemma {:induction false} DecodeLoad(base: Register, rd: Register, funct3: bv32, offset: bv32)
    requires funct3 < 8
    ensures Decode(LoadWord(rd, funct3, Packed(base, offset))) == Load(rd, funct3, base, Low(offset))
  {
    LoadFields(base, rd, funct3, offset);
    hide Opcode, Rs1, ImmI, LoadWord, Packed, Low, Funct3, Rd, Rs2, ImmU, ImmJ, ImmS;
  }

  lemma {:induction false} DecodeStore(base: Register, rs: Register, funct3: bv32, offset: bv32)
    requires funct3 < 8
    ensures Decode(StoreWord(rs, funct3, Packed(base, offset))) == Store(rs, funct3, base, Low(offset))
  {
    StoreFields(base, rs, funct3, offset);
    hide Opcode, Rs1, ImmI, StoreWord, Packed, Low, Funct3, Rd, Rs2, ImmU, ImmJ, ImmS;
  }

  /** The address a load or store uses. */
  function AddressOf(h: Hart, i: Instr): bv32
    requires i.Load? || i.Store?
  {
    Sum(h.Read(i.rs), i.imm)
  }

  lemma {:induction false} PrefixEffect(h: Hart, base: Register, offset: bv32)
    ensures Execute(h, Decode(GlobalPrefix(base, offset))) == Some(h.Write(base, Sum(h.pc, High(offset))).Skip())
  {
    hide Decode, UType, GlobalPrefix, Sum;
    GlobalPrefixIs(base, offset);
    DecodeAuipc(base, High(offset));
    HighIsHigh(offset);
  }

  lemma {:induction false} HighIsHigh(offset: bv32)
    ensures High(offset) & 0xFFFF_F000 == High(offset)
  {
  }

  /** Where the two words of a load or store of `target` take it: to `target`, exactly when the base is not x0, into
      which AUIPC writes nothing, or the upper part is 0 anyway. */
  lemma {:induction false} GlobalAddress(h: Hart, base: Register, target: bv32)
    ensures var offset := Offset(target, h.pc);
      var mid := h.Write(base, Sum(h.pc, High(offset))).Skip();
      && (Sum(mid.Read(base), Low(offset)) == target <==> base != 0 || Sum(h.pc, High(offset)) == 0)
      && OnlyChanges(h, mid, base)
  {
    hide High, Low, Sum, Offset;
    var offset := Offset(target, h.pc);
    HighAndLow(offset);
    SumsTo(h.pc, High(offset), Low(offset), target);
    SameSum(Sum(h.pc, High(offset)), Low(offset));
    Zero(Low(offset));
  }

  /** Only 0 adds nothing. */
  lemma {:induction false} SameSum(a: bv32, b: bv32)
    ensures Sum(a, b) == b <==> a == 0
  {
    hide *;
    Undone(a, b);
    Zero(b);
    Undone(0, b);
  }

  lemma {:induction false} Undone(a: bv32, b: bv32)
    ensures Offset(Sum(a, b), b) == a
  {
    hide *;
    Inside(a, b);
    UndoneInside(a, b);
  }

  lemma {:induction false} Inside(a: bv32, b: bv32)
    ensures Offset(Sum(a, b), b) == Offset(a + b, b)
  {
    hide Offset;
  }

  lemma {:induction false} UndoneInside(a: bv32, b: bv32)
    ensures Offset(a + b, b) == a
  {
  }

  /** Both words of a load of a named address: its register has what is at that address, in the width asked for. */
  lemma {:induction false} GlobalLoads(h: Hart, rd: Register, funct3: bv32, target: bv32)
    requires rd != 0 && funct3 < 8
    ensures var offset := Offset(target, h.pc);
      Leaves(h, ExecuteAll(h, [GlobalPrefix(rd, offset), LoadWord(rd, funct3, Packed(rd, offset))]), rd,
             h.memory(target, funct3), 8)
  {
    hide Decode, Execute, GlobalPrefix, LoadWord, Packed, High, Low, Sum, Offset, ExecuteAll;
    var offset := Offset(target, h.pc);
    ExecuteTwo(h, GlobalPrefix(rd, offset), LoadWord(rd, funct3, Packed(rd, offset)));
    PrefixEffect(h, rd, offset);
    DecodeLoad(rd, rd, funct3, offset);
    GlobalAddress(h, rd, target);
    LoadIs(h.Write(rd, Sum(h.pc, High(offset))).Skip(), rd, funct3, rd, Low(offset));
    WriteTwice(h, rd, Sum(h.pc, High(offset)), h.memory(target, funct3));
  }

  lemma {:induction false} LoadIs(h: Hart, rd: bv32, width: bv32, rs: bv32, imm: bv32)
    ensures Execute(h, Load(rd, width, rs, imm)) == Some(h.Write(rd, h.memory(Sum(h.Read(rs), imm), width)).Skip())
  {
    hide Sum;
  }

  /** A load of a named address reads from it, its own register serving as the base: exactly when that is not x0, or
      the upper part of the address is 0 anyway. */
  lemma {:induction false} GlobalLoad(h: Hart, rd: Register, funct3: bv32, target: bv32)
    requires funct3 < 8
    ensures var offset := Offset(target, h.pc);
      var mid, word := Execute(h, Decode(GlobalPrefix(rd, offset))), Decode(LoadWord(rd, funct3, Packed(rd, offset)));
      && mid.Some? && word.Load? && word.rd == rd && word.width == funct3 && OnlyChanges(h, mid.value, rd)
      && (AddressOf(mid.value, word) == target <==> rd != 0 || Sum(h.pc, High(offset)) == 0)
  {
    hide *;
    var offset := Offset(target, h.pc);
    PrefixEffect(h, rd, offset);
    DecodeLoad(rd, rd, funct3, offset);
    GlobalAddress(h, rd, target);
    AddressIs(h.Write(rd, Sum(h.pc, High(offset))).Skip(), Load(rd, funct3, rd, Low(offset)));
  }

  lemma {:induction false} AddressIs(h: Hart, i: Instr)
    requires i.Load? || i.Store?
    ensures AddressOf(h, i) == Sum(h.Read(i.rs), i.imm)
  {
    hide Sum;
  }

  /** A store to a named address writes to it, by way of its extra register, under the same condition.  What it writes
      is the register named, as it was, exactly when that is not the extra one, or is x0, or holds the address part
      already. */
  lemma {:induction false} GlobalStore(h: Hart, base: Register, rs: Register, funct3: bv32, target: bv32)
    requires funct3 < 8
    ensures var offset := Offset(target, h.pc);
      var mid, word := Execute(h, Decode(GlobalPrefix(base, offset))),
          Decode(StoreWord(rs, funct3, Packed(base, offset)));
      && mid.Some? && word.Store? && word.data == rs && word.width == funct3 && OnlyChanges(h, mid.value, base)
      && (AddressOf(mid.value, word) == target <==> base != 0 || Sum(h.pc, High(offset)) == 0)
      && (mid.value.Read(word.data) == h.Read(rs) <==> rs != base || base == 0 || h.Read(rs) == Sum(h.pc, High(offset)))
  {
    hide *;
    var offset := Offset(target, h.pc);
    PrefixEffect(h, base, offset);
    DecodeStore(base, rs, funct3, offset);
    GlobalAddress(h, base, target);
    var mid := h.Write(base, Sum(h.pc, High(offset))).Skip();
    AddressIs(mid, Store(rs, funct3, base, Low(offset)));
    ReadBack(h, base, Sum(h.pc, High(offset)), rs);
  }

  lemma {:induction false} ReadBack(h: Hart, base: Register, v: bv32, rs: Register)
    ensures h.Write(base, v).Skip().Read(rs) == h.Read(rs) <==> rs != base || base == 0 || h.Read(rs) == v
  {
    hide Sum;
  }

  /** A branch to a label: the encoded offset leads there exactly when it passes b_offset's test. */
  lemma {:induction false} BranchReaches(word: bv32, pc: bv32, target: bv32)
    requires word & 0xFE00_0F80 == 0
    ensures var offset := Offset(target, pc);
      Sum(pc, ImmB(word | BOffset(offset))) == target <==> Even(offset) && BranchRange(offset)
  {
    hide *;
    BranchDecodes(word, Offset(target, pc));
    Leads(pc, ImmB(word | BOffset(Offset(target, pc))), target);
  }

  /** A jump likewise. */
  lemma {:induction false} JumpReaches(word: bv32, pc: bv32, target: bv32)
    requires word & 0xFFFF_F000 == 0
    ensures var offset := Offset(target, pc);
      Sum(pc, ImmJ(word | ImmJal(offset))) == target <==> Even(offset) && JumpRange(offset)
  {
    hide *;
    JumpDecodes(word, Offset(target, pc));
    Leads(pc, ImmJ(word | ImmJal(Offset(target, pc))), target);
  }

  /** One offset only leads from `pc` to `target`. */
  lemma {:induction false} Leads(pc: bv32, imm: bv32, target: bv32)
    ensures Sum(pc, imm) == target <==> imm == Offset(target, pc)
  {
    hide *;
    ThereAgain(pc, target);
    Swapped(pc, imm);
    Undone(imm, pc);
  }

  lemma {:induction false} Swapped(a: bv32, b: bv32)
    ensures Sum(a, b) == Sum(b, a)
  {
  }

  // ---------------------------------------------------------------- some words

  /** A CALL at an odd distance, which is an error on the last pass, is given two words that are no instructions. */
  lemma {:induction false} OddCall(rd: Register, value: bv32, size: nat)
    requires !Even(value)
    ensures var ws := Planted(CALL, rd, value, size);
      |ws| == 2 && Opcode(ws[0]) == 0 && Opcode(ws[1]) == 0 && Decode(ws[0]) == Decode(ws[1]) == Other
  {
    hide Even, Near, Upper;
    UpperWord(1, Upper(value), 0);
    ImmediateWord(1, 1, value, 0);
    assert Decode(UType(1, Upper(value), 0)) == Other by { hide UType, Opcode; }
    assert Decode(IType(1, 1, value, 0)) == Other by { hide IType, Opcode; }
  }

  /** `li t0, 5`, `li t0, 0x12345678`, a CALL eight bytes on and one two megabytes on, in machine code. */
  lemma {:induction false} KnownExpansions()
    ensures Planted(LI, 5, 5, 4) == [0x0050_0293]
    ensures Planted(LI, 5, 0x1234_5678, 8) == [0x1234_52B7, 0x6782_8293]
    ensures Planted(CALL, 0, 8, 4) == [0x0080_00EF]
    ensures Planted(CALL, 0, 0x20_0000, 8) == [0x0020_0097, 0x0000_80E7]
  {
  }

  /** `beq x0, x0` four bytes back, `lw t0, 4(t0)`, `sw a0, 4(t0)`, and the AUIPC in front of an access at 0x1804. */
  lemma {:induction false} KnownWords()
    ensures 0x63 | BOffset(0xFFFF_FFFC) == 0xFE00_0EE3
    ensures LoadWord(5, 2, Packed(5, 4)) == 0x0042_A283
    ensures StoreWord(10, 2, Packed(5, 4)) == 0x00A2_A223
    ensures GlobalPrefix(5, 0x1804) == 0x0000_2297
  {
  }
}
