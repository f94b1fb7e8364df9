/** The bytes of each instruction (Intel SDM Vol. 2A, sections 2.1.3 and 2.2.1) and a decoder for them. */
module X86Bytes {
  import opened Wrappers
  import opened Words
  import opened X86

  // ---- Fields ----

  /** REX.W with the R and B extension bits; the source builds it by or-ing whole prefixes. */
  function Rex(reg: Reg, rm: Reg): Byte {
    0x48 + (if reg >= 8 then 4 else 0) + (if rm >= 8 then 1 else 0)
  }

  /** A register-direct ModR/M byte. */
  function ModRM(reg: nat, rm: Reg): Byte {
    0xC0 + (reg % 8) * 8 + rm % 8
  }

  /** `n` bytes of `x`, least significant first. */
  function LittleEndian(x: nat, n: nat): (r: seq<Byte>)
    ensures |r| == n
    decreases n
  {
    if n == 0 then [] else [x % 256] + LittleEndian(x / 256, n - 1)
  }

  function FromLittleEndian(b: seq<Byte>): nat {
    if b == [] then 0 else b[0] + 256 * FromLittleEndian(b[1..])
  }

  function Power256(n: nat): nat {
    if n == 0 then 1 else 256 * Power256(n - 1)
  }

  lemma {:induction false} LittleEndianRoundTrip(x: nat, n: nat)
    requires x < Power256(n)
    ensures FromLittleEndian(LittleEndian(x, n)) == x
    decreases n
  {
    if n > 0 {
      LittleEndianRoundTrip(x / 256, n - 1);
      assert LittleEndian(x, n)[1..] == LittleEndian(x / 256, n - 1);
    }
  }

  const REL32_MIN: int := -0x8000_0000
  const REL32_MAX: int := 0x7FFF_FFFF

  predicate FitsRel32(rel: int) {
    REL32_MIN <= rel <= REL32_MAX
  }

  function Rel32(rel: int): (r: seq<Byte>)
    ensures |r| == 4
  {
    LittleEndian(rel % 0x1_0000_0000, 4)
  }

  function FromRel32(b: seq<Byte>): int {
    var u := FromLittleEndian(b);
    if u < 0x8000_0000 then u else u - 0x1_0000_0000
  }

  lemma Rel32RoundTrip(rel: int)
    requires FitsRel32(rel)
    ensures FromRel32(Rel32(rel)) == rel
  {
    assert Power256(4) == 0x1_0000_0000;
    LittleEndianRoundTrip(rel % 0x1_0000_0000, 4);
  }

  function GroupDigit(g: GroupOp): nat {
    match g case GroupNot => 2 case GroupNeg => 3 case GroupDiv => 6 case GroupIDiv => 7
  }

  function ShiftDigit(s: ShiftOp): nat {
    match s case ShiftShl => 4 case ShiftShr => 5 case ShiftSar => 7
  }

  function AluOpcode(a: AluOp): Byte {
    match a case AluAdd => 0x01 case AluOr => 0x09 case AluAnd => 0x21 case AluSub => 0x29 case AluXor => 0x31
  }

  function SetccOpcode(c: Cond): Byte {
    match c
    case CondE => 0x94 case CondNE => 0x95 case CondL => 0x9C
    case CondGE => 0x9D case CondLE => 0x9E case CondG => 0x9F
  }

  function Encode(i: Ins): seq<Byte> {
    match i
    case MovRR(d, s) => [Rex(s, d), 0x89, ModRM(s, d)]
    case MovImm(d, w) => [Rex(0, d), 0xB8 + d % 8] + LittleEndian(w, 8)
    case AluRR(op, d, s) => [Rex(s, d), AluOpcode(op), ModRM(s, d)]
    case ImulRR(d, s) => [Rex(d, s), 0x0F, 0xAF, ModRM(d, s)]
    case CmpRR(a, b) => [Rex(a, b), 0x3B, ModRM(a, b)]
    case TestRR(a, b) => [Rex(b, a), 0x85, ModRM(b, a)]
    case XorEdxEdx => [0x31, 0xD2]
    case Cqo => [0x48, 0x99]
    case Group(g, r) => [Rex(0, r), 0xF7, ModRM(GroupDigit(g), r)]
    case ShiftImm(s, r, n) => [Rex(0, r), 0xC1, ModRM(ShiftDigit(s), r), n]
    case SetccAl(c) => [0x0F, SetccOpcode(c), 0xC0]
    case MovzxAl(d) => [Rex(d, 0), 0x0F, 0xB6, ModRM(d, 0)]
    case CmovNe(d, s) => [Rex(d, s), 0x0F, 0x45, ModRM(d, s)]
    case Push(r) => (if r >= 8 then [0x41] else []) + [0x50 + r % 8]
    case Pop(r) => (if r >= 8 then [0x41] else []) + [0x58 + r % 8]
    case Ret => [0xC3]
    case Jmp(rel) => [0xE9] + Rel32(rel)
    case Jz(rel) => [0x0F, 0x84] + Rel32(rel)
    case Call(rel) => [0xE8] + Rel32(rel)
  }

  // ---- The decoder ----

  datatype Prefix = Prefix(present: bool, w: bool, r: nat, x: nat, b: nat)

  /** An optional REX prefix: the byte 0100WRXB. */
  function ReadPrefix(first: Byte): Prefix {
    if 0x40 <= first < 0x50 then
      Prefix(true, (first / 8) % 2 == 1, (first / 4) % 2, (first / 2) % 2, first % 2)
    else Prefix(false, false, 0, 0, 0)
  }

  function RegField(p: Prefix, modrm: Byte): nat {
    (modrm / 8) % 8 + 8 * p.r
  }

  function RmField(p: Prefix, modrm: Byte): nat {
    modrm % 8 + 8 * p.b
  }

  function DigitField(modrm: Byte): nat {
    (modrm / 8) % 8
  }

  function AluOfOpcode(op: Byte): Option<AluOp> {
    if op == 0x01 then Some(AluAdd) else if op == 0x09 then Some(AluOr) else if op == 0x21 then Some(AluAnd)
    else if op == 0x29 then Some(AluSub) else if op == 0x31 then Some(AluXor) else None
  }

  function CondOfOpcode(op: Byte): Option<Cond> {
    if op == 0x94 then Some(CondE) else if op == 0x95 then Some(CondNE) else if op == 0x9C then Some(CondL)
    else if op == 0x9D then Some(CondGE) else if op == 0x9E then Some(CondLE) else if op == 0x9F then Some(CondG)
    else None
  }

  /** The instruction and the length of what `b` starts with; registers come from the ModR/M and REX
      fields, everything outside the emitted subset is refused. */
  function Decode(b: seq<Byte>): Option<(Ins, nat)> {
    if b == [] then None
    else
      var p := ReadPrefix(b[0]);
      var o := if p.present then b[1..] else b;
      var skip := if p.present then 1 else 0;
      if p.x != 0 then None
      else match DecodeOpcode(p, o)
        case Some((i, n)) => Some((i, n + skip))
        case None => None
  }

  function DecodeOpcode(p: Prefix, o: seq<Byte>): Option<(Ins, nat)>
    requires p.r < 2 && p.b < 2
  {
    if o == [] then None
    else if p.w then DecodeWide(p, o)
    else if p.r != 0 then None
    else if 0x50 <= o[0] < 0x58 then Some((Push(o[0] - 0x50 + 8 * p.b), 1))
    else if 0x58 <= o[0] < 0x60 then Some((Pop(o[0] - 0x58 + 8 * p.b), 1))
    else if p.present then None
    else DecodeBare(o)
  }

  function DecodeBare(o: seq<Byte>): Option<(Ins, nat)>
    requires o != []
  {
    if o[0] == 0xC3 then Some((Ret, 1))
    else if o[0] == 0xE9 && |o| >= 5 then Some((Jmp(FromRel32(o[1..5])), 5))
    else if o[0] == 0xE8 && |o| >= 5 then Some((Call(FromRel32(o[1..5])), 5))
    else if |o| >= 2 && o[0] == 0x31 && o[1] == 0xD2 then Some((XorEdxEdx, 2))
    else if |o| >= 6 && o[0] == 0x0F && o[1] == 0x84 then Some((Jz(FromRel32(o[2..6])), 6))
    else if |o| >= 3 && o[0] == 0x0F && o[2] == 0xC0 && CondOfOpcode(o[1]).Some? then
      Some((SetccAl(CondOfOpcode(o[1]).value), 3))
    else None
  }

  function DecodeWide(p: Prefix, o: seq<Byte>): Option<(Ins, nat)>
    requires o != [] && p.r < 2 && p.b < 2
  {
    if o[0] == 0x99 then (if p.r == 0 && p.b == 0 then Some((Cqo, 1)) else None)
    else if 0xB8 <= o[0] < 0xC0 && |o| >= 9 && p.r == 0 then
      var w := FromLittleEndian(o[1..9]);
      if w < MODULUS then Some((MovImm(o[0] - 0xB8 + 8 * p.b, w), 9)) else None
    else if |o| < 2 then None
    else if o[0] == 0x0F then DecodeTwoByte(p, o)
    else if o[1] < 0xC0 then None
    else
      var reg, rm := RegField(p, o[1]), RmField(p, o[1]);
      if o[0] == 0x89 then Some((MovRR(rm, reg), 2))
      else if o[0] == 0x85 then Some((TestRR(rm, reg), 2))
      else if o[0] == 0x3B then Some((CmpRR(reg, rm), 2))
      else if AluOfOpcode(o[0]).Some? then Some((AluRR(AluOfOpcode(o[0]).value, rm, reg), 2))
      else if o[0] == 0xF7 && p.r == 0 then DecodeGroup(DigitField(o[1]), rm)
      else if o[0] == 0xC1 && p.r == 0 && |o| >= 3 then DecodeShift(DigitField(o[1]), rm, o[2])
      else None
  }

  function DecodeGroup(digit: nat, rm: Reg): Option<(Ins, nat)> {
    if digit == 2 then Some((Group(GroupNot, rm), 2))
    else if digit == 3 then Some((Group(GroupNeg, rm), 2))
    else if digit == 6 then Some((Group(GroupDiv, rm), 2))
    else if digit == 7 then Some((Group(GroupIDiv, rm), 2))
    else None
  }

  function DecodeShift(digit: nat, rm: Reg, count: Byte): Option<(Ins, nat)> {
    if digit == 4 then Some((ShiftImm(ShiftShl, rm, count), 3))
    else if digit == 5 then Some((ShiftImm(ShiftShr, rm, count), 3))
    else if digit == 7 then Some((ShiftImm(ShiftSar, rm, count), 3))
    else None
  }

  function DecodeTwoByte(p: Prefix, o: seq<Byte>): Option<(Ins, nat)>
    requires |o| >= 2 && p.r < 2 && p.b < 2
  {
    if |o| < 3 || o[2] < 0xC0 then None
    else
      var reg, rm := RegField(p, o[2]), RmField(p, o[2]);
      if o[1] == 0xAF then Some((ImulRR(reg, rm), 3))
      else if o[1] == 0x45 then Some((CmovNe(reg, rm), 3))
      else if o[1] == 0xB6 && rm == RAX then Some((MovzxAl(reg), 3))
      else None
  }

  // ---- Unique decoding ----

  predicate Encodable(i: Ins) {
    match i
    case Jmp(rel) => FitsRel32(rel)
    case Jz(rel) => FitsRel32(rel)
    case Call(rel) => FitsRel32(rel)
    case _ => true
  }

  lemma DecodeMovImm(d: Reg, w: Word, rest: seq<Byte>)
    ensures Decode(Encode(MovImm(d, w)) + rest) == Some((MovImm(d, w), 10))
  {
    var b := Encode(MovImm(d, w)) + rest;
    assert b[2..10] == LittleEndian(w, 8);
    var o := b[1..];
    assert o[1..9] == b[2..10];
    assert Power256(8) == MODULUS;
    LittleEndianRoundTrip(w, 8);
    assert ReadPrefix(b[0]) == Prefix(true, true, 0, 0, if d >= 8 then 1 else 0);
    assert o[0] == 0xB8 + d % 8;
    assert DecodeWide(ReadPrefix(b[0]), o) == Some((MovImm(d, w), 9));
  }

  lemma DecodeTransfers(i: Ins, rest: seq<Byte>)
    requires Encodable(i) && (i.Jmp? || i.Jz? || i.Call?)
    ensures Decode(Encode(i) + rest) == Some((i, |Encode(i)|))
  {
    var b := Encode(i) + rest;
    Rel32RoundTrip(i.rel);
    if i.Jz? {
      assert b[2..6] == Rel32(i.rel);
    } else {
      assert b[1..5] == Rel32(i.rel);
    }
  }

  /** REX and ModR/M together name the two registers. */
  lemma FieldsRoundTrip(reg: Reg, rm: Reg)
    ensures var p := ReadPrefix(Rex(reg, rm));
      && p.present && p.w && p.x == 0 && (p.r == 0 <==> reg < 8)
      && RegField(p, ModRM(reg, rm)) == reg && RmField(p, ModRM(reg, rm)) == rm
      && (reg < 8 ==> DigitField(ModRM(reg, rm)) == reg)
  {
    ModRMFields(reg % 8, rm % 8);
    var r, b := if reg >= 8 then 1 else 0, if rm >= 8 then 1 else 0;
    assert ReadPrefix(Rex(reg, rm)) == Prefix(true, true, r, 0, b) by {
      assert Rex(reg, rm) in {0x48, 0x49, 0x4C, 0x4D};
    }
    assert reg == reg % 8 + 8 * r && rm == rm % 8 + 8 * b;
  }

  lemma ModRMFields(q: nat, s: nat)
    requires q < 8 && s < 8
    ensures (0xC0 + q * 8 + s) / 8 == 24 + q && (0xC0 + q * 8 + s) % 8 == s && (24 + q) % 8 == q
  {
  }

  /** What a REX.W instruction with a one-byte opcode and a ModR/M byte decodes to. */
  lemma DecodeRegReg(opcode: Byte, reg: Reg, rm: Reg, rest: seq<Byte>)
    requires opcode in {0x89, 0x85, 0x3B, 0x01, 0x09, 0x21, 0x29, 0x31}
    ensures Decode([Rex(reg, rm), opcode, ModRM(reg, rm)] + rest) == Some((
      if opcode == 0x89 then MovRR(rm, reg) else if opcode == 0x85 then TestRR(rm, reg)
      else if opcode == 0x3B then CmpRR(reg, rm) else AluRR(AluOfOpcode(opcode).value, rm, reg), 3))
  {
    var b := [Rex(reg, rm), opcode, ModRM(reg, rm)] + rest;
    FieldsRoundTrip(reg, rm);
    var o := b[1..];
    assert b[0] == Rex(reg, rm) && o[0] == opcode && o[1] == ModRM(reg, rm);
  }

  lemma DecodeOneByteOpcodes(i: Ins, rest: seq<Byte>)
    requires i.MovRR? || i.AluRR? || i.CmpRR? || i.TestRR?
    ensures Decode(Encode(i) + rest) == Some((i, |Encode(i)|))
  {
    match i
    case MovRR(d, s) => DecodeRegReg(0x89, s, d, rest);
    case AluRR(op, d, s) => DecodeRegReg(AluOpcode(op), s, d, rest);
    case CmpRR(x, y) => DecodeRegReg(0x3B, x, y, rest);
    case TestRR(x, y) => DecodeRegReg(0x85, y, x, rest);
  }

  lemma DecodeGroupIns(g: GroupOp, r: Reg, rest: seq<Byte>)
    ensures Decode(Encode(Group(g, r)) + rest) == Some((Group(g, r), 3))
  {
    var b := Encode(Group(g, r)) + rest;
    FieldsRoundTrip(GroupDigit(g), r);
    var o := b[1..];
    assert b[0] == Rex(GroupDigit(g), r) && o[0] == 0xF7 && o[1] == ModRM(GroupDigit(g), r);
    assert DecodeWide(ReadPrefix(b[0]), o) == DecodeGroup(GroupDigit(g), r);
  }

  lemma DecodeShiftIns(s: ShiftOp, r: Reg, n: Byte, rest: seq<Byte>)
    ensures Decode(Encode(ShiftImm(s, r, n)) + rest) == Some((ShiftImm(s, r, n), 4))
  {
    var b := Encode(ShiftImm(s, r, n)) + rest;
    FieldsRoundTrip(ShiftDigit(s), r);
    var o := b[1..];
    assert b[0] == Rex(ShiftDigit(s), r) && o[0] == 0xC1 && o[1] == ModRM(ShiftDigit(s), r) && o[2] == n;
    assert DecodeWide(ReadPrefix(b[0]), o) == DecodeShift(ShiftDigit(s), r, n);
  }

  lemma DecodeTwoByteOpcodes(i: Ins, rest: seq<Byte>)
    requires i.ImulRR? || i.MovzxAl? || i.CmovNe?
    ensures Decode(Encode(i) + rest) == Some((i, |Encode(i)|))
  {
    var b := Encode(i) + rest;
    match i
    case ImulRR(d, s) => FieldsRoundTrip(d, s);
    case CmovNe(d, s) => FieldsRoundTrip(d, s);
    case MovzxAl(d) => FieldsRoundTrip(d, RAX);
    var o := b[1..];
    assert o[0] == 0x0F && o[1] == Encode(i)[2] && o[2] == Encode(i)[3];
  }

  lemma DecodeShort(i: Ins, rest: seq<Byte>)
    requires i.Push? || i.Pop? || i.Ret? || i.SetccAl? || i.XorEdxEdx? || i.Cqo?
    ensures Decode(Encode(i) + rest) == Some((i, |Encode(i)|))
  {
  }

  /** Decoding the bytes of an instruction, whatever follows them, gives back that instruction, its
      registers and its length. */
  lemma DecodeEncode(i: Ins, rest: seq<Byte>)
    requires Encodable(i)
    ensures Decode(Encode(i) + rest) == Some((i, |Encode(i)|))
  {
    if i.Jmp? || i.Jz? || i.Call? { DecodeTransfers(i, rest); }
    else if i.MovImm? { DecodeMovImm(i.dst, i.imm, rest); }
    else if i.Group? { DecodeGroupIns(i.grp, i.rm, rest); }
    else if i.ShiftImm? { DecodeShiftIns(i.shift, i.rm, i.count, rest); }
    else if i.ImulRR? || i.MovzxAl? || i.CmovNe? { DecodeTwoByteOpcodes(i, rest); }
    else if i.MovRR? || i.AluRR? || i.CmpRR? || i.TestRR? { DecodeOneByteOpcodes(i, rest); }
    else { DecodeShort(i, rest); }
  }
}
