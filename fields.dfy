/**
 * Field extraction: what the token extractors leave in the parser's
 * scratch fields for one 32-character line, and how getOperands turns
 * those scratch values into an instruction's operands.
 *
 * The scratch fields persist from line to line and each extractor writes
 * only the fields its format uses, so the extractors are modelled as
 * updates of the previous scratch values.
 */
module Fields {
  import opened Bits
  import opened Conversion
  import opened Layout
  import opened Opcodes
  import opened Registers
  import opened Instructions

  datatype Option<T> = None | Some(value: T)

  /** The parser's decimal scratch fields rs_Dec, rt_Dec, rd_Dec and imm_Dec. */
  datatype Scratch = Scratch(rsDec: int, rtDec: int, rdDec: int, immDec: int)

  /** The opcode field, line[0..6). */
  function OpcodeField(line: string): string
    requires |line| == ThirtyTwo
  {
    line[OpcStart..OpcStart + OpcLength]
  }

  /** The funct field, line[26..32). */
  function FunctField(line: string): string
    requires |line| == ThirtyTwo
  {
    line[FuncStart..FuncStart + FuncLength]
  }

  /** The opcode getTokens (and then the constructor) looks up for a line. */
  function LineOpcode(t: OpcodeTable, line: string): nat
    requires |line| == ThirtyTwo
  {
    t.GetOpcode(OpcodeField(line), FunctField(line))
  }

  /** A 5-bit register field read through bitset<5>: always a register number. */
  function RegisterField(line: string, start: nat): (r: int)
    requires start + RegLength <= |line|
    ensures 0 <= r < NumRegisters
    ensures r == Unsigned(line[start..start + RegLength])
  {
    PowValues();
    assert line[start..start + RegLength][..RegLength] == line[start..start + RegLength];
    BitsetValue(line[start..start + RegLength], RegLength)
  }

  /**
   * The J target: the 26-bit field with "00" appended, read through
   * bitset<26>, times the multiplier. The bitset keeps only the first 26
   * characters, so the appended zeros are dropped and the field is
   * scaled by the multiplier alone.
   */
  function JTarget(line: string): (r: int)
    requires |line| == ThirtyTwo
    ensures r == Unsigned(line[ImmStartJ..]) * Multiplier
    ensures 0 <= r < Pow2(ImmLengthJ) * Multiplier
  {
    var field := line[ImmStartJ..ImmStartJ + ImmLengthJ];
    assert (field + Offset)[..ImmLengthJ] == field == line[ImmStartJ..];
    BitsetValue(field + Offset, ImmLengthJ) * Multiplier
  }

  /** The immediate of a non-beq I-type line: convertBinToInt of line[16..32). */
  function IImmediate(line: string): int
    requires |line| == ThirtyTwo
  {
    BinToInt(line[ImmStartI..ImmStartI + ImmLengthI])
  }

  /** The immediate of a beq line: convertBinToInt of line[16..32) + "00", times the multiplier. */
  function BranchImmediate(line: string): int
    requires |line| == ThirtyTwo
  {
    BinToInt(line[ImmStartI..ImmStartI + ImmLengthI] + Offset) * Multiplier
  }

  /**
   * getRTokens: all four scratch fields from the 5-bit slices at 6, 11,
   * 16 and 21, each the unsigned value of its slice and so a register
   * number.
   */
  function RTokens(line: string): (r: Scratch)
    requires |line| == ThirtyTwo
    ensures 0 <= r.rsDec < NumRegisters && 0 <= r.rtDec < NumRegisters
    ensures 0 <= r.rdDec < NumRegisters && 0 <= r.immDec < NumRegisters
    ensures r.rsDec == Unsigned(line[RsStartR..RtStartR]) && r.rtDec == Unsigned(line[RtStartR..RdStartR])
    ensures r.rdDec == Unsigned(line[RdStartR..ImmStartR]) && r.immDec == Unsigned(line[ImmStartR..FuncStart])
  {
    Scratch(RegisterField(line, RsStartR), RegisterField(line, RtStartR),
            RegisterField(line, RdStartR), RegisterField(line, ImmStartR))
  }

  /**
   * getBranchITokens and getITokens: rs and rt become register numbers,
   * the immediate is converted (a multiple of 4 for beq), and rd keeps
   * its old value.
   */
  function ITokens(line: string, before: Scratch, branch: bool): (r: Scratch)
    requires |line| == ThirtyTwo
    ensures r.rdDec == before.rdDec
    ensures 0 <= r.rsDec < NumRegisters && 0 <= r.rtDec < NumRegisters
    ensures branch ==> r.immDec % Multiplier == 0
  {
    before.(rsDec := RegisterField(line, RsStartI), rtDec := RegisterField(line, RtStartI),
            immDec := if branch then BranchImmediate(line) else IImmediate(line))
  }

  /**
   * getTokens: the scratch fields after extracting the line's tokens by
   * the format of its opcode. A line with no opcode changes nothing,
   * only R-type lines write rd, and every register field an R- or I-type
   * line writes holds a register number.
   */
  function TokensAfter(t: OpcodeTable, line: string, before: Scratch): (r: Scratch)
    requires |line| == ThirtyTwo
    ensures t.GetInstType(LineOpcode(t, line)) == NoType ==> r == before
    ensures t.GetInstType(LineOpcode(t, line)) != RType ==> r.rdDec == before.rdDec
    ensures t.GetInstType(LineOpcode(t, line)) == JType ==> r.(immDec := before.immDec) == before
    ensures t.GetInstType(LineOpcode(t, line)) in {RType, IType} ==>
      0 <= r.rsDec < NumRegisters && 0 <= r.rtDec < NumRegisters
    ensures t.GetInstType(LineOpcode(t, line)) == RType ==> 0 <= r.rdDec < NumRegisters
  {
    var o := LineOpcode(t, line);
    match t.GetInstType(o)
    case RType => RTokens(line)
    case JType => before.(immDec := JTarget(line))
    case IType => ITokens(line, before, t.GetName(o) == "beq")
    case NoType => before
  }

  /** A register role's value: looked up when the role has a print slot, the sentinel otherwise. */
  function Role(pos: int, reg: RegisterTable, dec: int): int {
    if pos != -1 then reg.GetNum(dec) else NumRegisters
  }

  /** A used role whose scratch value is no register: getOperands fails on it. */
  predicate BadRole(pos: int, dec: int) {
    pos != -1 && !(0 <= dec < NumRegisters)
  }

  /**
   * getOperands: the operands an instruction of opcode `o` receives from
   * the scratch fields, or None when a used register role holds no
   * register. Roles without a print slot stay at the sentinel and the
   * immediate at 0.
   */
  function OperandsOf(t: OpcodeTable, reg: RegisterTable, o: int, sc: Scratch): (r: Option<Operands>)
    ensures r.None? <==>
      match t.GetInstType(o)
      case RType => BadRole(t.RSPosition(o), sc.rsDec) || BadRole(t.RTPosition(o), sc.rtDec)
                    || BadRole(t.RDPosition(o), sc.rdDec)
      case IType => BadRole(t.RSPosition(o), sc.rsDec) || BadRole(t.RTPosition(o), sc.rtDec)
      case _ => false
    ensures r.Some? ==> 0 <= r.value.rs <= NumRegisters && 0 <= r.value.rt <= NumRegisters
                        && 0 <= r.value.rd <= NumRegisters
    ensures r.Some? && t.GetInstType(o) in {RType, IType} ==>
      (r.value.rs == if t.RSPosition(o) == -1 then NumRegisters else sc.rsDec) &&
      (r.value.rt == if t.RTPosition(o) == -1 then NumRegisters else sc.rtDec)
    ensures r.Some? && t.GetInstType(o) == RType ==>
      r.value.rd == if t.RDPosition(o) == -1 then NumRegisters else sc.rdDec
    ensures r.Some? && t.GetInstType(o) != RType ==> r.value.rd == NumRegisters
    ensures r.Some? && t.GetInstType(o) in {JType, NoType} ==> r.value.rs == r.value.rt == NumRegisters
    ensures r.Some? ==>
      r.value.imm == if t.GetInstType(o) == JType then sc.immDec
                     else if t.GetInstType(o) == NoType || t.IMMPosition(o) == -1 then 0
                     else sc.immDec
  {
    var rsp, rtp, rdp, immp := t.RSPosition(o), t.RTPosition(o), t.RDPosition(o), t.IMMPosition(o);
    var rs, rt, rd := Role(rsp, reg, sc.rsDec), Role(rtp, reg, sc.rtDec), Role(rdp, reg, sc.rdDec);
    var imm := if immp != -1 then sc.immDec else 0;
    match t.GetInstType(o)
    case RType =>
      if (rsp != -1 && rs == NumRegisters) || (rtp != -1 && rt == NumRegisters)
         || (rdp != -1 && rd == NumRegisters)
      then None
      else Some(Operands(rs, rt, rd, imm))
    case JType => Some(Operands(NumRegisters, NumRegisters, NumRegisters, sc.immDec))
    case IType =>
      if (rsp != -1 && rs == NumRegisters) || (rtp != -1 && rt == NumRegisters)
      then None
      else Some(Operands(rs, rt, NumRegisters, imm))
    case NoType => Some(Operands(NumRegisters, NumRegisters, NumRegisters, 0))
  }

  /**
   * getOperands reads only the scratch fields the line's own format has
   * just written, so what the previous line left behind never reaches
   * the operands.
   */
  lemma {:induction false} OperandsIgnoreStaleScratch(t: OpcodeTable, reg: RegisterTable, line: string, b1: Scratch, b2: Scratch)
    requires |line| == ThirtyTwo
    ensures OperandsOf(t, reg, LineOpcode(t, line), TokensAfter(t, line, b1))
         == OperandsOf(t, reg, LineOpcode(t, line), TokensAfter(t, line, b2))
  {
    var o := LineOpcode(t, line);
    var s1, s2 := TokensAfter(t, line, b1), TokensAfter(t, line, b2);
    match t.GetInstType(o)
    case RType =>
    case JType =>
      assert s1.immDec == s2.immDec;
    case IType =>
      assert s1.rsDec == s2.rsDec && s1.rtDec == s2.rtDec && s1.immDec == s2.immDec;
    case NoType =>
  }

  /**
   * The register check in getOperands never fails on a 32-character
   * line: every register field is 5 bits wide, so it always names one of
   * the 32 registers.
   */
  lemma RegisterCheckNeverFails(t: OpcodeTable, reg: RegisterTable, line: string, before: Scratch)
    requires |line| == ThirtyTwo
    ensures OperandsOf(t, reg, LineOpcode(t, line), TokensAfter(t, line, before)).Some?
  {
    var o := LineOpcode(t, line);
    var sc := TokensAfter(t, line, before);
    if t.GetInstType(o) == RType {
      assert sc == RTokens(line);
    } else if t.GetInstType(o) == IType {
      assert sc == ITokens(line, before, t.GetName(o) == "beq");
    }
  }

  /**
   * The I-type immediate is the field's two's-complement value, except
   * that when the sign bit is set and the low eight bits are all '0' the
   * dropped carry leaves it 256 too large.
   */
  lemma IImmediateValue(line: string)
    requires |line| == ThirtyTwo && IsBinary(line[ImmStartI..])
    ensures var field := line[ImmStartI..];
      IImmediate(line) ==
        if field[0] == '1' && AllChar(field[8..], '0')
        then TwosComplement(field) + 256
        else TwosComplement(field)
  {
    assert line[ImmStartI..ImmStartI + ImmLengthI] == line[ImmStartI..];
    BinToInt16(line[ImmStartI..]);
  }

  /**
   * The beq immediate is four times the field's two's-complement value,
   * except that when the sign bit is set and bits 9..15 of the field are
   * all '0' the dropped carry leaves it 4 * 128 too large.
   */
  lemma BranchImmediateValue(line: string)
    requires |line| == ThirtyTwo && IsBinary(line[ImmStartI..])
    ensures var field := line[ImmStartI..];
      BranchImmediate(line) ==
        Multiplier * (if field[0] == '1' && AllChar(field[9..], '0')
                      then TwosComplement(field) + 128
                      else TwosComplement(field))
  {
    assert line[ImmStartI..ImmStartI + ImmLengthI] == line[ImmStartI..];
    BinToIntBranch(line[ImmStartI..]);
  }
}
