/**
 * The machine-language parser: it checks and decodes every line of its
 * input into an instruction with its assembly text, keeps the list and
 * hands the instructions out one at a time.
 *
 * Reading the file is replaced by the sequence of its lines. Where the
 * C++ constructor prints a diagnostic and exits, the loop here stops with the
 * format flag cleared and records the reason and the line number in
 * `myFailure`.
 */
module Parser {
  import opened Bits
  import opened Text
  import opened Conversion
  import opened Layout
  import opened Opcodes
  import opened Registers
  import opened Instructions
  import opened Fields
  import opened Rendering
  import opened Pipeline

  class MachLangParser {
    var myInstructions: seq<InstructionValue>
    var myIndex: int
    var myFormatCorrect: bool
    /** The refusal that stopped the parse, if any. */
    var myFailure: Option<ParseError>

    const registers: RegisterTable
    const opcodes: OpcodeTable

    /** The binary register fields getRTokens keeps. */
    var rsBin: string
    var rtBin: string
    var rdBin: string
    var immBin: string

    /** The decimal scratch fields the token extractors write and getOperands reads. */
    var rsDec: int
    var rtDec: int
    var rdDec: int
    var immDec: int

    function ScratchValues(): Scratch
      reads this
    {
      Scratch(rsDec, rtDec, rdDec, immDec)
    }

    /**
     * The cursor stays within the list, the flag is cleared exactly when a
     * refusal is recorded, and no stored instruction has the opcode
     * UNDEFINED.
     */
    predicate Valid()
      reads this
    {
      && 0 <= myIndex <= |myInstructions|
      && (myFormatCorrect <==> myFailure == None)
      && (forall j :: 0 <= j < |myInstructions| ==> myInstructions[j].opcode < opcodes.Undefined())
    }

    /**
     * Parses `lines` in order. The result is the line-by-line parse: one
     * instruction per accepted line, stopping at the first refused line.
     */
    constructor (lines: seq<string>, registers: RegisterTable, opcodes: OpcodeTable)
      ensures this.registers == registers && this.opcodes == opcodes
      ensures ParseResult(myInstructions, myFormatCorrect, myFailure) == Parse(opcodes, registers, lines)
      ensures myIndex == 0 && Valid()
    {
      this.registers := registers;
      this.opcodes := opcodes;
      myInstructions := [];
      myFormatCorrect := true;
      myFailure := None;
      new;
      ParseLines(lines, Outcomes(opcodes, registers, lines));
      myIndex := 0;
    }

    /**
     * The constructor's loop: each line in turn, until one is refused.
     * `rs` holds the outcome of each line on its own.
     */
    method ParseLines(lines: seq<string>, ghost rs: seq<LineResult>)
      requires myInstructions == [] && myFormatCorrect && myFailure == None
      requires |rs| == |lines|
      requires forall j {:trigger DecodeLine(opcodes, registers, lines[j])} ::
        0 <= j < |lines| ==> rs[j] == DecodeLine(opcodes, registers, lines[j])
      modifies this
      ensures ParseResult(myInstructions, myFormatCorrect, myFailure) == Collect(rs, 0)
    {
      var i := new Instruction.Default(opcodes.Undefined());
      var instructionCount := 0;

      while instructionCount < |lines|
        invariant 0 <= instructionCount <= |lines|
        invariant myFormatCorrect && myFailure == None
        invariant CollectedSoFar(rs, instructionCount, myInstructions)
      {
        var line := lines[instructionCount];
        instructionCount := instructionCount + 1;
        var outcome := ParseLine(i, line);
        Record(outcome, instructionCount, rs);
        if outcome.Rejected? {
          return;
        }
      }
      CollectDone(rs, myInstructions);
    }

    /**
     * The end of a pass of the constructor's loop over line `lineNumber`:
     * an accepted line's instruction is appended; a refused line clears
     * the flag, records the refusal and leaves the parse complete.
     */
    method Record(outcome: LineResult, lineNumber: nat, ghost rs: seq<LineResult>)
      requires 1 <= lineNumber <= |rs| && rs[lineNumber - 1] == outcome
      requires myFormatCorrect && myFailure == None
      requires CollectedSoFar(rs, lineNumber - 1, myInstructions)
      modifies this`myInstructions, this`myFormatCorrect, this`myFailure
      ensures outcome.Accepted? ==>
        myFormatCorrect && myFailure == None && CollectedSoFar(rs, lineNumber, myInstructions)
      ensures outcome.Rejected? ==>
        ParseResult(myInstructions, myFormatCorrect, myFailure) == Collect(rs, 0)
    {
      CollectStep(rs, lineNumber - 1, myInstructions, outcome);
      if outcome.Rejected? {
        myFormatCorrect := false;
        myFailure := Some(ParseError(outcome.kind, lineNumber));
      } else {
        myInstructions := myInstructions + [outcome.inst];
      }
    }

    /**
     * One pass of the constructor's loop over a line: the length check,
     * the alphabet check from index 1, getTokens, the opcode lookup,
     * getOperands and decode. An accepted line leaves the instruction `i`
     * holding what is appended to the list.
     */
    method ParseLine(i: Instruction, line: string) returns (outcome: LineResult)
      modifies i, this`rsBin, this`rtBin, this`rdBin, this`immBin
      modifies this`rsDec, this`rtDec, this`rdDec, this`immDec
      ensures outcome == DecodeLine(opcodes, registers, line)
      ensures outcome.Accepted? ==> outcome.inst == i.Value()
    {
      if |line| != ThirtyTwo {
        return Rejected(LineLength);
      }

      var j := 1;
      while j < |line| && IsBit(line[j])
        invariant 1 <= j <= |line|
        invariant forall m :: 1 <= m < j ==> IsBit(line[m])
      {
        j := j + 1;
      }
      if j < |line| {
        return Rejected(LineAlphabet);
      }

      i.SetEncoding(line);

      ghost var before := ScratchValues();
      var opcode, funct := GetTokens(line);
      var o := opcodes.GetOpcode(opcode, funct);
      OperandsIgnoreStaleScratch(opcodes, registers, line, before, InitialScratch);

      if o == opcodes.Undefined() {
        return Rejected(UnknownOpcode);
      }

      var success := GetOperands(i, o);
      if !success {
        return Rejected(InvalidRegister);
      }

      var decoding := Decode(i.Value());
      i.SetAssembly(decoding);
      return Accepted(i.Value());
    }

    /** isFormatCorrect: the flag, which is set exactly when no line was refused. */
    function IsFormatCorrect(): (r: bool)
      requires Valid()
      reads this
      ensures r <==> myFailure == None
    {
      myFormatCorrect
    }

    /**
     * getNextInstruction: the instruction under the cursor, advancing it;
     * once the list is exhausted, the default instruction (opcode
     * UNDEFINED, every register the sentinel) and the cursor stays put.
     * The opcode is UNDEFINED exactly then, which is how a caller finds
     * the end of the list. The list itself never changes.
     */
    method GetNextInstruction() returns (inst: InstructionValue)
      requires Valid()
      modifies this`myIndex
      ensures Valid()
      ensures inst.opcode == opcodes.Undefined() <==> old(myIndex) >= |myInstructions|
      ensures old(myIndex) < |myInstructions| ==>
        inst == myInstructions[old(myIndex)] && myIndex == old(myIndex) + 1
      ensures old(myIndex) >= |myInstructions| ==>
        && myIndex == old(myIndex)
        && inst.opcode == opcodes.Undefined()
        && inst.operands.rs == inst.operands.rt == inst.operands.rd == NumRegisters
        && inst.encoding == "" && inst.assembly == ""
    {
      if myIndex < |myInstructions| {
        myIndex := myIndex + 1;
        return myInstructions[myIndex - 1];
      }
      var i := new Instruction.Default(opcodes.Undefined());
      return i.Value();
    }

    /**
     * getTokens: the opcode field line[0..6) and the funct field
     * line[26..32), and the scratch fields as the line's format leaves them.
     */
    method GetTokens(line: string) returns (opcode: string, funct: string)
      requires |line| == ThirtyTwo && AlphabetOk(line)
      modifies this`rsBin, this`rtBin, this`rdBin, this`immBin
      modifies this`rsDec, this`rtDec, this`rdDec, this`immDec
      ensures opcode == OpcodeField(line) && funct == FunctField(line)
      ensures ScratchValues() == TokensAfter(opcodes, line, old(ScratchValues()))
    {
      opcode := line[OpcStart..OpcStart + OpcLength];
      funct := line[FuncStart..FuncStart + FuncLength];

      var myOpcode := opcodes.GetOpcode(opcode, funct);
      assert IsBinary(line[ImmStartI..]);

      if opcodes.GetInstType(myOpcode) == RType {
        GetRTokens(line);
      }
      if opcodes.GetInstType(myOpcode) == JType {
        GetJTokens(line);
      }
      if opcodes.GetInstType(myOpcode) == IType {
        if opcodes.GetName(myOpcode) == "beq" {
          GetBranchITokens(line);
        } else {
          GetITokens(line);
        }
      }
    }

    /** getRTokens: the four 5-bit fields at 6, 11, 16 and 21, kept as text and as numbers. */
    method GetRTokens(line: string)
      requires |line| == ThirtyTwo
      modifies this`rsBin, this`rtBin, this`rdBin, this`immBin
      modifies this`rsDec, this`rtDec, this`rdDec, this`immDec
      ensures rsBin == line[RsStartR..RsStartR + RegLength] && rtBin == line[RtStartR..RtStartR + RegLength]
      ensures rdBin == line[RdStartR..RdStartR + RegLength] && immBin == line[ImmStartR..ImmStartR + RegLength]
      ensures ScratchValues() == RTokens(line)
    {
      rsBin := line[RsStartR..RsStartR + RegLength];
      rtBin := line[RtStartR..RtStartR + RegLength];
      rdBin := line[RdStartR..RdStartR + RegLength];
      immBin := line[ImmStartR..ImmStartR + RegLength];

      rsDec := BitsetValue(rsBin, RegLength);
      rtDec := BitsetValue(rtBin, RegLength);
      rdDec := BitsetValue(rdBin, RegLength);
      immDec := BitsetValue(immBin, RegLength);
    }

    /** getJTokens: only the immediate changes, to the target scaled by the multiplier. */
    method GetJTokens(line: string)
      requires |line| == ThirtyTwo
      modifies this`immDec
      ensures ScratchValues() == old(ScratchValues()).(immDec := JTarget(line))
    {
      var imm := line[ImmStartJ..ImmStartJ + ImmLengthJ] + Offset;
      immDec := BitsetValue(imm, ImmLengthJ) * Multiplier;
    }

    /** getBranchITokens: rs, rt and the immediate with "00" appended, converted and scaled. */
    method GetBranchITokens(line: string)
      requires |line| == ThirtyTwo && IsBinary(line[ImmStartI..])
      modifies this`rsDec, this`rtDec, this`immDec
      ensures ScratchValues() == ITokens(line, old(ScratchValues()), true)
    {
      var rs := line[RsStartI..RsStartI + RegLength];
      var rt := line[RtStartI..RtStartI + RegLength];
      var imm := line[ImmStartI..ImmStartI + ImmLengthI] + Offset;
      assert line[ImmStartI..ImmStartI + ImmLengthI] == line[ImmStartI..];

      rsDec := BitsetValue(rs, RegLength);
      rtDec := BitsetValue(rt, RegLength);
      var value := ConvertBinToInt(imm);
      immDec := value * Multiplier;
    }

    /** getITokens: rs, rt and the 16-bit immediate, converted. */
    method GetITokens(line: string)
      requires |line| == ThirtyTwo && IsBinary(line[ImmStartI..])
      modifies this`rsDec, this`rtDec, this`immDec
      ensures ScratchValues() == ITokens(line, old(ScratchValues()), false)
    {
      var rs := line[RsStartI..RsStartI + RegLength];
      var rt := line[RtStartI..RtStartI + RegLength];
      var imm := line[ImmStartI..ImmStartI + ImmLengthI];
      assert imm == line[ImmStartI..];

      rsDec := BitsetValue(rs, RegLength);
      rtDec := BitsetValue(rt, RegLength);
      immDec := ConvertBinToInt(imm);
    }

    /**
     * getOperands: on success the instruction holds what setValues stores
     * for the operands the scratch fields give; on failure it is untouched.
     */
    method GetOperands(i: Instruction, o: int) returns (success: bool)
      modifies i`myOpcode, i`myRS, i`myRT, i`myRD, i`myImmediate
      ensures success <==> OperandsOf(opcodes, registers, o, ScratchValues()).Some?
      ensures success ==>
        && i.myOpcode == ClampOpcode(o, opcodes.Undefined())
        && Operands(i.myRS, i.myRT, i.myRD, i.myImmediate)
           == ClampOperands(OperandsOf(opcodes, registers, o, ScratchValues()).value)
      ensures !success ==> unchanged(i)
    {
      var rs, rt, rd := NumRegisters, NumRegisters, NumRegisters;
      var imm := 0;

      var rsP := opcodes.RSPosition(o);
      var rtP := opcodes.RTPosition(o);
      var rdP := opcodes.RDPosition(o);
      var immP := opcodes.IMMPosition(o);

      var insType := opcodes.GetInstType(o);

      if insType == RType {
        if rsP != -1 {
          rs := registers.GetNum(rsDec);
          if rs == NumRegisters { return false; }
        }
        if rtP != -1 {
          rt := registers.GetNum(rtDec);
          if rt == NumRegisters { return false; }
        }
        if rdP != -1 {
          rd := registers.GetNum(rdDec);
          if rd == NumRegisters { return false; }
        }
        if immP != -1 {
          imm := immDec;
        }
      }

      if insType == JType {
        imm := immDec;
      }

      if insType == IType {
        if rsP != -1 {
          rs := registers.GetNum(rsDec);
          if rs == NumRegisters { return false; }
        }
        if rtP != -1 {
          rt := registers.GetNum(rtDec);
          if rt == NumRegisters { return false; }
        }
        if immP != -1 {
          imm := immDec;
        }
      }

      i.SetValues(o, rs, rt, rd, imm, opcodes.Undefined());
      return true;
    }

    /** decode: the rendering for the instruction's format, "" when its opcode has none. */
    method Decode(v: InstructionValue) returns (s: string)
      ensures s == Render(opcodes, v)
    {
      var myOpcode := v.opcode;
      if opcodes.GetInstType(myOpcode) == RType {
        s := DecodeR(v);
        return;
      }
      if opcodes.GetInstType(myOpcode) == JType {
        s := DecodeJ(v);
        return;
      }
      if opcodes.GetInstType(myOpcode) == IType {
        s := DecodeI(v);
        return;
      }
      s := "";
    }

    /** decodeR: the mnemonic, a tab, and the slots joined by ", ". */
    method DecodeR(v: InstructionValue) returns (s: string)
      ensures s == RenderR(opcodes, v.opcode, v.operands)
      ensures s == Head(opcodes, v.opcode) + Join(RSlots(opcodes, v.opcode, v.operands), ", ")
    {
      var myOpcode, x := v.opcode, v.operands;
      ghost var parts := RSlots(opcodes, myOpcode, x);
      ghost var head := Head(opcodes, myOpcode);
      s := "";
      s := s + (opcodes.GetName(myOpcode) + "\t");

      var w := 0;
      while w < opcodes.NumOperands(myOpcode)
        invariant 0 <= w <= |parts|
        invariant s == head + Emit(parts, ", ", w)
      {
        s := AppendRSlot(s, myOpcode, x, w);
        EmitStep(parts, ", ", w, head, s);
        if w < opcodes.NumOperands(myOpcode) - 1 {
          s := s + ", ";
        }
        w := w + 1;
      }
      RenderRJoins(opcodes, myOpcode, x);
    }

    /** The body of decodeR's loop: whatever of rd, the immediate, rs and rt sits in slot `w`, in that order. */
    method AppendRSlot(s: string, myOpcode: int, x: Operands, w: int) returns (r: string)
      ensures r == s + RSlot(opcodes, myOpcode, x, w)
    {
      ghost var rd := if w == opcodes.RDPosition(myOpcode) then RegText(x.rd) else "";
      ghost var imm := if w == opcodes.IMMPosition(myOpcode) then DecimalText(x.imm) else "";
      ghost var rs := if w == opcodes.RSPosition(myOpcode) then RegText(x.rs) else "";
      ghost var rt := if w == opcodes.RTPosition(myOpcode) then RegText(x.rt) else "";
      r := s;
      if w == opcodes.RDPosition(myOpcode) {
        r := r + "$";
        r := r + DecimalText(x.rd);
        AppendTwo(s, "$", DecimalText(x.rd));
      } else {
        AppendNothing(s);
      }
      ghost var r1 := r;
      if w == opcodes.IMMPosition(myOpcode) {
        r := r + DecimalText(x.imm);
      } else {
        AppendNothing(r1);
      }
      ghost var r2 := r;
      if w == opcodes.RSPosition(myOpcode) {
        r := r + "$";
        r := r + DecimalText(x.rs);
        AppendTwo(r2, "$", DecimalText(x.rs));
      } else {
        AppendNothing(r2);
      }
      ghost var r3 := r;
      if w == opcodes.RTPosition(myOpcode) {
        r := r + "$";
        r := r + DecimalText(x.rt);
        AppendTwo(r3, "$", DecimalText(x.rt));
      } else {
        AppendNothing(r3);
      }
      AppendPieces(s, rd, imm, rs, rt);
    }

    /** decodeJ: the mnemonic, a tab and the target in hex. */
    method DecodeJ(v: InstructionValue) returns (s: string)
      ensures s == RenderJ(opcodes, v.opcode, v.operands)
    {
      s := "";
      s := s + (opcodes.GetName(v.opcode) + "\t");
      s := s + ToHex(v.operands.imm);
    }

    /**
     * decodeI: the mnemonic and a tab, then the load/store form when the
     * immediate sits in slot 1, the slots joined by ", " when it sits in
     * slot 2, and nothing more otherwise.
     */
    method DecodeI(v: InstructionValue) returns (s: string)
      ensures s == RenderI(opcodes, v.opcode, v.operands)
    {
      var myOpcode, x := v.opcode, v.operands;
      ghost var head := Head(opcodes, myOpcode);
      s := "";
      s := s + (opcodes.GetName(myOpcode) + "\t");

      if opcodes.IMMPosition(myOpcode) == 1 {
        ghost var parts := LoadSlots(opcodes, myOpcode, x);
        var w := 0;
        while w < opcodes.NumOperands(myOpcode)
          invariant 0 <= w <= |parts|
          invariant s == head + Emit(parts, "", w)
        {
          s := AppendLoadSlot(s, myOpcode, x, w);
          EmitStep(parts, "", w, head, s);
          w := w + 1;
        }
      } else if opcodes.IMMPosition(myOpcode) == 2 {
        ghost var parts := ISlots(opcodes, myOpcode, x);
        var w := 0;
        while w < opcodes.NumOperands(myOpcode)
          invariant 0 <= w <= |parts|
          invariant s == head + Emit(parts, ", ", w)
        {
          s := AppendISlot(s, myOpcode, x, w);
          EmitStep(parts, ", ", w, head, s);
          if w < opcodes.NumOperands(myOpcode) - 1 {
            s := s + ", ";
          }
          w := w + 1;
        }
      }
    }

    /** The body of decodeI's load/store loop: "($rs)", "$rt, " or the immediate, as slot `w` holds. */
    method AppendLoadSlot(s: string, myOpcode: int, x: Operands, w: int) returns (r: string)
      ensures r == s + LoadSlot(opcodes, myOpcode, x, w)
    {
      ghost var rs := if w == opcodes.RSPosition(myOpcode) then "(" + RegText(x.rs) + ")" else "";
      ghost var rt := if w == opcodes.RTPosition(myOpcode) then RegText(x.rt) + ", " else "";
      ghost var imm := if w == opcodes.IMMPosition(myOpcode) then DecimalText(x.imm) else "";
      r := s;
      if w == opcodes.RSPosition(myOpcode) {
        r := r + "(";
        r := r + "$";
        r := r + DecimalText(x.rs);
        r := r + ")";
        assert r == s + rs by {
          AppendThree(s + "(", "$", DecimalText(x.rs), ")");
          AppendTwo(s, "(", "$" + DecimalText(x.rs) + ")");
        }
      } else {
        assert r == s + rs by { AppendNothing(s); }
      }
      ghost var r1 := r;
      if w == opcodes.RTPosition(myOpcode) {
        r := r + "$";
        r := r + DecimalText(x.rt);
        r := r + ", ";
        assert r == r1 + rt by { AppendThree(r1, "$", DecimalText(x.rt), ", "); }
      } else {
        assert r == r1 + rt by { AppendNothing(r1); }
      }
      ghost var r2 := r;
      if w == opcodes.IMMPosition(myOpcode) {
        r := r + DecimalText(x.imm);
      } else {
        assert r == r2 + imm by { AppendNothing(r2); }
      }
      AppendPieces(s, rs, rt, imm, "");
      AppendNothing(r);
    }

    /** The body of decodeI's other loop: rs, rt or the immediate (in hex for beq), as slot `w` holds. */
    method AppendISlot(s: string, myOpcode: int, x: Operands, w: int) returns (r: string)
      ensures r == s + ISlot(opcodes, myOpcode, x, w)
    {
      ghost var rs := if w == opcodes.RSPosition(myOpcode) then RegText(x.rs) else "";
      ghost var rt := if w == opcodes.RTPosition(myOpcode) then RegText(x.rt) else "";
      ghost var imm := if w == opcodes.IMMPosition(myOpcode) then
        (if opcodes.GetName(myOpcode) == "beq" then ToHex(x.imm) else DecimalText(x.imm)) else "";
      r := s;
      if w == opcodes.RSPosition(myOpcode) {
        r := r + "$";
        r := r + DecimalText(x.rs);
        assert r == s + rs by { AppendTwo(s, "$", DecimalText(x.rs)); }
      } else {
        assert r == s + rs by { AppendNothing(s); }
      }
      ghost var r1 := r;
      if w == opcodes.RTPosition(myOpcode) {
        r := r + "$";
        r := r + DecimalText(x.rt);
        assert r == r1 + rt by { AppendTwo(r1, "$", DecimalText(x.rt)); }
      } else {
        assert r == r1 + rt by { AppendNothing(r1); }
      }
      ghost var r2 := r;
      if w == opcodes.IMMPosition(myOpcode) {
        if opcodes.GetName(myOpcode) == "beq" {
          r := r + ToHex(x.imm);
        } else {
          r := r + DecimalText(x.imm);
        }
      } else {
        assert r == r2 + imm by { AppendNothing(r2); }
      }
      AppendPieces(s, rs, rt, imm, "");
      AppendNothing(r);
    }

    /**
     * convertBinToInt: a leading '0' gives the unsigned value of the first
     * 16 characters; otherwise the characters are flipped, one is added
     * by the carry loop, and the first 16 characters are read and negated.
     */
    method ConvertBinToInt(bin: string) returns (result: int)
      requires |bin| >= 1 && IsBinary(bin)
      ensures result == BinToInt(bin)
    {
      if bin[0] == '0' {
        result := BitsetValue(bin, 16);
        return;
      }

      var b := bin;
      var i := 0;
      while i < |b|
        invariant 0 <= i <= |b| == |bin|
        invariant forall m :: 0 <= m < i ==> b[m] == FlipChar(bin[m])
        invariant forall m :: i <= m < |b| ==> b[m] == bin[m]
      {
        if b[i] == '1' {
          b := b[i := '0'];
        } else if b[i] == '0' {
          b := b[i := '1'];
        }
        i := i + 1;
      }
      assert b == Invert(bin);

      ghost var lo := CarryLimit(|b|);
      CarryLimitHalf(|b|);
      var count := 0;
      var j := |b| - 1;
      while j > count
        invariant -1 <= j < |b| == |bin|
        invariant count == |b| - 1 - j
        invariant j >= lo - 1
        invariant AddOneFrom(b, j, lo) == AddOne(Invert(bin))
      {
        if b[j] == '0' {
          b := b[j := '1'];
          break;
        } else {
          b := b[j := '0'];
        }
        count := count + 1;
        j := j - 1;
      }
      assert b == AddOne(Invert(bin));

      var magnitude: int := BitsetValue(b, 16);
      result := -1 * magnitude;
    }
  }
}
