/**
 * The Instruction value holder: an opcode, three register roles (each a
 * register number or the NumRegisters sentinel), an immediate, the
 * 32-character encoding and the rendered assembly text.
 *
 * The opcode enumeration is declared with the opcode table, which is not
 * part of this model, so its UNDEFINED member is passed in as
 * `undefined` wherever the source names it.
 */
module Instructions {
  import opened Registers

  /** The operand values an instruction holds. */
  datatype Operands = Operands(rs: int, rt: int, rd: int, imm: int)

  /**
   * A copy of an Instruction's fields. The parser keeps its list and
   * hands out instructions by value; this is that value.
   */
  datatype InstructionValue = InstructionValue(
    opcode: int,
    operands: Operands,
    encoding: string,
    assembly: string)

  /** The opcode setValues stores: kept when it is a valid opcode, UNDEFINED otherwise. */
  function ClampOpcode(op: int, undefined: int): (r: int)
    requires undefined >= 0
    ensures 0 <= r <= undefined
    ensures r == op || r == undefined
    ensures r == op <==> 0 <= op <= undefined
  {
    if op < 0 || op >= undefined then undefined else op
  }

  /** The register setValues stores: kept when it is a register number, NumRegisters otherwise. */
  function ClampRegister(reg: int): (r: int)
    ensures 0 <= r <= NumRegisters
    ensures r == reg || r == NumRegisters
    ensures r == reg <==> 0 <= reg <= NumRegisters
  {
    if reg < 0 || reg >= NumRegisters then NumRegisters else reg
  }

  /** The operands setValues stores: registers clamped, the immediate verbatim. */
  function ClampOperands(x: Operands): (r: Operands)
    ensures r.imm == x.imm
    ensures 0 <= r.rs <= NumRegisters && 0 <= r.rt <= NumRegisters && 0 <= r.rd <= NumRegisters
  {
    Operands(ClampRegister(x.rs), ClampRegister(x.rt), ClampRegister(x.rd), x.imm)
  }

  /**
   * Storing what setValues stored changes nothing: setting the same
   * arguments a second time leaves the fields as the first call left them.
   */
  lemma ClampIdempotent(op: int, x: Operands, undefined: int)
    requires undefined >= 0
    ensures ClampOpcode(ClampOpcode(op, undefined), undefined) == ClampOpcode(op, undefined)
    ensures ClampOperands(ClampOperands(x)) == ClampOperands(x)
  {
  }

  class Instruction {
    var myOpcode: int
    var myRS: int
    var myRT: int
    var myRD: int
    var myImmediate: int
    var myEncoding: string
    var myAssembly: string

    /** The fields, copied out. */
    function Value(): InstructionValue
      reads this
    {
      InstructionValue(myOpcode, Operands(myRS, myRT, myRD, myImmediate), myEncoding, myAssembly)
    }

    /**
     * The default instruction: opcode UNDEFINED and every register at the
     * sentinel. The immediate is left uninitialised, so nothing is said of it.
     */
    constructor Default(undefined: int)
      ensures myOpcode == undefined
      ensures myRS == NumRegisters && myRT == NumRegisters && myRD == NumRegisters
      ensures myEncoding == "" && myAssembly == ""
    {
      myOpcode := undefined;
      myRS, myRT, myRD := NumRegisters, NumRegisters, NumRegisters;
      myEncoding, myAssembly := "", "";
    }

    /** Builds an instruction whose fields are what setValues stores for these arguments. */
    constructor (op: int, rs: int, rt: int, rd: int, imm: int, undefined: int)
      requires undefined >= 0
      ensures Value() == InstructionValue(ClampOpcode(op, undefined), ClampOperands(Operands(rs, rt, rd, imm)), "", "")
    {
      myEncoding, myAssembly := "", "";
      new;
      SetValues(op, rs, rt, rd, imm, undefined);
    }

    /**
     * Stores the opcode and registers, each clamped to its sentinel when
     * out of range, and the immediate with no range check. Only these
     * five fields change.
     */
    method SetValues(op: int, rs: int, rt: int, rd: int, imm: int, undefined: int)
      requires undefined >= 0
      modifies this`myOpcode, this`myRS, this`myRT, this`myRD, this`myImmediate
      ensures myOpcode == ClampOpcode(op, undefined)
      ensures Operands(myRS, myRT, myRD, myImmediate) == ClampOperands(Operands(rs, rt, rd, imm))
    {
      myOpcode := op;
      if op < 0 || op >= undefined {
        myOpcode := undefined;
      }

      myRS := rs;
      if rs < 0 || rs >= NumRegisters {
        myRS := NumRegisters;
      }

      myRT := rt;
      if rt < 0 || rt >= NumRegisters {
        myRT := NumRegisters;
      }

      myRD := rd;
      if rd < 0 || rd >= NumRegisters {
        myRD := NumRegisters;
      }

      myImmediate := imm;
    }

    method SetEncoding(s: string)
      modifies this`myEncoding
      ensures myEncoding == s
    {
      myEncoding := s;
    }

    method SetAssembly(s: string)
      modifies this`myAssembly
      ensures myAssembly == s
    {
      myAssembly := s;
    }
  }
}
