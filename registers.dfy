/**
 * The register table: register numbers 0..31 and their names. The
 * number one past the last register doubles as the "not a register"
 * sentinel. The table's contents are built once and never change; the
 * names themselves live in an implementation file that is not part of
 * this model, so they are a parameter here.
 */
module Registers {

  /** The count of MIPS registers, and the sentinel meaning "no register". */
  const NumRegisters: int := 32

  datatype RegisterTable = RegisterTable(names: seq<string>) {

    /** One non-empty name per register number. */
    predicate Valid() {
      |names| == NumRegisters && forall k :: 0 <= k < |names| ==> names[k] != ""
    }

    /** The register number for an int operand, or NumRegisters when it names no register. */
    function GetNum(reg: int): (r: int)
      ensures 0 <= r <= NumRegisters
      ensures r == NumRegisters <==> !(0 <= reg < NumRegisters)
      ensures r != NumRegisters ==> r == reg
    {
      if 0 <= reg < NumRegisters then reg else NumRegisters
    }

    /** The register's name, or the empty string (the table's `null`) when it names no register. */
    function GetName(regi: int): (r: string)
      requires Valid()
      ensures r == "" <==> !(0 <= regi < NumRegisters)
      ensures 0 <= regi < NumRegisters ==> r == names[regi]
    {
      if 0 <= regi < NumRegisters then names[regi] else ""
    }
  }

  /** Registers 0 and 31 resolve; the sentinel 32 and negative ints do not. */
  lemma GetNumBoundaries(t: RegisterTable, n: int)
    requires n < 0
    ensures t.GetNum(0) == 0 && t.GetNum(31) == 31
    ensures t.GetNum(NumRegisters) == NumRegisters && t.GetNum(n) == NumRegisters
  {
  }
}
