/**
 * The opcode table. Its implementation file is not part of this model:
 * the table is a parameter, a sequence of entries, one per supported
 * opcode, and an opcode is an entry's index. UNDEFINED is one past the
 * last entry. Each accessor answers for UNDEFINED (or any other int
 * that is no opcode) with an empty name, no operands, the position -1
 * and the type NoType.
 */
module Opcodes {
  import opened Bits

  /** The instruction formats: register-register, register-immediate, jump. */
  datatype InstType = RType | IType | JType | NoType

  datatype OpcodeEntry = OpcodeEntry(
    opField: string,      // the 6-bit opcode field
    functField: string,   // the 6-bit funct field, meaningful for R-type only
    instType: InstType,
    name: string,
    numOperands: int,
    rsPos: int,           // print slot of each operand role, -1 when absent
    rtPos: int,
    rdPos: int,
    immPos: int)

  /** An entry answers to an opcode/funct pair; the funct field is consulted for R-type entries only. */
  predicate Matches(e: OpcodeEntry, opcode: string, funct: string) {
    e.opField == opcode && (e.instType == RType ==> e.functField == funct)
  }

  predicate PositionOk(p: int, n: int) {
    p == -1 || 0 <= p < n
  }

  predicate DistinctUsed(p: int, q: int) {
    p == -1 || p != q
  }

  /**
   * What the rest of the program assumes of every entry: 6-bit binary
   * fields, a real format, non-negative operand count, every used print
   * slot below the operand count and no two roles sharing a slot.
   */
  predicate EntryWellFormed(e: OpcodeEntry) {
    && |e.opField| == 6 && IsBinary(e.opField)
    && |e.functField| == 6 && IsBinary(e.functField)
    && e.instType != NoType
    && e.numOperands >= 0
    && PositionOk(e.rsPos, e.numOperands) && PositionOk(e.rtPos, e.numOperands)
    && PositionOk(e.rdPos, e.numOperands) && PositionOk(e.immPos, e.numOperands)
    && DistinctUsed(e.rsPos, e.rtPos) && DistinctUsed(e.rsPos, e.rdPos) && DistinctUsed(e.rsPos, e.immPos)
    && DistinctUsed(e.rtPos, e.rdPos) && DistinctUsed(e.rtPos, e.immPos)
    && DistinctUsed(e.rdPos, e.immPos)
  }

  datatype OpcodeTable = OpcodeTable(entries: seq<OpcodeEntry>) {

    predicate WellFormed() {
      forall k :: 0 <= k < |entries| ==> EntryWellFormed(entries[k])
    }

    /** The UNDEFINED opcode: one past the last valid one. */
    function Undefined(): nat {
      |entries|
    }

    predicate IsOpcode(o: int) {
      0 <= o < |entries|
    }

    /** The first entry at or after `k` that answers to the pair, or UNDEFINED. */
    function FindFrom(opcode: string, funct: string, k: nat): (o: nat)
      requires k <= |entries|
      ensures k <= o <= |entries|
      ensures o < |entries| ==> Matches(entries[o], opcode, funct)
      ensures forall m :: k <= m < o ==> !Matches(entries[m], opcode, funct)
      decreases |entries| - k
    {
      if k == |entries| then k
      else if Matches(entries[k], opcode, funct) then k
      else FindFrom(opcode, funct, k + 1)
    }

    /** getOpcode: the opcode for an opcode/funct field pair, UNDEFINED when no entry answers. */
    function GetOpcode(opcode: string, funct: string): (o: nat)
      ensures o <= Undefined()
      ensures o < Undefined() ==> Matches(entries[o], opcode, funct)
      ensures o == Undefined() <==> forall m :: 0 <= m < |entries| ==> !Matches(entries[m], opcode, funct)
      ensures forall m :: 0 <= m < o ==> !Matches(entries[m], opcode, funct)
    {
      FindFrom(opcode, funct, 0)
    }

    function GetInstType(o: int): InstType {
      if IsOpcode(o) then entries[o].instType else NoType
    }

    function GetName(o: int): string {
      if IsOpcode(o) then entries[o].name else ""
    }

    function NumOperands(o: int): int {
      if IsOpcode(o) then entries[o].numOperands else 0
    }

    function RSPosition(o: int): int {
      if IsOpcode(o) then entries[o].rsPos else -1
    }

    function RTPosition(o: int): int {
      if IsOpcode(o) then entries[o].rtPos else -1
    }

    function RDPosition(o: int): int {
      if IsOpcode(o) then entries[o].rdPos else -1
    }

    function IMMPosition(o: int): int {
      if IsOpcode(o) then entries[o].immPos else -1
    }
  }

  /**
   * In a well-formed table an opcode field that is not binary, such as
   * one whose first character is neither '0' nor '1', matches no entry.
   */
  lemma NonBinaryOpcodeIsUndefined(t: OpcodeTable, opcode: string, funct: string)
    requires t.WellFormed()
    requires !IsBinary(opcode)
    ensures t.GetOpcode(opcode, funct) == t.Undefined()
  {
  }
}
