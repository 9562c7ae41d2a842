/**
 * The assembly text of a decoded instruction: the mnemonic, a tab, then
 * the operands in the print slots the opcode table assigns them.
 *
 * R-type and the I-type forms with the immediate in slot 2 print one
 * text per slot with ", " between slots; the I-type load/store form
 * (immediate in slot 1) prints "$rt, " and "($rs)" around the immediate
 * with no separators; J-type prints the target in hex.
 */
module Rendering {
  import opened Text
  import opened Opcodes
  import opened Instructions

  /** A register operand: '$' and its number in decimal. */
  function RegText(r: int): string {
    "$" + DecimalText(r)
  }

  /** A register operand is '$' followed by a decimal text that reads back as the register number. */
  lemma RegTextReadsBack(reg: int)
    ensures |RegText(reg)| >= 2 && RegText(reg)[0] == '$'
    ensures ParseDecimal(RegText(reg)[1..]) == reg
  {
    DecimalRoundTrip(reg);
    DecimalTextShape(reg);
    assert RegText(reg)[1..] == DecimalText(reg);
  }

  /** The number of slots a `for (w = 0; w < n; w++)` loop visits. */
  function SlotCount(n: int): nat {
    if n < 0 then 0 else n
  }

  /**
   * The text the slot loops build after `w` of the slots: each slot's
   * text, followed by `sep` unless it is the last slot.
   */
  function Emit(parts: seq<string>, sep: string, w: nat): string
    requires w <= |parts|
  {
    if w == 0 then ""
    else Emit(parts, sep, w - 1) + parts[w - 1] + (if w - 1 < |parts| - 1 then sep else "")
  }

  /** The parts joined by `sep`, defined from the front. */
  function Join(parts: seq<string>, sep: string): string
  {
    if |parts| == 0 then ""
    else if |parts| == 1 then parts[0]
    else parts[0] + sep + Join(parts[1..], sep)
  }

  /** After the whole loop, the slot texts are exactly joined by the separator. */
  lemma {:induction false} EmitIsJoin(parts: seq<string>, sep: string)
    ensures Emit(parts, sep, |parts|) == Join(parts, sep)
    decreases |parts|
  {
    if |parts| >= 2 {
      EmitIsJoin(parts[1..], sep);
      EmitFront(parts, sep, |parts|);
    }
  }

  /** Emitting the first `w` slots is the first slot, its separator, then the rest. */
  lemma {:induction false} EmitFront(parts: seq<string>, sep: string, w: nat)
    requires 1 <= w <= |parts| && |parts| >= 2
    ensures Emit(parts, sep, w) == parts[0] + sep + Emit(parts[1..], sep, w - 1)
    decreases w
  {
    if w > 1 {
      EmitFront(parts, sep, w - 1);
      assert parts[1..][w - 2] == parts[w - 1];
    }
  }

  /** Three slots: the first two followed by the separator, the last bare. */
  lemma EmitThree(parts: seq<string>, sep: string)
    requires |parts| == 3
    ensures Emit(parts, sep, 3) == parts[0] + sep + parts[1] + sep + parts[2]
  {
    assert Emit(parts, sep, 1) == parts[0] + sep;
    assert Emit(parts, sep, 2) == parts[0] + sep + parts[1] + sep;
  }

  /** Regrouping a head and three slot texts with their separators. */
  lemma Regroup(h: string, a: string, b: string, c: string, sep: string)
    ensures h + (a + sep + b + sep + c) == h + a + sep + b + sep + c
  {
  }

  /** A rendering of three slots: the head, then the slot texts `a`, `b`, `c` with `sep` between them. */
  lemma HeadThree(h: string, parts: seq<string>, sep: string, a: string, b: string, c: string)
    requires |parts| == 3 && parts[0] == a && parts[1] == b && parts[2] == c
    ensures h + Emit(parts, sep, |parts|) == h + a + sep + b + sep + c
  {
    EmitThree(parts, sep);
    Regroup(h, a, b, c, sep);
  }

  /** Regrouping the load/store form's slot texts, which carry their own punctuation. */
  lemma RegroupLoad(h: string, rt: string, imm: string, rs: string)
    ensures h + (rt + ", ") + "" + imm + "" + ("(" + rs + ")") == h + rt + ", " + imm + "(" + rs + ")"
  {
  }

  /** Two appends in a row append the two texts together. */
  lemma AppendTwo(p: string, a: string, b: string)
    ensures p + a + b == p + (a + b)
  {
  }

  /** Three appends in a row append the three texts together. */
  lemma AppendThree(p: string, a: string, b: string, c: string)
    ensures p + a + b + c == p + (a + b + c)
  {
  }

  lemma AppendNothing(p: string)
    ensures p + "" == p
  {
  }

  /** Appending a slot's pieces one by one appends the whole slot. */
  lemma AppendPieces(p: string, a: string, b: string, c: string, d: string)
    ensures p + a + b + c + d == p + (a + b + c + d)
  {
  }

  /** One more slot: the text so far, the slot's text and its separator. */
  lemma EmitStep(parts: seq<string>, sep: string, w: nat, head: string, s: string)
    requires w < |parts| && s == head + Emit(parts, sep, w) + parts[w]
    ensures s + (if w < |parts| - 1 then sep else "") == head + Emit(parts, sep, w + 1)
  {
    var e, z := Emit(parts, sep, w), if w < |parts| - 1 then sep else "";
    assert Emit(parts, sep, w + 1) == e + parts[w] + z;
    AppendThree(head, e, parts[w], z);
  }

  /** decodeR's text for slot `w`: rd, the shift amount, rs, rt, in that order. */
  function RSlot(t: OpcodeTable, o: int, x: Operands, w: int): string {
    (if w == t.RDPosition(o) then RegText(x.rd) else "")
    + (if w == t.IMMPosition(o) then DecimalText(x.imm) else "")
    + (if w == t.RSPosition(o) then RegText(x.rs) else "")
    + (if w == t.RTPosition(o) then RegText(x.rt) else "")
  }

  /** decodeI's text for slot `w` in the load/store form. */
  function LoadSlot(t: OpcodeTable, o: int, x: Operands, w: int): string {
    (if w == t.RSPosition(o) then "(" + RegText(x.rs) + ")" else "")
    + (if w == t.RTPosition(o) then RegText(x.rt) + ", " else "")
    + (if w == t.IMMPosition(o) then DecimalText(x.imm) else "")
  }

  /** decodeI's text for slot `w` in the form with the immediate in slot 2; beq prints it in hex. */
  function ISlot(t: OpcodeTable, o: int, x: Operands, w: int): string {
    (if w == t.RSPosition(o) then RegText(x.rs) else "")
    + (if w == t.RTPosition(o) then RegText(x.rt) else "")
    + (if w == t.IMMPosition(o) then
         (if t.GetName(o) == "beq" then ToHex(x.imm) else DecimalText(x.imm))
       else "")
  }

  function RSlots(t: OpcodeTable, o: int, x: Operands): (r: seq<string>)
    ensures |r| == SlotCount(t.NumOperands(o))
    ensures forall w :: 0 <= w < |r| ==> r[w] == RSlot(t, o, x, w)
  {
    seq(SlotCount(t.NumOperands(o)), w => RSlot(t, o, x, w))
  }

  function LoadSlots(t: OpcodeTable, o: int, x: Operands): (r: seq<string>)
    ensures |r| == SlotCount(t.NumOperands(o))
    ensures forall w :: 0 <= w < |r| ==> r[w] == LoadSlot(t, o, x, w)
  {
    seq(SlotCount(t.NumOperands(o)), w => LoadSlot(t, o, x, w))
  }

  function ISlots(t: OpcodeTable, o: int, x: Operands): (r: seq<string>)
    ensures |r| == SlotCount(t.NumOperands(o))
    ensures forall w :: 0 <= w < |r| ==> r[w] == ISlot(t, o, x, w)
  {
    seq(SlotCount(t.NumOperands(o)), w => ISlot(t, o, x, w))
  }

  /** The mnemonic and the tab every rendering starts with. */
  function Head(t: OpcodeTable, o: int): string {
    t.GetName(o) + "\t"
  }

  /** What decodeR returns. */
  function RenderR(t: OpcodeTable, o: int, x: Operands): string {
    var parts := RSlots(t, o, x);
    Head(t, o) + Emit(parts, ", ", |parts|)
  }

  /** What decodeI returns; an immediate slot other than 1 or 2 leaves only the mnemonic. */
  function RenderI(t: OpcodeTable, o: int, x: Operands): string {
    if t.IMMPosition(o) == 1 then
      var parts := LoadSlots(t, o, x);
      Head(t, o) + Emit(parts, "", |parts|)
    else if t.IMMPosition(o) == 2 then
      var parts := ISlots(t, o, x);
      Head(t, o) + Emit(parts, ", ", |parts|)
    else Head(t, o)
  }

  /** What decodeJ returns. */
  function RenderJ(t: OpcodeTable, o: int, x: Operands): string {
    Head(t, o) + ToHex(x.imm)
  }

  /** decodeJ's text: the mnemonic and a tab, then "0x" and nothing but hex digits. */
  lemma RenderJShape(t: OpcodeTable, o: int, x: Operands)
    ensures |RenderJ(t, o, x)| >= |Head(t, o)| + 3
    ensures RenderJ(t, o, x)[..|Head(t, o)|] == Head(t, o)
    ensures RenderJ(t, o, x)[|Head(t, o)|..|Head(t, o)| + 2] == "0x"
    ensures forall i :: |Head(t, o)| + 2 <= i < |RenderJ(t, o, x)| ==> IsDigit(RenderJ(t, o, x)[i], 16)
  {
    var h, hex := Head(t, o), ToHex(x.imm);
    ToHexDigits(x.imm);
    assert (h + hex)[|h|..|h| + 2] == hex[..2];
    assert forall i :: |h| + 2 <= i < |h + hex| ==> (h + hex)[i] == hex[i - |h|];
  }


  /** What decode returns: the rendering for the opcode's format, "" when it has none. */
  function Render(t: OpcodeTable, v: InstructionValue): (r: string)
    ensures t.GetInstType(v.opcode) == NoType <==> r == ""
  {
    match t.GetInstType(v.opcode)
    case RType => RenderR(t, v.opcode, v.operands)
    case JType => RenderJ(t, v.opcode, v.operands)
    case IType => RenderI(t, v.opcode, v.operands)
    case NoType => ""
  }

  /**
   * decodeR prints its slots joined by ", ": numOperands slot texts and
   * numOperands - 1 separators.
   */
  lemma RenderRJoins(t: OpcodeTable, o: int, x: Operands)
    ensures RenderR(t, o, x) == Head(t, o) + Join(RSlots(t, o, x), ", ")
  {
    EmitIsJoin(RSlots(t, o, x), ", ");
  }
  /**
   * decodeI's three forms: with the immediate in slot 1 the slot texts
   * follow one another with no separator, with it in slot 2 they are
   * joined by ", ", and otherwise only the mnemonic and the tab are printed.
   */
  lemma RenderIForms(t: OpcodeTable, o: int, x: Operands)
    ensures t.IMMPosition(o) == 1 ==> RenderI(t, o, x) == Head(t, o) + Join(LoadSlots(t, o, x), "")
    ensures t.IMMPosition(o) == 2 ==> RenderI(t, o, x) == Head(t, o) + Join(ISlots(t, o, x), ", ")
    ensures t.IMMPosition(o) != 1 && t.IMMPosition(o) != 2 ==> RenderI(t, o, x) == Head(t, o)
  {
    EmitIsJoin(LoadSlots(t, o, x), "");
    EmitIsJoin(ISlots(t, o, x), ", ");
  }


  /** The three-register form (rd in slot 0, rs in 1, rt in 2): "name\t$rd, $rs, $rt". */
  lemma RenderThreeRegisters(t: OpcodeTable, o: int, x: Operands)
    requires t.NumOperands(o) == 3
    requires t.RDPosition(o) == 0 && t.RSPosition(o) == 1 && t.RTPosition(o) == 2 && t.IMMPosition(o) == -1
    ensures RenderR(t, o, x) ==
      t.GetName(o) + "\t" + RegText(x.rd) + ", " + RegText(x.rs) + ", " + RegText(x.rt)
  {
    var parts := RSlots(t, o, x);
    HeadThree(Head(t, o), parts, ", ", RegText(x.rd), RegText(x.rs), RegText(x.rt));
  }

  /** The shift form (rd in slot 0, rt in 1, shift amount in 2): "name\t$rd, $rt, shamt". */
  lemma RenderShift(t: OpcodeTable, o: int, x: Operands)
    requires t.NumOperands(o) == 3
    requires t.RDPosition(o) == 0 && t.RTPosition(o) == 1 && t.IMMPosition(o) == 2 && t.RSPosition(o) == -1
    ensures RenderR(t, o, x) ==
      t.GetName(o) + "\t" + RegText(x.rd) + ", " + RegText(x.rt) + ", " + DecimalText(x.imm)
  {
    var parts := RSlots(t, o, x);
    HeadThree(Head(t, o), parts, ", ", RegText(x.rd), RegText(x.rt), DecimalText(x.imm));
  }

  /** The load/store form (rt in slot 0, immediate in 1, rs in 2): "name\t$rt, imm($rs)". */
  lemma RenderLoadStore(t: OpcodeTable, o: int, x: Operands)
    requires t.NumOperands(o) == 3
    requires t.RTPosition(o) == 0 && t.IMMPosition(o) == 1 && t.RSPosition(o) == 2
    ensures RenderI(t, o, x) ==
      t.GetName(o) + "\t" + RegText(x.rt) + ", " + DecimalText(x.imm) + "(" + RegText(x.rs) + ")"
  {
    var parts := LoadSlots(t, o, x);
    HeadThree(Head(t, o), parts, "", RegText(x.rt) + ", ", DecimalText(x.imm), "(" + RegText(x.rs) + ")");
    RegroupLoad(Head(t, o), RegText(x.rt), DecimalText(x.imm), RegText(x.rs));
  }

  /**
   * The immediate-arithmetic form (rt in slot 0, rs in 1, immediate in 2):
   * "name\t$rt, $rs, imm", the immediate in hex for beq and in decimal
   * otherwise.
   */
  lemma RenderImmediate(t: OpcodeTable, o: int, x: Operands)
    requires t.NumOperands(o) == 3
    requires t.RTPosition(o) == 0 && t.RSPosition(o) == 1 && t.IMMPosition(o) == 2
    ensures RenderI(t, o, x) ==
      t.GetName(o) + "\t" + RegText(x.rt) + ", " + RegText(x.rs) + ", "
      + (if t.GetName(o) == "beq" then ToHex(x.imm) else DecimalText(x.imm))
  {
    var parts := ISlots(t, o, x);
    var imm := if t.GetName(o) == "beq" then ToHex(x.imm) else DecimalText(x.imm);
    HeadThree(Head(t, o), parts, ", ", RegText(x.rt), RegText(x.rs), imm);
  }

  /** The branch form (rs in slot 0, rt in 1, offset in 2): "beq\t$rs, $rt, 0x...". */
  lemma RenderBranch(t: OpcodeTable, o: int, x: Operands)
    requires t.GetName(o) == "beq" && t.NumOperands(o) == 3
    requires t.RSPosition(o) == 0 && t.RTPosition(o) == 1 && t.IMMPosition(o) == 2
    ensures RenderI(t, o, x) == "beq\t" + RegText(x.rs) + ", " + RegText(x.rt) + ", " + ToHex(x.imm)
  {
    var parts := ISlots(t, o, x);
    assert Head(t, o) == "beq\t";
    HeadThree(Head(t, o), parts, ", ", RegText(x.rs), RegText(x.rt), ToHex(x.imm));
  }

  /** A table with an add entry and a jump entry, laid out as MIPS32 prints them. */
  function ExampleTable(): OpcodeTable {
    OpcodeTable([
      OpcodeEntry("000000", "100000", RType, "add", 3, 1, 2, 0, -1),
      OpcodeEntry("000010", "000000", JType, "j", 1, -1, -1, -1, 0)])
  }

  /** Register operands print as '$' and the number in decimal. */
  lemma RegisterTextExamples()
    ensures RegText(8) == "$8" && RegText(9) == "$9" && RegText(10) == "$10"
  {
    assert DigitsOf(10, 10) == DigitsOf(1, 10) + [DigitChar(0)];
  }

  /** add with rd = 8, rs = 9, rt = 10 prints as "add\t$8, $9, $10". */
  lemma RenderAddExample()
    ensures Render(ExampleTable(), InstructionValue(0, Operands(9, 10, 8, 0), "", "")) == "add\t$8, $9, $10"
  {
    var t := ExampleTable();
    assert t.GetInstType(0) == RType && t.GetName(0) == "add";
    RenderThreeRegisters(t, 0, Operands(9, 10, 8, 0));
    RegisterTextExamples();
  }

  /** A jump to 16 prints its target as "j\t0x10". */
  lemma RenderJumpExample()
    ensures Render(ExampleTable(), InstructionValue(1, Operands(32, 32, 32, 16), "", "")) == "j\t0x10"
  {
    var t := ExampleTable();
    assert t.GetInstType(1) == JType && t.GetName(1) == "j";
    HexSmall();
  }
}
