/**
 * The fixed field layout of a 32-bit instruction line, as the parser
 * declares it, and the proof that each format's fields tile the line.
 * Offsets count characters from the most significant bit.
 */
module Layout {

  const ThirtyTwo: int := 32
  const Multiplier: int := 4
  /** Two zero bits appended to a field to scale it to a byte offset. */
  const Offset: string := "00"

  const OpcStart: nat := 0
  const OpcLength: nat := 6
  const FuncStart: nat := 26
  const FuncLength: nat := 6
  const RegLength: nat := 5

  const RsStartR: nat := 6
  const RtStartR: nat := 11
  const RdStartR: nat := 16
  const ImmStartR: nat := 21

  const ImmStartJ: nat := 6
  const ImmLengthJ: nat := 26

  const RsStartI: nat := 6
  const RtStartI: nat := 11
  const ImmStartI: nat := 16
  const ImmLengthI: nat := 16

  /** A field of the line: its first character and its width. */
  datatype Slice = Slice(start: nat, length: nat) {
    function End(): nat { start + length }
  }

  /** The slices follow one another without gap or overlap from `from` to `to`. */
  predicate Tiles(fs: seq<Slice>, from: nat, to: nat)
    decreases |fs|
  {
    if fs == [] then from == to else fs[0].start == from && Tiles(fs[1..], fs[0].End(), to)
  }

  /** The characters of `s` under each slice, in order. */
  function Cut(s: string, fs: seq<Slice>): string
    requires forall k :: 0 <= k < |fs| ==> fs[k].End() <= |s|
    decreases |fs|
  {
    if fs == [] then ""
    else
      assert fs[0].End() <= |s|;
      s[fs[0].start..fs[0].End()] + Cut(s, fs[1..])
  }

  /** Fields that tile a stretch of the line give back exactly that stretch. */
  lemma {:induction false} TilesReassemble(s: string, fs: seq<Slice>, from: nat, to: nat)
    requires Tiles(fs, from, to) && to <= |s|
    ensures forall k :: 0 <= k < |fs| ==> from <= fs[k].start <= fs[k].End() <= to
    ensures Cut(s, fs) == s[from..to]
    decreases |fs|
  {
    if fs != [] {
      TilesReassemble(s, fs[1..], fs[0].End(), to);
      assert forall k :: 1 <= k < |fs| ==> fs[k] == fs[1..][k - 1];
      assert s[from..to] == s[from..fs[0].End()] + s[fs[0].End()..to];
    }
  }

  const RLayout: seq<Slice> := [
    Slice(OpcStart, OpcLength), Slice(RsStartR, RegLength), Slice(RtStartR, RegLength),
    Slice(RdStartR, RegLength), Slice(ImmStartR, RegLength), Slice(FuncStart, FuncLength)]

  const ILayout: seq<Slice> := [
    Slice(RsStartI, RegLength), Slice(RtStartI, RegLength), Slice(ImmStartI, ImmLengthI)]

  const JLayout: seq<Slice> := [Slice(ImmStartJ, ImmLengthJ)]

  /** R format: opcode, rs, rt, rd, shamt and funct cover the whole line, in order. */
  lemma RLayoutReassembles(line: string)
    requires |line| == ThirtyTwo
    ensures Tiles(RLayout, 0, ThirtyTwo)
    ensures Cut(line, RLayout) == line
  {
    assert Tiles(RLayout[5..], FuncStart, ThirtyTwo);
    assert Tiles(RLayout[4..], ImmStartR, ThirtyTwo);
    assert Tiles(RLayout[3..], RdStartR, ThirtyTwo);
    assert Tiles(RLayout[2..], RtStartR, ThirtyTwo);
    assert Tiles(RLayout[1..], RsStartR, ThirtyTwo);
    TilesReassemble(line, RLayout, 0, ThirtyTwo);
  }

  /** I format: after the opcode, rs, rt and the 16-bit immediate cover the rest of the line. */
  lemma ILayoutReassembles(line: string)
    requires |line| == ThirtyTwo
    ensures Tiles([Slice(OpcStart, OpcLength)] + ILayout, 0, ThirtyTwo)
    ensures Cut(line, ILayout) == line[RsStartI..]
  {
    assert Tiles(ILayout[2..], ImmStartI, ThirtyTwo);
    assert Tiles(ILayout[1..], RtStartI, ThirtyTwo);
    assert Tiles(ILayout, RsStartI, ThirtyTwo);
    TilesReassemble(line, ILayout, RsStartI, ThirtyTwo);
  }

  /** J format: after the opcode, the 26-bit target covers the rest of the line. */
  lemma JLayoutReassembles(line: string)
    requires |line| == ThirtyTwo
    ensures Tiles([Slice(OpcStart, OpcLength)] + JLayout, 0, ThirtyTwo)
    ensures Cut(line, JLayout) == line[ImmStartJ..]
  {
    assert Tiles(JLayout, ImmStartJ, ThirtyTwo);
    TilesReassemble(line, JLayout, ImmStartJ, ThirtyTwo);
  }
}
