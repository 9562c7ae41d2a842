/**
 * What the parser's constructor computes from the lines of its input,
 * stated line by line: each line is checked, tokenised, looked up,
 * given operands and rendered, and the first line that fails stops the
 * parse with the format flag cleared. Instructions from the lines before
 * the failing one are kept.
 */
module Pipeline {
  import opened Bits
  import opened Layout
  import opened Opcodes
  import opened Registers
  import opened Instructions
  import opened Fields
  import opened Rendering

  /**
   * Why a line was refused: wrong length, a character other than '0' or
   * '1' after the first, an opcode/funct pair the table does not know,
   * or a used register role that holds no register.
   */
  datatype ErrorKind = LineLength | LineAlphabet | UnknownOpcode | InvalidRegister

  /** A refusal and the 1-based number of the line it concerns. */
  datatype ParseError = ParseError(kind: ErrorKind, line: nat)

  datatype LineResult = Accepted(inst: InstructionValue) | Rejected(kind: ErrorKind)

  /** The alphabet check: every character after the first is '0' or '1'. */
  predicate AlphabetOk(line: string) {
    forall j :: 1 <= j < |line| ==> IsBit(line[j])
  }

  /** Scratch values before any extractor has run; no result depends on them. */
  const InitialScratch: Scratch := Scratch(0, 0, 0, 0)

  /** The instruction an accepted line produces: the stored fields, its encoding and its rendering. */
  function Assemble(t: OpcodeTable, o: int, x: Operands, line: string): (v: InstructionValue)
    ensures v.encoding == line
    ensures v.assembly == Render(t, v.(assembly := ""))
  {
    var stored := InstructionValue(ClampOpcode(o, t.Undefined()), ClampOperands(x), line, "");
    stored.(assembly := Render(t, stored))
  }

  /** One iteration of the constructor's loop. */
  function DecodeLine(t: OpcodeTable, reg: RegisterTable, line: string): (r: LineResult)
    ensures |line| != ThirtyTwo <==> r == Rejected(LineLength)
  {
    if |line| != ThirtyTwo then Rejected(LineLength)
    else if !AlphabetOk(line) then Rejected(LineAlphabet)
    else
      var o := LineOpcode(t, line);
      if o == t.Undefined() then Rejected(UnknownOpcode)
      else match OperandsOf(t, reg, o, TokensAfter(t, line, InitialScratch))
        case None => Rejected(InvalidRegister)
        case Some(x) => Accepted(Assemble(t, o, x, line))
  }

  /**
   * An accepted line passed both checks, its opcode is a known one, its
   * instruction keeps the line as encoding and carries its own rendering.
   */
  lemma AcceptedLine(t: OpcodeTable, reg: RegisterTable, line: string)
    requires DecodeLine(t, reg, line).Accepted?
    ensures |line| == ThirtyTwo && AlphabetOk(line)
    ensures var v := DecodeLine(t, reg, line).inst;
      v.encoding == line && v.opcode == LineOpcode(t, line) < t.Undefined()
    ensures var v := DecodeLine(t, reg, line).inst;
      v.assembly == Render(t, v.(assembly := ""))
  {
  }

  /** What the constructor leaves behind: the list, the format flag and the first refusal. */
  datatype ParseResult = ParseResult(
    instructions: seq<InstructionValue>,
    formatCorrect: bool,
    failure: Option<ParseError>)

  /** `f` applied to each line, in file order. */
  function MapLines<T>(f: string -> T, lines: seq<string>): (r: seq<T>)
    ensures |r| == |lines|
    ensures forall k :: 0 <= k < |lines| ==> r[k] == f(lines[k])
  {
    seq(|lines|, k requires 0 <= k < |lines| => f(lines[k]))
  }

  /** Mapping over two files one after the other is mapping over each. */
  lemma MapLinesAppend<T>(f: string -> T, lines: seq<string>, more: seq<string>)
    ensures MapLines(f, lines + more) == MapLines(f, lines) + MapLines(f, more)
  {
    var all, a, b := MapLines(f, lines + more), MapLines(f, lines), MapLines(f, more);
    forall k | 0 <= k < |all|
      ensures all[k] == (a + b)[k]
    {
      if k < |lines| {
        assert (lines + more)[k] == lines[k];
      } else {
        assert (lines + more)[k] == more[k - |lines|];
      }
    }
  }

  /** The per-line check of a given table pair. */
  function Decoder(t: OpcodeTable, reg: RegisterTable): string -> LineResult {
    line => DecodeLine(t, reg, line)
  }

  /** The outcome of each line on its own, in file order. */
  function Outcomes(t: OpcodeTable, reg: RegisterTable, lines: seq<string>): (rs: seq<LineResult>)
    ensures |rs| == |lines|
    ensures forall k :: 0 <= k < |lines| ==> rs[k] == DecodeLine(t, reg, lines[k])
  {
    MapLines(Decoder(t, reg), lines)
  }

  /**
   * The constructor's loop over the line outcomes from index `k` on
   * (line number k + 1): accepted lines append their instruction, the
   * first refused line ends the loop with the flag cleared.
   */
  function Collect(rs: seq<LineResult>, k: nat): (r: ParseResult)
    requires k <= |rs|
    ensures |r.instructions| <= |rs| - k
    ensures r.formatCorrect <==> r.failure == None
    decreases |rs| - k
  {
    if k == |rs| then ParseResult([], true, None)
    else match rs[k]
      case Rejected(kind) => ParseResult([], false, Some(ParseError(kind, k + 1)))
      case Accepted(v) =>
        var rest := Collect(rs, k + 1);
        rest.(instructions := [v] + rest.instructions)
  }

  /**
   * What the constructor computes for a file made of `lines`: at most one
   * instruction per line, each with a real opcode (never UNDEFINED, which
   * the caller takes as the end of the list); the flag is set exactly
   * when no refusal is recorded, and a refusal names one of the lines.
   */
  function Parse(t: OpcodeTable, reg: RegisterTable, lines: seq<string>): (r: ParseResult)
    ensures |r.instructions| <= |lines|
    ensures forall j :: 0 <= j < |r.instructions| ==> r.instructions[j].opcode < t.Undefined()
    ensures r.formatCorrect <==> r.failure == None
    ensures r.failure.Some? ==> 1 <= r.failure.value.line <= |lines|
  {
    StoredOpcodesDefined(t, reg, lines);
    Collect(Outcomes(t, reg, lines), 0)
  }

  /**
   * Every instruction the loop keeps comes from an accepted line, so its
   * opcode is a real one; a refusal is reported for one of the lines.
   */
  lemma StoredOpcodesDefined(t: OpcodeTable, reg: RegisterTable, lines: seq<string>)
    ensures var r := Collect(Outcomes(t, reg, lines), 0);
      && (forall j :: 0 <= j < |r.instructions| ==> r.instructions[j].opcode < t.Undefined())
      && (r.failure.Some? ==> 1 <= r.failure.value.line <= |lines|)
  {
    var rs := Outcomes(t, reg, lines);
    var r, f := Collect(rs, 0), FirstRejected(rs, 0);
    CollectShape(rs, 0);
    forall j | 0 <= j < |r.instructions|
      ensures r.instructions[j].opcode < t.Undefined()
    {
      assert rs[j].Accepted? && r.instructions[j] == rs[j].inst;
      AcceptedLine(t, reg, lines[j]);
    }
  }

  /** Every outcome from index `k` up to (not including) `m` is an accepted line. */
  predicate AllAccepted(rs: seq<LineResult>, k: nat, m: nat)
    requires k <= m <= |rs|
  {
    forall j :: k <= j < m ==> rs[j].Accepted?
  }

  /** The index of the first refused line at or after `k`, or |rs| when there is none. */
  function FirstRejected(rs: seq<LineResult>, k: nat): (f: nat)
    requires k <= |rs|
    ensures k <= f <= |rs|
    ensures AllAccepted(rs, k, f)
    ensures f < |rs| ==> rs[f].Rejected?
    decreases |rs| - k
  {
    if k == |rs| || rs[k].Rejected? then k
    else FirstRejected(rs, k + 1)
  }

  /**
   * The loop, characterised line by line: the instructions are those of
   * the lines before the first refused one, in order; the format is
   * correct exactly when no line is refused; otherwise the first refused
   * line is reported, numbered from 1, with its reason.
   */
  lemma {:induction false} CollectShape(rs: seq<LineResult>, k: nat)
    requires k <= |rs|
    ensures var r, f := Collect(rs, k), FirstRejected(rs, k);
      && |r.instructions| == f - k
      && (forall j :: k <= j < f ==> r.instructions[j - k] == rs[j].inst)
      && (r.formatCorrect <==> f == |rs|)
      && (f < |rs| ==> r.failure == Some(ParseError(rs[f].kind, f + 1)))
    decreases |rs| - k
  {
    if k < |rs| && rs[k].Accepted? {
      CollectShape(rs, k + 1);
      var rest := Collect(rs, k + 1);
      assert Collect(rs, k).instructions == [rs[k].inst] + rest.instructions;
    }
  }

  /**
   * The constructor's loop invariant: the instructions collected so far,
   * followed by what the lines from `k` on contribute, make up the parse.
   */
  predicate CollectedSoFar(rs: seq<LineResult>, k: nat, acc: seq<InstructionValue>)
    requires k <= |rs|
  {
    var rest := Collect(rs, k);
    Collect(rs, 0) == ParseResult(acc + rest.instructions, rest.formatCorrect, rest.failure)
  }

  /**
   * One pass of the loop: an accepted line appends its instruction and
   * the loop goes on; a refused line ends the parse with what was
   * collected before it.
   */
  lemma CollectStep(rs: seq<LineResult>, k: nat, acc: seq<InstructionValue>, outcome: LineResult)
    requires k < |rs| && rs[k] == outcome && CollectedSoFar(rs, k, acc)
    ensures outcome.Accepted? ==> CollectedSoFar(rs, k + 1, acc + [outcome.inst])
    ensures outcome.Rejected? ==>
      Collect(rs, 0) == ParseResult(acc, false, Some(ParseError(outcome.kind, k + 1)))
  {
    if outcome.Accepted? {
      var rest := Collect(rs, k + 1);
      assert Collect(rs, k).instructions == [outcome.inst] + rest.instructions;
      assert acc + ([outcome.inst] + rest.instructions) == (acc + [outcome.inst]) + rest.instructions;
    } else {
      assert acc + [] == acc;
    }
  }

  /** Once every line is collected, the parse is what was collected, with the flag set. */
  lemma CollectDone(rs: seq<LineResult>, acc: seq<InstructionValue>)
    requires CollectedSoFar(rs, |rs|, acc)
    ensures Collect(rs, 0) == ParseResult(acc, true, None)
  {
    assert acc + [] == acc;
  }

  /** A file whose every line is accepted yields one instruction per line, the j-th from the j-th line. */
  lemma ParseAllAccepted(t: OpcodeTable, reg: RegisterTable, lines: seq<string>)
    requires forall j :: 0 <= j < |lines| ==> DecodeLine(t, reg, lines[j]).Accepted?
    ensures Parse(t, reg, lines).formatCorrect && Parse(t, reg, lines).failure == None
    ensures |Parse(t, reg, lines).instructions| == |lines|
    ensures forall j :: 0 <= j < |lines| ==>
      Parse(t, reg, lines).instructions[j] == DecodeLine(t, reg, lines[j]).inst
  {
    var rs := Outcomes(t, reg, lines);
    assert AllAccepted(rs, 0, |rs|);
    assert FirstRejected(rs, 0) == |rs|;
    CollectShape(rs, 0);
  }

  /**
   * Everything after the first refused line is ignored: appending lines
   * to a file that already fails changes neither the list, the flag nor
   * the reported failure.
   */
  lemma ParseStopsAtFailure(t: OpcodeTable, reg: RegisterTable, lines: seq<string>, more: seq<string>)
    requires !Parse(t, reg, lines).formatCorrect
    ensures Parse(t, reg, lines + more) == Parse(t, reg, lines)
  {
    OutcomesAppend(t, reg, lines, more);
    var rs, ms := Outcomes(t, reg, lines), Outcomes(t, reg, more);
    CollectPrefix(rs, ms, 0);
  }

  /** Each line's outcome depends on that line alone. */
  lemma OutcomesAppend(t: OpcodeTable, reg: RegisterTable, lines: seq<string>, more: seq<string>)
    ensures Outcomes(t, reg, lines + more) == Outcomes(t, reg, lines) + Outcomes(t, reg, more)
  {
    MapLinesAppend(Decoder(t, reg), lines, more);
  }


  lemma {:induction false} CollectPrefix(rs: seq<LineResult>, more: seq<LineResult>, k: nat)
    requires k <= |rs|
    requires !Collect(rs, k).formatCorrect
    ensures Collect(rs + more, k) == Collect(rs, k)
    decreases |rs| - k
  {
    assert (rs + more)[k] == rs[k];
    if rs[k].Accepted? {
      CollectPrefix(rs, more, k + 1);
    }
  }

  /** A line of the wrong length is refused as such, and the line number reported is its own. */
  lemma ShortLineRejected(t: OpcodeTable, reg: RegisterTable, line: string)
    requires |line| == ThirtyTwo - 1
    ensures Parse(t, reg, [line]) == ParseResult([], false, Some(ParseError(LineLength, 1)))
  {
    assert Outcomes(t, reg, [line]) == [Rejected(LineLength)];
  }

  /**
   * The alphabet check starts at index 1, so a bad first character is
   * not refused as such: with a well-formed table, whose opcode fields
   * are binary, such a line is refused because its opcode is unknown.
   */
  lemma FirstCharacterSkipped(t: OpcodeTable, reg: RegisterTable, line: string)
    requires t.WellFormed()
    requires |line| == ThirtyTwo && AlphabetOk(line) && !IsBit(line[0])
    ensures DecodeLine(t, reg, line) == Rejected(UnknownOpcode)
  {
    assert OpcodeField(line)[0] == line[0];
    NonBinaryOpcodeIsUndefined(t, OpcodeField(line), FunctField(line));
  }

  /**
   * The checks of a 32-character line, in the constructor's order: a
   * character other than '0' or '1' after the first refuses it for its
   * alphabet; otherwise an opcode/funct pair the table does not know
   * refuses it for its opcode; otherwise it is accepted.
   */
  lemma LineChecks(t: OpcodeTable, reg: RegisterTable, line: string)
    requires |line| == ThirtyTwo
    ensures DecodeLine(t, reg, line) == Rejected(LineAlphabet) <==> !AlphabetOk(line)
    ensures DecodeLine(t, reg, line) == Rejected(UnknownOpcode) <==>
      AlphabetOk(line) && LineOpcode(t, line) == t.Undefined()
    ensures DecodeLine(t, reg, line).Accepted? <==>
      AlphabetOk(line) && LineOpcode(t, line) < t.Undefined()
  {
    NoInvalidRegister(t, reg, line);
  }

  /**
   * A file whose every line has 32 characters, only '0' and '1' after
   * the first, and a known opcode is parsed whole: one instruction per
   * line, in order, with the flag set.
   */
  lemma ParseWellFormedFile(t: OpcodeTable, reg: RegisterTable, lines: seq<string>)
    requires forall j :: 0 <= j < |lines| ==>
      |lines[j]| == ThirtyTwo && AlphabetOk(lines[j]) && LineOpcode(t, lines[j]) < t.Undefined()
    ensures Parse(t, reg, lines).formatCorrect && Parse(t, reg, lines).failure == None
    ensures |Parse(t, reg, lines).instructions| == |lines|
    ensures forall j :: 0 <= j < |lines| ==>
      && DecodeLine(t, reg, lines[j]).Accepted?
      && Parse(t, reg, lines).instructions[j] == DecodeLine(t, reg, lines[j]).inst
  {
    forall j | 0 <= j < |lines|
      ensures DecodeLine(t, reg, lines[j]).Accepted?
    {
      LineChecks(t, reg, lines[j]);
    }
    ParseAllAccepted(t, reg, lines);
  }

  /** No line is ever refused for its registers: 5-bit fields always name a register. */
  lemma NoInvalidRegister(t: OpcodeTable, reg: RegisterTable, line: string)
    ensures DecodeLine(t, reg, line) != Rejected(InvalidRegister)
  {
    if |line| == ThirtyTwo {
      RegisterCheckNeverFails(t, reg, line, InitialScratch);
    }
  }

  /**
   * The instruction of an accepted line holds exactly what getOperands
   * produced: the opcode is a real opcode and setValues' clamping leaves
   * every operand as it was.
   */
  lemma AcceptedInstructionFields(t: OpcodeTable, reg: RegisterTable, line: string)
    requires DecodeLine(t, reg, line).Accepted?
    ensures var v := DecodeLine(t, reg, line).inst;
      && t.IsOpcode(v.opcode)
      && OperandsOf(t, reg, v.opcode, TokensAfter(t, line, InitialScratch)) == Some(v.operands)
  {
    var o := LineOpcode(t, line);
    var x := OperandsOf(t, reg, o, TokensAfter(t, line, InitialScratch)).value;
    assert ClampOperands(x) == x;
  }
}
