/** One turn of `play_game` (jumps_and_hits.py:124-137): move by the die roll
    modulo the map length, read the entry, apply arithmetic or follow one jump,
    and decide whether the game is over. The die roll is a parameter. */
module Engine {
  import opened Text
  import opened Options
  import opened Instructions
  import MapGen

  predicate IsArithCommand(c: string) {
    var op := Take(c, 3);
    op == "add" || op == "sub" || op == "mul"
  }

  predicate IsJumpCommand(c: string) {
    Take(c, 3) == "jmp"
  }

  /** What a turn needs of the lower-cased entry it lands on, without which
      Python raises: an arithmetic or jump entry splits into an operation and
      a numeral, and a jump's target indexes the map. */
  predicate Executable(c: string, length: nat) {
    && (IsArithCommand(c) ==> HasOperand(c))
    && (IsJumpCommand(c) ==> HasOperand(c) && JumpTarget(c) < length)
  }

  /** The state a turn leaves behind and the command it reports. */
  datatype Turn = Turn(position: nat, score: int, command: string, gameOver: bool)

  /** One turn. The position advances by the roll modulo the map length (Python's
      `%` and Dafny's agree for a positive divisor). Landing on `add`, `sub` or
      `mul` updates the score. Landing on `jmp T` moves to T and reports the
      entry there without executing it, so a second jump is not followed and
      arithmetic at T is not applied. The game is over exactly when the
      reported command is `hlt`, whether landed on or reached through a jump. */
  function Step(tape: seq<string>, position: int, score: int, roll: int): (t: Turn)
    requires |tape| > 0
    requires Executable(Lower(tape[(position + roll) % |tape|]), |tape|)
    ensures t.position < |tape|
    ensures t.command == Lower(tape[t.position])
    ensures t.gameOver <==> t.command == "hlt"
    ensures var landed := (position + roll) % |tape|;
            var c := Lower(tape[landed]);
            if IsJumpCommand(c) then
              t.position == JumpTarget(c) && t.score == score
            else
              t.position == landed &&
              t.score == (if IsArithCommand(c) then MathCommand(score, c) else score)
  {
    var landed := (position + roll) % |tape|;
    var command := Lower(tape[landed]);
    if IsArithCommand(command) then
      Turn(landed, MathCommand(score, command), command, command == "hlt")
    else if IsJumpCommand(command) then
      var target := JumpTarget(command);
      var next := Lower(tape[target]);
      Turn(target, score, next, next == "hlt")
    else
      Turn(landed, score, command, command == "hlt")
  }

  /** The map as the generator writes it: one text per instruction. */
  function Render(prog: seq<Instr>): (m: seq<string>)
    ensures |m| == |prog|
    ensures forall k :: 0 <= k < |prog| ==> m[k] == Format(prog[k])
  {
    seq(|prog|, k requires 0 <= k < |prog| => Format(prog[k]))
  }

  predicate JumpsInRange(prog: seq<Instr>) {
    forall k :: 0 <= k < |prog| && prog[k].Jmp? ==> prog[k].target < |prog|
  }

  /** What a turn reports, in terms of instructions. */
  datatype Outcome = Outcome(position: nat, score: int, reported: Instr)

  /** The reference semantics of a turn on decoded instructions, stated
      independently of the text the map stores. */
  function Exec(prog: seq<Instr>, position: int, score: int, roll: int): (o: Outcome)
    requires |prog| > 0 && JumpsInRange(prog)
    ensures o.position < |prog| && o.reported == prog[o.position]
  {
    var landed := (position + roll) % |prog|;
    match prog[landed]
    case Jmp(t) => Outcome(t, score, prog[t])
    case i => Outcome(landed, Arith(i, score), i)
  }

  lemma ExecutableFormat(i: Instr, length: nat)
    requires i.Jmp? ==> i.target < length
    ensures Executable(Lower(Format(i)), length)
  {
    FormatShape(i);
    match i
    case Nop =>
    case Hlt =>
    case Jmp(t) => JumpTargetOfFormat(t);
    case _ => MathCommandOfFormat(0, i);
  }

  /** On a map rendered from instructions whose jumps stay on the map, the
      text-level turn is defined at every position and agrees with the
      reference semantics: same position, same score, the reported entry is
      the printed reported instruction, and the game ends iff that
      instruction is `hlt`. */
  lemma StepMatchesExec(prog: seq<Instr>, position: int, score: int, roll: int)
    requires |prog| > 0 && JumpsInRange(prog)
    ensures Executable(Lower(Render(prog)[(position + roll) % |prog|]), |prog|)
    ensures var o := Exec(prog, position, score, roll);
            Step(Render(prog), position, score, roll) ==
            Turn(o.position, o.score, Format(o.reported), o.reported == Hlt)
  {
    var landed := (position + roll) % |prog|;
    var i := prog[landed];
    ExecutableFormat(i, |prog|);
    FormatShape(i);
    var o := Exec(prog, position, score, roll);
    FormatShape(o.reported);
    FormatInjective(o.reported, Hlt);
    match i
    case Jmp(t) => JumpTargetOfFormat(t);
    case Nop =>
    case Hlt =>
    case _ => MathCommandOfFormat(score, i);
  }

  /** The look-through quirk: a turn that lands on `jmp T` ends at T with the
      score untouched, reports the entry at T, and ends the game only if that
      entry is `hlt`; a `jmp` or arithmetic entry at T has no effect. */
  lemma JumpReportsWithoutExecuting(prog: seq<Instr>, position: int, score: int, roll: int)
    requires |prog| > 0 && JumpsInRange(prog)
    requires prog[(position + roll) % |prog|].Jmp?
    ensures Executable(Lower(Render(prog)[(position + roll) % |prog|]), |prog|)
    ensures var t := prog[(position + roll) % |prog|].target;
            Step(Render(prog), position, score, roll) ==
            Turn(t, score, Format(prog[t]), prog[t] == Hlt)
  {
    StepMatchesExec(prog, position, score, roll);
  }

  /** The generated map's instructions keep every jump on the map. */
  lemma ProgramJumpsInRange(length: int, draws: seq<MapGen.Draw>)
    requires |draws| == MapGen.InteriorCount(length)
    requires forall k :: 0 <= k < |draws| ==> MapGen.DrawInRange(draws[k], length)
    ensures Render(MapGen.Program(length, draws)) == MapGen.GenerateMap(length, draws)
    ensures JumpsInRange(MapGen.Program(length, draws))
  {
    var p := MapGen.Program(length, draws);
    var m := MapGen.GenerateMap(length, draws);
    forall k | 0 <= k < |p| && p[k].Jmp?
      ensures p[k].target < |p|
    {
      ParseFormat(p[k]);
      assert Parse(m[k]) == Some(p[k]);
    }
  }

  /** Every turn on a generated map is defined, whatever the position and the
      roll, and behaves as the reference semantics on the map's instructions. */
  lemma GeneratedMapSteps(length: int, draws: seq<MapGen.Draw>, position: int, score: int, roll: int)
    requires |draws| == MapGen.InteriorCount(length)
    requires forall k :: 0 <= k < |draws| ==> MapGen.DrawInRange(draws[k], length)
    ensures var m := MapGen.GenerateMap(length, draws);
            Executable(Lower(m[(position + roll) % |m|]), |m|)
    ensures var m := MapGen.GenerateMap(length, draws);
            var prog := MapGen.Program(length, draws);
            var o := Exec(prog, position, score, roll);
            Step(m, position, score, roll) ==
            Turn(o.position, o.score, Format(o.reported), o.reported == Hlt)
  {
    ProgramJumpsInRange(length, draws);
    StepMatchesExec(MapGen.Program(length, draws), position, score, roll);
  }

  /** A ten-entry map with `jmp 7` at 3 and `add 20` at 7: from position 0 with
      score 0, a roll of 3 ends at 7 reporting `add 20` with the score still 0. */
  lemma JumpThenAddExample()
    ensures Exec([Nop, Nop, Nop, Jmp(7), Nop, Nop, Nop, Add(20), Nop, Hlt], 0, 0, 3)
            == Outcome(7, 0, Add(20))
  {
  }

  /** Wrap-around and sequential arithmetic: from position 8 with score 10 on a
      ten-entry map, a roll of 5 lands on `sub 4` at 3, and a further roll of 4
      lands on `mul 3` at 7, giving (10 - 4) * 3. */
  lemma WrapThenArithmeticExample()
    ensures var prog := [Nop, Nop, Nop, Sub(4), Nop, Nop, Nop, Mul(3), Nop, Hlt];
            && Exec(prog, 8, 10, 5) == Outcome(3, 6, Sub(4))
            && Exec(prog, 3, 6, 4) == Outcome(7, 18, Mul(3))
  {
  }
}
