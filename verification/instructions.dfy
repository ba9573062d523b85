/** The instruction set of the jumps-and-hits board: how an instruction is
    written on the map, how the interpreter reads it back, and the two helpers
    that interpret an operand (jumps_and_hits.py:73-92). */
module Instructions {
  import opened Text
  import opened Options

  /** A map entry, decoded. Operands are non-negative: magnitudes are drawn from
      [1, 100] and jump targets from [0, length - 1]. */
  datatype Instr = Nop | Add(v: nat) | Sub(v: nat) | Mul(v: nat) | Jmp(target: nat) | Hlt

  /** The text the map stores for an instruction: `nop`, `add N`, `sub N`,
      `mul N`, `jmp T`, `hlt`. */
  function Format(i: Instr): string {
    match i
    case Nop => "nop"
    case Add(v) => "add " + NatToString(v)
    case Sub(v) => "sub " + NatToString(v)
    case Mul(v) => "mul " + NatToString(v)
    case Jmp(t) => "jmp " + NatToString(t)
    case Hlt => "hlt"
  }

  /** A command the operand helpers accept: `command.split()` yields exactly
      two words and `int` accepts the second (a decimal numeral). */
  predicate HasOperand(command: string) {
    var ws := Words(command);
    |ws| == 2 && IsNumeral(ws[1])
  }

  function Operation(command: string): string
    requires HasOperand(command)
  {
    Words(command)[0]
  }

  function Operand(command: string): nat
    requires HasOperand(command)
  {
    ParseNat(Words(command)[1])
  }

  /** The instruction an operation word and operand name, if any. */
  function Decode(op: string, v: nat): Option<Instr> {
    match op
    case "add" => Some(Add(v))
    case "sub" => Some(Sub(v))
    case "mul" => Some(Mul(v))
    case "jmp" => Some(Jmp(v))
    case _ => None
  }

  /** Decodes an entry in the generator's printed form: `nop` and `hlt` by
      comparison, the operand instructions by splitting on whitespace and
      `int`-ing the operand. It is stricter than the interpreter, which
      lower-cases and looks only at the first three letters; on every entry
      the generator can write the two readings agree. */
  function Parse(s: string): Option<Instr> {
    if s == "nop" then Some(Nop)
    else if s == "hlt" then Some(Hlt)
    else if !HasOperand(s) then None
    else Decode(Operation(s), Operand(s))
  }

  lemma OperandFormat(op: string, n: nat)
    requires op == "add" || op == "sub" || op == "mul" || op == "jmp"
    ensures HasOperand(op + " " + NatToString(n))
    ensures Operation(op + " " + NatToString(n)) == op
    ensures Operand(op + " " + NatToString(n)) == n
  {
    var d := NatToString(n);
    NumeralNoSpace(d);
    assert JoinSpace([op, d]) == op + " " + JoinSpace([d]);
    WordsJoinSpace([op, d]);
    ParseNatToString(n);
  }

  /** An operand instruction's text is neither `nop` nor `hlt`, and reads
      back as its operation and number. */
  lemma ParseOperandFormat(op: string, n: nat)
    requires op == "add" || op == "sub" || op == "mul" || op == "jmp"
    ensures var s := op + " " + NatToString(n);
      s != "nop" && s != "hlt" && HasOperand(s) && Operation(s) == op && Operand(s) == n
  {
    var s := op + " " + NatToString(n);
    assert |s| > 3;
    OperandFormat(op, n);
  }

  /** An operand instruction's text reads back through `Decode`. */
  lemma ParseOperand(op: string, n: nat)
    requires op == "add" || op == "sub" || op == "mul" || op == "jmp"
    ensures Parse(op + " " + NatToString(n)) == Decode(op, n)
  {
    ParseOperandFormat(op, n);
  }

  /** The operation word and operand of an instruction that has one. */
  function OpWord(i: Instr): string
    requires !i.Nop? && !i.Hlt?
  {
    match i
    case Add(_) => "add"
    case Sub(_) => "sub"
    case Mul(_) => "mul"
    case Jmp(_) => "jmp"
  }

  function OpValue(i: Instr): nat
    requires !i.Nop? && !i.Hlt?
  {
    match i
    case Add(v) => v
    case Sub(v) => v
    case Mul(v) => v
    case Jmp(t) => t
  }

  /** An operand instruction is printed as its word, a space and its
      number, and its word and number decode back to it. */
  lemma OperandShape(i: Instr)
    requires !i.Nop? && !i.Hlt?
    ensures Format(i) == OpWord(i) + " " + NatToString(OpValue(i))
    ensures Decode(OpWord(i), OpValue(i)) == Some(i)
  {
  }

  /** Round trip: the text written for an instruction parses back, by
      split-and-`int`, to the same operation and number. */
  lemma ParseFormat(i: Instr)
    ensures Parse(Format(i)) == Some(i)
  {
    if !i.Nop? && !i.Hlt? {
      OperandShape(i);
      ParseOperand(OpWord(i), OpValue(i));
    }
  }

  /** Two instructions that print the same are the same instruction. */
  lemma FormatInjective(a: Instr, b: Instr)
    ensures Format(a) == Format(b) <==> a == b
  {
    ParseFormat(a);
    ParseFormat(b);
  }

  /** Every printed instruction is lower case, so `.lower()` leaves it alone,
      and its first three characters name the operation. */
  lemma FormatShape(i: Instr)
    ensures Lower(Format(i)) == Format(i)
    ensures Take(Format(i), 3) ==
      match i
      case Nop => "nop"
      case Add(_) => "add"
      case Sub(_) => "sub"
      case Mul(_) => "mul"
      case Jmp(_) => "jmp"
      case Hlt => "hlt"
  {
    match i
    case Nop =>
    case Hlt =>
    case Add(v) => NumeralNoUpper(NatToString(v));
    case Sub(v) => NumeralNoUpper(NatToString(v));
    case Mul(v) => NumeralNoUpper(NatToString(v));
    case Jmp(t) => NumeralNoUpper(NatToString(t));
  }

  /** The reference meaning of an instruction on the score: add, subtract or
      multiply by the operand; anything else leaves the score alone. */
  function Arith(i: Instr, score: int): int {
    match i
    case Add(v) => score + v
    case Sub(v) => score - v
    case Mul(v) => score * v
    case _ => score
  }

  /** `math_command`: applies `add`, `sub` or `mul` to the score and leaves it
      unchanged for any other operation word. */
  function MathCommand(score: int, command: string): (r: int)
    requires HasOperand(command)
    ensures Operation(command) == "add" ==> r == score + Operand(command)
    ensures Operation(command) == "sub" ==> r == score - Operand(command)
    ensures Operation(command) == "mul" ==> r == score * Operand(command)
    ensures Operation(command) !in {"add", "sub", "mul"} ==> r == score
  {
    var value := Operand(command);
    match Operation(command)
    case "add" => score + value
    case "sub" => score - value
    case "mul" => score * value
    case _ => score
  }

  /** On a printed instruction `math_command` agrees with the reference
      meaning: `add N`, `sub N`, `mul N` change the score by N, `jmp T` does not. */
  lemma MathCommandOfFormat(score: int, i: Instr)
    requires !i.Nop? && !i.Hlt?
    ensures HasOperand(Format(i))
    ensures MathCommand(score, Format(i)) == Arith(i, score)
  {
    match i
    case Add(v) => assert Format(i) == "add" + " " + NatToString(v); OperandFormat("add", v);
    case Sub(v) => assert Format(i) == "sub" + " " + NatToString(v); OperandFormat("sub", v);
    case Mul(v) => assert Format(i) == "mul" + " " + NatToString(v); OperandFormat("mul", v);
    case Jmp(t) => assert Format(i) == "jmp" + " " + NatToString(t); OperandFormat("jmp", t);
  }

  /** `jump`: the new position is the command's operand; the old position is ignored. */
  function JumpTarget(command: string): (t: nat)
    requires HasOperand(command)
    ensures Operation(command) == "jmp" ==> Parse(command) == Some(Jmp(t))
  {
    Operand(command)
  }

  /** `jmp T` jumps to T. */
  lemma JumpTargetOfFormat(t: nat)
    ensures HasOperand(Format(Jmp(t)))
    ensures JumpTarget(Format(Jmp(t))) == t
  {
    assert Format(Jmp(t)) == "jmp" + " " + NatToString(t);
    OperandFormat("jmp", t);
  }
}
