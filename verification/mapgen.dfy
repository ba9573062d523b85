/** `generate_random_map` (jumps_and_hits.py:8-22) over injected draws. The
    random module is replaced by one `Draw` per interior slot: the two
    `randint` results and the index `random.choices` picked. */
module MapGen {
  import opened Options
  import opened Instructions

  /** Which of the six candidate strings `random.choices` picked, in list order. */
  datatype Kind = KNop | KAdd | KSub | KMul | KJmp | KHlt

  /** One slot's draws: `randint(1, 100)`, `randint(0, length - 1)`, the choice. */
  datatype Draw = Draw(points: nat, position: nat, kind: Kind)

  /** The values `randint` can return for a map of the given length. */
  predicate DrawInRange(d: Draw, length: int) {
    1 <= d.points <= 100 && d.position <= length - 1
  }

  /** The number of interior slots: `range(length - 2)` is empty below 3. */
  function InteriorCount(length: int): nat {
    if length > 2 then length - 2 else 0
  }

  function Choose(d: Draw): Instr {
    match d.kind
    case KNop => Nop
    case KAdd => Add(d.points)
    case KSub => Sub(d.points)
    case KMul => Mul(d.points)
    case KJmp => Jmp(d.position)
    case KHlt => Hlt
  }

  /** Operands as the generator draws them: magnitudes in [1, 100], jump
      targets in [0, length - 1]. */
  predicate OperandsInRange(i: Instr, length: int) {
    match i
    case Add(v) => 1 <= v <= 100
    case Sub(v) => 1 <= v <= 100
    case Mul(v) => 1 <= v <= 100
    case Jmp(t) => t <= length - 1
    case _ => true
  }

  /** The generated map: a forced `nop`, one chosen instruction per draw, a
      forced `hlt`. Its length is `max(length, 2)`; every interior entry is one
      of the six instruction texts, reads back as the instruction its draw
      selected, and carries an operand in the drawn range. */
  function GenerateMap(length: int, draws: seq<Draw>): (m: seq<string>)
    requires |draws| == InteriorCount(length)
    requires forall k :: 0 <= k < |draws| ==> DrawInRange(draws[k], length)
    ensures |m| == if length > 2 then length else 2
    ensures m[0] == "nop" && m[|m| - 1] == "hlt"
    ensures forall k :: 0 < k < |m| - 1 ==>
      && m[k] == Format(Choose(draws[k - 1]))
      && Parse(m[k]) == Some(Choose(draws[k - 1]))
      && OperandsInRange(Parse(m[k]).value, |m|)
  {
    var interior := seq(|draws|, k requires 0 <= k < |draws| => Format(Choose(draws[k])));
    var m := ["nop"] + interior + ["hlt"];
    forall k | 0 < k < |m| - 1
      ensures m[k] == Format(Choose(draws[k - 1]))
      ensures Parse(m[k]) == Some(Choose(draws[k - 1]))
      ensures OperandsInRange(Parse(m[k]).value, |m|)
    {
      assert m[k] == interior[k - 1];
      EntryReadsBack(draws[k - 1], length);
    }
    m
  }

  /** A drawn entry reads back as the instruction chosen, with its operand in
      the drawn range. */
  lemma EntryReadsBack(d: Draw, length: int)
    requires DrawInRange(d, length)
    ensures Parse(Format(Choose(d))) == Some(Choose(d))
    ensures OperandsInRange(Choose(d), length)
  {
    ParseFormat(Choose(d));
  }

  /** The instructions a generated map holds, entry by entry. */
  function Program(length: int, draws: seq<Draw>): (p: seq<Instr>)
    requires |draws| == InteriorCount(length)
    requires forall k :: 0 <= k < |draws| ==> DrawInRange(draws[k], length)
    ensures |p| == |GenerateMap(length, draws)|
    ensures forall k :: 0 <= k < |p| ==> Format(p[k]) == GenerateMap(length, draws)[k]
    ensures p[0] == Nop && p[|p| - 1] == Hlt
  {
    var m := GenerateMap(length, draws);
    var chosen := seq(|draws|, k requires 0 <= k < |draws| => Choose(draws[k]));
    var p := [Nop] + chosen + [Hlt];
    assert |p| == |m|;
    forall k | 0 <= k < |p|
      ensures Format(p[k]) == m[k]
    {
      if 0 < k < |p| - 1 {
        assert p[k] == chosen[k - 1] == Choose(draws[k - 1]);
      }
    }
    p
  }
}
