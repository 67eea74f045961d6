/** The shared vocabulary: elements, the matchup matrix, stat blocks (pkg/types/types.go). */
module Types {

  datatype Option<+T> = None | Some(value: T)

  /** The twelve elements; Unlisted stands for every other byte value. */
  datatype Element =
    | Neutral | Fire | Water | Grass | Electric | Earth | Air | Ice | Toxin | Mind | Spectre | Metal
    | Unlisted(code: nat)

  datatype DamageClass = Physical | Special | StatusOnly

  datatype StatusCondition = NoStatus | Burn | Poison | Freeze | Sleep | Paralysis | Toxic

  datatype Stats = Stats(hp: int, attack: int, defense: int, spAttack: int, spDefense: int, speed: int)

  type Int8 = n: int | -128 <= n <= 127

  /** x is the whole part of num / den. */
  predicate WholePart(x: int, num: int, den: int) {
    den * x <= num < den * (x + 1)
  }

  /** n is the whole part of x. */
  predicate WholeReal(n: int, x: real) {
    n as real <= x < n as real + 1.0
  }

  function StatusCode(s: StatusCondition): (c: nat)
    ensures c <= 6
  {
    match s
    case NoStatus => 0
    case Burn => 1
    case Poison => 2
    case Freeze => 3
    case Sleep => 4
    case Paralysis => 5
    case Toxic => 6
  }

  /** The multiplier of an attacking element against one defending element. */
  function Effectiveness(attacker: Element, defender: Element): real {
    match attacker
    case Neutral =>
      if defender in {Spectre, Metal} then 0.5 else 1.0
    case Fire =>
      if defender in {Grass, Ice, Metal} then 2.0 else if defender in {Fire, Water} then 0.5 else 1.0
    case Water =>
      if defender in {Fire, Earth} then 2.0 else if defender in {Water, Grass} then 0.5 else 1.0
    case Grass =>
      if defender in {Water, Earth} then 2.0
      else if defender in {Fire, Grass, Air, Toxin, Metal} then 0.5 else 1.0
    case Electric =>
      if defender == Earth then 0.0 else if defender in {Water, Air} then 2.0
      else if defender in {Grass, Electric} then 0.5 else 1.0
    case Earth =>
      if defender == Air then 0.0 else if defender in {Fire, Electric, Toxin, Metal} then 2.0
      else if defender in {Water, Grass} then 0.5 else 1.0
    case Air =>
      if defender == Grass then 2.0 else if defender in {Electric, Metal} then 0.5 else 1.0
    case Ice =>
      if defender in {Grass, Earth, Air} then 2.0
      else if defender in {Fire, Water, Ice, Metal} then 0.5 else 1.0
    case Toxin =>
      if defender == Metal then 0.0 else if defender == Grass then 2.0
      else if defender in {Earth, Toxin, Spectre} then 0.5 else 1.0
    case Mind =>
      if defender == Spectre then 0.0 else if defender == Toxin then 2.0
      else if defender == Mind then 0.5 else 1.0
    case Spectre =>
      if defender == Neutral then 0.0 else if defender in {Mind, Spectre} then 2.0 else 1.0
    case Metal =>
      if defender == Ice then 2.0 else if defender in {Fire, Water, Electric, Metal} then 0.5 else 1.0
    case Unlisted(_) => 1.0
  }

  /** The product over a defender's two elements; a repeated element counts once. */
  function DualEffectiveness(attacker: Element, def1: Element, def2: Element): real {
    if def2 != def1 then Effectiveness(attacker, def1) * Effectiveness(attacker, def2)
    else Effectiveness(attacker, def1)
  }

  predicate IsMultiplier(m: real) {
    m == 0.0 || m == 0.25 || m == 0.5 || m == 1.0 || m == 2.0 || m == 4.0
  }

  lemma SingleMultiplier(attacker: Element, defender: Element)
    ensures Effectiveness(attacker, defender) in {0.0, 0.5, 1.0, 2.0}
  {
  }

  /** A type multiplier is one of the six documented values. */
  lemma DualMultiplierValues(attacker: Element, def1: Element, def2: Element)
    ensures IsMultiplier(DualEffectiveness(attacker, def1, def2))
  {
    hide Effectiveness;
    SingleMultiplier(attacker, def1);
    SingleMultiplier(attacker, def2);
  }

  /** The order of a defender's elements does not matter. */
  lemma DualSymmetric(attacker: Element, def1: Element, def2: Element)
    ensures DualEffectiveness(attacker, def1, def2) == DualEffectiveness(attacker, def2, def1)
  {
    hide Effectiveness;
  }

  /** Writing a mono-typed defender with Neutral as its second element is claimed to cost
      nothing.  It costs nothing exactly when the attacking element is not Spectre, or the
      defender is Neutral anyway: Neutral is immune to Spectre. */
  lemma NeutralAsSecondElement(attacker: Element, def1: Element)
    ensures DualEffectiveness(attacker, def1, Neutral) == Effectiveness(attacker, def1)
            <==> attacker != Spectre || def1 == Neutral
  {
  }

  lemma NeutralIsNotFree()
    ensures Effectiveness(Spectre, Mind) == 2.0
    ensures DualEffectiveness(Spectre, Mind, Neutral) == 0.0
  {
  }

  // ----- The matrix as it is laid out in the source -----

  /** The position of an element in the matrix. */
  function ElementCode(e: Element): nat {
    match e
    case Neutral => 0
    case Fire => 1
    case Water => 2
    case Grass => 3
    case Electric => 4
    case Earth => 5
    case Air => 6
    case Ice => 7
    case Toxin => 8
    case Mind => 9
    case Spectre => 10
    case Metal => 11
    case Unlisted(code) => 12 + code
  }

  /** Rows attack, columns defend, both by code. */
  function MatrixRow(attacker: nat): (row: seq<real>)
    requires attacker < 12
    ensures |row| == 12
  {
    match attacker
    case 0 => [1.0, 1.0, 1.0, 1.0, 1.0, 1.0, 1.0, 1.0, 1.0, 1.0, 0.5, 0.5]
    case 1 => [1.0, 0.5, 0.5, 2.0, 1.0, 1.0, 1.0, 2.0, 1.0, 1.0, 1.0, 2.0]
    case 2 => [1.0, 2.0, 0.5, 0.5, 1.0, 2.0, 1.0, 1.0, 1.0, 1.0, 1.0, 1.0]
    case 3 => [1.0, 0.5, 2.0, 0.5, 1.0, 2.0, 0.5, 1.0, 0.5, 1.0, 1.0, 0.5]
    case 4 => [1.0, 1.0, 2.0, 0.5, 0.5, 0.0, 2.0, 1.0, 1.0, 1.0, 1.0, 1.0]
    case 5 => [1.0, 2.0, 0.5, 0.5, 2.0, 1.0, 0.0, 1.0, 2.0, 1.0, 1.0, 2.0]
    case 6 => [1.0, 1.0, 1.0, 2.0, 0.5, 1.0, 1.0, 1.0, 1.0, 1.0, 1.0, 0.5]
    case 7 => [1.0, 0.5, 0.5, 2.0, 1.0, 2.0, 2.0, 0.5, 1.0, 1.0, 1.0, 0.5]
    case 8 => [1.0, 1.0, 1.0, 2.0, 1.0, 0.5, 1.0, 1.0, 0.5, 1.0, 0.5, 0.0]
    case 9 => [1.0, 1.0, 1.0, 1.0, 1.0, 1.0, 1.0, 1.0, 2.0, 0.5, 0.0, 1.0]
    case 10 => [0.0, 1.0, 1.0, 1.0, 1.0, 1.0, 1.0, 1.0, 1.0, 2.0, 2.0, 1.0]
    case _ => [1.0, 0.5, 0.5, 1.0, 0.5, 1.0, 1.0, 2.0, 1.0, 1.0, 1.0, 0.5]
  }

  /** The function and the matrix agree on every listed pair, and anything else is neutral. */
  lemma MatrixAgrees(a: Element, d: Element)
    ensures Effectiveness(a, d) ==
      if ElementCode(a) < 12 && ElementCode(d) < 12 then MatrixRow(ElementCode(a))[ElementCode(d)] else 1.0
  {
    hide Effectiveness, MatrixRow;
    if ElementCode(a) < 4 {
      FirstRows(a, d);
    } else if ElementCode(a) < 8 {
      MiddleRows(a, d);
    } else {
      LastRows(a, d);
    }
  }

  lemma FirstRows(a: Element, d: Element)
    requires ElementCode(a) < 4
    ensures Effectiveness(a, d) == if ElementCode(d) < 12 then MatrixRow(ElementCode(a))[ElementCode(d)] else 1.0
  {
    match a
    case Neutral => assert ElementCode(a) == 0;
    case Fire => assert ElementCode(a) == 1;
    case Water => assert ElementCode(a) == 2;
    case Grass => assert ElementCode(a) == 3;
  }

  lemma MiddleRows(a: Element, d: Element)
    requires 4 <= ElementCode(a) < 8
    ensures Effectiveness(a, d) == if ElementCode(d) < 12 then MatrixRow(ElementCode(a))[ElementCode(d)] else 1.0
  {
    match a
    case Electric => assert ElementCode(a) == 4;
    case Earth => assert ElementCode(a) == 5;
    case Air => assert ElementCode(a) == 6;
    case Ice => assert ElementCode(a) == 7;
  }

  lemma LastRows(a: Element, d: Element)
    requires 8 <= ElementCode(a)
    ensures Effectiveness(a, d) ==
      if ElementCode(a) < 12 && ElementCode(d) < 12 then MatrixRow(ElementCode(a))[ElementCode(d)] else 1.0
  {
    match a
    case Toxin => assert ElementCode(a) == 8;
    case Mind => assert ElementCode(a) == 9;
    case Spectre => assert ElementCode(a) == 10;
    case Metal => assert ElementCode(a) == 11;
    case Unlisted(_) =>
  }
}
