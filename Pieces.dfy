/** Camps, piece kinds, pieces and their material weights (Pawn.cs, PawnKind.cs). */
module Pieces {
  import opened Results

  /** The two sides, named from one player's point of view. */
  datatype Camp = Self | Opponent

  datatype PawnKind = Chariot | Horse | Cannon | Soldier | Advisor | Elephant | General

  /** A piece identity: which side owns it and what it is. Equality is
      structural, as for the C# record struct. */
  datatype Pawn = Pawn(camp: Camp, kind: PawnKind)

  const AllKinds: seq<PawnKind> := [Chariot, Horse, Cannon, Soldier, Advisor, Elephant, General]

  /** The material weight of a kind. The C# switch has a throwing default arm
      for values outside the enumeration; a Dafny datatype has no such values. */
  function GetPawnWeight(kind: PawnKind): (w: int)
    ensures w > 0
    ensures w <= 1000
    ensures w == 1000 <==> kind == General
  {
    match kind
    case Chariot => 10
    case Horse => 5
    case Cannon => 8
    case Soldier => 1
    case Advisor => 3
    case Elephant => 3
    case General => 1000
  }

  /** The weight table, kind by kind, in the order of the enumeration. */
  lemma WeightTable()
    ensures seq(7, i requires 0 <= i < 7 => GetPawnWeight(AllKinds[i])) == [10, 5, 8, 1, 3, 3, 1000]
  {
  }

  /** The contribution of a square's occupant to Self's material balance:
      plus the weight for a Self piece, minus it for an Opponent piece. */
  function SignedWeight(p: Option<Pawn>): int {
    match p
    case None => 0
    case Some(q) => if q.camp == Self then GetPawnWeight(q.kind) else -GetPawnWeight(q.kind)
  }
}
