/**
 * The dice taxonomy: the static tier table, its successor chain, the lookup
 * of a tier by its name, and the random choice of a starter tier.
 */
module Dice {
  import opened Wrappers

  /** The eleven tiers, named after the dice they draw. */
  datatype Tier = D2 | D4 | D6 | D8 | D10 | D12 | D16 | D20 | D100 | D256 | D1000

  /** One row of the tier table. */
  datatype DiceProps = DiceProps(
    radius: nat,
    vertices: nat,
    color: string,
    next: Option<Tier>,
    scaleX: real,
    scaleY: real)

  /** The largest radius in the table; every clamp range below relies on it. */
  const MaxRadius: nat := 90

  /** The tier table. */
  function Props(t: Tier): DiceProps {
    match t
    case D2    => DiceProps(25, 32, "#95a5a6", Some(D4), 1.0, 1.0)
    case D4    => DiceProps(30, 3, "#8e44ad", Some(D6), 1.0, 1.0)
    case D6    => DiceProps(35, 4, "#e74c3c", Some(D8), 1.0, 1.0)
    case D8    => DiceProps(40, 4, "#e67e22", Some(D10), 1.0, 1.5)
    case D10   => DiceProps(45, 5, "#f1c40f", Some(D12), 1.0, 1.0)
    case D12   => DiceProps(50, 6, "#2ecc71", Some(D16), 1.0, 1.0)
    case D16   => DiceProps(55, 8, "#1abc9c", Some(D20), 1.0, 1.0)
    case D20   => DiceProps(60, 10, "#3498db", Some(D100), 1.0, 1.0)
    case D100  => DiceProps(70, 16, "#9b59b6", Some(D256), 1.0, 1.0)
    case D256  => DiceProps(80, 24, "#34495e", Some(D1000), 1.0, 1.0)
    case D1000 => DiceProps(90, 32, "#e056fd", None, 1.0, 1.0)
  }

  /** The key of a tier in the table, which is also the label of its bodies. */
  function Name(t: Tier): string {
    match t
    case D2 => "D2"
    case D4 => "D4"
    case D6 => "D6"
    case D8 => "D8"
    case D10 => "D10"
    case D12 => "D12"
    case D16 => "D16"
    case D20 => "D20"
    case D100 => "D100"
    case D256 => "D256"
    case D1000 => "D1000"
  }

  /** The tiers in chain order, from the smallest die to the final form. */
  const Chain: seq<Tier> := [D2, D4, D6, D8, D10, D12, D16, D20, D100, D256, D1000]

  /** The position of a tier along the chain. */
  function Rank(t: Tier): nat {
    match t
    case D2 => 0
    case D4 => 1
    case D6 => 2
    case D8 => 3
    case D10 => 4
    case D12 => 5
    case D16 => 6
    case D20 => 7
    case D100 => 8
    case D256 => 9
    case D1000 => 10
  }

  /** The rank of a tier is its position in the chain. */
  lemma RankInChain(t: Tier)
    ensures Rank(t) < |Chain| && Chain[Rank(t)] == t
  {
  }

  /** The radius of a tier's bodies. */
  function Radius(t: Tier): (r: nat)
    ensures 0 < r <= MaxRadius
  {
    Props(t).radius
  }

  /**
   * The successor tier: absent exactly for the final tier, and otherwise the
   * next tier of the chain, which is strictly larger.
   */
  function Next(t: Tier): (r: Option<Tier>)
    ensures r.None? <==> t == D1000
  {
    Props(t).next
  }

  /** A successor is the next tier of the chain, and it is strictly larger. */
  lemma NextRaises(t: Tier)
    ensures Next(t).Some? ==> Rank(Next(t).value) == Rank(t) + 1
    ensures Next(t).Some? ==> Radius(Next(t).value) > Radius(t)
  {
  }

  /**
   * Looks a tier up by its key; `None` for any string that is not a key of
   * the table (the lookup the factory does before building a body).
   */
  function TierOf(name: string): (r: Option<Tier>)
    ensures r.Some? ==> Name(r.value) == name
    ensures r.None? ==> forall t :: Name(t) != name
  {
    if name == "D2" then Some(D2)
    else if name == "D4" then Some(D4)
    else if name == "D6" then Some(D6)
    else if name == "D8" then Some(D8)
    else if name == "D10" then Some(D10)
    else if name == "D12" then Some(D12)
    else if name == "D16" then Some(D16)
    else if name == "D20" then Some(D20)
    else if name == "D100" then Some(D100)
    else if name == "D256" then Some(D256)
    else if name == "D1000" then Some(D1000)
    else None
  }

  /** The lookup finds exactly the tier whose key was given. */
  lemma TierOfName(name: string, t: Tier)
    ensures TierOf(name) == Some(t) <==> name == Name(t)
  {
    if name == Name(t) {
      match t
      case D2 =>
      case D4 =>
      case D6 =>
      case D8 =>
      case D10 =>
      case D12 =>
      case D16 =>
      case D20 =>
      case D100 =>
      case D256 =>
      case D1000 =>
    }
  }

  /** Follows the successor pointer `n` times; `None` once the chain has ended. */
  function Climb(t: Tier, n: nat): Option<Tier>
    decreases n
  {
    if n == 0 then Some(t)
    else match Next(t)
      case None => None
      case Some(u) => Climb(u, n - 1)
  }

  /** Every step along the chain raises the rank by one. */
  lemma {:induction false} ClimbRaisesRank(t: Tier, n: nat)
    ensures Climb(t, n).Some? ==> Rank(Climb(t, n).value) == Rank(t) + n
    decreases n
  {
    if n > 0 {
      match Next(t)
      case None =>
      case Some(u) => ClimbRaisesRank(u, n - 1);
    }
  }

  /** Following the successor pointer from any tier reaches the final tier. */
  lemma {:induction false} ClimbReachesTop(t: Tier)
    ensures Climb(t, |Chain| - 1 - Rank(t)) == Some(D1000)
    decreases |Chain| - 1 - Rank(t)
  {
    if t != D1000 {
      var u := Next(t).value;
      ClimbReachesTop(u);
    }
  }

  /** The chain has no cycle: no tier is reached again from itself. */
  lemma ChainIsAcyclic(t: Tier, n: nat)
    requires n > 0
    ensures Climb(t, n) != Some(t)
  {
    ClimbRaisesRank(t, n);
  }

  /** Radius strictly increases along the chain, over any number of steps. */
  lemma {:induction false} ClimbRaisesRadius(t: Tier, n: nat)
    requires n > 0
    requires Climb(t, n).Some?
    ensures Radius(Climb(t, n).value) > Radius(t)
    decreases n
  {
    var u := Next(t).value;
    if n > 1 {
      ClimbRaisesRadius(u, n - 1);
    }
  }

  /** The starter tiers a new preview is drawn from. */
  const InitialDice: seq<string> := ["D2", "D4", "D6", "D8"]

  /**
   * Picks a starter tier from a uniform draw `r` in [0, 1): the quarter of
   * the unit interval that `r` falls in selects the entry.
   */
  function RandomDiceType(r: real): (name: string)
    requires 0.0 <= r < 1.0
    ensures name in InitialDice
    ensures TierOf(name).Some? && Rank(TierOf(name).value) < |InitialDice|
  {
    var k := (r * (|InitialDice| as real)).Floor;
    InitialDice[k]
  }

  /** Entry `k` is chosen exactly when `r` lies in the k-th quarter of [0, 1). */
  lemma RandomDiceTypeUniform(r: real, k: nat)
    requires 0.0 <= r < 1.0
    requires k < |InitialDice|
    ensures RandomDiceType(r) == InitialDice[k] <==> k as real / 4.0 <= r < (k + 1) as real / 4.0
  {
    var j := (r * 4.0).Floor;
    assert j as real <= r * 4.0 < j as real + 1.0;
    assert InitialDice[j] == InitialDice[k] <==> j == k by {
      assert InitialDice[0] != InitialDice[1] && InitialDice[0] != InitialDice[2] && InitialDice[0] != InitialDice[3];
      assert InitialDice[1] != InitialDice[2] && InitialDice[1] != InitialDice[3] && InitialDice[2] != InitialDice[3];
    }
  }
}
