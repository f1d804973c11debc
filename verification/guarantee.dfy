/**
 * `promoting` / `demoting`: the players whose promotion (demotion) is locked
 * in against the outcome of their own remaining games.
 */
module Guarantee {
  import opened Common
  import opened Results
  import opened Ranking

  datatype Direction = Promotion | Demotion

  /**
   * The scenario `p` is judged in: losing every remaining game for a
   * promotion, winning every remaining game for a demotion.
   */
  function TestScenario(m: Matrix, ng: int, p: nat, dir: Direction): (s: Matrix)
    requires IsTable(m) && p < |m|
    ensures IsTable(s) && |s| == |m|
  {
    if dir == Promotion then LosesOut(m, ng, p) else WinsOut(m, ng, p)
  }

  /** `head(k)` of the standings for a promotion, `tail(k)` for a demotion. */
  function Slots(r: seq<Standing>, k: nat, dir: Direction): (t: seq<Standing>)
    ensures |t| == Min(k, |r|)
  {
    if dir == Promotion then r[..Min(k, |r|)] else r[|r| - Min(k, |r|)..]
  }

  /** `p` stands among the first (last) `np` rows of the standings of its own test scenario. */
  predicate Secures(m: Matrix, ng: int, np: nat, dir: Direction, p: nat)
    requires IsTable(m) && p < |m|
    ensures np == 0 ==> !Secures(m, ng, np, dir, p)
    ensures np >= |m| ==> Secures(m, ng, np, dir, p)
  {
    var r := Standings(TestScenario(m, ng, p, dir));
    EveryPlayerStands(r, |m|, p);
    assert r[..|r|] == r[|r| - |r|..] == r;
    p in PlayersOf(Slots(r, np, dir))
  }

  /** Standings over all `n` players list each of them. */
  lemma EveryPlayerStands(r: seq<Standing>, n: nat, p: nat)
    requires multiset(PlayersOf(r)) == multiset(AllPlayers(n)) && p < n
    ensures p in PlayersOf(r)
  {
    assert AllPlayers(n)[p] == p;
    assert p in multiset(PlayersOf(r));
  }

  /** The indices from `k` on whose flag is set, in increasing order. */
  function Selected(flags: seq<bool>, k: nat): (r: seq<nat>)
    requires k <= |flags|
    ensures forall i :: 0 <= i < |r| ==> k <= r[i] < |flags|
    ensures forall i, j :: 0 <= i < j < |r| ==> r[i] < r[j]
    decreases |flags| - k
  {
    if k == |flags| then []
    else
      var rest := Selected(flags, k + 1);
      if flags[k] then [k] + rest else rest
  }

  /** Membership in `Selected` is exactly a set flag, from `k` on. */
  lemma {:induction false} SelectedMembers(flags: seq<bool>, k: nat, p: nat)
    requires k <= |flags|
    ensures p in Selected(flags, k) <==> k <= p < |flags| && flags[p]
    decreases |flags| - k
  {
    if k < |flags| {
      SelectedMembers(flags, k + 1, p);
    }
  }

  /** For each player of the table, whether it secures the outcome. */
  function SecuringFlags(m: Matrix, ng: int, np: nat, dir: Direction): (f: seq<bool>)
    requires IsTable(m)
    ensures |f| == |m|
  {
    seq(|m|, p requires 0 <= p < |m| => Secures(m, ng, np, dir, p))
  }

  /**
   * `promoting` (dir = Promotion) and `demoting` (dir = Demotion): the players,
   * in index order, that stand within the first (last) `np` rows of `winloss`
   * of their own lose-out (win-out) scenario.
   */
  function Guaranteed(m: Matrix, ng: int, np: nat, dir: Direction): (r: seq<nat>)
    requires IsTable(m)
    ensures forall i :: 0 <= i < |r| ==> r[i] < |m|
    ensures forall i, j :: 0 <= i < j < |r| ==> r[i] < r[j]
    ensures NoDuplicates(r)
  {
    Selected(SecuringFlags(m, ng, np, dir), 0)
  }

  /**
   * A player is guaranteed exactly when it stands within the first (last)
   * `np` rows of the standings of its own test scenario.
   */
  lemma GuaranteedMembers(m: Matrix, ng: int, np: nat, dir: Direction, p: nat)
    requires IsTable(m)
    ensures p in Guaranteed(m, ng, np, dir) <==>
      p < |m| && p in PlayersOf(Slots(Standings(TestScenario(m, ng, p, dir)), np, dir))
  {
    SelectedMembers(SecuringFlags(m, ng, np, dir), 0, p);
  }
}
