/**
 * `winloss`: standings of a (sub-)table with the recursive head-to-head
 * tiebreak. The sub-table is the view of `m` restricted to the players `ps`.
 */
module Ranking {
  import opened Common
  import opened Results
  import opened Sorting

  /**
   * One row of the standings: wins, losses, win percentage (None when no game
   * was played, pandas' NaN) and the head-to-head score (None where pandas
   * leaves it missing).
   */
  datatype Standing = Standing(player: nat, win: real, loss: real, pct: Option<real>, htoh: Option<real>)

  predicate InTable(m: Matrix, ps: seq<nat>) {
    forall k :: 0 <= k < |ps| ==> ps[k] < |m|
  }

  /** The first `n` players in index order: the whole table's player list. */
  function AllPlayers(n: nat): (ps: seq<nat>)
    ensures |ps| == n && forall k :: 0 <= k < n ==> ps[k] == k
  {
    seq(n, k => k)
  }

  /** Games `p` won against the players of `ps`: p's row sum in the sub-table. */
  function WinsAmong(m: Matrix, p: nat, ps: seq<nat>): (r: real)
    requires IsSquare(m) && p < |m| && InTable(m, ps)
    ensures IsTable(m) ==> r >= 0.0
    ensures (forall k :: 0 <= k < |ps| ==> m[p][ps[k]] == 0.0) ==> r == 0.0
  {
    if ps == [] then 0.0 else m[p][ps[0]] + WinsAmong(m, p, ps[1..])
  }

  /** Games `p` lost to the players of `ps`: p's column sum in the sub-table. */
  function LossesAmong(m: Matrix, p: nat, ps: seq<nat>): (r: real)
    requires IsSquare(m) && p < |m| && InTable(m, ps)
    ensures IsTable(m) ==> r >= 0.0
    ensures (forall k :: 0 <= k < |ps| ==> m[ps[k]][p] == 0.0) ==> r == 0.0
  {
    if ps == [] then 0.0 else m[ps[0]][p] + LossesAmong(m, p, ps[1..])
  }

  /** `wins / (wins + losses)`, undefined (NaN) when p played no game in the sub-table. */
  function Pct(m: Matrix, p: nat, ps: seq<nat>): (r: Option<real>)
    requires IsSquare(m) && p < |m| && InTable(m, ps)
    ensures IsTable(m) ==> (r.None? <==> WinsAmong(m, p, ps) == 0.0 && LossesAmong(m, p, ps) == 0.0)
    ensures IsTable(m) && r.Some? ==> 0.0 <= r.value <= 1.0
  {
    var w, l := WinsAmong(m, p, ps), LossesAmong(m, p, ps);
    if w + l == 0.0 then None else RatioInUnit(w, l); Some(w / (w + l))
  }

  /** A share of a positive total made of two non-negative parts lies between 0 and 1. */
  lemma RatioInUnit(w: real, l: real)
    requires w + l != 0.0
    ensures w >= 0.0 && l >= 0.0 ==> 0.0 <= w / (w + l) <= 1.0
  {
    if w >= 0.0 && l >= 0.0 {
      assert w / (w + l) * (w + l) == w;
    }
  }

  /** `pcts.unique().size > 1`: at least two distinct percentages, NaN counting as one value. */
  predicate MixedPcts(m: Matrix, ps: seq<nat>)
    requires IsSquare(m) && InTable(m, ps)
    ensures MixedPcts(m, ps) ==> |ps| >= 2
    ensures MixedPcts(m, ps) <==>
      exists i, j :: 0 <= i < |ps| && 0 <= j < |ps| && Pct(m, ps[i], ps) != Pct(m, ps[j], ps)
  {
    |ps| > 0 && exists k :: 0 <= k < |ps| && Pct(m, ps[k], ps) != Pct(m, ps[0], ps)
  }

  /** `resmat.loc[pcts == pct, pcts == pct]`: the players of `qs` whose percentage in `ps` is `x`. */
  function Group(m: Matrix, ps: seq<nat>, qs: seq<nat>, x: real): (g: seq<nat>)
    requires IsSquare(m) && InTable(m, ps) && InTable(m, qs)
    ensures InTable(m, g) && |g| <= |qs|
    ensures forall q :: q in g <==> q in qs && Pct(m, q, ps) == Some(x)
    ensures (exists k :: 0 <= k < |qs| && Pct(m, qs[k], ps) != Some(x)) ==> |g| < |qs|
  {
    if qs == [] then []
    else
      assert qs == [qs[0]] + qs[1..];
      var rest := Group(m, ps, qs[1..], x);
      if Pct(m, qs[0], ps) == Some(x) then [qs[0]] + rest else rest
  }

  /**
   * With at least two distinct percentages, every equal-percentage group is a
   * strict subset: the head-to-head recursion is on fewer players.
   */
  lemma GroupIsSmaller(m: Matrix, ps: seq<nat>, x: real)
    requires IsSquare(m) && InTable(m, ps) && MixedPcts(m, ps)
    ensures |Group(m, ps, ps, x)| < |ps|
  {
    var k :| 0 <= k < |ps| && Pct(m, ps[k], ps) != Pct(m, ps[0], ps);
    if Pct(m, ps[0], ps) == Some(x) {
      assert Pct(m, ps[k], ps) != Some(x);
    } else {
      assert Pct(m, ps[0], ps) != Some(x);
    }
  }

  /**
   * The head-to-head score the ranking gives `p`: total wins when every
   * percentage is equal; otherwise p's wins inside its own percentage group
   * when that percentage is positive, and missing when it is zero or undefined.
   */
  function TiebreakScore(m: Matrix, ps: seq<nat>, p: nat): (r: Option<real>)
    requires IsSquare(m) && InTable(m, ps) && p < |m|
    ensures IsTable(m) && r.Some? ==> r.value >= 0.0
    ensures MixedPcts(m, ps) && r.Some? ==> Pct(m, p, ps).Some? && Pct(m, p, ps).value > 0.0
  {
    if !MixedPcts(m, ps) then Some(WinsAmong(m, p, ps))
    else match Pct(m, p, ps)
      case Some(x) => if x > 0.0 then Some(WinsAmong(m, p, Group(m, ps, ps, x))) else None
      case None => None
  }

  /** Which `Standing` a row of `winloss` on `ps` holds for its player. */
  predicate Describes(m: Matrix, ps: seq<nat>, s: Standing)
    requires IsSquare(m) && InTable(m, ps)
  {
    && s.player < |m|
    && s.win == WinsAmong(m, s.player, ps)
    && s.loss == LossesAmong(m, s.player, ps)
    && s.pct == Pct(m, s.player, ps)
    && s.htoh == TiebreakScore(m, ps, s.player)
  }

  /** `x` sorts above `y` in a descending key with missing values last. */
  predicate Above(x: Option<real>, y: Option<real>) {
    x.Some? && (y.None? || x.value > y.value)
  }

  /**
   * `a` sorts strictly before `b`: descending percentage (undefined last),
   * then wins, then fewer losses, then head-to-head score (missing last).
   */
  predicate Outranks(a: Standing, b: Standing) {
    if a.pct != b.pct then Above(a.pct, b.pct)
    else if a.win != b.win then a.win > b.win
    else if a.loss != b.loss then a.loss < b.loss
    else Above(a.htoh, b.htoh)
  }

  /** `a` may stand at or before `b` in the standings. */
  predicate RanksAtLeast(a: Standing, b: Standing) {
    !Outranks(b, a)
  }

  lemma OutranksAsymmetric(a: Standing, b: Standing)
    ensures !(Outranks(a, b) && Outranks(b, a))
  {
  }

  lemma OutranksNegativelyTransitive(a: Standing, b: Standing, c: Standing)
    requires Outranks(a, c)
    ensures Outranks(a, b) || Outranks(b, c)
  {
  }

  /** The ranking key is a total preorder, so sorting by it is well defined. */
  lemma RanksAtLeastIsTotalPreorder()
    ensures TotalPreorder(RanksAtLeast)
  {
    forall a, b ensures RanksAtLeast(a, b) || RanksAtLeast(b, a) {
      OutranksAsymmetric(a, b);
    }
    forall a, b, c | RanksAtLeast(a, b) && RanksAtLeast(b, c) ensures RanksAtLeast(a, c) {
      if Outranks(c, a) {
        OutranksNegativelyTransitive(c, b, a);
      }
    }
  }

  /** The players of a list of standings, in order. */
  function PlayersOf(r: seq<Standing>): (ps: seq<nat>)
    ensures |ps| == |r| && forall i :: 0 <= i < |r| ==> ps[i] == r[i].player
  {
    seq(|r|, i requires 0 <= i < |r| => r[i].player)
  }

  /** `winloss(...)['win'][p]`, looked up by label; None when p is not in the index. */
  function WinOf(r: seq<Standing>, p: nat): (h: Option<real>)
    ensures h.Some? ==> exists i :: 0 <= i < |r| && r[i].player == p && h.value == r[i].win
    ensures (exists i :: 0 <= i < |r| && r[i].player == p) ==> h.Some?
  {
    if r == [] then None
    else if r[0].player == p then Some(r[0].win)
    else
      var h := WinOf(r[1..], p);
      assert forall i :: 1 <= i < |r| ==> r[i] == r[1..][i - 1];
      h
  }

  /**
   * `winloss` on the sub-table of `ps`: a permutation of `ps`, each row
   * holding its player's wins (row sum), losses (column sum), percentage and
   * head-to-head score, sorted by the ranking key.
   */
  function WinLoss(m: Matrix, ps: seq<nat>): (r: seq<Standing>)
    requires IsTable(m) && InTable(m, ps)
    ensures |r| == |ps|
    ensures multiset(PlayersOf(r)) == multiset(ps)
    ensures forall i :: 0 <= i < |r| ==> Describes(m, ps, r[i])
    ensures SortedBy(r, RanksAtLeast)
    decreases |ps|, 2
  {
    var unsorted := StandingsOf(m, ps, ps);
    RanksAtLeastIsTotalPreorder();
    var r := Sort(unsorted, RanksAtLeast);
    PermutedPlayers(r, unsorted);
    forall i | 0 <= i < |r| ensures Describes(m, ps, r[i]) {
      assert r[i] in multiset(unsorted);
    }
    r
  }

  /** The rows of `qs`, in the order of `qs`, each computed on the sub-table of `ps`. */
  function StandingsOf(m: Matrix, ps: seq<nat>, qs: seq<nat>): (r: seq<Standing>)
    requires IsTable(m) && InTable(m, ps) && forall q :: q in qs ==> q in ps
    ensures PlayersOf(r) == qs
    ensures forall s :: s in r ==> Describes(m, ps, s)
    decreases |ps|, 1, |qs|
  {
    if qs == [] then []
    else
      var p := qs[0];
      assert p in ps;
      var s := Standing(p, WinsAmong(m, p, ps), LossesAmong(m, p, ps), Pct(m, p, ps), HeadToHead(m, ps, p));
      var rest := StandingsOf(m, ps, qs[1..]);
      StandingsCons(m, ps, s, rest);
      assert qs == [p] + qs[1..];
      [s] + rest
  }

  /** A described standing in front of described standings. */
  lemma StandingsCons(m: Matrix, ps: seq<nat>, s: Standing, rest: seq<Standing>)
    requires IsTable(m) && InTable(m, ps) && Describes(m, ps, s)
    requires forall t :: t in rest ==> Describes(m, ps, t)
    ensures PlayersOf([s] + rest) == [s.player] + PlayersOf(rest)
    ensures forall t :: t in [s] + rest ==> Describes(m, ps, t)
  {
    PlayersOfConcat([s], rest);
    assert PlayersOf([s]) == [s.player];
  }

  /**
   * The `htoh` column for `p`: total wins when all percentages are equal, else
   * p's wins in the recursive ranking of its own percentage group when that
   * percentage is positive, else missing.
   */
  function HeadToHead(m: Matrix, ps: seq<nat>, p: nat): (h: Option<real>)
    requires IsTable(m) && InTable(m, ps) && p in ps
    ensures h == TiebreakScore(m, ps, p)
    decreases |ps|, 0
  {
    if !MixedPcts(m, ps) then Some(WinsAmong(m, p, ps))
    else match Pct(m, p, ps)
      case Some(x) =>
        if x > 0.0 then
          var g := Group(m, ps, ps, x);
          GroupIsSmaller(m, ps, x);
          var sub := WinLoss(m, g);
          WinOfDescribed(m, g, sub, p);
          WinOf(sub, p)
        else None
      case None => None
  }

  /** In standings that describe every player of `ps` once, p's wins are read off p's row. */
  lemma WinOfDescribed(m: Matrix, ps: seq<nat>, r: seq<Standing>, p: nat)
    requires IsTable(m) && InTable(m, ps) && p in ps
    requires multiset(PlayersOf(r)) == multiset(ps)
    requires forall i :: 0 <= i < |r| ==> Describes(m, ps, r[i])
    ensures WinOf(r, p) == Some(WinsAmong(m, p, ps))
  {
    assert p in multiset(PlayersOf(r));
    var k :| 0 <= k < |r| && PlayersOf(r)[k] == p;
    var i :| 0 <= i < |r| && r[i].player == p && WinOf(r, p).value == r[i].win;
    assert Describes(m, ps, r[i]);
  }

  /** Permuting standings permutes their players. */
  lemma {:induction false} PermutedPlayers(r: seq<Standing>, s: seq<Standing>)
    requires multiset(r) == multiset(s)
    ensures multiset(PlayersOf(r)) == multiset(PlayersOf(s))
    decreases |r|
  {
    if r == [] {
      assert s == [] by {
        assert |multiset(s)| == 0;
      }
    } else {
      var x := r[0];
      assert x in s by { assert x in multiset(s); }
      var k :| 0 <= k < |s| && s[k] == x;
      var s' := s[..k] + s[k + 1..];
      RemoveAt(s, k);
      assert r == [x] + r[1..];
      assert multiset(r[1..]) == multiset(r) - multiset{x};
      PermutedPlayers(r[1..], s');
      PlayersWithout(s, k);
      PlayersWithout(r, 0);
      assert r[..0] + r[1..] == r[1..];
      calc {
        multiset(PlayersOf(r));
        multiset{x.player} + multiset(PlayersOf(r[1..]));
        multiset{x.player} + multiset(PlayersOf(s'));
        multiset(PlayersOf(s));
      }
    }
  }

  /** The players of `s` are those of `s` without its k-th row, plus that row's player. */
  lemma PlayersWithout(s: seq<Standing>, k: nat)
    requires k < |s|
    ensures multiset(PlayersOf(s)) == multiset{s[k].player} + multiset(PlayersOf(s[..k] + s[k + 1..]))
  {
    var ps := PlayersOf(s);
    assert PlayersOf(s[..k] + s[k + 1..]) == ps[..k] + ps[k + 1..];
    RemoveAt(ps, k);
    assert ps[k] in multiset(ps);
  }

  lemma PlayersOfConcat(a: seq<Standing>, b: seq<Standing>)
    ensures PlayersOf(a + b) == PlayersOf(a) + PlayersOf(b)
  {
  }

  /** `winloss(resmat)`: the standings of the whole table. */
  function Standings(m: Matrix): (r: seq<Standing>)
    requires IsTable(m)
    ensures |r| == |m|
    ensures multiset(PlayersOf(r)) == multiset(AllPlayers(|m|))
    ensures forall i :: 0 <= i < |r| ==> Describes(m, AllPlayers(|m|), r[i])
    ensures SortedBy(r, RanksAtLeast)
  {
    WinLoss(m, AllPlayers(|m|))
  }
}
