/**
 * `could_promote` / `could_demote`: a depth-first search over outcomes of
 * the unfinished matches, collecting every player that some explored
 * scenario guarantees; and `match_impl`, which re-runs the demotion search
 * for every possible split of one pairing.
 */
module Search {
  import opened Common
  import opened Results
  import opened Guarantee

  /**
   * How a branch of the search resolved the root's unfinished matches:
   * entry `i` is `Some(hw)` when match `i` was split with `hw` half-wins
   * for its row player, `None` when the branch passed it over.
   */
  type Path = seq<Option<nat>>

  /** Every match is between players of the table and still has games to play. */
  predicate MatchesOf(m: Matrix, unf: seq<Match>) {
    forall k :: 0 <= k < |unf| ==> unf[k].a < |m| && unf[k].b < |m| && unf[k].remaining >= 0.0
  }

  /** A branch: no longer than the match list, each chosen split one of the `2r+1`. */
  predicate IsPath(unf: seq<Match>, path: Path) {
    && |path| <= |unf|
    && forall i :: 0 <= i < |path| && path[i].Some? ==>
         unf[i].remaining >= 0.0 && path[i].value < SplitCount(unf[i].remaining)
  }

  /** The scenario a branch leads to: the root with its chosen splits applied in order. */
  function Resolve(m: Matrix, unf: seq<Match>, path: Path): (s: Matrix)
    requires IsSquare(m) && MatchesOf(m, unf) && |path| <= |unf|
    ensures IsSquare(s) && |s| == |m|
    ensures IsTable(m) && IsPath(unf, path) ==> IsTable(s)
    decreases |path|
  {
    if path == [] then m
    else
      var k := |path| - 1;
      assert IsPath(unf, path) ==> IsPath(unf, path[..k]);
      var prev := Resolve(m, unf, path[..k]);
      match path[k]
      case None => prev
      case Some(hw) =>
        assert IsTable(m) && IsPath(unf, path) ==> IsTable(Split(prev, unf[k].a, unf[k].b, unf[k].remaining, hw)) by {
          if IsTable(m) && IsPath(unf, path) {
            SplitIsTable(prev, unf[k].a, unf[k].b, unf[k].remaining, hw);
          }
        }
        Split(prev, unf[k].a, unf[k].b, unf[k].remaining, hw)
  }

  function Nones(n: nat): (p: Path)
    ensures |p| == n && forall i :: 0 <= i < n ==> p[i] == None
  {
    seq(n, _ => None)
  }

  /** Passing over further matches leaves the scenario as it is. */
  lemma {:induction false} ResolvePadded(m: Matrix, unf: seq<Match>, path: Path, n: nat)
    requires IsSquare(m) && MatchesOf(m, unf) && |path| + n <= |unf|
    ensures Resolve(m, unf, path + Nones(n)) == Resolve(m, unf, path)
    decreases n
  {
    if n > 0 {
      var longer := path + Nones(n);
      var k := |longer| - 1;
      assert longer[..k] == path + Nones(n - 1);
      assert longer[k] == None;
      assert Resolve(m, unf, longer) == Resolve(m, unf, longer[..k]);
      ResolvePadded(m, unf, path, n - 1);
    } else {
      assert path + Nones(0) == path;
    }
  }

  /** The branch that passes over the matches after `path` up to `at` and splits match `at` with `hw` half-wins. */
  function Child(path: Path, at: nat, hw: nat): (c: Path)
    requires |path| <= at
    ensures |c| == at + 1
  {
    path + Nones(at - |path|) + [Some(hw)]
  }

  /** A child branch is a branch when its split is one of the match's. */
  lemma {:induction false} ChildIsPath(unf: seq<Match>, path: Path, at: nat, hw: nat)
    requires IsPath(unf, path) && |path| <= at < |unf|
    requires unf[at].remaining >= 0.0 && hw < SplitCount(unf[at].remaining)
    ensures IsPath(unf, Child(path, at, hw))
  {
    var c := Child(path, at, hw);
    forall i | 0 <= i < |c| && c[i].Some?
      ensures unf[i].remaining >= 0.0 && c[i].value < SplitCount(unf[i].remaining)
    {
      if i < |path| {
        assert c[i] == path[i];
      } else {
        assert i == at;
      }
    }
  }

  /** A child branch leads to the split of its parent's scenario. */
  lemma {:induction false} ChildResolves(m: Matrix, unf: seq<Match>, path: Path, at: nat, hw: nat)
    requires IsSquare(m) && MatchesOf(m, unf) && |path| <= at < |unf|
    ensures Resolve(m, unf, Child(path, at, hw)) ==
      Split(Resolve(m, unf, path), unf[at].a, unf[at].b, unf[at].remaining, hw)
  {
    var base := path + Nones(at - |path|);
    var c := Child(path, at, hw);
    assert c[..at] == base;
    assert c[at] == Some(hw);
    ResolvePadded(m, unf, path, at - |path|);
  }

  /** A child branch is a branch, and leads to the split of its parent's scenario. */
  lemma ChildStep(m: Matrix, unf: seq<Match>, path: Path, at: nat, hw: nat)
    requires IsSquare(m) && MatchesOf(m, unf) && IsPath(unf, path)
    requires |path| <= at < |unf| && hw < SplitCount(unf[at].remaining)
    ensures IsPath(unf, Child(path, at, hw))
    ensures Resolve(m, unf, Child(path, at, hw)) ==
      Split(Resolve(m, unf, path), unf[at].a, unf[at].b, unf[at].remaining, hw)
  {
    ChildIsPath(unf, path, at, hw);
    ChildResolves(m, unf, path, at, hw);
  }

  /** The child branches of all the splits of match `at`, in the order of the splits. */
  lemma SplitChildren(m: Matrix, unf: seq<Match>, path: Path, at: nat, check: Matrix, scenarios: seq<Matrix>)
    returns (children: seq<Path>)
    requires IsTable(m) && MatchesOf(m, unf) && IsPath(unf, path) && |path| <= at < |unf|
    requires check == Resolve(m, unf, path)
    requires scenarios == Splits(check, unf[at].a, unf[at].b, unf[at].remaining)
    ensures |children| == |scenarios|
    ensures forall k :: 0 <= k < |scenarios| ==>
      |children[k]| == at + 1 && IsPath(unf, children[k]) && scenarios[k] == Resolve(m, unf, children[k])
  {
    children := seq(|scenarios|, hw requires 0 <= hw => Child(path, at, hw));
    forall k | 0 <= k < |scenarios|
      ensures |children[k]| == at + 1 && IsPath(unf, children[k]) && scenarios[k] == Resolve(m, unf, children[k])
    {
      ChildStep(m, unf, path, at, k);
    }
  }

  /**
   * `promoting` (Promotion) or `demoting` (Demotion) as the search sees it:
   * a total function of the scenario, which only ever receives tables.
   */
  function Outcome(ng: int, np: nat, dir: Direction): Matrix -> seq<nat> {
    s => if IsTable(s) then Guaranteed(s, ng, np, dir) else []
  }

  /** All the scenarios produce the same list (the `groupby` test). */
  predicate SameOutcome(ss: seq<Matrix>, outcome: Matrix -> seq<nat>)
  {
    forall k :: 0 <= k < |ss| ==> outcome(ss[k]) == outcome(ss[0])
  }

  /** Splitting match `mt` in `check` in any of its ways leaves the outcome as it is. */
  predicate Settles(check: Matrix, mt: Match, outcome: Matrix -> seq<nat>)
    requires IsSquare(check) && mt.a < |check| && mt.b < |check| && mt.remaining >= 0.0
  {
    SameOutcome(Splits(check, mt.a, mt.b, mt.remaining), outcome)
  }

  /** `groupby` yields one group exactly when every two scenarios give the same list. */
  lemma SameOutcomePairwise(ss: seq<Matrix>, outcome: Matrix -> seq<nat>)
    ensures SameOutcome(ss, outcome) <==>
      forall i, j :: 0 <= i < |ss| && 0 <= j < |ss| ==> outcome(ss[i]) == outcome(ss[j])
  {
  }

  /**
   * A match settles when every split gives the list of its first split, in
   * which the column player takes all the games left; a match with less
   * than one half-game left has a single split and always settles.
   */
  lemma SettlesMeans(check: Matrix, mt: Match, outcome: Matrix -> seq<nat>)
    requires IsSquare(check) && mt.a < |check| && mt.b < |check| && mt.remaining >= 0.0
    ensures Settles(check, mt, outcome) <==> forall k :: 0 <= k < SplitCount(mt.remaining) ==>
      outcome(Split(check, mt.a, mt.b, mt.remaining, k)) == outcome(Split(check, mt.a, mt.b, mt.remaining, 0))
    ensures mt.remaining < 0.5 ==> Settles(check, mt, outcome)
  {
  }

  /** Whether the `k`-th match settles in `check`; false past the last match. */
  function SettlesIn(check: Matrix, unf: seq<Match>, outcome: Matrix -> seq<nat>): nat -> bool {
    (k: nat) => k < |unf| && IsSquare(check) && MatchesOf(check, unf) && Settles(check, unf[k], outcome)
  }

  /**
   * Where the `for p, r in unf` loop started at `cursor` stops among
   * `count` matches, and whether it stopped on a match that settles (it
   * runs out of matches otherwise).
   */
  function SettleAt(settles: nat -> bool, count: nat, cursor: nat): (r: (nat, bool))
    requires cursor <= count
    ensures cursor <= r.0 <= count
    ensures r.1 ==> r.0 > cursor && settles(r.0 - 1)
    ensures !r.1 ==> r.0 == count
    ensures forall j :: cursor <= j < r.0 && (j < r.0 - 1 || !r.1) ==> !settles(j)
    decreases count - cursor
  {
    if cursor == count then (cursor, false)
    else if settles(cursor) then (cursor + 1, true)
    else SettleAt(settles, count, cursor + 1)
  }

  /** Matches that do not settle are passed over. */
  lemma {:induction false} SettleAtSkips(settles: nat -> bool, count: nat, cursor: nat, next: nat)
    requires cursor <= next <= count
    requires forall j :: cursor <= j < next ==> !settles(j)
    ensures SettleAt(settles, count, cursor) == SettleAt(settles, count, next)
    decreases next - cursor
  {
    if cursor < next {
      SettleAtSkips(settles, count, cursor + 1, next);
    }
  }

  /**
   * The shared cursor after the inner loop, and the scenarios it pushes:
   * the splits of the match it stopped on when that match settles.
   */
  function Branch(check: Matrix, unf: seq<Match>, cursor: nat, outcome: Matrix -> seq<nat>): (r: (nat, seq<Matrix>))
    requires IsSquare(check) && MatchesOf(check, unf) && cursor <= |unf|
  {
    var (next, settled) := SettleAt(SettlesIn(check, unf, outcome), |unf|, cursor);
    if settled then (next, Splits(check, unf[next - 1].a, unf[next - 1].b, unf[next - 1].remaining))
    else (next, [])
  }

  /**
   * The inner loop passes over the matches from `cursor` that do not
   * settle; it pushes the splits of the first one that does, or nothing
   * when it runs out of matches.
   */
  lemma BranchStops(check: Matrix, unf: seq<Match>, cursor: nat, outcome: Matrix -> seq<nat>)
    requires IsSquare(check) && MatchesOf(check, unf) && cursor <= |unf|
    ensures var r := Branch(check, unf, cursor, outcome);
      && cursor <= r.0 <= |unf|
      && (forall j :: cursor <= j < r.0 - 1 ==> !Settles(check, unf[j], outcome))
      && (r.1 == [] <==> r.0 == cursor || !Settles(check, unf[r.0 - 1], outcome))
      && (r.1 == [] ==> r.0 == |unf|)
      && (r.1 != [] ==> r.1 == Splits(check, unf[r.0 - 1].a, unf[r.0 - 1].b, unf[r.0 - 1].remaining))
  {
    var settles := SettlesIn(check, unf, outcome);
    var (next, settled) := SettleAt(settles, |unf|, cursor);
    forall j: nat | j < |unf| ensures settles(j) == Settles(check, unf[j], outcome) {
    }
    if next > cursor {
      assert settles(next - 1) == Settles(check, unf[next - 1], outcome);
    }
  }

  /** `Branch` from where the inner loop stopped and whether the match it stopped on settles. */
  lemma BranchAfter(check: Matrix, unf: seq<Match>, cursor: nat, outcome: Matrix -> seq<nat>, next: nat, settled: bool)
    requires IsSquare(check) && MatchesOf(check, unf) && cursor <= |unf|
    requires (next, settled) == SettleAt(SettlesIn(check, unf, outcome), |unf|, cursor)
    ensures settled ==> 0 < next <= |unf|
    ensures settled ==>
      Branch(check, unf, cursor, outcome) == (next, Splits(check, unf[next - 1].a, unf[next - 1].b, unf[next - 1].remaining))
    ensures !settled ==> Branch(check, unf, cursor, outcome) == (next, [])
  {
  }

  /**
   * The inner `for p, r in unf` loop over `count` matches: consumes them
   * from `cursor` on and stops after the first one that settles; `settled`
   * is false when the matches run out first.
   */
  method FirstSettling(settles: nat -> bool, count: nat, cursor: nat) returns (next: nat, settled: bool)
    requires cursor <= count
    ensures (next, settled) == SettleAt(settles, count, cursor)
  {
    next := cursor;
    settled := false;
    while next < count
      invariant cursor <= next <= count
      invariant forall j :: cursor <= j < next ==> !settles(j)
      decreases count - next
    {
      if settles(next) {
        SettleAtSkips(settles, count, cursor, next);
        next, settled := next + 1, true;
        return;
      }
      next := next + 1;
    }
    SettleAtSkips(settles, count, cursor, next);
  }

  /**
   * The branching step of the search: the scenarios of the first match from
   * `cursor` on that settles, none when the matches run out.
   */
  method NextBranch(unf: seq<Match>, check: Matrix, cursor: nat, outcome: Matrix -> seq<nat>)
    returns (next: nat, scenarios: seq<Matrix>)
    requires IsSquare(check) && MatchesOf(check, unf) && cursor <= |unf|
    ensures (next, scenarios) == Branch(check, unf, cursor, outcome)
    ensures cursor <= next <= |unf|
    ensures scenarios != [] ==> cursor < next
    ensures scenarios != [] ==>
      scenarios == Splits(check, unf[next - 1].a, unf[next - 1].b, unf[next - 1].remaining)
  {
    var settled;
    next, settled := FirstSettling(SettlesIn(check, unf, outcome), |unf|, cursor);
    BranchAfter(check, unf, cursor, outcome, next, settled);
    if settled {
      var at := next - 1;
      scenarios := Splits(check, unf[at].a, unf[at].b, unf[at].remaining);
    } else {
      scenarios := [];
    }
  }

  /**
   * The players `players.extend(p for p in promo if p not in players)`
   * appends, in `promo`'s order: the generator sees each player the
   * extension has already appended, so a repeat in `promo` is appended once.
   */
  function Fresh(promo: seq<nat>, players: seq<nat>): (r: seq<nat>)
    ensures forall p :: p in r <==> p in promo && p !in players
    ensures NoDuplicates(r)
    decreases |promo|
  {
    if promo == [] then []
    else
      var f := Fresh(promo[..|promo| - 1], players);
      var p := promo[|promo| - 1];
      assert forall q :: q in promo <==> q in promo[..|promo| - 1] || q == p by {
        assert promo == promo[..|promo| - 1] + [p];
      }
      if p in players || p in f then f else f + [p]
  }

  /** Appending the fresh players keeps a list without repeats free of them. */
  lemma FreshKeepsDistinct(players: seq<nat>, promo: seq<nat>)
    ensures NoDuplicates(players) ==> NoDuplicates(players + Fresh(promo, players))
  {
    if !NoDuplicates(players) {
      return;
    }
    var f := Fresh(promo, players);
    var r := players + f;
    forall i, j | 0 <= i < j < |r| ensures r[i] != r[j] {
      if j >= |players| {
        assert r[j] == f[j - |players|];
        if i >= |players| {
          assert r[i] == f[i - |players|];
        } else {
          assert r[i] in players;
        }
      }
    }
  }

  /** `players.extend(p for p in promo if p not in players)`. */
  method AddNew(players: seq<nat>, promo: seq<nat>) returns (r: seq<nat>)
    requires NoDuplicates(players)
    ensures r == players + Fresh(promo, players)
    ensures NoDuplicates(r) && players <= r
    ensures forall p :: p in r <==> p in players || p in promo
    ensures players == [] && NoDuplicates(promo) ==> r == promo
  {
    r := players;
    var i := 0;
    while i < |promo|
      invariant i <= |promo|
      invariant r == players + Fresh(promo[..i], players)
      invariant NoDuplicates(r)
      invariant forall p :: p in r <==> p in players || p in promo[..i]
      invariant players == [] && NoDuplicates(promo) ==> r == promo[..i]
    {
      assert promo[..i + 1][..i] == promo[..i];
      if promo[i] !in r {
        r := r + [promo[i]];
      }
      assert promo[..i + 1] == promo[..i] + [promo[i]];
      i := i + 1;
    }
    assert promo[..i] == promo;
  }

  /**
   * What the search loop is run on: the number of matches, `nplayers`,
   * `promoting` or `demoting`, and the inner loop, which from a popped
   * scenario and the shared cursor gives the new cursor and the scenarios
   * to push.
   */
  datatype Problem = Problem(matches: nat, np: nat, outcome: Matrix -> seq<nat>,
                             branch: (Matrix, nat) -> (nat, seq<Matrix>))

  /** The inner loop never moves the cursor back or past the last match, and pushes nothing without moving it. */
  ghost predicate Advances(pb: Problem) {
    forall check: Matrix, c: nat :: c <= pb.matches ==>
      var r := pb.branch(check, c);
      c <= r.0 <= pb.matches && (r.0 == c ==> r.1 == [])
  }

  /** The inner loop over `unf`, total: a scenario of another shape pushes nothing. */
  function BranchOf(unf: seq<Match>, outcome: Matrix -> seq<nat>): (Matrix, nat) -> (nat, seq<Matrix>)
  {
    (check: Matrix, c: nat) =>
      if IsSquare(check) && MatchesOf(check, unf) && c <= |unf| then Branch(check, unf, c, outcome) else (c, [])
  }

  /** The search `could_promote`/`could_demote` run over the unfinished matches `unf`. */
  function SearchOf(unf: seq<Match>, np: nat, outcome: Matrix -> seq<nat>): (pb: Problem)
    ensures Advances(pb)
  {
    var pb := Problem(|unf|, np, outcome, BranchOf(unf, outcome));
    assert Advances(pb) by {
      forall check: Matrix, c: nat | c <= pb.matches
        ensures c <= pb.branch(check, c).0 <= pb.matches && (pb.branch(check, c).0 == c ==> pb.branch(check, c).1 == [])
      {
        if IsSquare(check) && MatchesOf(check, unf) {
          var _ := SettleAt(SettlesIn(check, unf, outcome), |unf|, c);
        }
      }
    }
    pb
  }

  /** The search between two pops: the cursor all passes share, the stack of scenarios, the players found. */
  datatype SearchState = SearchState(cursor: nat, unchecked: seq<Matrix>, players: seq<nat>)

  /** Before the first pop: `unchecked = deque([resmat])`, `players = []`. */
  function Start(m: Matrix): SearchState {
    SearchState(0, [m], [])
  }

  /**
   * One pass of the `while unchecked` loop on the state: pop the top
   * scenario, append its outcome's fresh players and, when the outcome has
   * fewer than `np` players, run the inner loop from the shared cursor.
   */
  function Step(pb: Problem, st: SearchState): (r: SearchState)
    requires Advances(pb) && st.cursor <= pb.matches && st.unchecked != []
    ensures r.cursor <= pb.matches
    ensures st.cursor <= r.cursor && (r.cursor == st.cursor ==> |r.unchecked| < |st.unchecked|)
  {
    var n := |st.unchecked| - 1;
    var check := st.unchecked[n];
    var promo := pb.outcome(check);
    var players := st.players + Fresh(promo, st.players);
    if |promo| < pb.np then
      var b := pb.branch(check, st.cursor);
      SearchState(b.0, st.unchecked[..n] + b.1, players)
    else
      SearchState(st.cursor, st.unchecked[..n], players)
  }

  /** The list the search returns when it resumes from `st`. */
  function Run(pb: Problem, st: SearchState): (r: seq<nat>)
    requires Advances(pb) && st.cursor <= pb.matches
    ensures st.players <= r
    ensures NoDuplicates(st.players) ==> NoDuplicates(r)
    decreases pb.matches - st.cursor, |st.unchecked|
  {
    if st.unchecked == [] then st.players
    else
      var next := Step(pb, st);
      var check := st.unchecked[|st.unchecked| - 1];
      FreshKeepsDistinct(st.players, pb.outcome(check));
      var r := Run(pb, next);
      assert st.players <= r by {
        assert st.players <= next.players;
        assert next.players == r[..|next.players|];
      }
      r
  }

  /** A pop of the search: the scenario popped and the shared cursor at that moment. */
  datatype Pop = Pop(check: Matrix, cursor: nat)

  /** The pops the search makes when it resumes from `st`, in order. */
  function Trace(pb: Problem, st: SearchState): (t: seq<Pop>)
    requires Advances(pb) && st.cursor <= pb.matches
    ensures |t| >= |st.unchecked|
    decreases pb.matches - st.cursor, |st.unchecked|
  {
    if st.unchecked == [] then []
    else [Pop(st.unchecked[|st.unchecked| - 1], st.cursor)] + Trace(pb, Step(pb, st))
  }

  /** Some pop of `t` has an outcome that names `p`. */
  ghost predicate NamedBy(outcome: Matrix -> seq<nat>, t: seq<Pop>, p: nat) {
    exists i :: 0 <= i < |t| && p in outcome(t[i].check)
  }

  /** A pop in front names `p` when it or one of the later pops does. */
  lemma NamedByCons(outcome: Matrix -> seq<nat>, x: Pop, rest: seq<Pop>, p: nat)
    ensures NamedBy(outcome, [x] + rest, p) <==> p in outcome(x.check) || NamedBy(outcome, rest, p)
  {
    var t := [x] + rest;
    if p in outcome(x.check) {
      assert t[0] == x;
    }
    if NamedBy(outcome, rest, p) {
      var i :| 0 <= i < |rest| && p in outcome(rest[i].check);
      assert t[i + 1] == rest[i];
    }
    if NamedBy(outcome, t, p) {
      var i :| 0 <= i < |t| && p in outcome(t[i].check);
      if i > 0 {
        assert t[i] == rest[i - 1];
      }
    }
  }

  /** A player is returned exactly when it was found before or some popped scenario's outcome names it. */
  lemma {:induction false} RunMembers(pb: Problem, st: SearchState, p: nat)
    requires Advances(pb) && st.cursor <= pb.matches
    ensures p in Run(pb, st) <==> p in st.players || NamedBy(pb.outcome, Trace(pb, st), p)
    decreases pb.matches - st.cursor, |st.unchecked|
  {
    if st.unchecked != [] {
      var next := Step(pb, st);
      var check := st.unchecked[|st.unchecked| - 1];
      assert Trace(pb, st) == [Pop(check, st.cursor)] + Trace(pb, next);
      assert p in next.players <==> p in st.players || p in pb.outcome(check);
      RunMembers(pb, next, p);
      NamedByCons(pb.outcome, Pop(check, st.cursor), Trace(pb, next), p);
    }
  }

  /** Every scenario on the stack is popped: the loop runs until the stack is empty. */
  lemma {:induction false} StackPopped(pb: Problem, st: SearchState, k: nat) returns (i: nat)
    requires Advances(pb) && st.cursor <= pb.matches && k < |st.unchecked|
    ensures i < |Trace(pb, st)| && Trace(pb, st)[i].check == st.unchecked[k]
    decreases pb.matches - st.cursor, |st.unchecked|
  {
    var n := |st.unchecked| - 1;
    var t := Trace(pb, st);
    var next := Step(pb, st);
    assert t == [Pop(st.unchecked[n], st.cursor)] + Trace(pb, next);
    if k == n {
      i := 0;
    } else {
      assert next.unchecked[k] == st.unchecked[k];
      var j := StackPopped(pb, next, k);
      i := j + 1;
    }
  }

  /** Every scenario the first pop pushes is popped later. */
  lemma TopPushedPopped(pb: Problem, st: SearchState, k: nat) returns (j: nat)
    requires Advances(pb) && st.cursor <= pb.matches && st.unchecked != []
    requires |pb.outcome(st.unchecked[|st.unchecked| - 1])| < pb.np
    requires k < |pb.branch(st.unchecked[|st.unchecked| - 1], st.cursor).1|
    ensures 0 < j < |Trace(pb, st)|
    ensures Trace(pb, st)[j].check == pb.branch(st.unchecked[|st.unchecked| - 1], st.cursor).1[k]
  {
    var n := |st.unchecked| - 1;
    var next := Step(pb, st);
    var b := pb.branch(st.unchecked[n], st.cursor);
    assert next.unchecked == st.unchecked[..n] + b.1;
    assert next.unchecked[n + k] == b.1[k];
    var l := StackPopped(pb, next, n + k);
    j := l + 1;
    PopStep(pb, st);
    ConsIndex(Pop(st.unchecked[n], st.cursor), Trace(pb, next), l);
  }

  /** Every scenario a pop pushes is popped later. */
  lemma {:induction false} PushedPopped(pb: Problem, st: SearchState, i: nat, k: nat) returns (j: nat)
    requires Advances(pb) && st.cursor <= pb.matches && i < |Trace(pb, st)|
    requires |pb.outcome(Trace(pb, st)[i].check)| < pb.np
    requires k < |pb.branch(Trace(pb, st)[i].check, Trace(pb, st)[i].cursor).1|
    ensures i < j < |Trace(pb, st)|
    ensures Trace(pb, st)[j].check == pb.branch(Trace(pb, st)[i].check, Trace(pb, st)[i].cursor).1[k]
    decreases pb.matches - st.cursor, |st.unchecked|
  {
    var n := |st.unchecked| - 1;
    var t := Trace(pb, st);
    var next := Step(pb, st);
    var rest := Trace(pb, next);
    assert t == [Pop(st.unchecked[n], st.cursor)] + rest;
    if i == 0 {
      j := TopPushedPopped(pb, st, k);
    } else {
      ConsIndex(Pop(st.unchecked[n], st.cursor), rest, i - 1);
      var l := PushedPopped(pb, next, i - 1, k);
      j := l + 1;
      ConsIndex(Pop(st.unchecked[n], st.cursor), rest, l);
    }
  }

  /** Every popped scenario was stacked at the start or pushed by an earlier pop whose outcome was short. */
  lemma {:induction false} PoppedOrigin(pb: Problem, st: SearchState, j: nat)
    requires Advances(pb) && st.cursor <= pb.matches && j < |Trace(pb, st)|
    ensures var t := Trace(pb, st);
      || t[j].check in st.unchecked
      || exists i :: 0 <= i < j && |pb.outcome(t[i].check)| < pb.np &&
           t[j].check in pb.branch(t[i].check, t[i].cursor).1
    decreases pb.matches - st.cursor, |st.unchecked|
  {
    var n := |st.unchecked| - 1;
    var t := Trace(pb, st);
    var next := Step(pb, st);
    var rest := Trace(pb, next);
    PopStep(pb, st);
    if j > 0 {
      ConsIndex(Pop(st.unchecked[n], st.cursor), rest, j - 1);
      PoppedOrigin(pb, next, j - 1);
      var b := pb.branch(st.unchecked[n], st.cursor);
      if t[j].check in next.unchecked {
        if t[j].check !in st.unchecked[..n] {
          assert |pb.outcome(t[0].check)| < pb.np && t[j].check in b.1;
        }
      } else {
        var l :| 0 <= l < j - 1 && |pb.outcome(rest[l].check)| < pb.np &&
          rest[j - 1].check in pb.branch(rest[l].check, rest[l].cursor).1;
        ConsIndex(Pop(st.unchecked[n], st.cursor), rest, l);
      }
    }
  }

  /** Each pending scenario resolves a branch over the matches consumed so far. */
  ghost predicate Pending(m: Matrix, unf: seq<Match>, cursor: nat, unchecked: seq<Matrix>, paths: seq<Path>)
    requires IsTable(m) && MatchesOf(m, unf)
  {
    && |paths| == |unchecked|
    && forall i :: 0 <= i < |paths| ==>
         |paths[i]| <= cursor && IsPath(unf, paths[i]) && unchecked[i] == Resolve(m, unf, paths[i])
  }

  /** Each player found is in the outcome of the branch `found` names for it. */
  ghost predicate Sourced(m: Matrix, unf: seq<Match>, outcome: Matrix -> seq<nat>, players: seq<nat>, found: map<nat, Path>)
    requires IsTable(m) && MatchesOf(m, unf)
  {
    forall p :: p in players ==>
      p in found && IsPath(unf, found[p]) && p in outcome(Resolve(m, unf, found[p]))
  }

  /** The state of the search between two pops. */
  ghost predicate Frontier(m: Matrix, unf: seq<Match>, outcome: Matrix -> seq<nat>, cursor: nat,
                           unchecked: seq<Matrix>, paths: seq<Path>, players: seq<nat>, found: map<nat, Path>)
    requires IsTable(m) && MatchesOf(m, unf)
  {
    && cursor <= |unf|
    && Pending(m, unf, cursor, unchecked, paths)
    && NoDuplicates(players)
    && Sourced(m, unf, outcome, players, found)
  }

  lemma PendingPop(m: Matrix, unf: seq<Match>, cursor: nat, unchecked: seq<Matrix>, paths: seq<Path>)
    requires IsTable(m) && MatchesOf(m, unf) && Pending(m, unf, cursor, unchecked, paths) && |unchecked| > 0
    ensures var n := |unchecked| - 1;
      && Pending(m, unf, cursor, unchecked[..n], paths[..n])
      && |paths[n]| <= cursor && IsPath(unf, paths[n]) && unchecked[n] == Resolve(m, unf, paths[n])
  {
  }

  lemma PendingPush(m: Matrix, unf: seq<Match>, cursor: nat, next: nat, unchecked: seq<Matrix>, paths: seq<Path>,
                    scenarios: seq<Matrix>, children: seq<Path>)
    requires IsTable(m) && MatchesOf(m, unf) && Pending(m, unf, cursor, unchecked, paths) && cursor <= next
    requires |children| == |scenarios|
    requires forall k :: 0 <= k < |scenarios| ==>
      |children[k]| == next && IsPath(unf, children[k]) && scenarios[k] == Resolve(m, unf, children[k])
    ensures Pending(m, unf, next, unchecked + scenarios, paths + children)
  {
    var u, ps := unchecked + scenarios, paths + children;
    forall i | 0 <= i < |ps|
      ensures |ps[i]| <= next && IsPath(unf, ps[i]) && u[i] == Resolve(m, unf, ps[i])
    {
      if i < |paths| {
        assert ps[i] == paths[i] && u[i] == unchecked[i];
      } else {
        assert ps[i] == children[i - |paths|] && u[i] == scenarios[i - |paths|];
      }
    }
  }

  /** Pushing the splits of a match after the cursor, each with its child branch, keeps every pending scenario the result of a branch. */
  lemma PushSplits(m: Matrix, unf: seq<Match>, cursor: nat, next: nat, unchecked: seq<Matrix>, paths: seq<Path>,
                   scenarios: seq<Matrix>, path: Path, check: Matrix)
    returns (children: seq<Path>)
    requires IsTable(m) && MatchesOf(m, unf) && Pending(m, unf, cursor, unchecked, paths) && cursor <= next <= |unf|
    requires IsPath(unf, path) && |path| <= cursor && check == Resolve(m, unf, path)
    requires scenarios != [] ==>
      cursor < next && scenarios == Splits(check, unf[next - 1].a, unf[next - 1].b, unf[next - 1].remaining)
    ensures |children| == |scenarios|
    ensures Pending(m, unf, next, unchecked + scenarios, paths + children)
  {
    if scenarios != [] {
      children := SplitChildren(m, unf, path, next - 1, check, scenarios);
    } else {
      children := [];
    }
    PendingPush(m, unf, cursor, next, unchecked, paths, scenarios, children);
  }

  /** `found` extended with `path` for the players added since `before`. */
  function FoundAfter(found: map<nat, Path>, before: seq<nat>, after: seq<nat>, path: Path): map<nat, Path>
    requires forall p :: p in before ==> p in found
  {
    map p | p in after :: if p in before then found[p] else path
  }

  lemma SourcedAdd(m: Matrix, unf: seq<Match>, outcome: Matrix -> seq<nat>, before: seq<nat>, after: seq<nat>,
                   found: map<nat, Path>, path: Path)
    requires IsTable(m) && MatchesOf(m, unf) && Sourced(m, unf, outcome, before, found) && IsPath(unf, path)
    requires forall p :: p in after ==> p in before || p in outcome(Resolve(m, unf, path))
    ensures Sourced(m, unf, outcome, after, FoundAfter(found, before, after, path))
  {
  }

  /**
   * One pass of the `while unchecked` loop: pop a scenario, add its
   * outcome's new players, and, while that outcome has fewer than `np`
   * players, push the splits of the next root match that settles. The new
   * state is `Step` of the old one; `popped` is the branch of the scenario
   * popped.
   */
  method Visit(ghost m: Matrix, unf: seq<Match>, np: nat, outcome: Matrix -> seq<nat>, cursor: nat,
               unchecked: seq<Matrix>, ghost paths: seq<Path>, players: seq<nat>, ghost found: map<nat, Path>)
    returns (cursor': nat, unchecked': seq<Matrix>, ghost paths': seq<Path>, players': seq<nat>,
             ghost found': map<nat, Path>, ghost popped: Path)
    requires IsTable(m) && MatchesOf(m, unf) && |unchecked| > 0
    requires forall s :: NoDuplicates(outcome(s))
    requires Frontier(m, unf, outcome, cursor, unchecked, paths, players, found)
    ensures players' == players + Fresh(outcome(unchecked[|unchecked| - 1]), players)
    ensures |outcome(unchecked[|unchecked| - 1])| < np ==>
      var b := Branch(unchecked[|unchecked| - 1], unf, cursor, outcome);
      cursor' == b.0 && unchecked' == unchecked[..|unchecked| - 1] + b.1
    ensures Frontier(m, unf, outcome, cursor', unchecked', paths', players', found')
    ensures popped == paths[|paths| - 1]
    ensures IsPath(unf, popped) && Resolve(m, unf, popped) == unchecked[|unchecked| - 1]
    ensures players == [] ==> players' == outcome(unchecked[|unchecked| - 1])
    ensures |outcome(unchecked[|unchecked| - 1])| >= np || cursor == |unf| ==>
      cursor' == cursor && unchecked' == unchecked[..|unchecked| - 1]
  {
    var check := unchecked[|unchecked| - 1];
    popped := paths[|paths| - 1];
    PendingPop(m, unf, cursor, unchecked, paths);
    unchecked' := unchecked[..|unchecked| - 1];
    paths' := paths[..|paths| - 1];
    var promo := outcome(check);
    players' := AddNew(players, promo);
    SourcedAdd(m, unf, outcome, players, players', found, popped);
    found' := FoundAfter(found, players, players', popped);
    cursor' := cursor;
    if |promo| < np {
      var next, scenarios := NextBranch(unf, check, cursor, outcome);
      ghost var children := PushSplits(m, unf, cursor, next, unchecked', paths', scenarios, popped, check);
      cursor' := next;
      unchecked' := unchecked' + scenarios;
      paths' := paths' + children;
    }
  }

  /** `Step` of the search over `unf`, spelt out: the fresh players, and the inner loop's result when the outcome is short. */
  lemma StepOf(unf: seq<Match>, np: nat, outcome: Matrix -> seq<nat>, st: SearchState, next: SearchState)
    requires st.cursor <= |unf| && st.unchecked != []
    requires var check := st.unchecked[|st.unchecked| - 1];
      IsSquare(check) && MatchesOf(check, unf)
    requires var check := st.unchecked[|st.unchecked| - 1];
      next.players == st.players + Fresh(outcome(check), st.players)
    requires var check := st.unchecked[|st.unchecked| - 1];
      |outcome(check)| < np ==>
        var b := Branch(check, unf, st.cursor, outcome);
        next.cursor == b.0 && next.unchecked == st.unchecked[..|st.unchecked| - 1] + b.1
    requires |outcome(st.unchecked[|st.unchecked| - 1])| >= np ==>
      next.cursor == st.cursor && next.unchecked == st.unchecked[..|st.unchecked| - 1]
    ensures next == Step(SearchOf(unf, np, outcome), st)
  {
  }

  /** One pass of the loop: the first pop, then the rest of the search from the state it leaves. */
  lemma PopStep(pb: Problem, st: SearchState)
    requires Advances(pb) && st.cursor <= pb.matches && st.unchecked != []
    ensures Trace(pb, st) == [Pop(st.unchecked[|st.unchecked| - 1], st.cursor)] + Trace(pb, Step(pb, st))
    ensures Run(pb, st) == Run(pb, Step(pb, st))
  {
  }

  lemma ConsIndex<T>(x: T, s: seq<T>, l: nat)
    requires l < |s|
    ensures ([x] + s)[l + 1] == s[l]
  {
  }

  lemma Regroup<T>(a: seq<T>, b: seq<T>, c: seq<T>)
    ensures a + (b + c) == (a + b) + c
  {
  }

  /** Entry `i` of `visited` is a branch leading to the scenario of pop `i`. */
  ghost predicate Traced(m: Matrix, unf: seq<Match>, visited: seq<Path>, trace: seq<Pop>)
    requires IsTable(m) && MatchesOf(m, unf)
  {
    && |visited| == |trace|
    && forall i :: 0 <= i < |visited| ==> IsPath(unf, visited[i]) && Resolve(m, unf, visited[i]) == trace[i].check
  }

  lemma TracedSnoc(m: Matrix, unf: seq<Match>, visited: seq<Path>, trace: seq<Pop>, path: Path, pop: Pop)
    requires IsTable(m) && MatchesOf(m, unf) && Traced(m, unf, visited, trace)
    requires IsPath(unf, path) && Resolve(m, unf, path) == pop.check
    ensures Traced(m, unf, visited + [path], trace + [pop])
  {
    var v, t := visited + [path], trace + [pop];
    forall i | 0 <= i < |v| ensures IsPath(unf, v[i]) && Resolve(m, unf, v[i]) == t[i].check {
      if i < |visited| {
        assert v[i] == visited[i] && t[i] == trace[i];
      }
    }
  }

  /** Through the branches of the pops, a player named by a pop's outcome is named by a branch's scenario. */
  lemma VisitedMembers(m: Matrix, unf: seq<Match>, outcome: Matrix -> seq<nat>, visited: seq<Path>,
                       trace: seq<Pop>, players: seq<nat>)
    requires IsTable(m) && MatchesOf(m, unf) && Traced(m, unf, visited, trace)
    requires forall p :: p in players <==> NamedBy(outcome, trace, p)
    ensures forall p :: p in players <==>
      exists i :: 0 <= i < |visited| && IsPath(unf, visited[i]) && p in outcome(Resolve(m, unf, visited[i]))
  {
    forall p ensures p in players <==>
      exists i :: 0 <= i < |visited| && IsPath(unf, visited[i]) && p in outcome(Resolve(m, unf, visited[i]))
    {
      if p in players {
        var i :| 0 <= i < |trace| && p in outcome(trace[i].check);
        assert IsPath(unf, visited[i]) && p in outcome(Resolve(m, unf, visited[i]));
      }
      if exists i :: 0 <= i < |visited| && IsPath(unf, visited[i]) && p in outcome(Resolve(m, unf, visited[i])) {
        var i :| 0 <= i < |visited| && IsPath(unf, visited[i]) && p in outcome(Resolve(m, unf, visited[i]));
        assert p in outcome(trace[i].check);
      }
    }
  }

  /**
   * The `while unchecked` loop, resumed from a state until the stack is
   * empty: it returns the list `Run` gives from that state, and extends
   * `visited` with the branch of every scenario it pops, in the order of
   * `Trace`.
   */
  method Drain(ghost m: Matrix, unf: seq<Match>, np: nat, outcome: Matrix -> seq<nat>, cursor: nat,
               unchecked: seq<Matrix>, ghost paths: seq<Path>, players: seq<nat>, ghost found: map<nat, Path>,
               ghost visited: seq<Path>, ghost trace: seq<Pop>)
    returns (players': seq<nat>, ghost visited': seq<Path>)
    requires IsTable(m) && MatchesOf(m, unf)
    requires forall s :: NoDuplicates(outcome(s))
    requires Frontier(m, unf, outcome, cursor, unchecked, paths, players, found)
    requires Traced(m, unf, visited, trace)
    ensures players' == Run(SearchOf(unf, np, outcome), SearchState(cursor, unchecked, players))
    ensures Traced(m, unf, visited', trace + Trace(SearchOf(unf, np, outcome), SearchState(cursor, unchecked, players)))
    ensures visited <= visited'
  {
    ghost var pb := SearchOf(unf, np, outcome);
    ghost var start := SearchState(cursor, unchecked, players);
    var c, u, pl := cursor, unchecked, players;
    ghost var ps, f, tr := paths, found, trace;
    visited' := visited;
    while |u| > 0
      invariant Frontier(m, unf, outcome, c, u, ps, pl, f)
      invariant Run(pb, start) == Run(pb, SearchState(c, u, pl))
      invariant trace + Trace(pb, start) == tr + Trace(pb, SearchState(c, u, pl))
      invariant Traced(m, unf, visited', tr) && visited <= visited'
      decreases |unf| - c, |u|
    {
      ghost var st := SearchState(c, u, pl);
      ghost var pop := Pop(u[|u| - 1], c);
      ghost var path;
      PopStep(pb, st);
      c, u, ps, pl, f, path := Visit(m, unf, np, outcome, c, u, ps, pl, f);
      StepOf(unf, np, outcome, st, SearchState(c, u, pl));
      TracedSnoc(m, unf, visited', tr, path, pop);
      Regroup(tr, [pop], Trace(pb, SearchState(c, u, pl)));
      tr := tr + [pop];
      visited' := visited' + [path];
    }
    players' := pl;
  }

  /**
   * The body shared by `could_promote` and `could_demote`: a stack of
   * scenarios seeded with the root, visited until it is empty. The list
   * returned is `Run` from the start; `visited` holds the branch of every
   * scenario popped, in the order of `Trace`, the root first, and a player
   * is returned exactly when the outcome of one of them names it.
   */
  method Explore(m: Matrix, unf: seq<Match>, np: nat, outcome: Matrix -> seq<nat>)
    returns (players: seq<nat>, ghost visited: seq<Path>)
    requires IsTable(m) && MatchesOf(m, unf)
    requires forall s :: NoDuplicates(outcome(s))
    ensures players == Run(SearchOf(unf, np, outcome), Start(m))
    ensures forall p :: p in players <==> NamedBy(outcome, Trace(SearchOf(unf, np, outcome), Start(m)), p)
    ensures |visited| >= 1 && visited[0] == []
    ensures Traced(m, unf, visited, Trace(SearchOf(unf, np, outcome), Start(m)))
    ensures forall p :: p in players <==>
      exists i :: 0 <= i < |visited| && IsPath(unf, visited[i]) && p in outcome(Resolve(m, unf, visited[i]))
    ensures NoDuplicates(players)
    ensures outcome(m) <= players
    ensures |outcome(m)| >= np || unf == [] ==> players == outcome(m)
  {
    ghost var pb := SearchOf(unf, np, outcome);
    // The first pass pops the root.
    var cursor, unchecked, first;
    ghost var paths, found, root;
    cursor, unchecked, paths, first, found, root := Visit(m, unf, np, outcome, 0, [m], [[]], [], map[]);
    ghost var after := SearchState(cursor, unchecked, first);
    StepOf(unf, np, outcome, Start(m), after);
    PopStep(pb, Start(m));
    TracedSnoc(m, unf, [], [], root, Pop(m, 0));
    players, visited := Drain(m, unf, np, outcome, cursor, unchecked, paths, first, found, [root], [Pop(m, 0)]);
    ghost var trace := Trace(pb, Start(m));
    assert trace == [Pop(m, 0)] + Trace(pb, after);
    forall p ensures p in players <==> NamedBy(outcome, trace, p) {
      RunMembers(pb, Start(m), p);
    }
    VisitedMembers(m, unf, outcome, visited, trace, players);
  }

  /**
   * `could_promote` (dir = Promotion) and `could_demote` (dir = Demotion):
   * `Explore` with `promoting` or `demoting` as the outcome. A player is
   * returned exactly when it is guaranteed in one of the scenarios the
   * search pops, the current table first; when the current table already
   * guarantees `np` players, or nothing is left to play, the list is
   * exactly those.
   */
  method CouldReach(m: Matrix, ng: int, np: nat, dir: Direction) returns (players: seq<nat>, ghost visited: seq<Path>)
    requires IsTable(m)
    ensures players == Run(SearchOf(FindUnfinished(m, ng), np, Outcome(ng, np, dir)), Start(m))
    ensures |visited| >= 1 && visited[0] == []
    ensures forall i :: 0 <= i < |visited| ==> IsPath(FindUnfinished(m, ng), visited[i])
    ensures forall p :: p in players <==>
      exists i :: 0 <= i < |visited| && IsPath(FindUnfinished(m, ng), visited[i]) &&
        p in Guaranteed(Resolve(m, FindUnfinished(m, ng), visited[i]), ng, np, dir)
    ensures NoDuplicates(players)
    ensures Guaranteed(m, ng, np, dir) <= players
    ensures |Guaranteed(m, ng, np, dir)| >= np || FindUnfinished(m, ng) == [] ==>
      players == Guaranteed(m, ng, np, dir)
  {
    var unf := FindUnfinished(m, ng);
    assert MatchesOf(m, unf);
    var outcome := Outcome(ng, np, dir);
    OutcomeDistinct(ng, np, dir);
    players, visited := Explore(m, unf, np, outcome);
    assert outcome(m) == Guaranteed(m, ng, np, dir);
    OutcomeMembers(m, unf, ng, np, dir, visited, players);
  }

  /** `promoting` and `demoting` list each player once. */
  lemma OutcomeDistinct(ng: int, np: nat, dir: Direction)
    ensures forall s :: NoDuplicates(Outcome(ng, np, dir)(s))
  {
    forall s ensures NoDuplicates(Outcome(ng, np, dir)(s)) {
      if IsTable(s) {
        assert Outcome(ng, np, dir)(s) == Guaranteed(s, ng, np, dir);
      }
    }
  }

  /** On the scenarios of branches, the search's outcome is `promoting` or `demoting` itself. */
  lemma OutcomeMembers(m: Matrix, unf: seq<Match>, ng: int, np: nat, dir: Direction, visited: seq<Path>, players: seq<nat>)
    requires IsTable(m) && MatchesOf(m, unf)
    requires forall p :: p in players <==>
      exists i :: 0 <= i < |visited| && IsPath(unf, visited[i]) && p in Outcome(ng, np, dir)(Resolve(m, unf, visited[i]))
    ensures forall p :: p in players <==>
      exists i :: 0 <= i < |visited| && IsPath(unf, visited[i]) && p in Guaranteed(Resolve(m, unf, visited[i]), ng, np, dir)
  {
    forall i | 0 <= i < |visited| && IsPath(unf, visited[i])
      ensures Outcome(ng, np, dir)(Resolve(m, unf, visited[i])) == Guaranteed(Resolve(m, unf, visited[i]), ng, np, dir)
    {
    }
  }

  /** One row of `match_impl`: a split of the pairing and who could then still be demoted. */
  datatype ImplRow = ImplRow(winsA: real, winsB: real, demoters: seq<nat>)

  /**
   * `row` reports scenario `s` of the pairing `a`-`b`: the pairing's two
   * cells, and the list the search from `s` returns, which names exactly
   * the players some scenario it pops guarantees, `outcome(s)` first.
   */
  ghost predicate Reports(s: Matrix, a: nat, b: nat, ng: int, np: nat, outcome: Matrix -> seq<nat>, row: ImplRow)
    requires IsTable(s) && a < |s| && b < |s|
  {
    assert MatchesOf(s, FindUnfinished(s, ng));
    var pb := SearchOf(FindUnfinished(s, ng), np, outcome);
    && row.winsA == s[a][b] && row.winsB == s[b][a]
    && row.demoters == Run(pb, Start(s))
    && outcome(s) <= row.demoters
    && NoDuplicates(row.demoters)
    && forall p :: p in row.demoters <==> NamedBy(outcome, Trace(pb, Start(s)), p)
  }

  /** One pass of the `match_impl` loop: the pairing's two cells in `spec` and the demotion search run on it. */
  method Report(spec: Matrix, a: nat, b: nat, ng: int, np: nat, outcome: Matrix -> seq<nat>) returns (row: ImplRow)
    requires IsTable(spec) && a < |spec| && b < |spec|
    requires forall s :: NoDuplicates(outcome(s))
    ensures Reports(spec, a, b, ng, np, outcome, row)
  {
    var unf := FindUnfinished(spec, ng);
    assert MatchesOf(spec, unf);
    var demoters, visited := Explore(spec, unf, np, outcome);
    row := ImplRow(spec[a][b], spec[b][a], demoters);
  }

  lemma ReportsSnoc(specs: seq<Matrix>, a: nat, b: nat, ng: int, np: nat, outcome: Matrix -> seq<nat>,
                    rows: seq<ImplRow>, row: ImplRow)
    requires |rows| < |specs|
    requires forall k :: 0 <= k < |specs| ==> IsTable(specs[k]) && a < |specs[k]| && b < |specs[k]|
    requires forall k :: 0 <= k < |rows| ==> Reports(specs[k], a, b, ng, np, outcome, rows[k])
    requires Reports(specs[|rows|], a, b, ng, np, outcome, row)
    ensures forall k :: 0 <= k < |rows| + 1 ==> Reports(specs[k], a, b, ng, np, outcome, (rows + [row])[k])
  {
    forall k | 0 <= k < |rows| + 1 ensures Reports(specs[k], a, b, ng, np, outcome, (rows + [row])[k]) {
      if k < |rows| {
        assert (rows + [row])[k] == rows[k];
      } else {
        assert (rows + [row])[k] == row;
      }
    }
  }

  /** The `match_impl` loop: one search per scenario, in order. */
  method ReportAll(specs: seq<Matrix>, a: nat, b: nat, ng: int, np: nat, outcome: Matrix -> seq<nat>)
    returns (rows: seq<ImplRow>)
    requires forall k :: 0 <= k < |specs| ==> IsTable(specs[k]) && a < |specs[k]| && b < |specs[k]|
    requires forall s :: NoDuplicates(outcome(s))
    ensures |rows| == |specs|
    ensures forall k :: 0 <= k < |rows| ==> Reports(specs[k], a, b, ng, np, outcome, rows[k])
  {
    rows := [];
    var hw := 0;
    while hw < |specs|
      invariant hw <= |specs| && |rows| == hw
      invariant forall k :: 0 <= k < |rows| ==> Reports(specs[k], a, b, ng, np, outcome, rows[k])
    {
      var row := Report(specs[hw], a, b, ng, np, outcome);
      ReportsSnoc(specs, a, b, ng, np, outcome, rows, row);
      rows := rows + [row];
      hw := hw + 1;
    }
  }

  /**
   * `match_impl`: for every split of the games still open between `a` and
   * `b` (counted against the default six games), in increasing order of
   * `a`'s share, the pairing's record under that split and the demotion
   * search run on the resulting table.
   */
  method MatchImpl(m: Matrix, a: nat, b: nat, ng: int, np: nat) returns (rows: seq<ImplRow>)
    requires IsTable(m) && a < |m| && b < |m|
    ensures var specs := Splits(m, a, b, OpenGames(m, DefaultGames, a, b));
      && |rows| == |specs| == SplitCount(OpenGames(m, DefaultGames, a, b))
      && forall k :: 0 <= k < |rows| ==> Reports(specs[k], a, b, ng, np, Outcome(ng, np, Demotion), rows[k])
    ensures a != b ==> forall k :: 0 <= k < |rows| ==>
      && rows[k].winsA == m[a][b] + k as real / 2.0
      && rows[k].winsB == m[b][a] + OpenGames(m, DefaultGames, a, b) - k as real / 2.0
  {
    var unf := PlayerUnfinished(m, DefaultGames, a);
    var remaining := RemainingAgainst(unf, b);
    RemainingAgainstIsOpenGames(m, DefaultGames, a, b);
    var specs := Splits(m, a, b, remaining);
    var outcome := Outcome(ng, np, Demotion);
    OutcomeDistinct(ng, np, Demotion);
    rows := ReportAll(specs, a, b, ng, np, outcome);
    forall k | 0 <= k < |rows| && a != b
      ensures rows[k].winsA == m[a][b] + k as real / 2.0
      ensures rows[k].winsB == m[b][a] + remaining - k as real / 2.0
    {
      assert specs[k] == Split(m, a, b, remaining, k);
    }
  }
}
