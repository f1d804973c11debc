/**
 * The results table of a round-robin division and the scenario builders.
 *
 * Players are the row/column indices 0..n-1 of a square table; entry m[a][b]
 * is the number of games player a has won against player b (halves for
 * draws). Every pairing is scheduled for `ng` games.
 */
module Results {
  import opened Common

  /** The `ngames=6` default of the analysis functions. */
  const DefaultGames: int := 6

  type Matrix = seq<seq<real>>

  predicate IsSquare(m: Matrix) {
    forall i :: 0 <= i < |m| ==> |m[i]| == |m|
  }

  /** A square table of non-negative win counts: every table the analysis builds. */
  predicate IsTable(m: Matrix) {
    IsSquare(m) && forall i, j :: 0 <= i < |m| && 0 <= j < |m| ==> m[i][j] >= 0.0
  }

  /**
   * The cell (a, b) of `ngames*triu(ones, 1) - resmat - resmat.T`: the games
   * left in the pairing for cells above the diagonal, and a value that is never
   * positive on or below it when entries are non-negative.
   */
  function Remaining(m: Matrix, ng: int, a: nat, b: nat): (r: real)
    requires IsSquare(m) && a < |m| && b < |m|
    ensures a < b ==> r + m[a][b] + m[b][a] == ng as real
    ensures IsTable(m) && b <= a ==> r <= 0.0
  {
    (if a < b then ng as real else 0.0) - m[a][b] - m[b][a]
  }

  /** Games still to be played between `a` and `b`, 0 when the pairing is complete or a == b. */
  function OpenGames(m: Matrix, ng: int, a: nat, b: nat): (r: real)
    requires IsSquare(m) && a < |m| && b < |m|
    ensures r >= 0.0
    ensures r > 0.0 <==> a != b && m[a][b] + m[b][a] < ng as real
    ensures r > 0.0 ==> r + m[a][b] + m[b][a] == ng as real
  {
    if a != b && ng as real - m[a][b] - m[b][a] > 0.0 then ng as real - m[a][b] - m[b][a] else 0.0
  }

  /** An unfinished match: the stacked cell (a, b) with its positive remaining count. */
  datatype Match = Match(a: nat, b: nat, remaining: real)

  /** Row-major order of cells, the order in which `stack` lists them. */
  predicate CellBefore(x: Match, y: Match) {
    x.a < y.a || (x.a == y.a && x.b < y.b)
  }

  /** The unfinished cells of row `a` from column `b` on. */
  function RowUnfinished(m: Matrix, ng: int, a: nat, b: nat): (r: seq<Match>)
    requires IsSquare(m) && a < |m| && b <= |m|
    ensures forall k :: 0 <= k < |r| ==>
      r[k].a == a && b <= r[k].b < |m| && r[k].remaining == Remaining(m, ng, a, r[k].b) > 0.0
    ensures forall c :: b <= c < |m| && Remaining(m, ng, a, c) > 0.0 ==>
      Match(a, c, Remaining(m, ng, a, c)) in r
    ensures forall k, l :: 0 <= k < l < |r| ==> r[k].b < r[l].b
    decreases |m| - b
  {
    if b == |m| then []
    else
      var rem := Remaining(m, ng, a, b);
      var rest := RowUnfinished(m, ng, a, b + 1);
      if rem > 0.0 then [Match(a, b, rem)] + rest else rest
  }

  /** The unfinished cells of rows `a` onwards, row by row. */
  function UnfinishedFrom(m: Matrix, ng: int, a: nat): (r: seq<Match>)
    requires IsSquare(m) && a <= |m|
    ensures forall k :: 0 <= k < |r| ==>
      a <= r[k].a < |m| && r[k].b < |m| && r[k].remaining == Remaining(m, ng, r[k].a, r[k].b) > 0.0
    ensures forall x, y :: a <= x < |m| && 0 <= y < |m| && Remaining(m, ng, x, y) > 0.0 ==>
      Match(x, y, Remaining(m, ng, x, y)) in r
    ensures forall k, l :: 0 <= k < l < |r| ==> CellBefore(r[k], r[l])
    decreases |m| - a
  {
    if a == |m| then []
    else
      var row := RowUnfinished(m, ng, a, 0);
      var rest := UnfinishedFrom(m, ng, a + 1);
      JoinRows(m, ng, a, row, rest);
      row + rest
  }

  /** Row `a`'s cells followed by those of the later rows are the cells from row `a` on, in order. */
  lemma JoinRows(m: Matrix, ng: int, a: nat, row: seq<Match>, rest: seq<Match>)
    requires IsSquare(m) && a < |m|
    requires forall k :: 0 <= k < |row| ==>
      row[k].a == a && row[k].b < |m| && row[k].remaining == Remaining(m, ng, a, row[k].b) > 0.0
    requires forall c :: 0 <= c < |m| && Remaining(m, ng, a, c) > 0.0 ==> Match(a, c, Remaining(m, ng, a, c)) in row
    requires forall k, l :: 0 <= k < l < |row| ==> row[k].b < row[l].b
    requires forall k :: 0 <= k < |rest| ==>
      a + 1 <= rest[k].a < |m| && rest[k].b < |m| && rest[k].remaining == Remaining(m, ng, rest[k].a, rest[k].b) > 0.0
    requires forall x, y :: a + 1 <= x < |m| && 0 <= y < |m| && Remaining(m, ng, x, y) > 0.0 ==>
      Match(x, y, Remaining(m, ng, x, y)) in rest
    requires forall k, l :: 0 <= k < l < |rest| ==> CellBefore(rest[k], rest[l])
    ensures var r := row + rest;
      && (forall k :: 0 <= k < |r| ==>
            a <= r[k].a < |m| && r[k].b < |m| && r[k].remaining == Remaining(m, ng, r[k].a, r[k].b) > 0.0)
      && (forall x, y :: a <= x < |m| && 0 <= y < |m| && Remaining(m, ng, x, y) > 0.0 ==>
            Match(x, y, Remaining(m, ng, x, y)) in r)
      && (forall k, l :: 0 <= k < l < |r| ==> CellBefore(r[k], r[l]))
  {
    var r := row + rest;
    forall k | 0 <= k < |r|
      ensures a <= r[k].a < |m| && r[k].b < |m| && r[k].remaining == Remaining(m, ng, r[k].a, r[k].b) > 0.0
    {
      if k < |row| { assert r[k] == row[k]; } else { assert r[k] == rest[k - |row|]; }
    }
    forall k, l | 0 <= k < l < |r| ensures CellBefore(r[k], r[l]) {
      if l < |row| {
        assert r[k] == row[k] && r[l] == row[l];
      } else if k >= |row| {
        assert r[k] == rest[k - |row|] && r[l] == rest[l - |row|];
      } else {
        assert r[k] == row[k] && r[l] == rest[l - |row|];
      }
    }
    forall x, y | a <= x < |m| && 0 <= y < |m| && Remaining(m, ng, x, y) > 0.0
      ensures Match(x, y, Remaining(m, ng, x, y)) in r
    {
      if x == a {
        assert Match(x, y, Remaining(m, ng, x, y)) in row;
      } else {
        assert Match(x, y, Remaining(m, ng, x, y)) in rest;
      }
    }
  }

  /**
   * `find_unfinished`: every cell with a positive remaining count, in row-major
   * order, each cell once.
   */
  function FindUnfinished(m: Matrix, ng: int): (r: seq<Match>)
    requires IsSquare(m)
    ensures forall k :: 0 <= k < |r| ==>
      r[k].a < |m| && r[k].b < |m| && r[k].remaining == Remaining(m, ng, r[k].a, r[k].b) > 0.0
    ensures forall x, y :: 0 <= x < |m| && 0 <= y < |m| && Remaining(m, ng, x, y) > 0.0 ==>
      Match(x, y, Remaining(m, ng, x, y)) in r
    ensures forall k, l :: 0 <= k < l < |r| ==> CellBefore(r[k], r[l])
  {
    UnfinishedFrom(m, ng, 0)
  }

  /**
   * On a table, every unfinished match is keyed (earlier index, later index),
   * carries the games left in that pairing, and no pairing is listed twice.
   */
  lemma UnfinishedArePairs(m: Matrix, ng: int)
    requires IsTable(m)
    ensures var r := FindUnfinished(m, ng);
      forall k :: 0 <= k < |r| ==>
        r[k].a < r[k].b && r[k].remaining == OpenGames(m, ng, r[k].a, r[k].b) > 0.0
    ensures var r := FindUnfinished(m, ng);
      forall k, l :: 0 <= k < l < |r| ==> !(r[k].a == r[l].b && r[k].b == r[l].a)
    ensures forall a, b :: 0 <= a < b < |m| && OpenGames(m, ng, a, b) > 0.0 ==>
      Match(a, b, OpenGames(m, ng, a, b)) in FindUnfinished(m, ng)
  {
    var r := FindUnfinished(m, ng);
    forall k | 0 <= k < |r|
      ensures r[k].a < r[k].b && r[k].remaining == OpenGames(m, ng, r[k].a, r[k].b)
    {
      var a, b := r[k].a, r[k].b;
      assert m[a][b] >= 0.0 && m[b][a] >= 0.0;
    }
    forall a, b | 0 <= a < b < |m| && OpenGames(m, ng, a, b) > 0.0
      ensures Match(a, b, OpenGames(m, ng, a, b)) in r
    {
      assert Remaining(m, ng, a, b) == OpenGames(m, ng, a, b);
    }
  }

  /** One opponent of a player with the games left against them. */
  datatype Opponent = Opponent(player: nat, remaining: real)

  /** The matches keyed (p, q), as opponents q: `unf.loc[player]`. */
  function AsRowPlayer(ms: seq<Match>, p: nat): (r: seq<Opponent>)
    ensures forall o :: o in r <==> Match(p, o.player, o.remaining) in ms
  {
    if ms == [] then []
    else
      assert ms == [ms[0]] + ms[1..];
      var rest := AsRowPlayer(ms[1..], p);
      if ms[0].a == p then [Opponent(ms[0].b, ms[0].remaining)] + rest else rest
  }

  /** The matches keyed (q, p), as opponents q: `unf.swaplevel().loc[player]`. */
  function AsColumnPlayer(ms: seq<Match>, p: nat): (r: seq<Opponent>)
    ensures forall o :: o in r <==> Match(o.player, p, o.remaining) in ms
  {
    if ms == [] then []
    else
      assert ms == [ms[0]] + ms[1..];
      var rest := AsColumnPlayer(ms[1..], p);
      if ms[0].b == p then [Opponent(ms[0].a, ms[0].remaining)] + rest else rest
  }

  /**
   * `find_player_unfinished`: the opponents `p` still has games against,
   * first those keyed (p, q), then those keyed (q, p).
   */
  function PlayerUnfinished(m: Matrix, ng: int, p: nat): (r: seq<Opponent>)
    requires IsSquare(m) && p < |m|
    ensures forall o :: o in r <==>
      o.player < |m| &&
      ((o.remaining == Remaining(m, ng, p, o.player) > 0.0) ||
       (o.remaining == Remaining(m, ng, o.player, p) > 0.0))
  {
    var unf := FindUnfinished(m, ng);
    var r := AsRowPlayer(unf, p) + AsColumnPlayer(unf, p);
    forall o | o in r ensures o.player < |m| {
      if Match(p, o.player, o.remaining) in unf {
        var k :| 0 <= k < |unf| && unf[k] == Match(p, o.player, o.remaining);
      } else {
        var k :| 0 <= k < |unf| && unf[k] == Match(o.player, p, o.remaining);
      }
    }
    r
  }

  /**
   * `unf[q] if q in unf.index else 0`, and the label alignment of the
   * scenario builders: the count listed for opponent `q`, or 0.
   */
  function RemainingAgainst(unf: seq<Opponent>, q: nat): (r: real)
    ensures Opponent(q, r) in unf || (r == 0.0 && forall o :: o in unf ==> o.player != q)
  {
    if unf == [] then 0.0
    else if unf[0].player == q then unf[0].remaining
    else RemainingAgainst(unf[1..], q)
  }

  /**
   * On a table, the count `find_player_unfinished` gives for opponent q is
   * exactly the games left in the pairing (0 when there are none).
   */
  lemma RemainingAgainstIsOpenGames(m: Matrix, ng: int, p: nat, q: nat)
    requires IsTable(m) && p < |m| && q < |m|
    ensures RemainingAgainst(PlayerUnfinished(m, ng, p), q) == OpenGames(m, ng, p, q)
  {
    var unf := PlayerUnfinished(m, ng, p);
    var r := RemainingAgainst(unf, q);
    var og := OpenGames(m, ng, p, q);
    if og > 0.0 {
      if p < q {
        assert Remaining(m, ng, p, q) == og;
      } else {
        assert Remaining(m, ng, q, p) == og;
      }
      assert Opponent(q, og) in unf;
    }
    if Opponent(q, r) in unf {
      if r == Remaining(m, ng, p, q) {
        PositiveRemainingIsOpen(m, ng, p, q);
      } else {
        PositiveRemainingIsOpen(m, ng, q, p);
      }
    }
  }

  /** On a table a positive `Remaining` cell lies above the diagonal and holds the open games. */
  lemma PositiveRemainingIsOpen(m: Matrix, ng: int, a: nat, b: nat)
    requires IsTable(m) && a < |m| && b < |m| && Remaining(m, ng, a, b) > 0.0
    ensures a < b && Remaining(m, ng, a, b) == OpenGames(m, ng, a, b) == OpenGames(m, ng, b, a)
  {
    assert m[a][b] >= 0.0 && m[b][a] >= 0.0;
  }

  /** Opponents listed in strictly increasing player order. */
  predicate Ascending(os: seq<Opponent>) {
    forall k, l :: 0 <= k < l < |os| ==> os[k].player < os[l].player
  }

  /** An opponent before every later one keeps the list ascending. */
  lemma ConsAscending(o: Opponent, rest: seq<Opponent>)
    requires Ascending(rest) && forall x :: x in rest ==> o.player < x.player
    ensures Ascending([o] + rest)
  {
    var r := [o] + rest;
    forall k, l | 0 <= k < l < |r| ensures r[k].player < r[l].player {
      assert r[l] == rest[l - 1] && rest[l - 1] in rest;
      if k > 0 { assert r[k] == rest[k - 1]; }
    }
  }

  /** Taken from matches in row-major order, the opponents keyed (p, q) come in increasing order. */
  lemma {:induction false} RowPlayersIncrease(ms: seq<Match>, p: nat)
    requires forall k, l :: 0 <= k < l < |ms| ==> CellBefore(ms[k], ms[l])
    ensures Ascending(AsRowPlayer(ms, p))
  {
    if ms != [] {
      var rest := AsRowPlayer(ms[1..], p);
      RowPlayersIncrease(ms[1..], p);
      if ms[0].a == p {
        forall o | o in rest ensures ms[0].b < o.player {
          var j :| 0 <= j < |ms[1..]| && ms[1..][j] == Match(p, o.player, o.remaining);
          assert CellBefore(ms[0], ms[j + 1]);
        }
        ConsAscending(Opponent(ms[0].b, ms[0].remaining), rest);
        assert AsRowPlayer(ms, p) == [Opponent(ms[0].b, ms[0].remaining)] + rest;
      } else {
        assert AsRowPlayer(ms, p) == rest;
      }
    }
  }

  /** Taken from matches in row-major order, the opponents keyed (q, p) come in increasing order. */
  lemma {:induction false} ColumnPlayersIncrease(ms: seq<Match>, p: nat)
    requires forall k, l :: 0 <= k < l < |ms| ==> CellBefore(ms[k], ms[l])
    ensures Ascending(AsColumnPlayer(ms, p))
  {
    if ms != [] {
      var rest := AsColumnPlayer(ms[1..], p);
      ColumnPlayersIncrease(ms[1..], p);
      if ms[0].b == p {
        forall o | o in rest ensures ms[0].a < o.player {
          var j :| 0 <= j < |ms[1..]| && ms[1..][j] == Match(o.player, p, o.remaining);
          assert CellBefore(ms[0], ms[j + 1]);
        }
        ConsAscending(Opponent(ms[0].a, ms[0].remaining), rest);
        assert AsColumnPlayer(ms, p) == [Opponent(ms[0].a, ms[0].remaining)] + rest;
      } else {
        assert AsColumnPlayer(ms, p) == rest;
      }
    }
  }

  /**
   * On a table, each opponent of `p` is listed once, never `p` itself, with
   * the games left in that pairing: later opponents first, in increasing
   * order, then earlier ones, in increasing order.
   */
  lemma PlayerUnfinishedDistinct(m: Matrix, ng: int, p: nat)
    requires IsTable(m) && p < |m|
    ensures var r := PlayerUnfinished(m, ng, p);
      forall o :: o in r ==> o.player != p && o.remaining == OpenGames(m, ng, p, o.player) > 0.0
    ensures var r := PlayerUnfinished(m, ng, p);
      forall k, l :: 0 <= k < l < |r| ==> r[k].player != r[l].player
  {
    var r := PlayerUnfinished(m, ng, p);
    forall o | o in r ensures o.player != p && o.remaining == OpenGames(m, ng, p, o.player) > 0.0 {
      assert m[p][o.player] >= 0.0 && m[o.player][p] >= 0.0;
    }
    var unf := FindUnfinished(m, ng);
    var row, col := AsRowPlayer(unf, p), AsColumnPlayer(unf, p);
    assert r == row + col;
    RowPlayersIncrease(unf, p);
    ColumnPlayersIncrease(unf, p);
    OpponentSides(m, ng, p);
    forall k, l | 0 <= k < l < |r| ensures r[k].player != r[l].player {
      if l < |row| {
        assert r[k] == row[k] && r[l] == row[l];
      } else if k >= |row| {
        assert r[k] == col[k - |row|] && r[l] == col[l - |row|];
      } else {
        assert r[k] == row[k] && r[l] == col[l - |row|];
      }
    }
  }

  /** On a table, the opponents keyed (p, q) are later players and those keyed (q, p) earlier ones. */
  lemma OpponentSides(m: Matrix, ng: int, p: nat)
    requires IsTable(m)
    ensures forall o :: o in AsRowPlayer(FindUnfinished(m, ng), p) ==> p < o.player
    ensures forall o :: o in AsColumnPlayer(FindUnfinished(m, ng), p) ==> o.player < p
  {
    var unf := FindUnfinished(m, ng);
    UnfinishedArePairs(m, ng);
    forall o | o in AsRowPlayer(unf, p) ensures p < o.player {
      var i :| 0 <= i < |unf| && unf[i] == Match(p, o.player, o.remaining);
    }
    forall o | o in AsColumnPlayer(unf, p) ensures o.player < p {
      var i :| 0 <= i < |unf| && unf[i] == Match(o.player, p, o.remaining);
    }
  }


  /**
   * `add_record`: a new table with (a, b) increased by `wa` and (b, a) by
   * `wb`; when a == b the second assignment wins and only `wb` is added.
   */
  function AddRecord(m: Matrix, a: nat, b: nat, wa: real, wb: real): (r: Matrix)
    requires IsSquare(m) && a < |m| && b < |m|
    ensures IsSquare(r) && |r| == |m|
    ensures a != b ==> r[a][b] == m[a][b] + wa && r[b][a] == m[b][a] + wb
    ensures a == b ==> r[a][a] == m[a][a] + wb
    ensures forall i, j :: 0 <= i < |m| && 0 <= j < |m| && !(i == a && j == b) && !(i == b && j == a) ==>
      r[i][j] == m[i][j]
  {
    seq(|m|, i requires 0 <= i < |m| => seq(|m|, j requires 0 <= j < |m| =>
      m[i][j] + (if i == b && j == a then wb else if i == a && j == b then wa else 0.0)))
  }

  /**
   * `set_record`, corrected: (a, b) becomes `wa` and (b, a) becomes `wb`
   * (when a == b the second assignment wins); nothing else changes.
   */
  function SetRecord(m: Matrix, a: nat, b: nat, wa: real, wb: real): (r: Matrix)
    requires IsSquare(m) && a < |m| && b < |m|
    ensures IsSquare(r) && |r| == |m|
    ensures a != b ==> r[a][b] == wa && r[b][a] == wb
    ensures a == b ==> r[a][a] == wb
    ensures forall i, j :: 0 <= i < |m| && 0 <= j < |m| && !(i == a && j == b) && !(i == b && j == a) ==>
      r[i][j] == m[i][j]
  {
    seq(|m|, i requires 0 <= i < |m| => seq(|m|, j requires 0 <= j < |m| =>
      if i == b && j == a then wb else if i == a && j == b then wa else m[i][j]))
  }

  /** Overwriting a pairing is adding the difference to it. */
  lemma SetRecordIsAddOfDifference(m: Matrix, a: nat, b: nat, wa: real, wb: real)
    requires IsSquare(m) && a < |m| && b < |m| && a != b
    ensures SetRecord(m, a, b, wa, wb) == AddRecord(m, a, b, wa - m[a][b], wb - m[b][a])
  {
    var s, t := SetRecord(m, a, b, wa, wb), AddRecord(m, a, b, wa - m[a][b], wb - m[b][a]);
    assert forall i :: 0 <= i < |m| ==> s[i] == t[i];
  }

  /** A table cell as pandas holds it after masking: None stands for NaN. */
  type MaskedTable = seq<seq<Option<real>>>

  /** `df[mask]`: keep the cells where `keepPair` says whether the (a,b)/(b,a) cells are kept; NaN elsewhere. */
  function Masked(m: Matrix, a: nat, b: nat, keepPair: bool): (r: MaskedTable)
    requires IsSquare(m)
    ensures |r| == |m| && forall i :: 0 <= i < |m| ==> |r[i]| == |m|
  {
    seq(|m|, i requires 0 <= i < |m| => seq(|m|, j requires 0 <= j < |m| =>
      if ((i == a && j == b) || (i == b && j == a)) == keepPair then Some(m[i][j]) else None))
  }

  /** Elementwise `+` of two frames: NaN on either side gives NaN. */
  function NaNAdd(x: Option<real>, y: Option<real>): Option<real> {
    if x.Some? && y.Some? then Some(x.value + y.value) else None
  }

  /**
   * `set_record` as written: `resmat[~retmask] + newval[retmask]`. Each cell
   * is NaN in one of the two masked frames, so every cell of the sum is NaN.
   */
  function SetRecordAsWritten(m: Matrix, a: nat, b: nat, wa: real, wb: real): (r: MaskedTable)
    requires IsSquare(m) && a < |m| && b < |m|
    ensures |r| == |m| && forall i :: 0 <= i < |m| ==> |r[i]| == |m|
    ensures forall i, j :: 0 <= i < |m| && 0 <= j < |m| ==> r[i][j].None?
  {
    var zeros := seq(|m|, i => seq(|m|, j => 0.0));
    var newval := SetRecord(zeros, a, b, wa, wb);
    var kept := Masked(m, a, b, false);
    var written := Masked(newval, a, b, true);
    seq(|m|, i requires 0 <= i < |m| => seq(|m|, j requires 0 <= j < |m| => NaNAdd(kept[i][j], written[i][j])))
  }

  /** On a 2x2 table, `set_record` as written loses the value the corrected one stores. */
  lemma SetRecordAsWrittenLosesRecord()
    ensures SetRecordAsWritten([[0.0, 1.0], [2.0, 0.0]], 0, 1, 3.0, 3.0)[0][1] == None
    ensures SetRecord([[0.0, 1.0], [2.0, 0.0]], 0, 1, 3.0, 3.0)[0][1] == 3.0
    ensures SetRecordAsWritten([[0.0, 1.0], [2.0, 0.0]], 0, 1, 3.0, 3.0)[1][1] == None
  {
  }

  /**
   * `scenario_player_wins_out`: `p` wins every game left in each of its
   * pairings; row `p` gains the open games, nothing else changes.
   */
  function WinsOut(m: Matrix, ng: int, p: nat): (r: Matrix)
    requires IsTable(m) && p < |m|
    ensures IsTable(r) && |r| == |m|
    ensures forall i, j :: 0 <= i < |m| && 0 <= j < |m| ==>
      r[i][j] == if i == p then m[i][j] + OpenGames(m, ng, p, j) else m[i][j]
  {
    var r := seq(|m|, i requires 0 <= i < |m| => seq(|m|, j requires 0 <= j < |m| =>
      m[i][j] + (if i == p then OpenGames(m, ng, p, j) else 0.0)));
    forall i, j | 0 <= i < |m| && 0 <= j < |m| ensures r[i][j] >= 0.0 {
      assert m[i][j] >= 0.0;
    }
    r
  }

  /**
   * `scenario_player_loses_out`: every opponent wins the games left against
   * `p`; column `p` gains the open games, nothing else changes.
   */
  function LosesOut(m: Matrix, ng: int, p: nat): (r: Matrix)
    requires IsTable(m) && p < |m|
    ensures IsTable(r) && |r| == |m|
    ensures forall i, j :: 0 <= i < |m| && 0 <= j < |m| ==>
      r[i][j] == if j == p then m[i][j] + OpenGames(m, ng, p, i) else m[i][j]
  {
    var r := seq(|m|, i requires 0 <= i < |m| => seq(|m|, j requires 0 <= j < |m| =>
      m[i][j] + (if j == p then OpenGames(m, ng, p, i) else 0.0)));
    forall i, j | 0 <= i < |m| && 0 <= j < |m| ensures r[i][j] >= 0.0 {
      assert m[i][j] >= 0.0;
    }
    r
  }

  /**
   * The scenarios credit exactly the games `find_player_unfinished` lists
   * against each opponent, and leave `p` with no unfinished match.
   */
  lemma ScenariosSettlePlayer(m: Matrix, ng: int, p: nat)
    requires IsTable(m) && p < |m|
    ensures forall q :: 0 <= q < |m| ==>
      && WinsOut(m, ng, p)[p][q] == m[p][q] + RemainingAgainst(PlayerUnfinished(m, ng, p), q)
      && LosesOut(m, ng, p)[q][p] == m[q][p] + RemainingAgainst(PlayerUnfinished(m, ng, p), q)
    ensures PlayerUnfinished(WinsOut(m, ng, p), ng, p) == []
    ensures PlayerUnfinished(LosesOut(m, ng, p), ng, p) == []
  {
    var w := WinsOut(m, ng, p);
    var l := LosesOut(m, ng, p);
    forall q | 0 <= q < |m|
      ensures RemainingAgainst(PlayerUnfinished(m, ng, p), q) == OpenGames(m, ng, p, q)
    {
      RemainingAgainstIsOpenGames(m, ng, p, q);
    }
    forall q | 0 <= q < |m| && q != p ensures w[p][q] + w[q][p] >= ng as real {
      assert w[q][p] == m[q][p];
    }
    forall q | 0 <= q < |m| && q != p ensures l[p][q] + l[q][p] >= ng as real {
      assert l[p][q] == m[p][q];
    }
    CompletedPlayer(w, ng, p);
    CompletedPlayer(l, ng, p);
  }

  /** A player whose every pairing holds `ng` games or more has no unfinished match. */
  lemma CompletedPlayer(r: Matrix, ng: int, p: nat)
    requires IsTable(r) && p < |r|
    requires forall q :: 0 <= q < |r| && q != p ==> r[p][q] + r[q][p] >= ng as real
    ensures PlayerUnfinished(r, ng, p) == []
  {
    var unf := PlayerUnfinished(r, ng, p);
    forall q | 0 <= q < |r|
      ensures !(Remaining(r, ng, p, q) > 0.0) && !(Remaining(r, ng, q, p) > 0.0)
    {
      assert r[p][q] >= 0.0 && r[q][p] >= 0.0;
    }
    FirstIsMember(unf);
  }

  /**
   * `int(2*r+1)`: how many half-point splits of `r` remaining games are
   * tried, counted one half-game at a time.
   */
  function SplitCount(r: real): (n: nat)
    requires r >= 0.0
    ensures n >= 1
    decreases (2.0 * r).Floor
  {
    if r < 0.5 then 1 else SplitCount(r - 0.5) + 1
  }

  /** The count is the truncation of `2r + 1`. */
  lemma {:induction false} SplitCountIsTruncation(r: real)
    requires r >= 0.0
    ensures SplitCount(r) == (2.0 * r + 1.0).Floor
    decreases (2.0 * r).Floor
  {
    if r >= 0.5 {
      SplitCountIsTruncation(r - 0.5);
      assert 2.0 * (r - 0.5) + 1.0 == 2.0 * r;
    }
  }

  /** Every tried split gives the row player at most the `r` games left. */
  lemma {:induction false} SplitCountBound(r: real, hw: nat)
    requires r >= 0.0 && hw < SplitCount(r)
    ensures hw as real <= 2.0 * r
    decreases (2.0 * r).Floor
  {
    if r >= 0.5 && hw > 0 {
      SplitCountBound(r - 0.5, hw - 1);
    }
  }

  /** With whole or half games left, every split 0, 1/2, ..., r is tried: 2r+1 of them. */
  lemma {:induction false} SplitCountOfHalves(r: real, k: nat)
    requires r == k as real / 2.0
    ensures SplitCount(r) == k + 1
    decreases k
  {
    if k > 0 {
      SplitCountOfHalves(r - 0.5, k - 1);
    }
  }

  /** `add_record(m, a, b, hw/2, r - hw/2)`: the split in which `a` takes hw half-games of `r`. */
  function Split(m: Matrix, a: nat, b: nat, r: real, hw: nat): (s: Matrix)
    requires IsSquare(m) && a < |m| && b < |m|
    ensures IsSquare(s) && |s| == |m|
  {
    AddRecord(m, a, b, hw as real / 2.0, r - hw as real / 2.0)
  }

  /** Every tried split gives each side a non-negative share, so it is again a table. */
  lemma SplitIsTable(m: Matrix, a: nat, b: nat, r: real, hw: nat)
    requires IsTable(m) && a < |m| && b < |m| && r >= 0.0 && hw < SplitCount(r)
    ensures IsTable(Split(m, a, b, r, hw))
  {
    var s := Split(m, a, b, r, hw);
    SplitCountBound(r, hw);
    forall i, j | 0 <= i < |m| && 0 <= j < |m| ensures s[i][j] >= 0.0 {
      assert m[i][j] >= 0.0;
    }
  }

  /** Every tried split of an open pairing completes it: its two cells then sum to `ng`. */
  lemma SplitCompletesPairing(m: Matrix, ng: int, a: nat, b: nat, hw: nat)
    requires IsTable(m) && a < |m| && b < |m| && a != b
    requires hw < SplitCount(OpenGames(m, ng, a, b))
    ensures var s := Split(m, a, b, OpenGames(m, ng, a, b), hw);
      IsTable(s) && OpenGames(s, ng, a, b) == 0.0 &&
      (OpenGames(m, ng, a, b) > 0.0 ==> s[a][b] + s[b][a] == ng as real)
  {
    SplitIsTable(m, a, b, OpenGames(m, ng, a, b), hw);
  }

  /** The `2r+1` scenarios of one match, in increasing order of a's share. */
  function Splits(m: Matrix, a: nat, b: nat, r: real): (ss: seq<Matrix>)
    requires IsSquare(m) && a < |m| && b < |m| && r >= 0.0
    ensures |ss| == SplitCount(r) >= 1
    ensures forall k :: 0 <= k < |ss| ==> ss[k] == Split(m, a, b, r, k)
    ensures IsTable(m) ==> forall k :: 0 <= k < |ss| ==> IsTable(ss[k])
  {
    assert IsTable(m) ==> forall k :: 0 <= k < SplitCount(r) ==> IsTable(Split(m, a, b, r, k)) by {
      if IsTable(m) {
        forall k | 0 <= k < SplitCount(r) ensures IsTable(Split(m, a, b, r, k)) {
          SplitIsTable(m, a, b, r, k);
        }
      }
    }
    seq(SplitCount(r), hw requires 0 <= hw < SplitCount(r) => Split(m, a, b, r, hw))
  }
}
