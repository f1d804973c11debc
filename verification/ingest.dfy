/**
 * `from_DomBot_matches`: reads DomBot match reports such as
 * "Alice 3.5–2.5 Bob" and adds each score into a results table keyed by
 * player name, returning the table with its labels sorted.
 *
 * The pattern `([\w ]+) (\d(?:\.\d)?)–(\d(?:\.\d)?) ([\w ]+)`, matched at
 * the start of a line, is modelled over ASCII characters: the first name
 * is the longest run of name characters after which the rest of the
 * pattern fits (the backtracking of a greedy group), and the rest is
 * deterministic.
 */
module Ingest {
  import opened Common
  import opened Sorting

  // ---------------------------------------------------------------------
  // Characters and score texts

  /** `\w` over ASCII: letters, digits and the underscore. */
  predicate IsWordChar(c: char) {
    ('a' <= c <= 'z') || ('A' <= c <= 'Z') || ('0' <= c <= '9') || c == '_'
  }

  /** `[\w ]`: a character a name may contain. */
  predicate IsNameChar(c: char) {
    IsWordChar(c) || c == ' '
  }

  predicate IsDigit(c: char) {
    '0' <= c <= '9'
  }

  /** The separator between the two scores (U+2013). */
  const EnDash: char := '\U{2013}'

  /** A name as the pattern reads it: one or more name characters. */
  predicate IsName(s: string) {
    |s| >= 1 && forall i :: 0 <= i < |s| ==> IsNameChar(s[i])
  }

  /** `\d(?:\.\d)?`: one digit, optionally a point and one more digit. */
  predicate IsScoreText(t: string) {
    || (|t| == 1 && IsDigit(t[0]))
    || (|t| == 3 && IsDigit(t[0]) && t[1] == '.' && IsDigit(t[2]))
  }

  function DigitValue(c: char): (v: real)
    requires IsDigit(c)
    ensures 0.0 <= v <= 9.0
  {
    (c as int - '0' as int) as real
  }

  /** `float(...)` of a score text, exactly. */
  function ScoreValue(t: string): (v: real)
    requires IsScoreText(t)
    ensures 0.0 <= v <= 9.9
    ensures |t| == 1 ==> v == DigitValue(t[0])
  {
    if |t| == 1 then DigitValue(t[0]) else DigitValue(t[0]) + DigitValue(t[2]) / 10.0
  }

  // ---------------------------------------------------------------------
  // Matching one line

  /** The four groups of a matching line: `a` scored `winsA` against `b`, who scored `winsB`. */
  datatype Report = Report(a: string, winsA: real, winsB: real, b: string)

  /** What follows the first name: the two score texts, the second name and the unread rest. */
  datatype Pieces = Pieces(sa: string, sb: string, b: string, rest: string)

  /** The length of the run of name characters at the start of `s`. */
  function NameRun(s: string): (n: nat)
    ensures n <= |s|
    ensures forall k :: 0 <= k < n ==> IsNameChar(s[k])
    ensures n == |s| || !IsNameChar(s[n])
  {
    if s == [] || !IsNameChar(s[0]) then 0 else 1 + NameRun(s[1..])
  }

  /**
   * A score at the start of `t` followed by `stop`: the score's text and
   * what follows `stop`. The decimal form is tried first; the plain form
   * only fits when `stop` follows the first digit.
   */
  function Score(t: string, stop: char): (r: Option<(string, string)>)
    ensures r.Some? ==> IsScoreText(r.value.0) && t == r.value.0 + ([stop] + r.value.1)
  {
    if |t| >= 4 && IsDigit(t[0]) && t[1] == '.' && IsDigit(t[2]) && t[3] == stop then
      assert t == t[..3] + ([t[3]] + t[4..]);
      Some((t[..3], t[4..]))
    else if |t| >= 2 && IsDigit(t[0]) && t[1] == stop then
      assert t == t[..1] + ([t[1]] + t[2..]);
      Some((t[..1], t[2..]))
    else
      None
  }

  /** The rest of the pattern after the first name: a space, the scores and the second name. */
  function Tail(t: string): (r: Option<Pieces>)
    ensures r.Some? ==> var p := r.value;
      && IsScoreText(p.sa) && IsScoreText(p.sb) && IsName(p.b)
      && (p.rest == [] || !IsNameChar(p.rest[0]))
  {
    if |t| >= 1 && t[0] == ' ' then
      match Score(t[1..], EnDash)
      case None => None
      case Some((sa, u)) =>
        match Score(u, ' ')
        case None => None
        case Some((sb, v)) =>
          var len := NameRun(v);
          if len == 0 then None else Some(Pieces(sa, sb, v[..len], v[len..]))
    else
      None
  }

  /** What `Tail` reads is exactly what it was given. */
  lemma TailShape(t: string)
    requires Tail(t).Some?
    ensures var p := Tail(t).value;
      t == [' '] + (p.sa + ([EnDash] + (p.sb + ([' '] + (p.b + p.rest)))))
  {
    var w := t[1..];
    var (sa, u) := Score(w, EnDash).value;
    var (sb, v) := Score(u, ' ').value;
    var len := NameRun(v);
    assert Tail(t) == Some(Pieces(sa, sb, v[..len], v[len..]));
    Glue(t, w, sa, u, sb, v, v[..len], v[len..]);
  }

  /** Substituting the pieces read one after another. */
  lemma Glue(t: string, w: string, sa: string, u: string, sb: string, v: string, b: string, rest: string)
    requires |t| >= 1 && t[0] == ' ' && w == t[1..]
    requires w == sa + ([EnDash] + u) && u == sb + ([' '] + v)
    requires |b| <= |v| && b == v[..|b|] && rest == v[|b|..]
    ensures t == [' '] + (sa + ([EnDash] + (sb + ([' '] + (b + rest)))))
  {
    assert t == [' '] + w;
    assert v == b + rest;
  }

  /**
   * The backtracking of the greedy first group: tries the first names
   * `s[..n]`, `s[..n-1]`, ..., `s[..1]` in turn and settles on the first
   * (longest) after which `tail` matches, giving its length and what
   * `tail` read.
   */
  function Backtrack(s: string, n: nat, tail: string -> Option<Pieces>): (r: Option<(nat, Pieces)>)
    requires n <= |s|
    ensures r.Some? ==> 1 <= r.value.0 <= n && tail(s[r.value.0..]) == Some(r.value.1)
    ensures r.Some? ==> forall k :: r.value.0 < k <= n ==> tail(s[k..]).None?
    ensures r.None? ==> forall k :: 1 <= k <= n ==> tail(s[k..]).None?
  {
    if n == 0 then None
    else
      match tail(s[n..])
      case Some(p) => Some((n, p))
      case None => Backtrack(s, n - 1, tail)
  }

  /**
   * `re.match` of the report pattern against `s`: `None` when the line
   * does not match at its start. The first name is the longest prefix of
   * name characters after which the rest of the pattern matches.
   */
  function ParseLine(s: string): (r: Option<Report>)
    ensures r.Some? ==> IsName(r.value.a) && IsName(r.value.b)
    ensures r.Some? ==> 0.0 <= r.value.winsA <= 9.9 && 0.0 <= r.value.winsB <= 9.9
  {
    match Backtrack(s, NameRun(s), Tail)
    case None => None
    case Some((k, p)) => Some(Report(s[..k], ScoreValue(p.sa), ScoreValue(p.sb), p.b))
  }

  /**
   * The line a report is written as, given the texts of its two scores,
   * followed by `rest`.
   */
  function Line(a: string, sa: string, sb: string, b: string, rest: string): (s: string)
    ensures |s| == |a| + |sa| + |sb| + |b| + |rest| + 3
  {
    a + ([' '] + (sa + ([EnDash] + (sb + ([' '] + (b + rest))))))
  }

  /** A run of name characters ending at `j` (or at the end of `s`) is what `NameRun` measures. */
  lemma {:induction false} NameRunIs(s: string, j: nat)
    requires j <= |s|
    requires forall k :: 0 <= k < j ==> IsNameChar(s[k])
    requires j == |s| || !IsNameChar(s[j])
    ensures NameRun(s) == j
  {
    if j > 0 {
      NameRunIs(s[1..], j - 1);
    }
  }

  /** A score text followed by `stop` is read back. */
  lemma ScoreRendered(t: string, stop: char, u: string)
    requires IsScoreText(t) && (stop == ' ' || stop == EnDash)
    ensures Score(t + ([stop] + u), stop) == Some((t, u))
  {
    var w := t + ([stop] + u);
    if |t| == 3 {
      assert w[..3] == t && w[4..] == u;
    } else {
      assert w[..1] == t && w[2..] == u;
    }
  }

  /** A rendered tail is read back. */
  lemma TailRendered(sa: string, sb: string, b: string, rest: string)
    requires IsName(b) && IsScoreText(sa) && IsScoreText(sb)
    requires rest == [] || !IsNameChar(rest[0])
    ensures Tail([' '] + (sa + ([EnDash] + (sb + ([' '] + (b + rest)))))) == Some(Pieces(sa, sb, b, rest))
  {
    var t := [' '] + (sa + ([EnDash] + (sb + ([' '] + (b + rest)))));
    assert t[1..] == sa + ([EnDash] + (sb + ([' '] + (b + rest))));
    ScoreRendered(sa, EnDash, sb + ([' '] + (b + rest)));
    ScoreRendered(sb, ' ', b + rest);
    var v := b + rest;
    assert |b| == |v| || v[|b|] == rest[0];
    NameRunIs(v, |b|);
    assert v[..|b|] == b && v[|b|..] == rest;
  }

  /** A run of name characters in front of `t` adds its length to the run. */
  lemma {:induction false} NameRunAppend(a: string, t: string)
    requires forall i :: 0 <= i < |a| ==> IsNameChar(a[i])
    ensures NameRun(a + t) == |a| + NameRun(t)
  {
    if a != [] {
      assert (a + t)[0] == a[0];
      assert (a + t)[1..] == a[1..] + t;
      NameRunAppend(a[1..], t);
    } else {
      assert a + t == t;
    }
  }

  /** A name character followed by one that is not is a run of one. */
  lemma NameRunOne(w: string)
    requires |w| >= 2 && IsNameChar(w[0]) && !IsNameChar(w[1])
    ensures NameRun(w) == 1
  {
    assert w[1..][0] == w[1];
  }

  /** Dropping `|a| + k` characters of `a + t` drops `k` of `t`. */
  lemma Drop(a: string, t: string, k: nat)
    requires k <= |t|
    ensures (a + t)[|a| + k..] == t[k..]
    ensures (a + t)[..|a|] == a
  {
  }

  /** Without a space in front the rest of the pattern cannot start. */
  lemma TailNeedsSpace(t: string)
    requires |t| >= 1 && t[0] != ' '
    ensures Tail(t) == None
  {
  }

  /**
   * First names that end after the space or after the first score digit
   * leave no room for the rest of the pattern: the search goes on below.
   */
  lemma BacktrackDrops(s: string, n: nat)
    requires n + 2 < |s| && s[n + 1] != ' ' && s[n + 2] != ' '
    ensures Backtrack(s, n + 2, Tail) == Backtrack(s, n, Tail)
  {
    assert s[n + 2..][0] == s[n + 2];
    TailNeedsSpace(s[n + 2..]);
    assert s[n + 1..][0] == s[n + 1];
    TailNeedsSpace(s[n + 1..]);
  }

  /** A first name followed by a rendered tail is taken. */
  lemma BacktrackTakes(s: string, n: nat, sa: string, sb: string, b: string, rest: string)
    requires 0 < n <= |s|
    requires IsName(b) && IsScoreText(sa) && IsScoreText(sb)
    requires rest == [] || !IsNameChar(rest[0])
    requires s[n..] == [' '] + (sa + ([EnDash] + (sb + ([' '] + (b + rest)))))
    ensures Backtrack(s, n, Tail) == Some((n, Pieces(sa, sb, b, rest)))
  {
    TailRendered(sa, sb, b, rest);
  }

  /**
   * Round trip: a rendered report, followed by anything that does not
   * extend the second name, parses back to that report.
   */
  lemma ParseRendered(a: string, sa: string, sb: string, b: string, rest: string)
    requires IsName(a) && IsName(b) && IsScoreText(sa) && IsScoreText(sb)
    requires rest == [] || !IsNameChar(rest[0])
    ensures ParseLine(Line(a, sa, sb, b, rest)) == Some(Report(a, ScoreValue(sa), ScoreValue(sb), b))
  {
    var s := Line(a, sa, sb, b, rest);
    var n := |a|;
    RenderedLine(a, sa, sb, b, rest);
    BacktrackDrops(s, n);
    BacktrackTakes(s, n, sa, sb, b, rest);
  }

  /**
   * In a rendered line the run of name characters from the start covers
   * the first name, the space and the first digit of the first score, and
   * stops at the point or the dash.
   */
  lemma RenderedLine(a: string, sa: string, sb: string, b: string, rest: string)
    requires IsName(a) && IsScoreText(sa)
    ensures var s := Line(a, sa, sb, b, rest);
      && NameRun(s) == |a| + 2 && s[|a| + 1] != ' ' && s[|a| + 2] != ' ' && s[..|a|] == a
      && s[|a|..] == [' '] + (sa + ([EnDash] + (sb + ([' '] + (b + rest)))))
  {
    var w := sa + ([EnDash] + (sb + ([' '] + (b + rest))));
    var t := [' '] + w;
    var s := a + t;
    assert s == Line(a, sa, sb, b, rest);
    assert w[0] == sa[0] && w[1] == (if |sa| == 3 then sa[1] else EnDash);
    NameRunOne(w);
    assert t[1..] == w;
    NameRunAppend(a, t);
    assert s[|a| + 1] == w[0] && s[|a| + 2] == w[1];
    Drop(a, t, 0);
  }

  /** The line is its first name followed by what `Tail` reads. */
  lemma Reassemble(s: string, n: nat, t: string)
    requires n <= |s| && s[n..] == t
    ensures s == s[..n] + t
  {
  }

  /**
   * Conversely, a line that parses is a rendered report followed by
   * something that does not extend the second name.
   */
  lemma ParsedIsRendered(s: string) returns (sa: string, sb: string, rest: string)
    requires ParseLine(s).Some?
    ensures IsScoreText(sa) && IsScoreText(sb)
    ensures ParseLine(s).value.winsA == ScoreValue(sa) && ParseLine(s).value.winsB == ScoreValue(sb)
    ensures rest == [] || !IsNameChar(rest[0])
    ensures s == Line(ParseLine(s).value.a, sa, sb, ParseLine(s).value.b, rest)
  {
    var (n, p) := Backtrack(s, NameRun(s), Tail).value;
    TailShape(s[n..]);
    sa, sb, rest := p.sa, p.sb, p.rest;
    Reassemble(s, n, [' '] + (sa + ([EnDash] + (sb + ([' '] + (p.b + rest))))));
  }

  /** A line without an en-dash never matches. */
  lemma ParseNeedsDash(s: string)
    requires ParseLine(s).Some?
    ensures EnDash in s
  {
    var sa, sb, rest := ParsedIsRendered(s);
    var a := ParseLine(s).value.a;
    assert s[|a| + 1 + |sa|] == EnDash;
  }

  // ---------------------------------------------------------------------
  // Python string order

  /** Python's `<=` on strings: code-point lexicographic order, a prefix first. */
  predicate StrLe(x: string, y: string) {
    x == [] || (y != [] && (x[0] < y[0] || (x[0] == y[0] && StrLe(x[1..], y[1..]))))
  }

  predicate StrLt(x: string, y: string) {
    StrLe(x, y) && x != y
  }

  lemma {:induction false} StrLeTotal(x: string, y: string)
    ensures StrLe(x, y) || StrLe(y, x)
  {
    if x != [] && y != [] && x[0] == y[0] {
      StrLeTotal(x[1..], y[1..]);
    }
  }

  lemma {:induction false} StrLeTransitive(x: string, y: string, z: string)
    requires StrLe(x, y) && StrLe(y, z)
    ensures StrLe(x, z)
  {
    if x != [] && y != [] && z != [] && x[0] == y[0] && y[0] == z[0] {
      StrLeTransitive(x[1..], y[1..], z[1..]);
    }
  }

  lemma {:induction false} StrLeAntisymmetric(x: string, y: string)
    requires StrLe(x, y) && StrLe(y, x)
    ensures x == y
  {
    if x != [] && y != [] {
      StrLeAntisymmetric(x[1..], y[1..]);
      assert x == [x[0]] + x[1..] && y == [y[0]] + y[1..];
    }
  }

  lemma StrLeIsTotalPreorder()
    ensures TotalPreorder(StrLe)
  {
    forall x, y ensures StrLe(x, y) || StrLe(y, x) {
      StrLeTotal(x, y);
    }
    forall x, y, z | StrLe(x, y) && StrLe(y, z) ensures StrLe(x, z) {
      StrLeTransitive(x, y, z);
    }
  }

  // ---------------------------------------------------------------------
  // Accumulating the table

  /** Each line parsed in order: `None` where the pattern does not match. */
  function ParseAll(lines: seq<string>): (r: seq<Option<Report>>)
    ensures |r| == |lines|
    decreases |lines|
  {
    if lines == [] then [] else ParseAll(lines[..|lines| - 1]) + [ParseLine(lines[|lines| - 1])]
  }

  /** The `k`-th parsed line is the `k`-th line, parsed. */
  lemma {:induction false} ParseAllAt(lines: seq<string>, k: nat)
    requires k < |lines|
    ensures ParseAll(lines)[k] == ParseLine(lines[k])
    decreases |lines|
  {
    if k < |lines| - 1 {
      var init := lines[..|lines| - 1];
      ParseAllAt(init, k);
    }
  }

  /** Parsing one more line appends its report. */
  lemma ParseAllSnoc(lines: seq<string>, i: nat)
    requires i < |lines|
    ensures ParseAll(lines[..i + 1]) == ParseAll(lines[..i]) + [ParseLine(lines[i])]
  {
    assert lines[..i + 1][..i] == lines[..i];
  }

  /** The cells built so far, keyed (row, column); a missing cell reads as 0. */
  type Cells = map<(string, string), real>

  /** The labels seen so far, each once, and the cells. */
  datatype Acc = Acc(labels: seq<string>, cells: Cells)

  /** A cell's value: the zero pre-set (or `fillna(0.)`) when it was never written. */
  function Get(cells: Cells, key: (string, string)): (r: real)
    ensures key !in cells ==> r == 0.0
    ensures key in cells ==> r == cells[key]
  {
    if key in cells then cells[key] else 0.0
  }

  /** `matrix[col][row] += x`. */
  function Credit(cells: Cells, row: string, col: string, x: real): (r: Cells)
    ensures Get(r, (row, col)) == Get(cells, (row, col)) + x
    ensures forall key :: key != (row, col) ==> Get(r, key) == Get(cells, key)
  {
    cells[(row, col) := Get(cells, (row, col)) + x]
  }

  /** Adds `x` to the labels unless it is there already. */
  function AddLabel(labels: seq<string>, x: string): (r: seq<string>)
    ensures NoDuplicates(labels) ==> NoDuplicates(r)
    ensures forall y :: y in r <==> y in labels || y == x
    ensures labels <= r
  {
    if x in labels then labels else labels + [x]
  }

  /** The keys of `{p: ... for p in players}`: each player once, in first-seen order. */
  function Dedup(ps: seq<string>): (r: seq<string>)
    ensures NoDuplicates(r)
    ensures forall x :: x in r <==> x in ps
  {
    if ps == [] then [] else AddLabel(Dedup(ps[..|ps| - 1]), ps[|ps| - 1])
  }

  /** The table before any line: the given players, or nothing. */
  function Init(players: Option<seq<string>>): (acc: Acc)
    ensures NoDuplicates(acc.labels)
  {
    match players
    case None => Acc([], map[])
    case Some(ps) => Acc(Dedup(ps), map[])
  }

  /**
   * One line's effect: nothing for a line that does not match; otherwise
   * the column key and then the row key are checked against `players` (a
   * `KeyError` names the first one missing), then `winsA` is added at
   * (a, b) and `winsB` at (b, a).
   */
  function Step(acc: Acc, rep: Option<Report>, players: Option<seq<string>>): (r: Result<Acc, string>)
    ensures NoDuplicates(acc.labels) && r.Ok? ==> NoDuplicates(r.value.labels)
    ensures r.Err? <==> rep.Some? && players.Some? && !(rep.value.a in players.value && rep.value.b in players.value)
    ensures r.Err? ==> r.error !in players.value
  {
    match rep
    case None => Ok(acc)
    case Some(rep) =>
      if players.Some? && rep.b !in players.value then Err(rep.b)
      else if players.Some? && rep.a !in players.value then Err(rep.a)
      else
        var cells := Credit(Credit(acc.cells, rep.a, rep.b, rep.winsA), rep.b, rep.a, rep.winsB);
        Ok(Acc(AddLabel(AddLabel(acc.labels, rep.b), rep.a), cells))
  }

  /** Processing the parsed lines in order, stopping at the first `KeyError`. */
  function Tally(reps: seq<Option<Report>>, players: Option<seq<string>>): (r: Result<Acc, string>)
    ensures r.Ok? ==> NoDuplicates(r.value.labels)
    decreases |reps|
  {
    if reps == [] then Ok(Init(players))
    else
      match Tally(reps[..|reps| - 1], players)
      case Err(e) => Err(e)
      case Ok(acc) => Step(acc, reps[|reps| - 1], players)
  }

  /** What a report adds to cell (x, y). */
  function Contribution(rep: Option<Report>, x: string, y: string): real {
    match rep
    case None => 0.0
    case Some(rep) =>
      (if rep.a == x && rep.b == y then rep.winsA else 0.0) + (if rep.b == x && rep.a == y then rep.winsB else 0.0)
  }

  /** Reference definition of a cell: the sum of the contributions of the matching lines. */
  function Credited(reps: seq<Option<Report>>, x: string, y: string): (r: real)
    ensures (forall k :: 0 <= k < |reps| ==> Contribution(reps[k], x, y) == 0.0) ==> r == 0.0
    ensures (forall k :: 0 <= k < |reps| && reps[k].Some? ==> reps[k].value.winsA >= 0.0 && reps[k].value.winsB >= 0.0) ==>
      r >= 0.0
    decreases |reps|
  {
    if reps == [] then 0.0
    else Credited(reps[..|reps| - 1], x, y) + Contribution(reps[|reps| - 1], x, y)
  }

  /** Reference definition of the labels: the names of the matching lines. */
  function Named(reps: seq<Option<Report>>): set<string>
    decreases |reps|
  {
    if reps == [] then {}
    else
      var last := match reps[|reps| - 1]
        case None => {}
        case Some(rep) => {rep.a, rep.b};
      Named(reps[..|reps| - 1]) + last
  }

  /** Every matching line names only players from `ps`. */
  predicate AllNamedIn(reps: seq<Option<Report>>, ps: seq<string>) {
    forall k :: 0 <= k < |reps| && reps[k].Some? ==> reps[k].value.a in ps && reps[k].value.b in ps
  }

  /** The reports of the matching lines, in order. */
  function Present(reps: seq<Option<Report>>): (r: seq<Option<Report>>)
    ensures forall k :: 0 <= k < |r| ==> r[k].Some?
    decreases |reps|
  {
    if reps == [] then []
    else
      var rest := Present(reps[..|reps| - 1]);
      if reps[|reps| - 1].Some? then rest + [reps[|reps| - 1]] else rest
  }

  /** Repeated lines accumulate: every cell is the sum over all the matching lines. */
  lemma {:induction false} TallyCells(reps: seq<Option<Report>>, players: Option<seq<string>>, x: string, y: string)
    requires Tally(reps, players).Ok?
    ensures Get(Tally(reps, players).value.cells, (x, y)) == Credited(reps, x, y)
    decreases |reps|
  {
    if reps != [] {
      var init := reps[..|reps| - 1];
      TallyCells(init, players, x, y);
      StepCells(Tally(init, players).value, reps[|reps| - 1], players, x, y);
    }
  }

  /** One line adds its contribution to each cell. */
  lemma StepCells(acc: Acc, rep: Option<Report>, players: Option<seq<string>>, x: string, y: string)
    requires Step(acc, rep, players).Ok?
    ensures Get(Step(acc, rep, players).value.cells, (x, y)) == Get(acc.cells, (x, y)) + Contribution(rep, x, y)
  {
  }

  /** Without `players`, the labels are exactly the names on the matching lines, each once. */
  lemma {:induction false} TallyLabels(reps: seq<Option<Report>>)
    ensures Tally(reps, None).Ok?
    ensures NoDuplicates(Tally(reps, None).value.labels)
    ensures forall x :: x in Tally(reps, None).value.labels <==> x in Named(reps)
    decreases |reps|
  {
    if reps != [] {
      TallyLabels(reps[..|reps| - 1]);
    }
  }

  /** With `players`, the labels stay the players, each once. */
  lemma {:induction false} TallyPlayerLabels(reps: seq<Option<Report>>, ps: seq<string>)
    requires Tally(reps, Some(ps)).Ok?
    ensures Tally(reps, Some(ps)).value.labels == Dedup(ps)
    decreases |reps|
  {
    if reps != [] {
      TallyPlayerLabels(reps[..|reps| - 1], ps);
    }
  }

  /** `AllNamedIn` line by line, from the last. */
  lemma AllNamedInLast(reps: seq<Option<Report>>, ps: seq<string>)
    requires reps != []
    ensures AllNamedIn(reps, ps) <==>
      AllNamedIn(reps[..|reps| - 1], ps) && AllNamedIn(reps[|reps| - 1..], ps)
  {
    var init := reps[..|reps| - 1];
    assert forall k :: 0 <= k < |init| ==> init[k] == reps[k];
    assert reps[|reps| - 1..][0] == reps[|reps| - 1];
  }

  /** With `players`, the lines go through exactly when every matching line names only players. */
  lemma {:induction false} TallyKeyError(reps: seq<Option<Report>>, ps: seq<string>)
    ensures Tally(reps, Some(ps)).Ok? <==> AllNamedIn(reps, ps)
    ensures Tally(reps, Some(ps)).Err? ==> Tally(reps, Some(ps)).error !in ps
    decreases |reps|
  {
    if reps != [] {
      TallyKeyError(reps[..|reps| - 1], ps);
      AllNamedInLast(reps, ps);
    }
  }

  /** Lines that do not match at their start change nothing. */
  lemma {:induction false} TallyIgnoresNonMatching(reps: seq<Option<Report>>, players: Option<seq<string>>)
    ensures Tally(reps, players) == Tally(Present(reps), players)
    decreases |reps|
  {
    if reps != [] {
      var init := reps[..|reps| - 1];
      TallyIgnoresNonMatching(init, players);
      if reps[|reps| - 1].Some? {
        var r := Present(reps);
        assert r[..|r| - 1] == Present(init);
      }
    }
  }

  // ---------------------------------------------------------------------
  // The sorted table

  /** The returned table: `names` labels both rows and columns; `cells[i][j]` is row `names[i]` against column `names[j]`. */
  datatype Table = Table(names: seq<string>, cells: seq<seq<real>>)

  /** Two sequences with the same elements, counted, are duplicate-free together. */
  lemma {:induction false} NoDuplicatesPermuted(s: seq<string>, t: seq<string>)
    requires multiset(s) == multiset(t) && NoDuplicates(s)
    ensures NoDuplicates(t)
  {
    forall i, j | 0 <= i < j < |t| ensures t[i] != t[j] {
      if t[i] == t[j] {
        var x := t[i];
        assert t == t[..i] + [t[i]] + t[i + 1..j] + [t[j]] + t[j + 1..];
        assert multiset(t)[x] >= 2;
        OccursOnce(s, x);
      }
    }
  }

  lemma {:induction false} OccursOnce(s: seq<string>, x: string)
    requires NoDuplicates(s)
    ensures multiset(s)[x] <= 1
  {
    if s != [] {
      var init := s[..|s| - 1];
      assert s == init + [s[|s| - 1]];
      assert NoDuplicates(init);
      OccursOnce(init, x);
      if x == s[|s| - 1] {
        assert x !in init;
      }
    }
  }

  /** `sort_index` on both axes, then reading absent cells as 0. */
  function ToTable(acc: Acc): (t: Table)
    requires NoDuplicates(acc.labels)
    ensures multiset(t.names) == multiset(acc.labels)
    ensures forall i, j :: 0 <= i < j < |t.names| ==> StrLt(t.names[i], t.names[j])
    ensures |t.cells| == |t.names| && forall i :: 0 <= i < |t.cells| ==> |t.cells[i]| == |t.names|
    ensures forall i, j :: 0 <= i < |t.names| && 0 <= j < |t.names| ==>
      t.cells[i][j] == Get(acc.cells, (t.names[i], t.names[j]))
  {
    StrLeIsTotalPreorder();
    var names := Sort(acc.labels, StrLe);
    NoDuplicatesPermuted(acc.labels, names);
    Table(names, seq(|names|, i requires 0 <= i < |names| =>
      seq(|names|, j requires 0 <= j < |names| => Get(acc.cells, (names[i], names[j])))))
  }

  /**
   * What the returned table holds: labels in strictly increasing order;
   * without `players` exactly the names on matching lines, with `players`
   * exactly the players; every cell the sum over the matching lines.
   */
  lemma TableOfLines(lines: seq<string>, players: Option<seq<string>>)
    requires Tally(ParseAll(lines), players).Ok?
    ensures var t := ToTable(Tally(ParseAll(lines), players).value);
      && (forall i, j :: 0 <= i < j < |t.names| ==> StrLt(t.names[i], t.names[j]))
      && (players.None? ==> forall x :: x in t.names <==> x in Named(ParseAll(lines)))
      && (players.Some? ==> forall x :: x in t.names <==> x in players.value)
      && forall i, j :: 0 <= i < |t.names| && 0 <= j < |t.names| ==>
           t.cells[i][j] == Credited(ParseAll(lines), t.names[i], t.names[j])
  {
    var reps := ParseAll(lines);
    TableNames(Tally(reps, players).value);
    if players.None? {
      TallyLabels(reps);
    } else {
      TallyPlayerLabels(reps, players.value);
    }
    TableCells(reps, players);
  }

  /** The table's names are the labels. */
  lemma TableNames(acc: Acc)
    requires NoDuplicates(acc.labels)
    ensures forall x :: x in ToTable(acc).names <==> x in acc.labels
  {
    var t := ToTable(acc);
    forall x ensures x in t.names <==> x in acc.labels {
      assert x in t.names <==> x in multiset(t.names);
    }
  }

  /** Every cell of the table is the sum over the matching lines. */
  lemma TableCells(reps: seq<Option<Report>>, players: Option<seq<string>>)
    requires Tally(reps, players).Ok?
    ensures var t := ToTable(Tally(reps, players).value);
      forall i, j :: 0 <= i < |t.names| && 0 <= j < |t.names| ==>
        t.cells[i][j] == Credited(reps, t.names[i], t.names[j])
  {
    var t := ToTable(Tally(reps, players).value);
    forall i, j | 0 <= i < |t.names| && 0 <= j < |t.names|
      ensures t.cells[i][j] == Credited(reps, t.names[i], t.names[j])
    {
      TallyCells(reps, players, t.names[i], t.names[j]);
    }
  }

  /**
   * `from_DomBot_matches`: one pass over the lines updating the cells in
   * place, then the sorted table; `Err(name)` is the `KeyError` for a name
   * outside `players`.
   */
  method FromDomBotMatches(lines: seq<string>, players: Option<seq<string>>) returns (res: Result<Table, string>)
    ensures Tally(ParseAll(lines), players).Err? ==> res == Err(Tally(ParseAll(lines), players).error)
    ensures Tally(ParseAll(lines), players).Ok? ==> res == Ok(ToTable(Tally(ParseAll(lines), players).value))
  {
    var init := Init(players);
    var labels := init.labels;
    var cells := init.cells;
    ghost var reps: seq<Option<Report>> := [];
    var i := 0;
    while i < |lines|
      invariant i <= |lines| && reps == ParseAll(lines[..i])
      invariant Tally(reps, players) == Ok(Acc(labels, cells))
    {
      var line := ParseLine(lines[i]);
      ParseAllSnoc(lines, i);
      TallySnoc(reps, line, players);
      reps := reps + [line];
      match line {
        case None =>
        case Some(rep) =>
          if players.Some? && rep.b !in players.value {
            TallyErrPersists(lines, i + 1, players);
            return Err(rep.b);
          }
          if players.Some? && rep.a !in players.value {
            TallyErrPersists(lines, i + 1, players);
            return Err(rep.a);
          }
          cells := Credit(cells, rep.a, rep.b, rep.winsA);
          cells := Credit(cells, rep.b, rep.a, rep.winsB);
          labels := AddLabel(AddLabel(labels, rep.b), rep.a);
      }
      i := i + 1;
    }
    assert lines[..i] == lines;
    res := Ok(ToTable(Acc(labels, cells)));
  }

  /** Tallying one more report is one more `Step`. */
  lemma TallySnoc(reps: seq<Option<Report>>, rep: Option<Report>, players: Option<seq<string>>)
    ensures Tally(reps, players).Err? ==> Tally(reps + [rep], players) == Tally(reps, players)
    ensures Tally(reps, players).Ok? ==> Tally(reps + [rep], players) == Step(Tally(reps, players).value, rep, players)
  {
    assert (reps + [rep])[..|reps|] == reps;
  }

  /** Once a `KeyError` is raised, later lines do not matter. */
  lemma {:induction false} TallyErrPersists(lines: seq<string>, i: nat, players: Option<seq<string>>)
    requires i <= |lines| && Tally(ParseAll(lines[..i]), players).Err?
    ensures Tally(ParseAll(lines), players) == Tally(ParseAll(lines[..i]), players)
    decreases |lines| - i
  {
    if i < |lines| {
      ParseAllSnoc(lines, i);
      TallySnoc(ParseAll(lines[..i]), ParseLine(lines[i]), players);
      TallyErrPersists(lines, i + 1, players);
    } else {
      assert lines[..i] == lines;
    }
  }
}
