/**
 The ranking statistics (analysis/fanout/fanout_analysis/statutils.py and s3_pairwise.py).

 Every trigger has at most one winner. On such data the Bradley-Terry iteration, which is
 built for pairwise contests, has the land counts as its only fixed points, and Cochran's Q
 is the chi-square statistic of "every sender lands equally often". Senders are numbered by
 their column; arithmetic is over the reals.
 */
module BradleyTerry {
  import opened Entries

  /** One row of the win matrix: 1 for the sender that landed, 0 for the others. */
  type Row = seq<nat>

  predicate SingleWinner(row: Row) {
    && (forall j: nat :: j < |row| ==> row[j] <= 1)
    && (forall i: nat, j: nat :: i < |row| && j < |row| && row[i] == 1 && row[j] == 1 ==> i == j)
  }

  predicate Matrix(rows: seq<Row>, k: nat) {
    forall r :: 0 <= r < |rows| ==> |rows[r]| == k
  }

  predicate SingleWinnerMatrix(rows: seq<Row>, k: nat) {
    Matrix(rows, k) && forall r :: 0 <= r < |rows| ==> SingleWinner(rows[r])
  }

  /** The first sender from `j` on that the row marks as winner. */
  function WinnerFrom(row: Row, j: nat): (w: Option<nat>)
    ensures w.Some? ==> j <= w.value < |row| && row[w.value] == 1
    ensures w.None? ==> forall t: nat :: j <= t < |row| ==> row[t] != 1
    decreases SatSub(|row|, j)
  {
    if j >= |row| then None else if row[j] == 1 then Some(j) else WinnerFrom(row, j + 1)
  }

  /** How many rows sender `i` wins. */
  function Wins(rows: seq<Row>, i: nat): nat {
    if rows == [] then 0
    else Wins(rows[..|rows| - 1], i) + OneIf(WinnerFrom(rows[|rows| - 1], 0) == Some(i))
  }

  /** Column total: how often sender `i` landed. */
  function Lands(rows: seq<Row>, i: nat): nat {
    if rows == [] then 0
    else
      var last := rows[|rows| - 1];
      Lands(rows[..|rows| - 1], i) + if i < |last| then last[i] else 0
  }

  lemma {:induction false} WinsAreLands(rows: seq<Row>, k: nat, i: nat)
    requires SingleWinnerMatrix(rows, k) && i < k
    ensures Wins(rows, i) == Lands(rows, i)
  {
    if rows != [] {
      WinsAreLands(rows[..|rows| - 1], k, i);
      var last := rows[|rows| - 1];
      assert SingleWinner(last);
    }
  }

  // ---- pairwise counts ----

  type WinCounts = map<(nat, nat), nat>

  function Beat(wc: WinCounts, i: nat, j: nat): nat {
    if (i, j) in wc then wc[(i, j)] else 0
  }

  /** The pairwise counts that a matrix amounts to: a winner beats every other sender. */
  ghost predicate Counts(wc: WinCounts, rows: seq<Row>, k: nat) {
    && (forall i: nat, j: nat :: Beat(wc, i, j) == if i < k && j < k && i != j then Wins(rows, i) else 0)
    && (forall key :: key in wc ==> wc[key] > 0)
  }

  /** The senders that the pairwise counts mention. */
  ghost predicate Mentioned(wc: WinCounts, i: nat) {
    exists key :: key in wc && (key.0 == i || key.1 == i)
  }

  /** With one winner and two senders, every sender is an item of the ranking. */
  lemma {:induction false} EverySenderIsRanked(wc: WinCounts, rows: seq<Row>, k: nat, winner: nat, i: nat)
    requires Counts(wc, rows, k) && k >= 2 && winner < k && Wins(rows, winner) > 0
    ensures Mentioned(wc, i) <==> i < k
  {
    if i < k {
      var other := if i == winner then (if i == 0 then 1 else 0) else i;
      assert Beat(wc, winner, other) > 0;
      assert (winner, other) in wc;
    }
    if Mentioned(wc, i) {
      var key :| key in wc && (key.0 == i || key.1 == i);
      assert Beat(wc, key.0, key.1) > 0;
    }
  }

  /** The inner loop of `_build_win_counts`: the winner `w` beats everyone else once. */
  method CountRow(wc0: WinCounts, w: nat, k: nat) returns (wc: WinCounts)
    requires forall key :: key in wc0 ==> wc0[key] > 0
    ensures forall i: nat, j: nat :: Beat(wc, i, j) == Beat(wc0, i, j) + if i == w && j < k && j != w then 1 else 0
    ensures forall key :: key in wc ==> wc[key] > 0
  {
    wc := wc0;
    for s := 0 to k
      invariant forall i: nat, j: nat :: Beat(wc, i, j) == Beat(wc0, i, j) + if i == w && j < s && j != w then 1 else 0
      invariant forall key :: key in wc ==> wc[key] > 0
    {
      if s != w {
        wc := wc[(w, s) := Beat(wc, w, s) + 1];
      }
    }
  }

  /** `_build_win_counts`. */
  method BuildWinCounts(rows: seq<Row>, k: nat) returns (wc: WinCounts)
    requires Matrix(rows, k)
    ensures Counts(wc, rows, k)
  {
    wc := map[];
    for r := 0 to |rows|
      invariant Counts(wc, rows[..r], k)
    {
      var before := wc;
      var winner := WinnerFrom(rows[r], 0);
      assert rows[..r + 1][..r] == rows[..r] && rows[..r + 1][r] == rows[r];
      if winner.Some? {
        wc := CountRow(before, winner.value, k);
      }
      forall i: nat ensures Wins(rows[..r + 1], i) == Wins(rows[..r], i) + OneIf(winner == Some(i)) {
      }
    }
    assert rows[..|rows|] == rows;
  }

  // ---- totals and meetings ----

  /** How often `i` beat the senders below `n`. */
  function BeatTotal(wc: WinCounts, i: nat, n: nat): nat {
    if n == 0 then 0 else BeatTotal(wc, i, n - 1) + Beat(wc, i, n - 1)
  }

  /** Win totals `w` and meeting counts `m` of the pairwise counts, for `n` senders. */
  ghost predicate Totals(wc: WinCounts, n: nat, w: seq<nat>, m: seq<seq<nat>>) {
    && |w| == |m| == n
    && (forall i: nat :: i < n ==> w[i] == BeatTotal(wc, i, n) && |m[i]| == n)
    && (forall i: nat, j: nat :: i < n && j < n ==> m[i][j] == Beat(wc, i, j) + Beat(wc, j, i))
  }

  lemma {:induction false} BeatTotalMore(wc: WinCounts, a: nat, b: nat, c: nat, i: nat, n: nat)
    requires (a, b) !in wc
    ensures BeatTotal(wc[(a, b) := c], i, n) == BeatTotal(wc, i, n) + if i == a && b < n then c else 0
  {
    if n > 0 {
      BeatTotalMore(wc, a, b, c, i, n - 1);
      assert Beat(wc[(a, b) := c], i, n - 1) == Beat(wc, i, n - 1) + if i == a && b == n - 1 then c else 0;
    }
  }

  lemma {:induction false} NothingBeaten(i: nat, n: nat)
    ensures BeatTotal(map[], i, n) == 0
  {
    if n > 0 {
      NothingBeaten(i, n - 1);
    }
  }

  /** One entry of the dictionary: `w[i] += c; M[i, j] += c; M[j, i] += c`. */
  method AddPair(ghost wc: WinCounts, a: nat, b: nat, c: nat, w: array<nat>, m: array<seq<nat>>)
    requires w.Length == m.Length && a < w.Length && b < w.Length && (a, b) !in wc
    requires Totals(wc, w.Length, w[..], m[..])
    modifies w, m
    ensures Totals(wc[(a, b) := c], w.Length, w[..], m[..])
  {
    ghost var n, w0, m0 := w.Length, w[..], m[..];
    w[a] := w[a] + c;
    m[a] := m[a][b := m[a][b] + c];
    m[b] := m[b][a := m[b][a] + c];
    ghost var more := wc[(a, b) := c];
    forall i: nat | i < n ensures w[i] == BeatTotal(more, i, n) && |m[i]| == n {
      BeatTotalMore(wc, a, b, c, i, n);
      assert w0[i] == BeatTotal(wc, i, n) && |m0[i]| == n;
    }
    forall i: nat, j: nat | i < n && j < n ensures m[i][j] == Beat(more, i, j) + Beat(more, j, i) {
      assert m0[i][j] == Beat(wc, i, j) + Beat(wc, j, i);
    }
  }

  /** The tables that `bradley_terry` fills before iterating; the entries come in any order. */
  method FillTables(wc: WinCounts, n: nat) returns (w: array<nat>, m: array<seq<nat>>)
    requires forall key :: key in wc ==> key.0 < n && key.1 < n
    ensures fresh(w) && fresh(m)
    ensures Totals(wc, n, w[..], m[..])
  {
    w := new nat[n](_ => 0);
    var zeros: seq<nat> := seq(n, _ => 0);
    m := new seq<nat>[n](_ => zeros);
    ghost var done: WinCounts := map[];
    forall i: nat | i < n ensures BeatTotal(done, i, n) == 0 {
      NothingBeaten(i, n);
    }
    var todo := wc;
    while todo != map[]
      invariant fresh(w) && fresh(m) && w.Length == m.Length == n
      invariant Parts(wc, done, todo)
      invariant Totals(done, n, w[..], m[..])
      decreases |todo|
    {
      var key :| key in todo;
      var c := todo[key];
      MovePart(wc, done, todo, key);
      AddPair(done, key.0, key.1, c, w, m);
      done := done[key := c];
      todo := todo - {key};
    }
    AllMoved(wc, done);
  }

  /** `wc` falls into two disjoint parts. */
  ghost predicate Parts(wc: WinCounts, done: WinCounts, todo: WinCounts) {
    && (forall key :: key in wc <==> key in todo || key in done)
    && (forall key :: key in todo ==> key !in done && todo[key] == wc[key])
    && (forall key :: key in done ==> done[key] == wc[key])
  }

  lemma MovePart(wc: WinCounts, done: WinCounts, todo: WinCounts, key: (nat, nat))
    requires Parts(wc, done, todo) && key in todo
    ensures key in wc && key !in done
    ensures Parts(wc, done[key := todo[key]], todo - {key}) && |todo - {key}| < |todo|
  {
    assert todo.Keys == (todo - {key}).Keys + {key};
  }

  lemma AllMoved(wc: WinCounts, done: WinCounts)
    requires Parts(wc, done, map[])
    ensures done == wc
  {
  }

  /** The tables of single-winner data with land counts `lands`. */
  ghost predicate SingleWinnerTables(w: seq<nat>, m: seq<seq<nat>>, lands: seq<nat>) {
    var k := |lands|;
    && |w| == |m| == k
    && (forall i: nat :: i < k ==> w[i] == (k - 1) * lands[i] && |m[i]| == k)
    && (forall i: nat, j: nat :: i < k && j < k && i != j ==> m[i][j] == lands[i] + lands[j])
  }

  /** The land counts of all senders. */
  function LandCounts(rows: seq<Row>, k: nat): (lands: seq<nat>)
    ensures |lands| == k && forall i: nat :: i < k ==> lands[i] == Lands(rows, i)
  {
    seq(k, i requires 0 <= i < k => Lands(rows, i))
  }

  lemma {:induction false} BeatTotalIsOthers(wc: WinCounts, rows: seq<Row>, k: nat, i: nat, n: nat)
    requires Counts(wc, rows, k) && i < k && n <= k
    ensures BeatTotal(wc, i, n) == (n - OneIf(i < n)) * Wins(rows, i)
  {
    if n > 0 {
      BeatTotalIsOthers(wc, rows, k, i, n - 1);
      assert Beat(wc, i, n - 1) == if i != n - 1 then Wins(rows, i) else 0;
      Distribute(n - 1 - OneIf(i < n - 1), Wins(rows, i));
    }
  }

  lemma Distribute(a: int, b: int)
    ensures (a + 1) * b == a * b + b
  {
  }

  /** w_i = (k - 1) * L_i and M_ij = L_i + L_j on every single-winner matrix. */
  lemma TablesOfSingleWinners(wc: WinCounts, rows: seq<Row>, k: nat, w: seq<nat>, m: seq<seq<nat>>)
    requires SingleWinnerMatrix(rows, k) && Counts(wc, rows, k) && Totals(wc, k, w, m)
    ensures SingleWinnerTables(w, m, LandCounts(rows, k))
  {
    forall i: nat | i < k ensures w[i] == (k - 1) * Lands(rows, i) {
      BeatTotalIsOthers(wc, rows, k, i, k);
      WinsAreLands(rows, k, i);
    }
    forall i: nat, j: nat | i < k && j < k && i != j ensures m[i][j] == Lands(rows, i) + Lands(rows, j) {
      WinsAreLands(rows, k, i);
      WinsAreLands(rows, k, j);
    }
  }

  // ---- the update ----

  /** The division `M[i, j] / (p[i] + p[j])` never has a zero denominator. */
  predicate Defined(m: seq<seq<nat>>, p: seq<real>) {
    && |m| == |p|
    && (forall i: nat :: i < |m| ==> |m[i]| == |p|)
    && (forall i: nat, j: nat :: i < |m| && j < |p| && j != i && m[i][j] > 0 ==> p[i] + p[j] > 0.0)
  }

  function Denom(m: seq<seq<nat>>, p: seq<real>, i: nat, n: nat): real
    requires Defined(m, p) && i < |p| && n <= |p|
  {
    if n == 0 then 0.0
    else
      var j := n - 1;
      Denom(m, p, i, j) + if j != i && m[i][j] > 0 then m[i][j] as real / (p[i] + p[j]) else 0.0
  }

  function Updated(w: seq<nat>, m: seq<seq<nat>>, p: seq<real>, i: nat): real
    requires Defined(m, p) && |w| == |p| && i < |p|
  {
    var denom := Denom(m, p, i, |p|);
    if denom > 0.0 then w[i] as real / denom else p[i]
  }

  /** One round of the iteration, before normalisation. */
  method Update(w: seq<nat>, m: seq<seq<nat>>, p: seq<real>) returns (pNew: array<real>)
    requires Defined(m, p) && |w| == |p|
    ensures fresh(pNew) && pNew.Length == |p|
    ensures forall i: nat :: i < |p| ==> pNew[i] == Updated(w, m, p, i)
  {
    pNew := new real[|p|](_ => 0.0);
    for i := 0 to |p|
      invariant forall t: nat :: t < i ==> pNew[t] == Updated(w, m, p, t)
    {
      var denom := 0.0;
      for j := 0 to |p|
        invariant denom == Denom(m, p, i, j)
      {
        if j != i && m[i][j] > 0 {
          denom := denom + m[i][j] as real / (p[i] + p[j]);
        }
      }
      pNew[i] := if denom > 0.0 then w[i] as real / denom else p[i];
    }
  }

  /** What the senders from `j` on contribute: meetings over the sum of the two strengths. */
  function Exposure(m: seq<seq<nat>>, p: seq<real>, i: nat, j: nat): real
    requires Defined(m, p) && i < |p| && j <= |p|
    decreases |p| - j
  {
    if j == |p| then 0.0
    else if j == i || m[i][j] == 0 then Exposure(m, p, i, j + 1)
    else m[i][j] as real / (p[i] + p[j]) + Exposure(m, p, i, j + 1)
  }

  lemma {:induction false} DenomIsExposure(m: seq<seq<nat>>, p: seq<real>, i: nat, n: nat)
    requires Defined(m, p) && i < |p| && n <= |p|
    ensures Denom(m, p, i, n) + Exposure(m, p, i, n) == Exposure(m, p, i, 0)
  {
    if n > 0 {
      DenomIsExposure(m, p, i, n - 1);
    }
  }

  /**
   The equation that defines the update, for all tables: the new strength times the
   exposure to the old strengths is the number of wins; a sender that never met anyone
   keeps its strength.
   */
  lemma {:induction false} UpdateBalances(w: seq<nat>, m: seq<seq<nat>>, p: seq<real>, i: nat)
    requires Defined(m, p) && |w| == |p| && i < |p|
    ensures Exposure(m, p, i, 0) > 0.0 ==> Updated(w, m, p, i) * Exposure(m, p, i, 0) == w[i] as real
    ensures Exposure(m, p, i, 0) <= 0.0 ==> Updated(w, m, p, i) == p[i]
  {
    DenomIsExposure(m, p, i, |p|);
    if Exposure(m, p, i, 0) > 0.0 {
      Solve(w[i] as real, Exposure(m, p, i, 0), Updated(w, m, p, i));
    }
  }

  // ---- the update on single-winner data, in terms of the land counts alone ----

  /** What the meetings of two senders with lands `a`, `b` and strengths `x`, `y` contribute. */
  function Meeting(a: nat, b: nat, x: real, y: real): real {
    if a + b > 0 && x + y > 0.0 then (a + b) as real / (x + y) else 0.0
  }

  function LandDenom(lands: seq<nat>, p: seq<real>, i: nat, n: nat): real
    requires |p| == |lands| && i < |p| && n <= |p|
  {
    if n == 0 then 0.0
    else LandDenom(lands, p, i, n - 1) + if n - 1 != i then Meeting(lands[i], lands[n - 1], p[i], p[n - 1]) else 0.0
  }

  function LandUpdated(lands: seq<nat>, p: seq<real>, i: nat): real
    requires |p| == |lands| && i < |p|
  {
    var denom := LandDenom(lands, p, i, |p|);
    if denom > 0.0 then Opponents(lands) * lands[i] as real / denom else p[i]
  }

  function Opponents(lands: seq<nat>): real {
    |lands| as real - 1.0
  }

  lemma {:induction false} RealProduct(a: nat, b: nat)
    ensures (a * b) as real == a as real * b as real
  {
    if a > 0 {
      RealProduct(a - 1, b);
      assert a * b == (a - 1) * b + b;
      Spread(b as real, (a - 1) as real, 1.0);
    }
  }

  lemma {:induction false} DenomIsLandDenom(w: seq<nat>, m: seq<seq<nat>>, lands: seq<nat>, p: seq<real>, i: nat, n: nat)
    requires SingleWinnerTables(w, m, lands) && Defined(m, p) && |p| == |lands| && i < |p| && n <= |p|
    ensures Denom(m, p, i, n) == LandDenom(lands, p, i, n)
  {
    if n > 0 {
      DenomIsLandDenom(w, m, lands, p, i, n - 1);
      if n - 1 != i {
        assert m[i][n - 1] == lands[i] + lands[n - 1];
        if m[i][n - 1] > 0 {
          assert p[i] + p[n - 1] > 0.0;
        }
      }
    }
  }

  lemma UpdatedIsLandUpdated(w: seq<nat>, m: seq<seq<nat>>, lands: seq<nat>, p: seq<real>, i: nat)
    requires SingleWinnerTables(w, m, lands) && Defined(m, p) && |p| == |lands| && i < |p|
    ensures Updated(w, m, p, i) == LandUpdated(lands, p, i)
  {
    DenomIsLandDenom(w, m, lands, p, i, |p|);
    WinTotal(w, m, lands, i);
  }

  lemma WinTotal(w: seq<nat>, m: seq<seq<nat>>, lands: seq<nat>, i: nat)
    requires SingleWinnerTables(w, m, lands) && i < |lands|
    ensures w[i] as real == Opponents(lands) * lands[i] as real
  {
    assert w[i] == (|lands| - 1) * lands[i];
    RealProduct(|lands| - 1, lands[i]);
  }

  // ---- arithmetic ----

  lemma Spread(r: real, a: real, b: real)
    ensures r * (a + b) == r * a + r * b && (a + b) * r == a * r + b * r
  {
  }

  lemma Quotient(a: real, b: real, r: real)
    requires a > 0.0 && b > 0.0 && r > 0.0
    ensures b <= r * a ==> a / b >= 1.0 / r
    ensures b >= r * a ==> a / b <= 1.0 / r
    ensures a / b == 1.0 / r ==> b == r * a
  {
    var q, s := a / b, 1.0 / r;
    assert q * b == a && s * r == 1.0 && q > 0.0 && s > 0.0;
    if b <= r * a {
      assert s * b <= s * (r * a) == a;
      assert (q - s) * b >= 0.0;
    }
    if b >= r * a {
      assert s * b >= s * (r * a) == a;
      assert (q - s) * b <= 0.0;
    }
    if q == s {
      assert r * a == r * (s * b) == b;
    }
  }

  lemma PositiveQuotient(a: real, b: real)
    requires a > 0.0 && b > 0.0
    ensures a / b > 0.0
  {
    assert (a / b) * b == a;
  }

  lemma Solve(a: real, b: real, x: real)
    requires b > 0.0
    ensures a / b == x <==> a == x * b
  {
    assert (a / b) * b == a;
  }

  /** `n` copies of `u`, added up. */
  function Times(n: nat, u: real): real {
    if n == 0 then 0.0 else Times(n - 1, u) + u
  }

  lemma {:induction false} TimesIsProduct(n: nat, u: real)
    ensures Times(n, u) == n as real * u
  {
    if n > 0 {
      TimesIsProduct(n - 1, u);
      Spread(u, (n - 1) as real, 1.0);
    }
  }

  // ---- bounds on the denominator ----

  /** Strengths are nonnegative, and positive for everyone who ever landed. */
  predicate Sane(p: seq<real>, lands: seq<nat>) {
    |p| == |lands| && forall i: nat :: i < |p| ==> p[i] >= 0.0 && (lands[i] > 0 ==> p[i] > 0.0)
  }

  /** Strength `r` per land. */
  function Fair(r: real, lands: seq<nat>, i: nat): real
    requires i < |lands|
  {
    r * lands[i] as real
  }

  /** A sender of strength `r` per land meeting another. */
  lemma MeetingBounds(a: nat, b: nat, x: real, y: real, r: real)
    requires a > 0 && r > 0.0 && x == r * a as real && y >= 0.0
    ensures y <= r * b as real ==> Meeting(a, b, x, y) >= 1.0 / r
    ensures y >= r * b as real ==> Meeting(a, b, x, y) <= 1.0 / r
    ensures Meeting(a, b, x, y) == 1.0 / r ==> y == r * b as real
  {
    assert x > 0.0;
    Spread(r, a as real, b as real);
    Quotient((a + b) as real, x + y, r);
  }

  function Others(i: nat, n: nat): nat {
    n - OneIf(i < n)
  }

  /** Sender `i` landed and has strength `r` per land. */
  ghost predicate Pivot(lands: seq<nat>, p: seq<real>, i: nat, r: real) {
    Sane(p, lands) && i < |p| && lands[i] > 0 && r > 0.0 && p[i] == Fair(r, lands, i)
  }

  /** What sender `j` adds to the denominator of sender `i`. */
  lemma ShareBounds(lands: seq<nat>, p: seq<real>, i: nat, r: real, j: nat)
    requires Pivot(lands, p, i, r) && j < |p|
    ensures var share := Meeting(lands[i], lands[j], p[i], p[j]);
            && (p[j] <= Fair(r, lands, j) ==> share >= 1.0 / r)
            && (p[j] >= Fair(r, lands, j) ==> share <= 1.0 / r)
            && (share == 1.0 / r ==> p[j] == Fair(r, lands, j))
  {
    MeetingBounds(lands[i], lands[j], p[i], p[j], r);
  }

  /**
   If sender `i` has the largest strength per land, `r`, its denominator is at least
   (k - 1) / r, and equal to it only when all senders have strength `r` per land.
   */
  lemma {:induction false} LargestRatio(lands: seq<nat>, p: seq<real>, i: nat, r: real, n: nat)
    requires Pivot(lands, p, i, r) && n <= |p|
    requires forall j: nat :: j < |p| ==> p[j] <= Fair(r, lands, j)
    ensures LandDenom(lands, p, i, n) >= Times(Others(i, n), 1.0 / r)
    ensures LandDenom(lands, p, i, n) == Times(Others(i, n), 1.0 / r) ==>
            forall j: nat :: j < n ==> p[j] == Fair(r, lands, j)
  {
    if n > 0 {
      LargestRatio(lands, p, i, r, n - 1);
      if n - 1 != i {
        ShareBounds(lands, p, i, r, n - 1);
        assert p[n - 1] <= Fair(r, lands, n - 1);
      }
    }
  }

  /** The mirror image, for the smallest strength per land. */
  lemma {:induction false} SmallestRatio(lands: seq<nat>, p: seq<real>, i: nat, r: real, n: nat)
    requires Pivot(lands, p, i, r) && n <= |p|
    requires forall j: nat :: j < |p| ==> p[j] >= Fair(r, lands, j)
    ensures LandDenom(lands, p, i, n) <= Times(Others(i, n), 1.0 / r)
  {
    if n > 0 {
      SmallestRatio(lands, p, i, r, n - 1);
      if n - 1 != i {
        ShareBounds(lands, p, i, r, n - 1);
        assert p[n - 1] >= Fair(r, lands, n - 1);
      }
    }
  }

  lemma {:induction false} DenomIsPositive(lands: seq<nat>, p: seq<real>, i: nat, t: nat, n: nat)
    requires |p| == |lands| && i < |p| && n <= |p|
    requires t < |p| && t != i && lands[i] + lands[t] > 0 && p[i] + p[t] > 0.0
    ensures LandDenom(lands, p, i, n) >= 0.0 && (t < n ==> LandDenom(lands, p, i, n) > 0.0)
  {
    if n > 0 {
      DenomIsPositive(lands, p, i, t, n - 1);
      if lands[i] + lands[n - 1] > 0 && p[i] + p[n - 1] > 0.0 {
        PositiveQuotient((lands[i] + lands[n - 1]) as real, p[i] + p[n - 1]);
      }
    }
  }

  /** At least two senders, and at least one of them landed. */
  ghost predicate Contest(lands: seq<nat>) {
    |lands| >= 2 && exists i: nat :: i < |lands| && lands[i] > 0
  }

  /** Every denominator is positive, so the fallback branch is never taken. */
  lemma {:induction false} EveryDenomIsPositive(lands: seq<nat>, p: seq<real>, i: nat)
    requires Contest(lands) && Sane(p, lands) && i < |p|
    ensures LandDenom(lands, p, i, |p|) > 0.0
  {
    var t: nat :| t < |lands| && lands[t] > 0;
    var other := if t != i then t else if i == 0 then 1 else 0;
    DenomIsPositive(lands, p, i, other, |p|);
  }

  /** The update gives strength 0 to a sender that never landed, and a positive one to any other. */
  lemma UpdatedSign(lands: seq<nat>, p: seq<real>, i: nat)
    requires Contest(lands) && Sane(p, lands) && i < |p|
    ensures if lands[i] == 0 then LandUpdated(lands, p, i) == 0.0 else LandUpdated(lands, p, i) > 0.0
  {
    EveryDenomIsPositive(lands, p, i);
    var denom := LandDenom(lands, p, i, |p|);
    if lands[i] > 0 {
      PositiveQuotient(Opponents(lands) * lands[i] as real, denom);
    } else {
      Solve(Opponents(lands) * lands[i] as real, denom, 0.0);
    }
  }

  // ---- what a round leaves as it is, or multiplies by a common factor ----

  ghost predicate Scaled(p: seq<real>, c: real, lands: seq<nat>) {
    |p| == |lands| && forall i: nat :: i < |p| ==> p[i] == Fair(c, lands, i)
  }

  lemma ScaledIsSane(p: seq<real>, c: real, lands: seq<nat>)
    requires c > 0.0 && Scaled(p, c, lands)
    ensures Sane(p, lands)
  {
    forall i: nat | i < |p| ensures p[i] >= 0.0 && (lands[i] > 0 ==> p[i] > 0.0) {
      assert p[i] == Fair(c, lands, i);
    }
  }

  /** The update multiplies every strength by the same factor, as normalising would undo. */
  ghost predicate LandStationary(lands: seq<nat>, p: seq<real>, factor: real) {
    |p| == |lands| && forall i: nat :: i < |p| ==> LandUpdated(lands, p, i) == factor * p[i]
  }

  function Ratio(p: seq<real>, lands: seq<nat>, i: nat): real
    requires |p| == |lands| && i < |p| && lands[i] > 0
  {
    p[i] / lands[i] as real
  }

  lemma {:induction false} ExtremeRatios(p: seq<real>, lands: seq<nat>, n: nat) returns (hi: nat, lo: nat)
    requires |p| == |lands| && n <= |p| && exists i: nat :: i < n && lands[i] > 0
    ensures hi < n && lo < n && lands[hi] > 0 && lands[lo] > 0
    ensures forall j: nat :: j < n && lands[j] > 0 ==>
              Ratio(p, lands, lo) <= Ratio(p, lands, j) <= Ratio(p, lands, hi)
  {
    if exists i: nat :: i < n - 1 && lands[i] > 0 {
      hi, lo := ExtremeRatios(p, lands, n - 1);
      if lands[n - 1] > 0 {
        if Ratio(p, lands, n - 1) > Ratio(p, lands, hi) { hi := n - 1; }
        if Ratio(p, lands, n - 1) < Ratio(p, lands, lo) { lo := n - 1; }
      }
    } else {
      hi, lo := n - 1, n - 1;
    }
  }

  lemma ScaleBound(x: real, l: real, r: real)
    requires l > 0.0
    ensures x / l <= r ==> x <= r * l
    ensures x / l >= r ==> x >= r * l
  {
    assert (x / l) * l == x;
  }

  lemma RatioBounds(lands: seq<nat>, p: seq<real>, factor: real, s: real, r: real, j: nat)
    requires Contest(lands) && Sane(p, lands) && factor > 0.0
    requires j < |p| && LandUpdated(lands, p, j) == factor * p[j]
    requires lands[j] > 0 ==> s <= Ratio(p, lands, j) <= r
    ensures Fair(s, lands, j) <= p[j] <= Fair(r, lands, j)
  {
    if lands[j] == 0 {
      UpdatedSign(lands, p, j);
    } else {
      ScaleBound(p[j], lands[j] as real, r);
      ScaleBound(p[j], lands[j] as real, s);
    }
  }

  lemma RatioIsPivot(lands: seq<nat>, p: seq<real>, i: nat)
    requires Sane(p, lands) && i < |p| && lands[i] > 0
    ensures Pivot(lands, p, i, Ratio(p, lands, i))
  {
    PositiveQuotient(p[i], lands[i] as real);
    Solve(p[i], lands[i] as real, Ratio(p, lands, i));
  }

  lemma CancelLands(factor: real, r: real, l: real, d: real, k: real, wins: real, strength: real, x: real)
    requires l > 0.0 && wins == k * l && strength == r * l && x == r * d
    requires wins == (factor * strength) * d
    ensures factor * x == k
  {
    assert (factor * (r * l)) * d == (factor * (r * d)) * l;
    assert (factor * x - k) * l == 0.0;
  }

  lemma Multiplied(factor: real, r: real, l: real, d: real, k: real, strength: real, next: real) returns (x: real)
    requires d > 0.0 && l > 0.0 && strength == r * l && next == k * l / d && next == factor * strength
    ensures x == r * d && factor * x == k
  {
    x := r * d;
    var wins := k * l;
    Solve(wins, d, next);
    CancelLands(factor, r, l, d, k, wins, strength, x);
  }

  /** A sender of strength `r` per land that is multiplied by `factor` has denominator (k - 1) / (factor * r). */
  lemma StationaryDenom(lands: seq<nat>, p: seq<real>, factor: real, i: nat, r: real) returns (x: real)
    requires Contest(lands) && Pivot(lands, p, i, r) && LandUpdated(lands, p, i) == factor * p[i]
    ensures x == r * LandDenom(lands, p, i, |p|) && factor * x == Opponents(lands)
  {
    EveryDenomIsPositive(lands, p, i);
    x := Multiplied(factor, r, lands[i] as real, LandDenom(lands, p, i, |p|), Opponents(lands), p[i],
                    LandUpdated(lands, p, i));
  }

  lemma FactorBound(k: real, factor: real, d: real, r: real, x: real, e: real)
    requires k > 0.0 && factor > 0.0 && r > 0.0 && x == r * d && factor * x == k && e == k * (1.0 / r)
    ensures d >= e ==> factor <= 1.0
    ensures d <= e ==> factor >= 1.0
    ensures factor == 1.0 ==> d == e
  {
    assert r * (1.0 / r) == 1.0;
    assert r * e == k;
    assert (factor - 1.0) * x == k - x;
    assert r * (d - e) == x - k;
    assert x > 0.0;
  }

  lemma {:induction false} StationaryFactor(lands: seq<nat>, p: seq<real>, factor: real, i: nat, r: real)
    requires Contest(lands) && Pivot(lands, p, i, r) && factor > 0.0 && LandUpdated(lands, p, i) == factor * p[i]
    ensures var d, e := LandDenom(lands, p, i, |p|), Times(Others(i, |p|), 1.0 / r);
            && (d >= e ==> factor <= 1.0)
            && (d <= e ==> factor >= 1.0)
            && (factor == 1.0 ==> d == e)
  {
    var x := StationaryDenom(lands, p, factor, i, r);
    FactorOfDenom(lands, p, factor, i, r, x);
  }

  lemma {:induction false} FactorOfDenom(lands: seq<nat>, p: seq<real>, factor: real, i: nat, r: real, x: real)
    requires |lands| == |p| >= 2 && i < |p| && r > 0.0 && factor > 0.0
    requires x == r * LandDenom(lands, p, i, |p|) && factor * x == Opponents(lands)
    ensures var d, e := LandDenom(lands, p, i, |p|), Times(Others(i, |p|), 1.0 / r);
            && (d >= e ==> factor <= 1.0)
            && (d <= e ==> factor >= 1.0)
            && (factor == 1.0 ==> d == e)
  {
    TimesIsProduct(Others(i, |p|), 1.0 / r);
    FactorBound(Opponents(lands), factor, LandDenom(lands, p, i, |p|), r, x, Times(Others(i, |p|), 1.0 / r));
  }

  lemma LargestStationary(lands: seq<nat>, p: seq<real>, factor: real, i: nat, r: real)
    requires Contest(lands) && Pivot(lands, p, i, r) && factor > 0.0 && LandUpdated(lands, p, i) == factor * p[i]
    requires forall j: nat :: j < |p| ==> p[j] <= Fair(r, lands, j)
    ensures factor <= 1.0 && (factor == 1.0 ==> Scaled(p, r, lands))
  {
    StationaryFactor(lands, p, factor, i, r);
    LargestRatio(lands, p, i, r, |p|);
  }

  lemma SmallestStationary(lands: seq<nat>, p: seq<real>, factor: real, i: nat, r: real)
    requires Contest(lands) && Pivot(lands, p, i, r) && factor > 0.0 && LandUpdated(lands, p, i) == factor * p[i]
    requires forall j: nat :: j < |p| ==> p[j] >= Fair(r, lands, j)
    ensures factor >= 1.0
  {
    StationaryFactor(lands, p, factor, i, r);
    SmallestRatio(lands, p, i, r, |p|);
  }

  /** A sender whose denominator is (k - 1) / c keeps its strength. */
  lemma {:induction false} WinnerIsFixed(lands: seq<nat>, p: seq<real>, c: real, i: nat)
    requires Contest(lands) && Pivot(lands, p, i, c)
    requires LandDenom(lands, p, i, |p|) == Times(Others(i, |p|), 1.0 / c)
    ensures LandUpdated(lands, p, i) == p[i]
  {
    UpdatedSign(lands, p, i);
    var next := LandUpdated(lands, p, i);
    var factor := next / p[i];
    PositiveQuotient(next, p[i]);
    Solve(next, p[i], factor);
    StationaryFactor(lands, p, factor, i, c);
    Solve(next, p[i], 1.0);
  }

  /** Every positive multiple of the land counts is left as it is. */
  lemma ScaledIsFixed(lands: seq<nat>, p: seq<real>, c: real, i: nat)
    requires Contest(lands) && c > 0.0 && Scaled(p, c, lands) && i < |p|
    ensures LandUpdated(lands, p, i) == p[i]
  {
    ScaledIsSane(p, c, lands);
    assert p[i] == Fair(c, lands, i);
    if lands[i] == 0 {
      UpdatedSign(lands, p, i);
    } else {
      LargestRatio(lands, p, i, c, |p|);
      SmallestRatio(lands, p, i, c, |p|);
      WinnerIsFixed(lands, p, c, i);
    }
  }

  /** Nothing else is multiplied by a common factor. */
  lemma StationaryIsScaled(lands: seq<nat>, p: seq<real>, factor: real) returns (c: real)
    requires Contest(lands) && Sane(p, lands) && factor > 0.0 && LandStationary(lands, p, factor)
    ensures factor == 1.0 && c > 0.0 && Scaled(p, c, lands)
  {
    var hi, lo := ExtremeRatios(p, lands, |p|);
    var r, s := Ratio(p, lands, hi), Ratio(p, lands, lo);
    RatioIsPivot(lands, p, hi);
    RatioIsPivot(lands, p, lo);
    forall j: nat | j < |p| ensures Fair(s, lands, j) <= p[j] <= Fair(r, lands, j) {
      RatioBounds(lands, p, factor, s, r, j);
    }
    LargestStationary(lands, p, factor, hi, r);
    SmallestStationary(lands, p, factor, lo, s);
    c := r;
  }

  // ---- the results, on the tables that the program fills ----

  lemma SaneIsDefined(w: seq<nat>, m: seq<seq<nat>>, lands: seq<nat>, p: seq<real>)
    requires SingleWinnerTables(w, m, lands) && Sane(p, lands)
    ensures Defined(m, p)
  {
  }

  /** The update multiplies every strength by `factor`. */
  ghost predicate Stationary(w: seq<nat>, m: seq<seq<nat>>, p: seq<real>, factor: real) {
    && Defined(m, p) && |w| == |p|
    && forall i: nat :: i < |p| ==> Updated(w, m, p, i) == factor * p[i]
  }

  /**
   Exactly the positive multiples of the land counts are stationary, even up to
   normalisation: no other strengths come out of a round multiplied by a common factor, and
   that factor is 1.
   */
  lemma StationaryExactlyLandCounts(w: seq<nat>, m: seq<seq<nat>>, lands: seq<nat>, p: seq<real>, factor: real)
    requires SingleWinnerTables(w, m, lands) && Contest(lands) && Sane(p, lands) && factor > 0.0
    ensures Stationary(w, m, p, factor) <==> factor == 1.0 && exists c :: c > 0.0 && Scaled(p, c, lands)
  {
    SaneIsDefined(w, m, lands, p);
    forall i: nat | i < |p| ensures Updated(w, m, p, i) == LandUpdated(lands, p, i) {
      UpdatedIsLandUpdated(w, m, lands, p, i);
    }
    if Stationary(w, m, p, factor) {
      assert LandStationary(lands, p, factor);
      var c := StationaryIsScaled(lands, p, factor);
    }
    if factor == 1.0 && exists c :: c > 0.0 && Scaled(p, c, lands) {
      var c :| c > 0.0 && Scaled(p, c, lands);
      forall i: nat | i < |p| ensures LandUpdated(lands, p, i) == factor * p[i] {
        ScaledIsFixed(lands, p, c, i);
      }
    }
  }

  lemma SameOrder(c: real, a: real, b: real, x: real, y: real)
    requires c > 0.0 && x == c * a && y == c * b
    ensures x < y <==> a < b
  {
    assert c * b - c * a == c * (b - a);
  }

  /** The ranking at a stationary point is the ranking by land count. */
  lemma StationaryRankingIsLandRanking(w: seq<nat>, m: seq<seq<nat>>, lands: seq<nat>, p: seq<real>, factor: real, i: nat, j: nat)
    requires SingleWinnerTables(w, m, lands) && Contest(lands) && Sane(p, lands) && factor > 0.0
    requires Stationary(w, m, p, factor) && i < |p| && j < |p|
    ensures p[i] < p[j] <==> lands[i] < lands[j]
  {
    StationaryExactlyLandCounts(w, m, lands, p, factor);
    var c :| c > 0.0 && Scaled(p, c, lands);
    ScaledRanking(lands, p, c, i, j);
  }

  lemma ScaledRanking(lands: seq<nat>, p: seq<real>, c: real, i: nat, j: nat)
    requires c > 0.0 && Scaled(p, c, lands) && i < |p| && j < |p|
    ensures p[i] < p[j] <==> lands[i] < lands[j]
  {
    assert p[i] == Fair(c, lands, i) && p[j] == Fair(c, lands, j);
    SameOrder(c, lands[i] as real, lands[j] as real, p[i], p[j]);
  }

  // ---- the iteration ----

  /**
   One round: the update, divided by a common positive number (the geometric mean when all
   strengths are positive, and 1 otherwise).
   */
  ghost predicate Round(w: seq<nat>, m: seq<seq<nat>>, p: seq<real>, mean: real, q: seq<real>) {
    && Defined(m, p) && |w| == |p| == |q| && mean > 0.0
    && forall i: nat :: i < |p| ==> q[i] == Updated(w, m, p, i) / mean
  }

  ghost predicate Rounds(w: seq<nat>, m: seq<seq<nat>>, ps: seq<seq<real>>, means: seq<real>) {
    && |ps| == |means| + 1
    && (forall i: nat :: i < |ps[0]| ==> ps[0][i] == 1.0)
    && (forall t: nat :: t < |means| ==> Round(w, m, ps[t], means[t], ps[t + 1]))
  }

  /**
   Every round of every iteration, however normalised, is free of zero divisions, and from
   the first round on exactly the senders that never landed have strength 0.
   */
  lemma {:induction false} IterationStaysSane(w: seq<nat>, m: seq<seq<nat>>, lands: seq<nat>, ps: seq<seq<real>>, means: seq<real>, t: nat)
    requires SingleWinnerTables(w, m, lands) && Contest(lands)
    requires Rounds(w, m, ps, means) && |ps[0]| == |lands| && t < |ps|
    ensures Sane(ps[t], lands) && Defined(m, ps[t])
    ensures t > 0 ==> forall i: nat :: i < |lands| ==> (ps[t][i] == 0.0 <==> lands[i] == 0)
  {
    if t > 0 {
      IterationStaysSane(w, m, lands, ps, means, t - 1);
      assert Round(w, m, ps[t - 1], means[t - 1], ps[t - 1 + 1]);
      RoundStaysSane(w, m, lands, ps[t - 1], means[t - 1], ps[t]);
    }
    SaneIsDefined(w, m, lands, ps[t]);
  }

  lemma RoundStaysSane(w: seq<nat>, m: seq<seq<nat>>, lands: seq<nat>, p: seq<real>, mean: real, q: seq<real>)
    requires SingleWinnerTables(w, m, lands) && Contest(lands)
    requires Round(w, m, p, mean, q) && Sane(p, lands)
    ensures Sane(q, lands)
    ensures forall i: nat :: i < |lands| ==> (q[i] == 0.0 <==> lands[i] == 0)
  {
    forall i: nat | i < |q| ensures if lands[i] == 0 then q[i] == 0.0 else q[i] > 0.0 {
      UpdatedIsLandUpdated(w, m, lands, p, i);
      UpdatedSign(lands, p, i);
      if lands[i] > 0 {
        PositiveQuotient(LandUpdated(lands, p, i), mean);
      }
    }
  }
}
