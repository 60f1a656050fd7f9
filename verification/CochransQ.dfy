/**
 Cochran's Q (analysis/fanout/fanout_analysis/statutils.py) on single-winner data: it is
 Pearson's chi-square statistic of the land counts against equal shares, and it is zero
 exactly when all senders landed equally often.
 */
module CochransQ {
  import opened Entries
  import opened BradleyTerry

  function Sum(s: seq<nat>): nat {
    if s == [] then 0 else Sum(s[..|s| - 1]) + s[|s| - 1]
  }

  function SumOfSquares(s: seq<nat>): nat {
    if s == [] then 0 else SumOfSquares(s[..|s| - 1]) + s[|s| - 1] * s[|s| - 1]
  }

  /** `W.sum(axis=1)`: how many senders landed in each row. */
  function RowTotals(rows: seq<Row>): (totals: seq<nat>)
    ensures |totals| == |rows|
  {
    if rows == [] then [] else RowTotals(rows[..|rows| - 1]) + [Sum(rows[|rows| - 1])]
  }

  /**
   (k - 1) * (k * columnSquares - grand^2) / (k * grand - rowSquares), and 0 when the
   denominator is.
   */
  function Fraction(k: nat, grand: nat, columnSquares: nat, rowSquares: nat): real {
    var denom := k * grand - rowSquares;
    if denom == 0 then 0.0
    else ((k - 1) * (k * columnSquares - grand * grand)) as real / denom as real
  }

  /** The statistic of `cochrans_q`, from the column and row totals of the matrix. */
  function Statistic(lands: seq<nat>, rowTotals: seq<nat>): real {
    Fraction(|lands|, Sum(rowTotals), SumOfSquares(lands), SumOfSquares(rowTotals))
  }

  // ---- single-winner rows ----

  lemma {:induction false} RowTotalIsWinner(row: Row)
    requires SingleWinner(row)
    ensures Sum(row) == OneIf(exists j: nat :: j < |row| && row[j] == 1)
  {
    if row != [] {
      var init, last := row[..|row| - 1], row[|row| - 1];
      assert forall j: nat :: j < |init| ==> init[j] == row[j];
      RowTotalIsWinner(init);
      if exists j: nat :: j < |init| && init[j] == 1 {
        var j: nat :| j < |init| && init[j] == 1;
        assert row[j] == 1;
      }
      if last == 1 {
        assert row[|row| - 1] == 1;
      }
    }
  }

  lemma {:induction false} SquaresChangeNothing(rows: seq<Row>, k: nat)
    requires SingleWinnerMatrix(rows, k)
    ensures SumOfSquares(RowTotals(rows)) == Sum(RowTotals(rows))
  {
    if rows != [] {
      var init, last := rows[..|rows| - 1], rows[|rows| - 1];
      SquaresChangeNothing(init, k);
      RowTotalIsWinner(last);
      assert RowTotals(rows)[..|rows| - 1] == RowTotals(init);
    }
  }

  // ---- counting the same lands by row and by column ----

  lemma {:induction false} SumOfPairs(a: seq<nat>, b: seq<nat>, c: seq<nat>)
    requires |a| == |b| == |c| && forall i :: 0 <= i < |a| ==> c[i] == a[i] + b[i]
    ensures Sum(c) == Sum(a) + Sum(b)
  {
    if a != [] {
      SumOfPairs(a[..|a| - 1], b[..|a| - 1], c[..|a| - 1]);
    }
  }

  lemma {:induction false} SumOfZeros(s: seq<nat>)
    requires forall i :: 0 <= i < |s| ==> s[i] == 0
    ensures Sum(s) == 0
  {
    if s != [] {
      SumOfZeros(s[..|s| - 1]);
    }
  }

  /** The grand total is the same by rows and by columns. */
  lemma {:induction false} GrandTotal(rows: seq<Row>, k: nat)
    requires Matrix(rows, k)
    ensures Sum(LandCounts(rows, k)) == Sum(RowTotals(rows))
  {
    if rows == [] {
      SumOfZeros(LandCounts(rows, k));
    } else {
      var init, last := rows[..|rows| - 1], rows[|rows| - 1];
      GrandTotal(init, k);
      SumOfPairs(LandCounts(init, k), last, LandCounts(rows, k));
      assert RowTotals(rows)[..|rows| - 1] == RowTotals(init);
    }
  }

  // ---- Pearson's statistic ----

  /** The sum of squared deviations from `e`. */
  function Deviation(s: seq<nat>, e: real): real {
    if s == [] then 0.0
    else
      var d := s[|s| - 1] as real - e;
      Deviation(s[..|s| - 1], e) + d * d
  }

  /** The sum over all senders of (observed - expected)^2 / expected, with equal expected shares. */
  function Pearson(lands: seq<nat>): real
    requires Sum(lands) > 0
  {
    var e := Sum(lands) as real / |lands| as real;
    PositiveQuotient(Sum(lands) as real, |lands| as real);
    Deviation(lands, e) / e
  }

  /** One more term of the expansion below. */
  lemma ExpandOne(x: real, e: real, q: real, s: real, n: real, dev: real)
    requires dev == q - 2.0 * (e * s) + n * (e * e)
    ensures dev + (x - e) * (x - e) == (q + x * x) - 2.0 * (e * (s + x)) + (n + 1.0) * (e * e)
  {
    assert (x - e) * (x - e) == x * x - 2.0 * (e * x) + e * e;
    Spread(e, s, x);
    Spread(e * e, n, 1.0);
  }

  lemma {:induction false} DeviationExpands(s: seq<nat>, e: real)
    ensures Deviation(s, e) == Expanded(|s|, Sum(s), SumOfSquares(s), e)
  {
    if s != [] {
      var init, x := s[..|s| - 1], s[|s| - 1];
      DeviationExpands(init, e);
      RealProduct(x, x);
      ExpandOne(x as real, e, SumOfSquares(init) as real, Sum(init) as real, |init| as real, Deviation(init, e));
    }
  }

  lemma SquareSign(d: real, square: real)
    requires square == d * d
    ensures square >= 0.0 && (square == 0.0 <==> d == 0.0)
  {
    if d != 0.0 {
      SameSign(d, d, square);
    }
  }

  lemma SameSign(a: real, b: real, product: real)
    requires (a > 0.0 && b > 0.0) || (a < 0.0 && b < 0.0)
    requires product == a * b
    ensures product > 0.0
  {
  }

  lemma {:induction false} DeviationSign(s: seq<nat>, e: real)
    ensures Deviation(s, e) >= 0.0
    ensures Deviation(s, e) == 0.0 <==> forall i :: 0 <= i < |s| ==> s[i] as real == e
  {
    if s != [] {
      var init, d := s[..|s| - 1], s[|s| - 1] as real - e;
      DeviationSign(init, e);
      SquareSign(d, d * d);
      assert forall i :: 0 <= i < |init| ==> init[i] == s[i];
    }
  }

  /** (k * squares - grand^2) / grand. */
  function Simple(k: nat, grand: nat, squares: nat): real {
    if grand == 0 then 0.0
    else (k as real * squares as real - grand as real * grand as real) / grand as real
  }

  function Reduced(lands: seq<nat>): real {
    Simple(|lands|, Sum(lands), SumOfSquares(lands))
  }

  lemma FractionReduces(k: nat, g: nat, q: nat)
    requires k >= 2
    ensures Fraction(k, g, q, g) == Simple(k, g, q)
  {
    if g > 0 {
      var n := k * q - g * g;
      assert n as real == k as real * q as real - g as real * g as real by {
        RealProduct(k, q);
        RealProduct(g, g);
      }
      assert k * g - g == (k - 1) * g;
      Reduce(k - 1, n, g);
    }
  }

  lemma {:induction false} StatisticReduces(rows: seq<Row>, k: nat)
    requires SingleWinnerMatrix(rows, k) && k >= 2
    ensures Statistic(LandCounts(rows, k), RowTotals(rows)) == Reduced(LandCounts(rows, k))
  {
    GrandTotal(rows, k);
    SquaresChangeNothing(rows, k);
    FractionReduces(k, Sum(LandCounts(rows, k)), SumOfSquares(LandCounts(rows, k)));
  }

  function Expanded(k: nat, g: nat, q: nat, e: real): real {
    q as real - 2.0 * (e * g as real) + k as real * (e * e)
  }

  /** With `e = g / k`: k * (q - 2eg + kee) = kq - gg. */
  lemma MeanIdentity(k: nat, g: nat, q: nat, e: real, dev: real, chi: real)
    requires k > 0 && g > 0 && e == g as real / k as real && e != 0.0 && chi == dev / e
    requires dev == Expanded(k, g, q, e)
    ensures chi == Simple(k, g, q)
  {
    var x, y, z := k as real, g as real, q as real;
    Solve(y, x, e);
    PositiveQuotient(y, x);
    MultipliedOut(x, y, z, e, dev, x * z - y * y);
    Solve(dev, e, chi);
    assert chi * y == x * dev by { assert chi * y == chi * (e * x) == (chi * e) * x; }
    Solve(x * z - y * y, y, chi);
  }

  lemma MultipliedOut(k: real, g: real, q: real, e: real, dev: real, n: real)
    requires g == e * k && dev == q - 2.0 * (e * g) + k * (e * e) && n == k * q - g * g
    ensures k * dev == n
  {
    assert k * (e * e) == e * g;
    assert k * (e * g) == g * g;
    assert k * dev == k * q - k * (e * g);
  }

  lemma {:induction false} PearsonReduces(lands: seq<nat>)
    requires |lands| > 0 && Sum(lands) > 0
    ensures Pearson(lands) == Reduced(lands)
  {
    var e := Sum(lands) as real / |lands| as real;
    PositiveQuotient(Sum(lands) as real, |lands| as real);
    DeviationExpands(lands, e);
    MeanIdentity(|lands|, Sum(lands), SumOfSquares(lands), e, Deviation(lands, e), Pearson(lands));
  }

  lemma {:induction false} IntProduct(a: nat, b: int)
    ensures (a * b) as real == a as real * b as real
  {
    if a > 0 {
      IntProduct(a - 1, b);
      assert a * b == (a - 1) * b + b;
      Spread(b as real, (a - 1) as real, 1.0);
    }
  }

  /** A common factor cancels. */
  lemma Reduce(a: nat, n: int, d: nat)
    requires a > 0 && d > 0
    ensures a * d != 0 && (a * n) as real / (a * d) as real == n as real / d as real
  {
    IntProduct(a, n);
    IntProduct(a, d);
    Cancel(a as real, n as real, d as real, (a * n) as real, (a * d) as real);
  }

  lemma Cancel(a: real, n: real, d: real, an: real, ad: real)
    requires a > 0.0 && d > 0.0 && an == a * n && ad == a * d
    ensures ad > 0.0 && an / ad == n / d
  {
    var x := n / d;
    Solve(n, d, x);
    assert a * (x * d) == x * (a * d);
    Solve(an, ad, x);
  }

  /** Cochran's Q of single-winner data is Pearson's chi-square of the land counts. */
  lemma {:induction false} QIsPearson(rows: seq<Row>, k: nat)
    requires SingleWinnerMatrix(rows, k) && k >= 2
    ensures var lands := LandCounts(rows, k);
            Statistic(lands, RowTotals(rows)) == if Sum(lands) == 0 then 0.0 else Pearson(lands)
  {
    var lands := LandCounts(rows, k);
    StatisticReduces(rows, k);
    if Sum(lands) > 0 {
      PearsonReduces(lands);
    }
  }

  lemma {:induction false} SumOfEqual(s: seq<nat>, x: nat)
    requires forall i :: 0 <= i < |s| ==> s[i] == x
    ensures Sum(s) == |s| * x
  {
    if s != [] {
      SumOfEqual(s[..|s| - 1], x);
      Distribute(|s| - 1, x);
    }
  }

  lemma {:induction false} ZeroSum(s: seq<nat>)
    requires Sum(s) == 0
    ensures forall i :: 0 <= i < |s| ==> s[i] == 0
  {
    if s != [] {
      ZeroSum(s[..|s| - 1]);
    }
  }

  ghost predicate AllEqual(s: seq<nat>) {
    forall i :: 0 <= i < |s| ==> s[i] == s[0]
  }

  lemma {:induction false} MeanOfEqual(lands: seq<nat>)
    requires |lands| > 0 && AllEqual(lands)
    ensures Sum(lands) as real / |lands| as real == lands[0] as real
  {
    SumOfEqual(lands, lands[0]);
    RealProduct(|lands|, lands[0]);
    Solve(Sum(lands) as real, |lands| as real, lands[0] as real);
  }

  lemma QuotientSign(a: real, b: real)
    requires a >= 0.0 && b > 0.0
    ensures a / b >= 0.0 && (a / b == 0.0 <==> a == 0.0)
  {
    if a > 0.0 {
      PositiveQuotient(a, b);
    } else {
      Solve(a, b, 0.0);
    }
  }

  lemma {:induction false} PearsonSign(lands: seq<nat>)
    requires |lands| > 0 && Sum(lands) > 0
    ensures Pearson(lands) >= 0.0 && (Pearson(lands) == 0.0 <==> AllEqual(lands))
  {
    var e := Sum(lands) as real / |lands| as real;
    PositiveQuotient(Sum(lands) as real, |lands| as real);
    DeviationSign(lands, e);
    QuotientSign(Deviation(lands, e), e);
    if AllEqual(lands) {
      MeanOfEqual(lands);
    }
  }

  /** The statistic is never negative, and zero exactly when all senders landed equally often. */
  lemma {:induction false} QIsZeroExactlyWhenEqual(rows: seq<Row>, k: nat)
    requires SingleWinnerMatrix(rows, k) && k >= 2
    ensures Statistic(LandCounts(rows, k), RowTotals(rows)) >= 0.0
    ensures Statistic(LandCounts(rows, k), RowTotals(rows)) == 0.0 <==> AllEqual(LandCounts(rows, k))
  {
    var lands := LandCounts(rows, k);
    QIsPearson(rows, k);
    if Sum(lands) == 0 {
      ZeroSum(lands);
    } else {
      PearsonSign(lands);
    }
  }

  // ---------- two senders, any 0/1 data ----------

  /** Two columns of zeros and ones; both may be one in a row. */
  predicate TwoColumns(rows: seq<Row>) {
    forall r :: 0 <= r < |rows| ==> |rows[r]| == 2 && rows[r][0] <= 1 && rows[r][1] <= 1
  }

  /** The rows with the given two entries. */
  function RowsLike(rows: seq<Row>, a: nat, b: nat): nat {
    if rows == [] then 0
    else RowsLike(rows[..|rows| - 1], a, b) + OneIf(rows[|rows| - 1] == [a, b])
  }

  lemma SumOfTwo(row: Row)
    requires |row| == 2
    ensures Sum(row) == row[0] + row[1]
  {
    var first := row[..1];
    assert first[..0] == [];
    assert Sum(first) == Sum(first[..0]) + first[0];
  }

  lemma OneOfFour(row: Row)
    requires |row| == 2 && row[0] <= 1 && row[1] <= 1
    ensures var a, b, c := OneIf(row == [1, 0]), OneIf(row == [0, 1]), OneIf(row == [1, 1]);
            && row[0] == a + c && row[1] == b + c
            && Sum(row) == a + b + 2 * c && Sum(row) * Sum(row) == a + b + 4 * c
  {
    SumOfTwo(row);
    assert row == [row[0], row[1]];
  }

  lemma {:induction false} TotalsMore(rows: seq<Row>)
    requires rows != []
    ensures var init, total := rows[..|rows| - 1], Sum(rows[|rows| - 1]);
            && Sum(RowTotals(rows)) == Sum(RowTotals(init)) + total
            && SumOfSquares(RowTotals(rows)) == SumOfSquares(RowTotals(init)) + total * total
  {
    assert RowTotals(rows)[..|rows| - 1] == RowTotals(rows[..|rows| - 1]);
  }

  lemma {:induction false} TwoColumnTotals(rows: seq<Row>)
    requires TwoColumns(rows)
    ensures var a, b, c := RowsLike(rows, 1, 0), RowsLike(rows, 0, 1), RowsLike(rows, 1, 1);
            && Lands(rows, 0) == a + c && Lands(rows, 1) == b + c
            && Sum(RowTotals(rows)) == a + b + 2 * c && SumOfSquares(RowTotals(rows)) == a + b + 4 * c
  {
    if rows != [] {
      TwoColumnTotals(rows[..|rows| - 1]);
      OneOfFour(rows[|rows| - 1]);
      TotalsMore(rows);
    }
  }

  lemma McNemarFraction(a: nat, b: nat, c: nat)
    ensures Fraction(2, a + b + 2 * c, (a + c) * (a + c) + (b + c) * (b + c), a + b + 4 * c) ==
            if a + b == 0 then 0.0 else ((a - b) * (a - b)) as real / (a + b) as real
  {
    var grand := a + b + 2 * c;
    var squares := (a + c) * (a + c) + (b + c) * (b + c);
    assert 2 * grand - (a + b + 4 * c) == a + b;
    assert 2 * squares - grand * grand == (a - b) * (a - b);
  }

  lemma SquaresOfTwo(s: seq<nat>)
    requires |s| == 2
    ensures SumOfSquares(s) == s[0] * s[0] + s[1] * s[1]
  {
    var first := s[..1];
    assert first[..0] == [];
    assert SumOfSquares(first) == SumOfSquares(first[..0]) + first[0] * first[0];
  }

  /** With two senders, and rows of any kind, Cochran's Q is McNemar's statistic of the rows where they differ. */
  lemma {:induction false} QIsMcNemar(rows: seq<Row>)
    requires TwoColumns(rows)
    ensures var a, b := RowsLike(rows, 1, 0), RowsLike(rows, 0, 1);
            Statistic(LandCounts(rows, 2), RowTotals(rows)) ==
            if a + b == 0 then 0.0 else ((a - b) * (a - b)) as real / (a + b) as real
  {
    TwoColumnTotals(rows);
    SquaresOfTwo(LandCounts(rows, 2));
    McNemarFraction(RowsLike(rows, 1, 0), RowsLike(rows, 0, 1), RowsLike(rows, 1, 1));
  }
}
