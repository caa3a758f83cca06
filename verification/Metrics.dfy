/** The running metrics of a backtest, and their closed form over the fills. */
module Metrics {
  import opened Trading

  datatype State = State(pnl: real, tradeCount: nat, wins: nat, equityPeak: real, equity: real)

  const FRESH: State := State(0.0, 0, 0, 0.0, 0.0)

  function Max(a: real, b: real): real { if a >= b then a else b }

  function RecordSize(m: State, size: real): State {
    var pnl := m.pnl + size * 0.001;
    var equity := m.equity + pnl;
    State(pnl, m.tradeCount + 1, if pnl >= 0.0 then m.wins + 1 else m.wins, Max(m.equityPeak, equity), equity)
  }

  function Record(m: State, r: Result): State {
    if r.status.Filled? then RecordSize(m, r.filledSizeQuote) else m
  }

  function RecordAll(m: State, rs: seq<Result>): State {
    if rs == [] then m else Record(RecordAll(m, rs[..|rs| - 1]), rs[|rs| - 1])
  }

  lemma RecordPush(m: State, rs: seq<Result>, r: Result)
    ensures RecordAll(m, rs + [r]) == Record(RecordAll(m, rs), r)
  {
    assert (rs + [r])[..|rs|] == rs;
  }

  function Sizes(rs: seq<Result>): seq<real> {
    if rs == [] then []
    else
      var last := rs[|rs| - 1];
      Sizes(rs[..|rs| - 1]) + (if last.status.Filled? then [last.filledSizeQuote] else [])
  }

  datatype Report = Report(pnl: real, maxDrawdown: real, tradeCount: nat, winRate: real)

  function ToReport(m: State): Report {
    Report(m.pnl,
           if m.equityPeak > 0.0 then Max(m.equityPeak - m.equity, 0.0) / m.equityPeak else 0.0,
           m.tradeCount,
           if m.tradeCount > 0 then m.wins as real / m.tradeCount as real else 0.0)
  }

  // ---- Closed form ----------------------------------------------------------

  function SumOf(xs: seq<real>): real {
    if xs == [] then 0.0 else xs[0] + SumOf(xs[1..])
  }

  /** Each fill counts once for every fill from it to the end. */
  function Weighted(xs: seq<real>): real {
    if xs == [] then 0.0 else |xs| as real * xs[0] + Weighted(xs[1..])
  }

  /** Prefixes, the whole included and the empty one not, whose sum is not negative. */
  function GoodPrefixes(xs: seq<real>): nat {
    if xs == [] then 0 else GoodPrefixes(xs[..|xs| - 1]) + (if SumOf(xs) >= 0.0 then 1 else 0)
  }

  lemma {:induction false} SumPush(xs: seq<real>, x: real)
    ensures SumOf(xs + [x]) == SumOf(xs) + x
  {
    if xs != [] {
      assert (xs + [x])[1..] == xs[1..] + [x];
      SumPush(xs[1..], x);
    }
  }

  lemma {:induction false} WeightedPush(xs: seq<real>, x: real)
    ensures Weighted(xs + [x]) == Weighted(xs) + SumOf(xs) + x
  {
    if xs != [] {
      assert (xs + [x])[1..] == xs[1..] + [x];
      WeightedPush(xs[1..], x);
      OneMore(|xs|, xs[0]);
    }
  }

  lemma OneMore(n: nat, x: real)
    ensures (n + 1) as real * x == n as real * x + x
  {
  }

  ghost predicate PeakOf(peak: real, xs: seq<real>) {
    && peak >= 0.0
    && (forall k :: 0 <= k <= |xs| ==> Weighted(xs[..k]) * 0.001 <= peak)
    && exists k :: 0 <= k <= |xs| && Weighted(xs[..k]) * 0.001 == peak
  }

  lemma PeakGrows(peak: real, xs: seq<real>, x: real)
    requires PeakOf(peak, xs)
    ensures PeakOf(Max(peak, Weighted(xs + [x]) * 0.001), xs + [x])
  {
    var all := xs + [x];
    forall k | 0 <= k <= |xs| ensures all[..k] == xs[..k] {
    }
    assert all[..|all|] == all;
    var k :| 0 <= k <= |xs| && Weighted(xs[..k]) * 0.001 == peak;
    assert Weighted(all[..k]) * 0.001 == peak;
  }

  /** Over any results: profit is the filled total, equity the weighted total, the peak the highest prefix equity or
      zero, and a trade is a win when the running profit, not the trade's own, is not negative. */
  lemma {:induction false} ClosedForm(rs: seq<Result>)
    ensures var m, xs := RecordAll(FRESH, rs), Sizes(rs);
            && m.pnl == SumOf(xs) * 0.001
            && m.equity == Weighted(xs) * 0.001
            && m.tradeCount == |xs|
            && m.wins == GoodPrefixes(xs) <= m.tradeCount
            && PeakOf(m.equityPeak, xs)
  {
    if rs == [] {
      var none: seq<real> := [];
      assert Weighted(none[..0]) * 0.001 == 0.0;
    } else {
      var before, r := rs[..|rs| - 1], rs[|rs| - 1];
      ClosedForm(before);
      if r.status.Filled? {
        var xs, x := Sizes(before), r.filledSizeQuote;
        SumPush(xs, x);
        WeightedPush(xs, x);
        PeakGrows(RecordAll(FRESH, before).equityPeak, xs, x);
        assert (xs + [x])[..|xs|] == xs;
      } else {
        assert Sizes(rs) == Sizes(before);
      }
    }
  }

  lemma ReportRanges(rs: seq<Result>)
    ensures var report := ToReport(RecordAll(FRESH, rs));
            0.0 <= report.winRate <= 1.0 && report.maxDrawdown >= 0.0
  {
    ClosedForm(rs);
    var m := RecordAll(FRESH, rs);
    if m.tradeCount > 0 { RatioWithin(m.wins, m.tradeCount); }
    if m.equityPeak > 0.0 { QuotientSign(Max(m.equityPeak - m.equity, 0.0), m.equityPeak); }
  }

  lemma RatioWithin(a: nat, b: nat)
    requires a <= b && b > 0
    ensures 0.0 <= a as real / b as real <= 1.0
  {
  }

  lemma QuotientSign(a: real, b: real)
    requires a >= 0.0 && b > 0.0
    ensures a / b >= 0.0
  {
  }

  /** Without negative fills nothing is ever lost: every trade is a win and there is no drawdown. */
  lemma {:induction false} NoLossWithoutNegativeFills(rs: seq<Result>)
    requires forall i :: 0 <= i < |rs| && rs[i].status.Filled? ==> rs[i].filledSizeQuote >= 0.0
    ensures var m := RecordAll(FRESH, rs);
            && m.pnl >= 0.0 && m.wins == m.tradeCount && m.equityPeak == m.equity && m.equity >= 0.0
            && ToReport(m).maxDrawdown == 0.0
  {
    if rs != [] {
      NoLossWithoutNegativeFills(rs[..|rs| - 1]);
    }
  }

  // ---- The report -----------------------------------------------------------

  /** What a report of the fills `xs` says, with no reference to how it was kept. */
  ghost predicate Reports(r: Report, xs: seq<real>) {
    && r.pnl == SumOf(xs) * 0.001
    && r.tradeCount == |xs|
    && (if xs == [] then r.winRate == 0.0 else IsQuotient(r.winRate, GoodPrefixes(xs) as real, |xs| as real))
    && exists peak :: PeakOf(peak, xs) && IsDrawdown(r.maxDrawdown, peak, Weighted(xs) * 0.001)
  }

  ghost predicate IsQuotient(q: real, a: real, b: real) { q * b == a }

  /** The share of the peak lost since, if there is a peak above zero. */
  ghost predicate IsDrawdown(d: real, peak: real, equity: real) {
    if peak > 0.0 then IsQuotient(d, peak - equity, peak) else d == 0.0
  }

  lemma QuotientTimes(a: real, b: real)
    requires b != 0.0
    ensures IsQuotient(a / b, a, b)
  {
  }

  lemma ReportDescribes(rs: seq<Result>)
    ensures Reports(ToReport(RecordAll(FRESH, rs)), Sizes(rs))
  {
    ClosedForm(rs);
    var m, xs := RecordAll(FRESH, rs), Sizes(rs);
    if m.tradeCount > 0 { QuotientTimes(m.wins as real, m.tradeCount as real); }
    assert xs[..|xs|] == xs;
    assert m.equity <= m.equityPeak;
    if m.equityPeak > 0.0 { QuotientTimes(m.equityPeak - m.equity, m.equityPeak); }
    assert IsDrawdown(ToReport(m).maxDrawdown, m.equityPeak, Weighted(xs) * 0.001);
  }

  // ---- When a drawdown is forgotten -----------------------------------------

  /** What holds of every state a run reaches. */
  predicate PeakAbove(m: State) { m.equityPeak >= 0.0 && m.equityPeak >= m.equity }

  /** A fill that leaves the running profit positive while there is a drawdown to report. */
  predicate Forgets(m: State, r: Result) {
    r.status.Filled? && ToReport(m).maxDrawdown > 0.0 && m.pnl + r.filledSizeQuote * 0.001 > 0.0
  }

  lemma DrawdownOrder(peak: real, a: real, b: real)
    requires peak > 0.0
    ensures (peak - a) / peak < (peak - b) / peak <==> a > b
    ensures (peak - b) / peak > 0.0 <==> peak > b
  {
    QuotientLess(peak - a, peak - b, peak);
    QuotientLess(0.0, peak - b, peak);
  }

  lemma QuotientLess(a: real, b: real, c: real)
    requires c > 0.0
    ensures a / c < b / c <==> a < b
  {
  }

  /** One result lowers the drawdown to report exactly when it is such a fill. */
  lemma ForgetsExactly(m: State, r: Result)
    requires PeakAbove(m)
    ensures ToReport(Record(m, r)).maxDrawdown < ToReport(m).maxDrawdown <==> Forgets(m, r)
    ensures PeakAbove(Record(m, r))
  {
    if r.status.Filled? && m.equityPeak > 0.0 {
      var after := Record(m, r);
      DrawdownOrder(m.equityPeak, after.equity, m.equity);
    }
  }

  function DrawdownAt(rs: seq<Result>, k: nat): real
    requires k <= |rs|
  {
    ToReport(RecordAll(FRESH, rs[..k])).maxDrawdown
  }

  ghost predicate ForgetsAt(rs: seq<Result>, k: nat)
    requires k < |rs|
  {
    Forgets(RecordAll(FRESH, rs[..k]), rs[k])
  }

  lemma {:induction false} RunPeakAbove(rs: seq<Result>)
    ensures PeakAbove(RecordAll(FRESH, rs))
  {
    if rs != [] {
      RunPeakAbove(rs[..|rs| - 1]);
      ForgetsExactly(RecordAll(FRESH, rs[..|rs| - 1]), rs[|rs| - 1]);
    }
  }

  lemma DrawdownStep(rs: seq<Result>, k: nat)
    requires k < |rs|
    ensures DrawdownAt(rs, k + 1) < DrawdownAt(rs, k) <==> ForgetsAt(rs, k)
  {
    assert rs[..k + 1][..k] == rs[..k];
    RunPeakAbove(rs[..k]);
    ForgetsExactly(RecordAll(FRESH, rs[..k]), rs[k]);
  }

  /** The drawdown reported at a point of the run is the deepest one up to there. */
  ghost predicate DeepestSoFar(rs: seq<Result>, k: nat)
    requires k <= |rs|
  {
    forall j :: 0 <= j <= k ==> DrawdownAt(rs, j) <= DrawdownAt(rs, k)
  }

  lemma {:induction false} DeepestIfNoneForgets(rs: seq<Result>, k: nat)
    requires k <= |rs| && forall i :: 0 <= i < k ==> !ForgetsAt(rs, i)
    ensures DeepestSoFar(rs, k)
    decreases k
  {
    if k > 0 {
      DeepestIfNoneForgets(rs, k - 1);
      DrawdownStep(rs, k - 1);
      assert DrawdownAt(rs, k - 1) <= DrawdownAt(rs, k);
    }
  }

  /** `max_drawdown` is the deepest drawdown so far at every point of a run exactly when no fill of it forgets one. */
  lemma DrawdownKeptExactly(rs: seq<Result>)
    ensures (forall k :: 0 <= k <= |rs| ==> DeepestSoFar(rs, k)) <==> (forall i :: 0 <= i < |rs| ==> !ForgetsAt(rs, i))
  {
    if forall i :: 0 <= i < |rs| ==> !ForgetsAt(rs, i) {
      forall k | 0 <= k <= |rs| ensures DeepestSoFar(rs, k) { DeepestIfNoneForgets(rs, k); }
    } else {
      var i :| 0 <= i < |rs| && ForgetsAt(rs, i);
      DrawdownStep(rs, i);
      assert !DeepestSoFar(rs, i + 1);
    }
  }

  /** A case of it: a full drawdown on the way, and none reported at the end. */
  lemma DrawdownForgets()
    ensures exists rs :: rs != [] && ToReport(RecordAll(FRESH, rs)).maxDrawdown == 0.0
                         && ToReport(RecordAll(FRESH, rs[..|rs| - 1])).maxDrawdown == 1.0
  {
    var s := Symbol("", "");
    var a := Result("", s, Buy, Filled, 1000.0, 1.0);
    var b := Result("", s, Buy, Filled, -2000.0, 1.0);
    var c := Result("", s, Buy, Filled, 5000.0, 1.0);
    assert RecordAll(FRESH, [a]) == State(1.0, 1, 1, 1.0, 1.0) by { assert [a][..0] == []; }
    assert RecordAll(FRESH, [a, b]) == State(-1.0, 2, 1, 1.0, 0.0) by { assert [a, b][..1] == [a]; }
    assert RecordAll(FRESH, [a, b, c]) == State(4.0, 3, 2, 4.0, 4.0) by { assert [a, b, c][..2] == [a, b]; }
    assert [a, b, c][..2] == [a, b];
  }

  // ---- When a win is not one ------------------------------------------------

  /** Whether a trade made money, or at least lost none, by itself. */
  predicate OwnWin(r: Result) { r.status.Filled? && r.filledSizeQuote >= 0.0 }

  function OwnWins(rs: seq<Result>): nat {
    if rs == [] then 0 else OwnWins(rs[..|rs| - 1]) + (if OwnWin(rs[|rs| - 1]) then 1 else 0)
  }

  /** A losing trade that leaves the running profit not negative: counted as a win. */
  predicate Flatters(m: State, r: Result) {
    r.status.Filled? && r.filledSizeQuote < 0.0 && m.pnl + r.filledSizeQuote * 0.001 >= 0.0
  }

  /** A winning trade that leaves the running profit negative: not counted. */
  predicate Slights(m: State, r: Result) {
    r.status.Filled? && r.filledSizeQuote >= 0.0 && m.pnl + r.filledSizeQuote * 0.001 < 0.0
  }

  function Flattered(rs: seq<Result>): nat {
    if rs == [] then 0
    else
      var before := rs[..|rs| - 1];
      Flattered(before) + (if Flatters(RecordAll(FRESH, before), rs[|rs| - 1]) then 1 else 0)
  }

  function Slighted(rs: seq<Result>): nat {
    if rs == [] then 0
    else
      var before := rs[..|rs| - 1];
      Slighted(before) + (if Slights(RecordAll(FRESH, before), rs[|rs| - 1]) then 1 else 0)
  }

  /** The wins counted are the trades' own, with losers that the profit so far carries and without winners that it
      drags down. */
  lemma {:induction false} WinsExactly(rs: seq<Result>)
    ensures RecordAll(FRESH, rs).wins + Slighted(rs) == OwnWins(rs) + Flattered(rs)
  {
    if rs != [] {
      WinsExactly(rs[..|rs| - 1]);
    }
  }

  /** The wins counted up to a point of the run are the trades' own. */
  ghost predicate WinsTrue(rs: seq<Result>, k: nat)
    requires k <= |rs|
  {
    RecordAll(FRESH, rs[..k]).wins == OwnWins(rs[..k])
  }

  ghost predicate MisjudgedAt(rs: seq<Result>, i: nat)
    requires i < |rs|
  {
    var m := RecordAll(FRESH, rs[..i]);
    Flatters(m, rs[i]) || Slights(m, rs[i])
  }

  lemma WinsTrueStep(rs: seq<Result>, k: nat)
    requires k < |rs| && WinsTrue(rs, k)
    ensures WinsTrue(rs, k + 1) <==> !MisjudgedAt(rs, k)
  {
    assert rs[..k + 1][..k] == rs[..k];
  }

  lemma {:induction false} WinsTrueIfNoneMisjudged(rs: seq<Result>, k: nat)
    requires k <= |rs| && forall i :: 0 <= i < k ==> !MisjudgedAt(rs, i)
    ensures WinsTrue(rs, k)
    decreases k
  {
    if k > 0 {
      WinsTrueIfNoneMisjudged(rs, k - 1);
      WinsTrueStep(rs, k - 1);
    }
  }

  /** The wins counted are the trades' own at every point of a run exactly when no trade of it is misjudged. */
  lemma WinsTrueExactly(rs: seq<Result>)
    ensures (forall k :: 0 <= k <= |rs| ==> WinsTrue(rs, k)) <==> (forall i :: 0 <= i < |rs| ==> !MisjudgedAt(rs, i))
  {
    if forall i :: 0 <= i < |rs| ==> !MisjudgedAt(rs, i) {
      forall k | 0 <= k <= |rs| ensures WinsTrue(rs, k) { WinsTrueIfNoneMisjudged(rs, k); }
    } else {
      var i :| 0 <= i < |rs| && MisjudgedAt(rs, i);
      if WinsTrue(rs, i) { WinsTrueStep(rs, i); }
      assert !WinsTrue(rs, i) || !WinsTrue(rs, i + 1);
    }
  }

  lemma Pair(a: Result, b: Result)
    ensures RecordAll(FRESH, [a, b]) == Record(Record(FRESH, a), b)
    ensures OwnWins([a, b]) == (if OwnWin(a) then 1 else 0) + (if OwnWin(b) then 1 else 0)
  {
    assert [a, b][..1] == [a] && [a][..0] == [];
    assert RecordAll(FRESH, [a]) == Record(FRESH, a);
    assert OwnWins([a]) == if OwnWin(a) then 1 else 0;
  }

  /** A fill of the given size. */
  function Trade(size: real): Result { Result("", Symbol("", ""), Buy, Filled, size, 1.0) }

  /** A case of it: every trade reported as a win, and one of the two lost money. */
  lemma WinRateFlatters()
    ensures exists rs :: var report := ToReport(RecordAll(FRESH, rs));
              report.tradeCount == 2 && report.winRate == 1.0 && OwnWins(rs) == 1
  {
    var a, b := Trade(1000.0), Trade(-500.0);
    Pair(a, b);
    var m := Record(Record(FRESH, a), b);
    assert m.tradeCount == 2 && m.wins == 2;
    assert ToReport(m).winRate == 1.0;
    assert ToReport(RecordAll(FRESH, [a, b])).tradeCount == 2;
  }
}
