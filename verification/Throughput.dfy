/**
 Ledger throughput under CAP-0063. A phase is a sequence of stages, a stage a sequence of clusters that
 run in parallel, a cluster a sequence of transactions that run one after another. The instruction
 limit bounds the sum over stages of the largest cluster. The tools report a closed form; here it is
 compared with the best that any schedule can do.
 */
module Throughput {
  const LEDGER_MAX_INSN: nat := 580_000_000
  const CLUSTERS: nat := 2
  const LEDGER_MAX_TX_COUNT: nat := 2000

  type Cluster = seq<nat>
  type Stage = seq<Cluster>
  type Schedule = seq<Stage>

  function Sum(cluster: Cluster): nat {
    if cluster == [] then 0 else cluster[0] + Sum(cluster[1..])
  }

  /** sequential(stage): the maximum over its clusters. */
  function StageTime(stage: Stage): nat {
    if stage == [] then 0 else Max(Sum(stage[0]), StageTime(stage[1..]))
  }

  function Max(a: nat, b: nat): nat {
    if a >= b then a else b
  }

  function Min(a: nat, b: nat): nat {
    if a <= b then a else b
  }

  /** sequential(phase): the sum over its stages. */
  function CriticalPath(schedule: Schedule): nat {
    if schedule == [] then 0 else StageTime(schedule[0]) + CriticalPath(schedule[1..])
  }

  function StageCount(stage: Stage): nat {
    if stage == [] then 0 else |stage[0]| + StageCount(stage[1..])
  }

  function TxCount(schedule: Schedule): nat {
    if schedule == [] then 0 else StageCount(schedule[0]) + TxCount(schedule[1..])
  }

  /** Every transaction costs at least `x` instructions. */
  ghost predicate CostsAtLeast(schedule: Schedule, x: nat) {
    forall i, j, k :: 0 <= i < |schedule| && 0 <= j < |schedule[i]| && 0 <= k < |schedule[i][j]| ==>
      schedule[i][j][k] >= x
  }

  /** Every transaction costs exactly `x` instructions. */
  ghost predicate Uniform(schedule: Schedule, x: nat) {
    forall i, j, k :: 0 <= i < |schedule| && 0 <= j < |schedule[i]| && 0 <= k < |schedule[i][j]| ==>
      schedule[i][j][k] == x
  }

  ghost predicate AtMostClusters(schedule: Schedule, clusters: nat) {
    forall i :: 0 <= i < |schedule| ==> |schedule[i]| <= clusters
  }

  /** The network's limits on a ledger. */
  ghost predicate Feasible(schedule: Schedule, clusters: nat, limit: nat, cap: nat) {
    AtMostClusters(schedule, clusters) && CriticalPath(schedule) <= limit && TxCount(schedule) <= cap
  }

  // ---- Products and floors, kept abstract where schedules are the matter ---------------------

  function Times(a: nat, b: nat): nat {
    a * b
  }

  /** How many times `x` fits into `t`. */
  function Fit(t: nat, x: nat): nat
    requires x > 0
  {
    t / x
  }

  lemma TimesSum(a: nat, b: nat, c: nat)
    ensures Times(a + b, c) == Times(a, c) + Times(b, c) && Times(c, a + b) == Times(c, a) + Times(c, b)
    ensures Times(1, c) == c && Times(0, c) == 0
  {
  }

  lemma TimesMonotone(a: nat, b: nat, c: nat, d: nat)
    requires a <= c && b <= d
    ensures Times(a, b) <= Times(c, d)
  {
    assert a * b <= c * b <= c * d;
  }

  /** A number of equal parts fits exactly when it is at most the floor. */
  lemma FitExactly(n: nat, x: nat, t: nat)
    requires x > 0
    ensures Times(n, x) <= t <==> n <= Fit(t, x)
  {
    var q := t / x;
    assert t == q * x + t % x;
    if n <= q {
      TimesMonotone(n, x, q, x);
    } else {
      TimesMonotone(q + 1, x, n, x);
      TimesSum(q, 1, x);
    }
  }

  lemma FitMonotone(s: nat, t: nat, x: nat)
    requires x > 0 && s <= t
    ensures Fit(s, x) <= Fit(t, x)
  {
    hide Fit, Times;
    FitExactly(Fit(s, x), x, s);
    FitExactly(Fit(s, x), x, t);
  }

  lemma FitSum(s: nat, t: nat, x: nat)
    requires x > 0
    ensures Fit(s, x) + Fit(t, x) <= Fit(s + t, x)
  {
    hide Fit, Times;
    FitExactly(Fit(s, x), x, s);
    FitExactly(Fit(t, x), x, t);
    TimesSum(Fit(s, x), Fit(t, x), x);
    FitExactly(Fit(s, x) + Fit(t, x), x, s + t);
  }

  // ---- No schedule does better ---------------------------------------------------------------

  lemma {:induction false} ClusterHolds(cluster: Cluster, x: nat)
    requires forall k :: 0 <= k < |cluster| ==> cluster[k] >= x
    ensures Times(|cluster|, x) <= Sum(cluster)
  {
    hide Times;
    TimesSum(1, |cluster|, x);
    if cluster != [] {
      ClusterHolds(cluster[1..], x);
      TimesSum(1, |cluster| - 1, x);
    }
  }

  /** A stage holds at most as many per cluster as fit into its longest cluster. */
  lemma {:induction false} StageHolds(stage: Stage, x: nat)
    requires x > 0 && forall j, k :: 0 <= j < |stage| && 0 <= k < |stage[j]| ==> stage[j][k] >= x
    ensures StageCount(stage) <= Times(|stage|, Fit(StageTime(stage), x))
  {
    hide Times, Fit;
    if stage != [] {
      var rest, t := stage[1..], StageTime(stage);
      StageHolds(rest, x);
      ClusterHolds(stage[0], x);
      FitExactly(|stage[0]|, x, t);
      FitMonotone(StageTime(rest), t, x);
      TimesMonotone(|rest|, Fit(StageTime(rest), x), |rest|, Fit(t, x));
      TimesSum(1, |rest|, Fit(t, x));
    }
  }

  /** The same for a whole phase: splitting the work into stages never gains anything. */
  lemma {:induction false} PhaseHolds(schedule: Schedule, clusters: nat, x: nat)
    requires x > 0 && CostsAtLeast(schedule, x) && AtMostClusters(schedule, clusters)
    ensures TxCount(schedule) <= Times(clusters, Fit(CriticalPath(schedule), x))
  {
    hide Times, Fit;
    if schedule != [] {
      var stage, rest := schedule[0], schedule[1..];
      assert forall i :: 0 <= i < |rest| ==> rest[i] == schedule[i + 1];
      PhaseHolds(rest, clusters, x);
      StageHolds(stage, x);
      var a, b := Fit(StageTime(stage), x), Fit(CriticalPath(rest), x);
      TimesMonotone(|stage|, a, clusters, a);
      TimesSum(a, b, clusters);
      FitSum(StageTime(stage), CriticalPath(rest), x);
      TimesMonotone(clusters, a + b, clusters, Fit(CriticalPath(schedule), x));
    }
  }

  // ---- Some schedule does as well ------------------------------------------------------------

  function Repeat(x: nat, n: nat): (cluster: Cluster)
    ensures |cluster| == n && forall k :: 0 <= k < n ==> cluster[k] == x
  {
    seq(n, _ => x)
  }

  lemma {:induction false} RepeatSum(x: nat, n: nat)
    ensures Sum(Repeat(x, n)) == Times(n, x)
  {
    hide Times;
    TimesSum(0, 0, x);
    if n > 0 {
      assert Repeat(x, n)[1..] == Repeat(x, n - 1);
      RepeatSum(x, n - 1);
      TimesSum(1, n - 1, x);
    }
  }

  /** `n` transactions dealt to clusters of `depth` each until they run out. */
  function Deal(x: nat, n: nat, clusters: nat, depth: nat): (stage: Stage)
    ensures |stage| <= clusters
    decreases clusters
  {
    if clusters == 0 then []
    else [Repeat(x, Min(n, depth))] + Deal(x, n - Min(n, depth), clusters - 1, depth)
  }

  lemma {:induction false} DealFits(x: nat, n: nat, clusters: nat, depth: nat)
    requires n <= Times(clusters, depth)
    ensures var stage := Deal(x, n, clusters, depth);
      && StageCount(stage) == n && StageTime(stage) <= Times(depth, x)
      && forall j, k :: 0 <= j < |stage| && 0 <= k < |stage[j]| ==> stage[j][k] == x
    decreases clusters
  {
    hide Times;
    TimesSum(0, 0, depth);
    if clusters > 0 {
      var first := Min(n, depth);
      var stage, rest := Deal(x, n, clusters, depth), Deal(x, n - first, clusters - 1, depth);
      assert stage[0] == Repeat(x, first) && stage[1..] == rest;
      TimesSum(1, clusters - 1, depth);
      DealFits(x, n - first, clusters - 1, depth);
      RepeatSum(x, first);
      TimesMonotone(first, x, depth, x);
      assert forall j :: 0 < j < |stage| ==> stage[j] == rest[j - 1];
    }
  }

  lemma OneStage(stage: Stage)
    ensures CriticalPath([stage]) == StageTime(stage) && TxCount([stage]) == StageCount(stage)
  {
    assert [stage][1..] == [];
    assert CriticalPath([stage][1..]) == 0 && TxCount([stage][1..]) == 0;
  }

  /** One stage of identical transactions, as full as the limit allows. */
  lemma BalancedStage(limit: nat, clusters: nat, cap: nat, x: nat, n: nat, depth: nat)
    requires n <= Times(clusters, depth) && Times(depth, x) <= limit && n <= cap
    ensures var schedule := [Deal(x, n, clusters, depth)];
      Uniform(schedule, x) && Feasible(schedule, clusters, limit, cap) && TxCount(schedule) == n
  {
    hide Times;
    DealFits(x, n, clusters, depth);
    OneStage(Deal(x, n, clusters, depth));
  }

  // ---- The closed form -----------------------------------------------------------------------

  /** `seq/ledger`, with the guard against a zero cost. */
  function SeqPerLedger(limit: nat, insns: nat): nat {
    limit / Max(insns, 1)
  }

  /** `per ledger`. */
  function PerLedger(limit: nat, clusters: nat, cap: nat, insns: nat): nat {
    Min(clusters * SeqPerLedger(limit, insns), cap)
  }

  /** `n` is the most transactions of cost `x` that a ledger within the limits can hold. */
  ghost predicate IsOptimum(n: nat, limit: nat, clusters: nat, cap: nat, x: nat) {
    && (exists schedule :: Uniform(schedule, x) && Feasible(schedule, clusters, limit, cap) && TxCount(schedule) == n)
    && (forall schedule :: CostsAtLeast(schedule, x) && Feasible(schedule, clusters, limit, cap) ==>
          TxCount(schedule) <= n)
  }

  /**
   The reported figure is exact: some schedule of identical transactions attains it, and no schedule,
   of any number of stages, holds more, even if its transactions may cost more.
   */
  lemma PerLedgerIsOptimum(limit: nat, clusters: nat, cap: nat, x: nat)
    requires x > 0
    ensures IsOptimum(PerLedger(limit, clusters, cap, x), limit, clusters, cap, x)
  {
    var depth := Fit(limit, x);
    var n := PerLedger(limit, clusters, cap, x);
    assert n == Min(Times(clusters, depth), cap);
    hide Times, Fit, PerLedger;
    FitExactly(depth, x, limit);
    BalancedStage(limit, clusters, cap, x, n, depth);
    forall schedule | CostsAtLeast(schedule, x) && Feasible(schedule, clusters, limit, cap)
      ensures TxCount(schedule) <= n
    {
      PhaseHolds(schedule, clusters, x);
      FitMonotone(CriticalPath(schedule), limit, x);
      TimesMonotone(clusters, Fit(CriticalPath(schedule), x), clusters, depth);
    }
  }

  /** There is only one such figure. */
  lemma OptimumIsUnique(m: nat, n: nat, limit: nat, clusters: nat, cap: nat, x: nat)
    requires IsOptimum(m, limit, clusters, cap, x) && IsOptimum(n, limit, clusters, cap, x)
    ensures m == n
  {
    var s :| Uniform(s, x) && Feasible(s, clusters, limit, cap) && TxCount(s) == m;
    var t :| Uniform(t, x) && Feasible(t, clusters, limit, cap) && TxCount(t) == n;
    assert CostsAtLeast(s, x) && CostsAtLeast(t, x);
  }

  /**
   At cost zero the guard counts a transaction as one instruction, so the figure is the optimum, which is
   the transaction cap, exactly when that many single instructions fit.
   */
  lemma ZeroCost(limit: nat, clusters: nat, cap: nat)
    requires clusters > 0
    ensures IsOptimum(PerLedger(limit, clusters, cap, 0), limit, clusters, cap, 0) <==> cap <= clusters * limit
  {
    TimesMonotone(1, cap, clusters, cap);
    BalancedStage(limit, clusters, cap, 0, cap, cap);
    assert IsOptimum(cap, limit, clusters, cap, 0);
    if IsOptimum(PerLedger(limit, clusters, cap, 0), limit, clusters, cap, 0) {
      OptimumIsUnique(PerLedger(limit, clusters, cap, 0), cap, limit, clusters, cap, 0);
    }
  }

  /** What rounding per cluster loses against dividing the whole budget: less than one per cluster. */
  lemma RoundingLoss(limit: nat, clusters: nat, x: nat)
    requires x > 0 && clusters > 0
    ensures 0 <= clusters * limit / x - clusters * (limit / x) < clusters
  {
    FitOfProduct(limit, clusters, x);
    assert Times(clusters, Fit(limit, x)) == clusters * (limit / x);
    assert Fit(Times(clusters, limit), x) == clusters * limit / x;
  }

  lemma FitOfProduct(limit: nat, clusters: nat, x: nat)
    requires x > 0 && clusters > 0
    ensures Times(clusters, Fit(limit, x)) <= Fit(Times(clusters, limit), x) < Times(clusters, Fit(limit, x)) + clusters
  {
    hide Times, Fit;
    var q := Fit(limit, x);
    FitExactly(q, x, limit);
    FitExactly(q + 1, x, limit);
    TimesMonotone(clusters, Times(q, x), clusters, limit);
    TimesStrict(clusters, limit, Times(q + 1, x));
    TimesAssociates(clusters, q, x);
    TimesAssociates(clusters, q + 1, x);
    FitExactly(Times(clusters, q), x, Times(clusters, limit));
    FitExactly(Times(clusters, q + 1), x, Times(clusters, limit));
    TimesSum(q, 1, clusters);
    TimesCommute(clusters, 1);
  }

  lemma TimesAssociates(a: nat, b: nat, c: nat)
    ensures Times(Times(a, b), c) == Times(a, Times(b, c))
  {
  }

  lemma TimesCommute(a: nat, b: nat)
    ensures Times(a, b) == Times(b, a)
  {
  }

  lemma TimesStrict(a: nat, b: nat, c: nat)
    requires a > 0 && b < c
    ensures Times(a, b) < Times(a, c)
  {
    assert a * c == a * b + a * (c - b);
    TimesMonotone(1, 1, a, c - b);
  }

  /** Dearer transactions never fit in larger numbers. */
  lemma PerLedgerMonotone(limit: nat, clusters: nat, cap: nat, cheap: nat, dear: nat)
    requires cheap <= dear
    ensures PerLedger(limit, clusters, cap, dear) <= PerLedger(limit, clusters, cap, cheap)
  {
    var a, b := Max(cheap, 1), Max(dear, 1);
    assert PerLedger(limit, clusters, cap, dear) == Min(Times(clusters, Fit(limit, b)), cap);
    assert PerLedger(limit, clusters, cap, cheap) == Min(Times(clusters, Fit(limit, a)), cap);
    hide Times, Fit, PerLedger;
    FitExactly(Fit(limit, b), b, limit);
    TimesMonotone(Fit(limit, b), a, Fit(limit, b), b);
    FitExactly(Fit(limit, b), a, limit);
    TimesMonotone(clusters, Fit(limit, b), clusters, Fit(limit, a));
  }

  /**
   The table's closing line says that the transaction cap binds for no row. With the network's figures it
   holds of a row exactly when the row costs at least 579,421 instructions.
   */
  lemma CapDoesNotBind(insns: nat)
    ensures CLUSTERS * SeqPerLedger(LEDGER_MAX_INSN, insns) <= LEDGER_MAX_TX_COUNT <==> insns >= 579_421
  {
    FitExactly(1001, Max(insns, 1), LEDGER_MAX_INSN);
  }

  // ---- The tables ----------------------------------------------------------------------------

  datatype Row = Row(name: string, insns: nat)
  datatype Report = Report(name: string, sequential: nat, parallel: nat)

  /** One printed line. */
  function ReportOf(row: Row): Report {
    Report(row.name, SeqPerLedger(LEDGER_MAX_INSN, row.insns),
           PerLedger(LEDGER_MAX_INSN, CLUSTERS, LEDGER_MAX_TX_COUNT, row.insns))
  }

  /**
   What a printed line is worth. The parallel figure is the optimum for all clusters under the transaction
   cap, at cost zero too. The sequential figure is the guarded quotient, and at a nonzero cost the optimum
   for one cluster under every cap it meets.
   */
  ghost predicate Faithful(row: Row, report: Report) {
    && report.name == row.name
    && IsOptimum(report.parallel, LEDGER_MAX_INSN, CLUSTERS, LEDGER_MAX_TX_COUNT, row.insns)
    && report.sequential == SeqPerLedger(LEDGER_MAX_INSN, row.insns)
    && (forall cap: nat :: row.insns > 0 && report.sequential <= cap ==>
          IsOptimum(report.sequential, LEDGER_MAX_INSN, 1, cap, row.insns))
  }

  lemma ReportIsFaithful(row: Row)
    ensures Faithful(row, ReportOf(row))
  {
    hide IsOptimum;
    if row.insns > 0 {
      PerLedgerIsOptimum(LEDGER_MAX_INSN, CLUSTERS, LEDGER_MAX_TX_COUNT, row.insns);
      var n := SeqPerLedger(LEDGER_MAX_INSN, row.insns);
      forall cap: nat | n <= cap
        ensures IsOptimum(n, LEDGER_MAX_INSN, 1, cap, row.insns)
      {
        PerLedgerIsOptimum(LEDGER_MAX_INSN, 1, cap, row.insns);
      }
    } else {
      ZeroCost(LEDGER_MAX_INSN, CLUSTERS, LEDGER_MAX_TX_COUNT);
    }
  }

  /** The throughput table of `bench`: one line per row, in order. */
  method ThroughputTable(rows: seq<Row>) returns (table: seq<Report>)
    ensures |table| == |rows| && forall i :: 0 <= i < |rows| ==> Faithful(rows[i], table[i])
  {
    table := [];
    for i := 0 to |rows|
      invariant |table| == i
      invariant forall j :: 0 <= j < i ==> Faithful(rows[j], table[j])
    {
      ReportIsFaithful(rows[i]);
      table := table + [ReportOf(rows[i])];
    }
  }

  /** A simulated row: `ok` is false when the simulation failed. */
  datatype Simulated = Simulated(row: Row, ok: bool)

  /** A row that `simulate` prints: it succeeded, at a nonzero cost. */
  predicate Listed(s: Simulated) {
    s.ok && s.row.insns != 0
  }

  /** The places of the rows that are listed, in order. */
  ghost predicate Selects(rows: seq<Simulated>, picks: seq<nat>) {
    && (forall i, j :: 0 <= i < j < |picks| ==> picks[i] < picks[j])
    && (forall k: nat :: k in picks <==> k < |rows| && Listed(rows[k]))
  }

  /** One line for each selected row, and no other. */
  ghost predicate Tabulates(rows: seq<Simulated>, picks: seq<nat>, table: seq<Report>) {
    && |table| == |picks|
    && forall i :: 0 <= i < |picks| ==> picks[i] < |rows| && Faithful(rows[picks[i]].row, table[i])
  }

  /** The throughput table of `simulate`, which skips failed and free rows. */
  method SimulatedTable(rows: seq<Simulated>) returns (table: seq<Report>)
    ensures exists picks :: Selects(rows, picks) && Tabulates(rows, picks, table)
  {
    hide Selects, Tabulates, ReportOf;
    table := [];
    ghost var picks: seq<nat> := [];
    NothingYet(rows);
    for i := 0 to |rows|
      invariant Selects(rows[..i], picks) && Tabulates(rows[..i], picks, table)
    {
      TabulateNext(rows, i, picks, table);
      var s := rows[i];
      if !s.ok || s.row.insns == 0 {
        continue;
      }
      picks := picks + [i];
      table := table + [ReportOf(s.row)];
    }
    assert rows[..|rows|] == rows;
  }

  lemma NothingYet(rows: seq<Simulated>)
    ensures Selects(rows[..0], []) && Tabulates(rows[..0], [], [])
  {
  }

  /** One more row: one more line if it is listed, and otherwise none. */
  lemma TabulateNext(rows: seq<Simulated>, i: nat, picks: seq<nat>, table: seq<Report>)
    requires i < |rows| && Selects(rows[..i], picks) && Tabulates(rows[..i], picks, table)
    ensures Listed(rows[i]) ==>
              Selects(rows[..i + 1], picks + [i]) &&
              Tabulates(rows[..i + 1], picks + [i], table + [ReportOf(rows[i].row)])
    ensures !Listed(rows[i]) ==> Selects(rows[..i + 1], picks) && Tabulates(rows[..i + 1], picks, table)
  {
    hide Faithful, ReportOf;
    ReportIsFaithful(rows[i].row);
    assert forall k: nat :: k < i ==> rows[..i + 1][k] == rows[..i][k];
    assert forall j :: 0 <= j < |picks| ==> picks[j] in picks;
    var next := picks + [i];
    assert forall k: nat :: k in next <==> k in picks || k == i;
  }

  /** The network's figures, on a free row and on one of five million instructions. */
  lemma FiguresOfTwoRows(name: string)
    ensures ReportOf(Row(name, 0)) == Report(name, 580_000_000, 2000)
    ensures ReportOf(Row(name, 5_000_000)) == Report(name, 116, 232)
  {
  }
}
