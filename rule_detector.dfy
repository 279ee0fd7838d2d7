/** The threshold rules and the corroboration policy that both copies of
    detect_anomalies_rule_based apply to each row, stated once as functions,
    with the truth table the policy yields proved as lemmas. */
module RuleDetector {
  import opened Telemetry

  const BadSignalThreshold: real := -85.0       // dBm
  const HighLatencyThreshold: real := 100.0     // ms
  const LowThroughputThreshold: real := 40.0    // Mbps
  const HighPacketLossThreshold: real := 3.0    // percent
  const CriticalThroughput: real := 10.0        // Mbps, the single-breach escape hatch

  const LowSignal := "Low Signal"
  const HighLatency := "High Latency"
  const LowThroughput := "Low Throughput"
  const HighPacketLoss := "High Packet Loss"
  const CriticalLowThroughput := "Critical Low Throughput"
  const ReasonSeparator := ", "

  /** The rule names in evaluation order, which is also report order. */
  const RuleNames: seq<string> := [LowSignal, HighLatency, LowThroughput, HighPacketLoss]

  /** Whether rule k (an index into RuleNames) fires on row r. */
  predicate Fires(r: Row, k: nat)
    requires k < 4
  {
    match k
    case 0 => r.signalStrengthDbm < BadSignalThreshold
    case 1 => r.latencyMs > HighLatencyThreshold
    case 2 => r.throughputMbps < LowThroughputThreshold
    case _ => r.packetLossPercent > HighPacketLossThreshold
  }

  /** The indices of the rules from k on that fire on r, in increasing order:
      the reference account of which rules a row breaches. */
  function TriggeredFrom(r: Row, k: nat): (ks: seq<nat>)
    requires k <= 4
    ensures forall i :: 0 <= i < |ks| ==> k <= ks[i] < 4 && Fires(r, ks[i])
    ensures forall i, j :: 0 <= i < j < |ks| ==> ks[i] < ks[j]
    ensures forall m :: k <= m < 4 && Fires(r, m) ==> m in ks
    decreases 4 - k
  {
    if k == 4 then [] else (if Fires(r, k) then [k] else []) + TriggeredFrom(r, k + 1)
  }

  function Triggered(r: Row): seq<nat>
  {
    TriggeredFrom(r, 0)
  }

  /** The number of rules row r breaches. */
  function BreachCount(r: Row): nat
  {
    |Triggered(r)|
  }

  /** The reasons list exactly as the loop body builds it: one append per
      rule that fires, in evaluation order. */
  function Reasons(r: Row): seq<string>
  {
    (if r.signalStrengthDbm < BadSignalThreshold then [LowSignal] else [])
    + (if r.latencyMs > HighLatencyThreshold then [HighLatency] else [])
    + (if r.throughputMbps < LowThroughputThreshold then [LowThroughput] else [])
    + (if r.packetLossPercent > HighPacketLossThreshold then [HighPacketLoss] else [])
  }

  /** The two cells the detector writes for one row. */
  datatype Detection = Detection(flag: int, reason: string)

  /** The corroboration policy: two or more breaches, or a single breach with
      throughput under the critical level; otherwise the column defaults. */
  function Classify(r: Row): (d: Detection)
    ensures d.flag == 0 || d.flag == 1
  {
    var reasons := Reasons(r);
    if |reasons| >= 2 then Detection(1, Join(reasons, ReasonSeparator))
    else if |reasons| == 1 && r.throughputMbps < CriticalThroughput then Detection(1, CriticalLowThroughput)
    else Detection(0, "")
  }

  /** The row with the detector's two columns filled in. */
  function Annotate(r: Row): Record
  {
    var d := Classify(r);
    Record(r, d.flag, d.reason)
  }

  /** The whole frame after detection: one annotated row per input row. */
  function DetectAll(rows: seq<Row>): (frame: seq<Record>)
    ensures |frame| == |rows|
    ensures Rows(frame) == rows
  {
    seq(|rows|, i requires 0 <= i < |rows| => Annotate(rows[i]))
  }

  // ---------------------------------------------------------------------
  // The reasons list

  /** The names of the rule indices ks. */
  function NamesOf(ks: seq<nat>): (names: seq<string>)
    requires forall i :: 0 <= i < |ks| ==> ks[i] < 4
    ensures |names| == |ks|
  {
    seq(|ks|, i requires 0 <= i < |ks| => RuleNames[ks[i]])
  }

  /** The reasons list built as the loop body builds it, from rule k on. */
  function ReasonsFrom(r: Row, k: nat): seq<string>
    requires k <= 4
    decreases 4 - k
  {
    if k == 4 then [] else (if Fires(r, k) then [RuleNames[k]] else []) + ReasonsFrom(r, k + 1)
  }

  lemma {:induction false} ReasonsFromNames(r: Row, k: nat)
    requires k <= 4
    ensures ReasonsFrom(r, k) == NamesOf(TriggeredFrom(r, k))
    decreases 4 - k
  {
    if k < 4 {
      ReasonsFromNames(r, k + 1);
      var tail := TriggeredFrom(r, k + 1);
      if Fires(r, k) {
        assert TriggeredFrom(r, k) == [k] + tail;
        NamesOfConcat([k], tail);
        assert NamesOf([k]) == [RuleNames[k]];
      } else {
        assert TriggeredFrom(r, k) == tail;
      }
    }
  }

  lemma NamesOfConcat(a: seq<nat>, b: seq<nat>)
    requires forall i :: 0 <= i < |a| ==> a[i] < 4
    requires forall i :: 0 <= i < |b| ==> b[i] < 4
    ensures NamesOf(a + b) == NamesOf(a) + NamesOf(b)
  {
  }

  lemma ReasonsUnrolled(r: Row)
    ensures Reasons(r) == ReasonsFrom(r, 0)
  {
    var a: seq<string> := if Fires(r, 0) then [LowSignal] else [];
    var b: seq<string> := if Fires(r, 1) then [HighLatency] else [];
    var c: seq<string> := if Fires(r, 2) then [LowThroughput] else [];
    var d: seq<string> := if Fires(r, 3) then [HighPacketLoss] else [];
    assert ReasonsFrom(r, 3) == d + [] == d;
    assert ReasonsFrom(r, 2) == c + d;
    assert ReasonsFrom(r, 1) == b + (c + d);
    assert ReasonsFrom(r, 0) == a + (b + (c + d));
    assert Reasons(r) == a + b + c + d;
  }

  /** The appended list holds exactly the names of the rules that fire, in
      rule order. */
  lemma {:induction false} ReasonsAreTriggeredNames(r: Row)
    ensures Reasons(r) == NamesOf(Triggered(r))
    ensures |Reasons(r)| == BreachCount(r)
    ensures forall i :: 0 <= i < |Triggered(r)| ==> Reasons(r)[i] == RuleNames[Triggered(r)[i]]
  {
    ReasonsUnrolled(r);
    ReasonsFromNames(r, 0);
  }

  /** The four rule names are distinct (their lengths already differ). */
  lemma RuleNamesDistinct(a: nat, b: nat)
    requires a < 4 && b < 4 && RuleNames[a] == RuleNames[b]
    ensures a == b
  {
    assert |RuleNames[a]| == 10 + 2 * a;
    assert |RuleNames[b]| == 10 + 2 * b;
  }

  /** A rule's name is reported exactly when that rule fires. */
  lemma {:induction false} ReasonIffFires(r: Row, k: nat)
    requires k < 4
    ensures RuleNames[k] in Reasons(r) <==> Fires(r, k)
  {
    ReasonsAreTriggeredNames(r);
    var ks := Triggered(r);
    var names := Reasons(r);
    if Fires(r, k) {
      assert k in ks;
      var i :| 0 <= i < |ks| && ks[i] == k;
      assert names[i] == RuleNames[k];
    }
    if RuleNames[k] in names {
      var i :| 0 <= i < |names| && names[i] == RuleNames[k];
      assert names[i] == RuleNames[ks[i]];
      RuleNamesDistinct(ks[i], k);
      assert Fires(r, ks[i]);
    }
  }

  /** Throughput under the critical level is in particular low throughput. */
  lemma CriticalImpliesLowThroughput(r: Row)
    requires r.throughputMbps < CriticalThroughput
    ensures Fires(r, 2) && 2 in Triggered(r) && BreachCount(r) >= 1
  {
  }

  // ---------------------------------------------------------------------
  // The truth table

  /** Two or more breaches: flagged, with the names of exactly the rules that
      fire, in rule order, comma-space joined. */
  lemma {:induction false} CorroboratedBreaches(r: Row)
    requires BreachCount(r) >= 2
    ensures Classify(r).flag == 1
    ensures Classify(r).reason == Join(seq(BreachCount(r), i requires 0 <= i < BreachCount(r) => RuleNames[Triggered(r)[i]]), ", ")
  {
    ReasonsAreTriggeredNames(r);
    var names := seq(BreachCount(r), i requires 0 <= i < BreachCount(r) => RuleNames[Triggered(r)[i]]);
    assert Reasons(r) == names;
  }

  /** Exactly one breach and throughput under the critical level: flagged as
      critical low throughput, and that one breach is the low-throughput rule. */
  lemma {:induction false} SingleCriticalBreach(r: Row)
    requires BreachCount(r) == 1 && r.throughputMbps < CriticalThroughput
    ensures Classify(r) == Detection(1, "Critical Low Throughput")
    ensures Triggered(r) == [2] && Reasons(r) == ["Low Throughput"]
  {
    ReasonsAreTriggeredNames(r);
    CriticalImpliesLowThroughput(r);
  }

  /** No breach, or one breach with throughput at or above the critical
      level: the default cells, flag 0 and an empty reason. */
  lemma {:induction false} Unflagged(r: Row)
    requires BreachCount(r) == 0 || (BreachCount(r) == 1 && r.throughputMbps >= CriticalThroughput)
    ensures Classify(r) == Detection(0, "")
  {
    ReasonsAreTriggeredNames(r);
  }

  /** The policy in closed form: flagged exactly when at least two rules fire
      or throughput is under the critical level. */
  lemma {:induction false} FlagClosedForm(r: Row)
    ensures Classify(r).flag == 1 <==> BreachCount(r) >= 2 || r.throughputMbps < CriticalThroughput
  {
    ReasonsAreTriggeredNames(r);
    if r.throughputMbps < CriticalThroughput {
      CriticalImpliesLowThroughput(r);
    }
  }

  /** A reason is written exactly for the flagged rows. */
  lemma {:induction false} ReasonIffFlagged(r: Row)
    ensures Classify(r).reason != "" <==> Classify(r).flag == 1
  {
    var reasons := Reasons(r);
    if |reasons| >= 2 {
      assert Join(reasons, ReasonSeparator) == reasons[0] + ReasonSeparator + Join(reasons[1..], ReasonSeparator);
    }
  }

  /** The thresholds are strict: a row sitting exactly on all four breaches
      nothing and is not flagged. */
  lemma {:induction false} ThresholdsAreStrict(r: Row)
    requires r.signalStrengthDbm == -85.0 && r.latencyMs == 100.0
    requires r.throughputMbps == 40.0 && r.packetLossPercent == 3.0
    ensures Triggered(r) == [] && Reasons(r) == []
    ensures Classify(r) == Detection(0, "")
  {
    ReasonsAreTriggeredNames(r);
  }

  /** The reason "Critical Low Throughput" is written exactly for a single
      breach with critically low throughput; it never arises from a join. */
  lemma {:induction false} CriticalReasonIffEscapeHatch(r: Row)
    ensures Classify(r).reason == CriticalLowThroughput <==> BreachCount(r) == 1 && r.throughputMbps < CriticalThroughput
  {
    ReasonsAreTriggeredNames(r);
    var reasons := Reasons(r);
    if |reasons| >= 2 {
      JoinedReasonsHaveComma(reasons);
      CriticalHasNoComma();
    }
  }

  /** A join of two or more parts holds the separator's comma right after
      the first part. */
  lemma JoinedReasonsHaveComma(parts: seq<string>)
    requires |parts| >= 2
    ensures |parts[0]| < |Join(parts, ReasonSeparator)| && Join(parts, ReasonSeparator)[|parts[0]|] == ','
  {
    assert Join(parts, ReasonSeparator) == parts[0] + ReasonSeparator + Join(parts[1..], ReasonSeparator);
  }

  lemma CriticalHasNoComma()
    ensures forall j :: 0 <= j < |CriticalLowThroughput| ==> CriticalLowThroughput[j] != ','
  {
  }

  /** No rule name contains the separator's comma. */
  lemma NamesHaveNoComma(r: Row)
    ensures forall i, j :: 0 <= i < |Reasons(r)| && 0 <= j < |Reasons(r)[i]| ==> Reasons(r)[i][j] != ','
  {
    forall i, j | 0 <= i < |Reasons(r)| && 0 <= j < |Reasons(r)[i]| ensures Reasons(r)[i][j] != ',' {
      assert Reasons(r)[i] in RuleNames;
    }
  }

  /** Two flagged rows with the same reason string breach the same rules:
      the reason identifies the breaches. */
  lemma {:induction false} ReasonIdentifiesBreaches(r1: Row, r2: Row, k: nat)
    requires Classify(r1).flag == 1 && Classify(r2).flag == 1
    requires Classify(r1).reason == Classify(r2).reason
    requires k < 4
    ensures Fires(r1, k) <==> Fires(r2, k)
  {
    CriticalReasonIffEscapeHatch(r1);
    CriticalReasonIffEscapeHatch(r2);
    ReasonsAreTriggeredNames(r1);
    ReasonsAreTriggeredNames(r2);
    if Classify(r1).reason == CriticalLowThroughput {
      SingleCriticalBreach(r1);
      SingleCriticalBreach(r2);
    } else {
      NamesHaveNoComma(r1);
      NamesHaveNoComma(r2);
      JoinInjective(Reasons(r1), Reasons(r2), ReasonSeparator);
    }
    ReasonIffFires(r1, k);
    ReasonIffFires(r2, k);
  }

  /** Detection is row by row: row i of the result depends on input row i
      alone, and the input rows come through unchanged. */
  lemma {:induction false} DetectAllIsRowwise(rows1: seq<Row>, rows2: seq<Row>, i: nat, j: nat)
    requires i < |rows1| && j < |rows2| && rows1[i] == rows2[j]
    ensures DetectAll(rows1)[i] == DetectAll(rows2)[j]
    ensures DetectAll(rows1)[i].row == rows1[i]
  {
  }

  // ---------------------------------------------------------------------
  // Concrete rows

  function Sample(signal: real, latency: real, throughput: real, loss: real): Row
  {
    Row(0, "Loc_1", 50, signal, latency, throughput, loss, "5G_FWA", 0)
  }

  /** One breach (low signal) with healthy throughput is ignored. */
  lemma ScenarioSingleBreachIgnored()
    ensures Reasons(Sample(-90.0, 20.0, 200.0, 0.5)) == ["Low Signal"]
    ensures Classify(Sample(-90.0, 20.0, 200.0, 0.5)) == Detection(0, "")
  {
  }

  /** Low signal and high latency together are reported in rule order. */
  lemma ScenarioTwoBreaches()
    ensures Classify(Sample(-90.0, 150.0, 200.0, 0.5)) == Detection(1, "Low Signal, High Latency")
  {
  }

  /** A lone breach of throughput under 10 Mbps is critical. */
  lemma ScenarioCriticalThroughput()
    ensures Reasons(Sample(-70.0, 20.0, 5.0, 0.5)) == ["Low Throughput"]
    ensures Classify(Sample(-70.0, 20.0, 5.0, 0.5)) == Detection(1, "Critical Low Throughput")
  {
  }
}
