/** The training script: its own copy of the rule-based detector, the
    mean imputation of the five model features, and the mapping of the
    outlier model's -1/1 verdicts to the 1/0 anomaly flag. */
module TrainModel {
  import opened Telemetry
  import opened RuleDetector

  /** This file's detect_anomalies_rule_based. It is verified against the
      same specification as App.DetectAnomaliesRuleBased, so the two copies
      leave every frame in the same state. */
  method DetectAnomaliesRuleBased(df: array<Record>)
    modifies df
    ensures df[..] == DetectAll(Rows(old(df[..])))
  {
    forall i | 0 <= i < df.Length {
      df[i] := df[i].(predictedAnomalyRules := 0, anomalyReason := "");
    }
    var index := 0;
    while index < df.Length
      invariant 0 <= index <= df.Length
      invariant forall k :: 0 <= k < index ==> df[k] == Annotate(old(df[k]).row)
      invariant forall k :: index <= k < df.Length ==> df[k] == Record(old(df[k]).row, 0, "")
    {
      var row := df[index].row;
      var reasons: seq<string> := [];
      if row.signalStrengthDbm < BadSignalThreshold {
        reasons := reasons + [LowSignal];
      }
      if row.latencyMs > HighLatencyThreshold {
        reasons := reasons + [HighLatency];
      }
      if row.throughputMbps < LowThroughputThreshold {
        reasons := reasons + [LowThroughput];
      }
      if row.packetLossPercent > HighPacketLossThreshold {
        reasons := reasons + [HighPacketLoss];
      }
      assert reasons == Reasons(row);

      if |reasons| >= 2 {
        df[index] := df[index].(predictedAnomalyRules := 1, anomalyReason := Join(reasons, ", "));
      } else if |reasons| == 1 && row.throughputMbps < CriticalThroughput {
        df[index] := df[index].(predictedAnomalyRules := 1, anomalyReason := "Critical Low Throughput");
      }
      index := index + 1;
    }
  }

  // ---------------------------------------------------------------------
  // Label mapping

  /** The flag for one outlier-model verdict: 1 for an outlier (-1), 0 otherwise. */
  function MlLabel(verdict: int): (flag: int)
    ensures flag == 0 || flag == 1
    ensures flag == 1 <==> verdict == -1
  {
    if verdict == -1 then 1 else 0
  }

  /** The predicted_anomaly_ml column after the apply. */
  function MlLabels(verdicts: seq<int>): (flags: seq<int>)
    ensures |flags| == |verdicts|
    ensures forall i :: 0 <= i < |flags| ==> flags[i] == 0 || flags[i] == 1
    ensures forall i :: 0 <= i < |flags| ==> (flags[i] == 1 <==> verdicts[i] == -1)
  {
    seq(|verdicts|, i requires 0 <= i < |verdicts| => MlLabel(verdicts[i]))
  }

  /** The number of entries of s equal to v. */
  function Count(s: seq<int>, v: int): nat
  {
    if s == [] then 0 else (if s[0] == v then 1 else 0) + Count(s[1..], v)
  }

  /** Every outlier verdict becomes exactly one flagged row: the column sums
      to the number of -1 verdicts. */
  lemma {:induction false} MlLabelsCountOutliers(verdicts: seq<int>)
    ensures Count(MlLabels(verdicts), 1) == Count(verdicts, -1)
    ensures Count(MlLabels(verdicts), 0) == |verdicts| - Count(verdicts, -1)
  {
    if verdicts != [] {
      MlLabelsCountOutliers(verdicts[1..]);
      assert MlLabels(verdicts)[1..] == MlLabels(verdicts[1..]);
    }
  }

  // ---------------------------------------------------------------------
  // Mean imputation

  /** The model features, in the order the script lists them. */
  const Features: seq<string> := ["signal_strength_dbm", "latency_ms", "throughput_mbps", "packet_loss_percent", "device_count"]

  lemma FeaturesDistinct()
    ensures forall i, j :: 0 <= i < j < |Features| ==> Features[i] != Features[j]
  {
    assert Features[0][0] == 's' && Features[1][0] == 'l' && Features[2][0] == 't';
    assert Features[3][0] == 'p' && Features[4][0] == 'd';
  }

  /** A numeric column after pd.to_numeric(errors='coerce'): None marks an
      entry that was missing or could not be read as a number. */
  type Column = seq<Option<real>>

  /** The number of present entries of a column. */
  function PresentCount(col: Column): (n: nat)
    ensures n <= |col|
  {
    if col == [] then 0 else (if col[0].Some? then 1 else 0) + PresentCount(col[1..])
  }

  /** The sum of the present entries of a column (NaN is skipped). */
  function PresentSum(col: Column): real
  {
    if col == [] then 0.0 else (if col[0].Some? then col[0].value else 0.0) + PresentSum(col[1..])
  }

  /** Series.mean(): the mean of the present entries; None (NaN) when there
      are none. */
  function Mean(col: Column): (m: Option<real>)
    ensures m.Some? <==> PresentCount(col) > 0
    ensures m.Some? ==> m.value * (PresentCount(col) as real) == PresentSum(col)
  {
    if PresentCount(col) == 0 then None else Some(PresentSum(col) / (PresentCount(col) as real))
  }

  /** Every missing entry replaced by m. */
  function FillWith(col: Column, m: real): (filled: Column)
    ensures |filled| == |col|
  {
    if col == [] then [] else [if col[0].Some? then col[0] else Some(m)] + FillWith(col[1..], m)
  }

  /** fillna(mean): nothing changes when the mean itself is NaN. */
  function FillMean(col: Column): (filled: Column)
    ensures |filled| == |col|
  {
    match Mean(col)
    case None => col
    case Some(m) => FillWith(col, m)
  }

  lemma {:induction false} FillWithAt(col: Column, m: real, i: nat)
    requires i < |col|
    ensures FillWith(col, m)[i] == if col[i].Some? then col[i] else Some(m)
  {
    if i > 0 {
      FillWithAt(col[1..], m, i - 1);
    }
  }

  /** After the fill step, a column with at least one present entry has no
      missing entry; present entries are unchanged; every missing entry holds
      the same value, the mean of the present ones. A column with no present
      entry (whose mean is NaN) is left as it was. */
  lemma FillMeanSpec(col: Column, i: nat)
    requires i < |col|
    ensures |FillMean(col)| == |col|
    ensures col[i].Some? ==> FillMean(col)[i] == col[i]
    ensures PresentCount(col) > 0 ==> FillMean(col)[i].Some?
    ensures col[i].None? && PresentCount(col) > 0 ==> FillMean(col)[i] == Mean(col)
    ensures PresentCount(col) == 0 ==> FillMean(col) == col
  {
    if Mean(col).Some? {
      FillWithAt(col, Mean(col).value, i);
    }
  }

  /** Filling present every entry, and adds m to the sum once per missing entry. */
  lemma {:induction false} PresentFillWith(col: Column, m: real)
    ensures PresentCount(FillWith(col, m)) == |col|
    ensures PresentSum(FillWith(col, m)) == PresentSum(col) + Times(|col| - PresentCount(col), m)
  {
    if col != [] {
      PresentFillWith(col[1..], m);
      assert FillWith(col, m)[1..] == FillWith(col[1..], m);
    }
  }

  /** Filling with the mean does not move the mean, so running the fill step
      a second time changes nothing. */
  lemma {:induction false} FillMeanIdempotent(col: Column)
    ensures Mean(FillMean(col)) == Mean(col)
    ensures FillMean(FillMean(col)) == FillMean(col)
  {
    match Mean(col)
    case None =>
    case Some(m) =>
      var filled := FillWith(col, m);
      var p := PresentCount(col) as real;
      var n := |col| as real;
      PresentFillWith(col, m);
      TimesIsProduct(|col| - PresentCount(col), m);
      assert PresentSum(filled) == m * p + (n - p) * m;
      assert PresentSum(filled) == m * n;
      assert PresentCount(filled) as real == n;
      DivideBack(m, n);
      assert Mean(filled) == Some(m);
      forall i | 0 <= i < |filled| ensures filled[i].Some? {
        FillWithAt(col, m, i);
      }
      FillWithPresent(filled, m);
  }

  /** Filling a column with no missing entry leaves it as it is. */
  lemma {:induction false} FillWithPresent(col: Column, m: real)
    requires forall i :: 0 <= i < |col| ==> col[i].Some?
    ensures FillWith(col, m) == col
  {
    if col != [] {
      FillWithPresent(col[1..], m);
      assert col == [col[0]] + col[1..];
    }
  }

  /** Every present entry of col lies in [lo, hi]. */
  predicate Within(col: Column, lo: real, hi: real)
  {
    forall i :: 0 <= i < |col| && col[i].Some? ==> lo <= col[i].value <= hi
  }

  /** The mean lies between any bounds of the present entries, so the value
      written into the gaps is never outside the observed range. */
  lemma {:induction false} MeanWithinBounds(col: Column, lo: real, hi: real)
    requires Within(col, lo, hi)
    requires PresentCount(col) > 0
    ensures lo <= Mean(col).value <= hi
  {
    var p := PresentCount(col) as real;
    var m := Mean(col).value;
    var total := PresentSum(col);
    SumBounds(col, lo, hi);
    BelowMean(m, lo, p, total);
    AboveMean(m, hi, p, total);
  }

  lemma BelowMean(m: real, lo: real, p: real, total: real)
    requires p > 0.0 && m * p == total && lo * p <= total
    ensures lo <= m
  {
  }

  lemma AboveMean(m: real, hi: real, p: real, total: real)
    requires p > 0.0 && m * p == total && total <= hi * p
    ensures m <= hi
  {
  }

  lemma DivideBack(m: real, n: real)
    requires n > 0.0
    ensures (m * n) / n == m
  {
  }

  lemma Distribute(a: real, c: real)
    ensures a * (c + 1.0) == a * c + a
  {
  }

  /** a added to itself n times. */
  function Times(n: nat, a: real): real
  {
    if n == 0 then 0.0 else a + Times(n - 1, a)
  }

  lemma {:induction false} TimesIsProduct(n: nat, a: real)
    ensures Times(n, a) == a * (n as real)
  {
    if n > 0 {
      TimesIsProduct(n - 1, a);
      Distribute(a, (n - 1) as real);
    }
  }

  lemma {:induction false} SumBounds(col: Column, lo: real, hi: real)
    requires Within(col, lo, hi)
    ensures lo * (PresentCount(col) as real) <= PresentSum(col)
    ensures PresentSum(col) <= hi * (PresentCount(col) as real)
  {
    SumBoundsByTimes(col, lo, hi);
    TimesIsProduct(PresentCount(col), lo);
    TimesIsProduct(PresentCount(col), hi);
  }

  lemma {:induction false} SumBoundsByTimes(col: Column, lo: real, hi: real)
    requires Within(col, lo, hi)
    ensures Times(PresentCount(col), lo) <= PresentSum(col) <= Times(PresentCount(col), hi)
  {
    if col != [] {
      WithinTail(col, lo, hi);
      SumBoundsByTimes(col[1..], lo, hi);
    }
  }

  lemma WithinTail(col: Column, lo: real, hi: real)
    requires Within(col, lo, hi) && col != []
    ensures Within(col[1..], lo, hi)
    ensures col[0].Some? ==> lo <= col[0].value <= hi
  {
    var t := col[1..];
    forall i | 0 <= i < |t| && t[i].Some? ensures lo <= t[i].value <= hi {
      assert t[i] == col[i + 1];
    }
  }

  /** The columns of the training frame, by name. Only the five features are
      read or written; every other column (timestamp, location_id,
      network_type, ...) is abstracted to a Column and only ever required to
      stay unchanged. */
  class FeatureFrame {
    var columns: map<string, Column>

    /** Each feature column, read as numbers, has its gaps filled with its
        own mean: it is replaced by its filled version; the other
        columns and the set of columns stay as they were. */
    method FillFeatureMeans()
      requires forall f :: f in Features ==> f in columns
      modifies this
      ensures columns.Keys == old(columns).Keys
      ensures forall f :: f in Features ==> columns[f] == FillMean(old(columns)[f])
      ensures forall c :: c in columns && c !in Features ==> columns[c] == old(columns)[c]
    {
      FeaturesDistinct();
      for j := 0 to |Features|
        invariant columns.Keys == old(columns).Keys
        invariant forall k :: 0 <= k < j ==> columns[Features[k]] == FillMean(old(columns)[Features[k]])
        invariant forall c :: c in columns && c !in Features[..j] ==> columns[c] == old(columns)[c]
      {
        var col := Features[j];
        columns := columns[col := FillMean(columns[col])];
      }
    }
  }
}
