/** The dashboard side: app.py's copy of the rule-based detector, which
    writes its two columns into the frame row by row, and the query that
    keeps the flagged rows of the last 120 minutes, newest first, projected
    to the eight columns the dashboard shows. */
module App {
  import opened Telemetry
  import opened RuleDetector

  /** detect_anomalies_rule_based: both columns are first set to their
      defaults for every row, then each row's reasons are collected and the
      cells of the rows the policy flags are overwritten. The pre-existing
      columns are never written, and whatever the two columns held before is
      irrelevant. */
  method DetectAnomaliesRuleBased(df: array<Record>)
    modifies df
    ensures df[..] == DetectAll(Rows(old(df[..])))
  {
    forall i | 0 <= i < df.Length {
      df[i] := df[i].(predictedAnomalyRules := 0, anomalyReason := "");
    }
    var index := 0;
    while index < df.Length
      invariant 0 <= index <= df.Length
      invariant forall k :: 0 <= k < index ==> df[k] == Annotate(old(df[k]).row)
      invariant forall k :: index <= k < df.Length ==> df[k] == Record(old(df[k]).row, 0, "")
    {
      var row := df[index].row;
      var reasons: seq<string> := [];
      if row.signalStrengthDbm < BadSignalThreshold {
        reasons := reasons + [LowSignal];
      }
      if row.latencyMs > HighLatencyThreshold {
        reasons := reasons + [HighLatency];
      }
      if row.throughputMbps < LowThroughputThreshold {
        reasons := reasons + [LowThroughput];
      }
      if row.packetLossPercent > HighPacketLossThreshold {
        reasons := reasons + [HighPacketLoss];
      }
      assert reasons == Reasons(row);

      if |reasons| >= 2 {
        df[index] := df[index].(predictedAnomalyRules := 1, anomalyReason := Join(reasons, ", "));
      } else if |reasons| == 1 && row.throughputMbps < CriticalThroughput {
        df[index] := df[index].(predictedAnomalyRules := 1, anomalyReason := "Critical Low Throughput");
      }
      index := index + 1;
    }
  }

  // ---------------------------------------------------------------------
  // The recent-anomalies query

  const MicrosPerMinute: int := 60_000_000
  /** timedelta(minutes=120), in the microseconds timestamps are kept in. */
  const RecentWindow: int := 120 * MicrosPerMinute

  /** The boolean mask of the query: flagged, and strictly after now - 120 min. */
  predicate IsRecentAnomaly(r: Record, now: int)
  {
    r.predictedAnomalyRules == 1 && r.row.timestamp > now - RecentWindow
  }

  /** The rows the mask keeps, in frame order. */
  function FilterRecent(frame: seq<Record>, now: int): (kept: seq<Record>)
    ensures |kept| <= |frame|
    ensures forall i :: 0 <= i < |kept| ==> IsRecentAnomaly(kept[i], now)
  {
    if frame == [] then []
    else (if IsRecentAnomaly(frame[0], now) then [frame[0]] else []) + FilterRecent(frame[1..], now)
  }

  predicate SortedNewestFirst(s: seq<Record>)
  {
    forall i, j :: 0 <= i < j < |s| ==> s[i].row.timestamp >= s[j].row.timestamp
  }

  /** Insert x ahead of the first element that is not newer than it. */
  function InsertNewestFirst(x: Record, s: seq<Record>): (t: seq<Record>)
    requires SortedNewestFirst(s)
    ensures SortedNewestFirst(t)
    ensures multiset(t) == multiset(s) + multiset{x}
    ensures |t| == |s| + 1
  {
    if s == [] || x.row.timestamp >= s[0].row.timestamp then [x] + s
    else
      var rest := InsertNewestFirst(x, s[1..]);
      assert s == [s[0]] + s[1..];
      NewestBound(s[0], rest, s[1..] + [x]);
      [s[0]] + rest
  }

  /** An element at least as new as everything in u is at least as new as
      everything in any permutation t of u, and may be put in front of it. */
  lemma NewestBound(y: Record, t: seq<Record>, u: seq<Record>)
    requires SortedNewestFirst(t) && multiset(t) == multiset(u)
    requires forall k :: 0 <= k < |u| ==> u[k].row.timestamp <= y.row.timestamp
    ensures SortedNewestFirst([y] + t)
  {
    forall k | 0 <= k < |t| ensures t[k].row.timestamp <= y.row.timestamp {
      assert t[k] in multiset(u);
    }
  }

  /** The rows ordered by timestamp, newest first: a permutation of its
      input. */
  function SortNewestFirst(s: seq<Record>): (t: seq<Record>)
    ensures SortedNewestFirst(t)
    ensures multiset(t) == multiset(s)
    ensures |t| == |s|
  {
    if s == [] then []
    else
      assert s == [s[0]] + s[1..];
      InsertNewestFirst(s[0], SortNewestFirst(s[1..]))
  }

  /** One element of the JSON list: the eight columns the dashboard shows. */
  datatype AnomalyView = AnomalyView(
    timestamp: int,
    locationId: string,
    networkType: string,
    signalStrengthDbm: real,
    latencyMs: real,
    throughputMbps: real,
    packetLossPercent: real,
    anomalyReason: string)

  function View(r: Record): AnomalyView
  {
    AnomalyView(r.row.timestamp, r.row.locationId, r.row.networkType, r.row.signalStrengthDbm,
                r.row.latencyMs, r.row.throughputMbps, r.row.packetLossPercent, r.anomalyReason)
  }

  function Project(s: seq<Record>): (views: seq<AnomalyView>)
    ensures |views| == |s|
  {
    seq(|s|, i requires 0 <= i < |s| => View(s[i]))
  }

  /** The filter, sort and projection chain of get_current_anomalies, with
      the current time as a parameter. */
  function RecentAnomalies(frame: seq<Record>, now: int): (views: seq<AnomalyView>)
    ensures |views| == |FilterRecent(frame, now)|
    ensures forall i, j :: 0 <= i < j < |views| ==> views[i].timestamp >= views[j].timestamp
  {
    Project(SortNewestFirst(FilterRecent(frame, now)))
  }

  /** get_current_anomalies on an already loaded batch: detection on a copy
      of the batch, then the query. */
  method GetCurrentAnomalies(data: seq<Row>, now: int) returns (anomaliesList: seq<AnomalyView>)
    ensures anomaliesList == RecentAnomalies(DetectAll(data), now)
  {
    var df := new Record[|data|](i requires 0 <= i < |data| => Record(data[i], 0, ""));
    assert Rows(df[..]) == data;
    DetectAnomaliesRuleBased(df);
    anomaliesList := RecentAnomalies(df[..], now);
  }

  // ---------------------------------------------------------------------
  // Properties of the query

  /** The mask keeps exactly the flagged recent rows, each as often as it
      occurs in the frame, and nothing else. */
  lemma {:induction false} FilterRecentExact(frame: seq<Record>, now: int, x: Record)
    ensures multiset(FilterRecent(frame, now))[x] == if IsRecentAnomaly(x, now) then multiset(frame)[x] else 0
    ensures x in FilterRecent(frame, now) <==> x in frame && IsRecentAnomaly(x, now)
  {
    if frame != [] {
      FilterRecentExact(frame[1..], now, x);
      assert frame == [frame[0]] + frame[1..];
    }
  }

  /** Every shown anomaly comes from a flagged row of the last 120 minutes. */
  lemma RecentAnomaliesSound(frame: seq<Record>, now: int, i: nat)
    requires i < |RecentAnomalies(frame, now)|
    ensures exists r :: r in frame && IsRecentAnomaly(r, now) && View(r) == RecentAnomalies(frame, now)[i]
  {
    var sorted := SortNewestFirst(FilterRecent(frame, now));
    var r := sorted[i];
    assert r in multiset(FilterRecent(frame, now));
    FilterRecentExact(frame, now, r);
  }

  /** Every flagged row of the last 120 minutes is shown. */
  lemma RecentAnomaliesComplete(frame: seq<Record>, now: int, r: Record)
    requires r in frame && IsRecentAnomaly(r, now)
    ensures View(r) in RecentAnomalies(frame, now)
  {
    FilterRecentExact(frame, now, r);
    var sorted := SortNewestFirst(FilterRecent(frame, now));
    assert r in multiset(sorted);
    var i :| 0 <= i < |sorted| && sorted[i] == r;
    assert RecentAnomalies(frame, now)[i] == View(r);
  }

  /** Projecting two permutations of each other gives two permutations of
      each other. */
  lemma {:induction false} ProjectPermutation(s: seq<Record>, t: seq<Record>)
    requires multiset(s) == multiset(t)
    ensures multiset(Project(s)) == multiset(Project(t))
    decreases |s|
  {
    if s != [] {
      var x := s[0];
      assert x in multiset(t);
      var j :| 0 <= j < |t| && t[j] == x;
      var rest := t[..j] + t[j + 1..];
      assert t == t[..j] + [x] + t[j + 1..];
      assert s == [x] + s[1..];
      assert multiset(t) == multiset(t[..j]) + multiset{x} + multiset(t[j + 1..]);
      assert multiset(s) == multiset{x} + multiset(s[1..]);
      assert multiset(rest) == multiset(t[..j]) + multiset(t[j + 1..]);
      forall y ensures multiset(s[1..])[y] == multiset(rest)[y] {
        assert multiset(s)[y] == multiset(t)[y];
      }
      assert multiset(s[1..]) == multiset(rest);
      ProjectPermutation(s[1..], rest);
      ProjectConcat([x], s[1..]);
      ProjectConcat(t[..j], t[j + 1..]);
      ProjectConcat(t[..j] + [x], t[j + 1..]);
      ProjectConcat(t[..j], [x]);
    }
  }

  /** The projection of a concatenation is the concatenation of projections. */
  lemma ProjectConcat(a: seq<Record>, b: seq<Record>)
    ensures Project(a + b) == Project(a) + Project(b)
  {
    assert forall i :: 0 <= i < |a| ==> (a + b)[i] == a[i];
    assert forall i :: |a| <= i < |a| + |b| ==> (a + b)[i] == b[i - |a|];
  }

  /** The list holds the views of exactly the rows the mask keeps, each as
      often as it is kept: sorting only reorders them. */
  lemma RecentAnomaliesPermutation(frame: seq<Record>, now: int)
    ensures multiset(RecentAnomalies(frame, now)) == multiset(Project(FilterRecent(frame, now)))
  {
    ProjectPermutation(SortNewestFirst(FilterRecent(frame, now)), FilterRecent(frame, now));
  }

  /** No flagged recent row gives an empty list, not an error. */
  lemma {:induction false} NoRecentAnomaliesIsEmpty(frame: seq<Record>, now: int)
    requires forall r :: r in frame ==> !IsRecentAnomaly(r, now)
    ensures RecentAnomalies(frame, now) == []
  {
    if FilterRecent(frame, now) != [] {
      var x := FilterRecent(frame, now)[0];
      FilterRecentExact(frame, now, x);
    }
  }

  /** Composed with rule-based detection: every shown entry carries a reason
      and lies in the window, and every recent row the rules flag is shown. */
  lemma CurrentAnomaliesFromRules(data: seq<Row>, now: int)
    ensures forall v :: v in RecentAnomalies(DetectAll(data), now) ==>
      v.anomalyReason != "" && v.timestamp > now - RecentWindow
    ensures forall row :: row in data && Classify(row).flag == 1 && row.timestamp > now - RecentWindow ==>
      View(Annotate(row)) in RecentAnomalies(DetectAll(data), now)
  {
    var frame := DetectAll(data);
    var views := RecentAnomalies(frame, now);
    forall v | v in views ensures v.anomalyReason != "" && v.timestamp > now - RecentWindow {
      var i :| 0 <= i < |views| && views[i] == v;
      RecentAnomaliesSound(frame, now, i);
      var r :| r in frame && IsRecentAnomaly(r, now) && View(r) == v;
      var k :| 0 <= k < |frame| && frame[k] == r;
      ReasonIffFlagged(data[k]);
    }
    forall row | row in data && Classify(row).flag == 1 && row.timestamp > now - RecentWindow
      ensures View(Annotate(row)) in views
    {
      var k :| 0 <= k < |data| && data[k] == row;
      assert frame[k] == Annotate(row);
      RecentAnomaliesComplete(frame, now, Annotate(row));
    }
  }
}
