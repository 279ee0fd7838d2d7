/** The record schema shared by the detectors and the dashboard query:
    one telemetry observation as read from the CSV batch, the two columns
    the rule-based detector adds to it, and Python's str.join. */
module Telemetry {

  datatype Option<T> = None | Some(value: T)

  /** One row of the batch, with the columns in the order the CSV stores them.
      Timestamps are microseconds since an arbitrary epoch (the resolution of
      Python's datetime); the four measurements are exact reals. */
  datatype Row = Row(
    timestamp: int,
    locationId: string,
    deviceCount: int,
    signalStrengthDbm: real,
    latencyMs: real,
    throughputMbps: real,
    packetLossPercent: real,
    networkType: string,
    anomalyFlag: int)

  /** A row of the frame once the rule-based detector has added its two
      columns, predicted_anomaly_rules (0 or 1) and anomaly_reason. */
  datatype Record = Record(row: Row, predictedAnomalyRules: int, anomalyReason: string)

  /** The rows of a frame, with the detector's columns dropped. */
  function Rows(frame: seq<Record>): (rows: seq<Row>)
    ensures |rows| == |frame|
    ensures forall i :: 0 <= i < |frame| ==> rows[i] == frame[i].row
  {
    seq(|frame|, i requires 0 <= i < |frame| => frame[i].row)
  }

  /** sep.join(parts) in Python. */
  function Join(parts: seq<string>, sep: string): string
  {
    if |parts| == 0 then ""
    else if |parts| == 1 then parts[0]
    else parts[0] + sep + Join(parts[1..], sep)
  }

  /** The first occurrence of character c in s, if any. */
  function IndexOf(s: string, c: char): (r: Option<nat>)
    ensures r.Some? ==> r.value < |s| && s[r.value] == c && forall j :: 0 <= j < r.value ==> s[j] != c
    ensures r.None? ==> forall j :: 0 <= j < |s| ==> s[j] != c
  {
    if |s| == 0 then None
    else if s[0] == c then Some(0)
    else match IndexOf(s[1..], c)
      case None => None
      case Some(k) => Some(k + 1)
  }

  /** Joining with a separator that starts with a character no part contains
      loses nothing: the parts can be read back from the joined string. */
  lemma {:induction false} JoinInjective(a: seq<string>, b: seq<string>, sep: string)
    requires |sep| > 0 && |a| > 0 && |b| > 0
    requires forall i, j :: 0 <= i < |a| && 0 <= j < |a[i]| ==> a[i][j] != sep[0]
    requires forall i, j :: 0 <= i < |b| && 0 <= j < |b[i]| ==> b[i][j] != sep[0]
    requires Join(a, sep) == Join(b, sep)
    ensures a == b
  {
    var s := Join(a, sep);
    JoinFirst(a, sep);
    JoinFirst(b, sep);
    if |a| == 1 {
      assert IndexOf(s, sep[0]).None?;
    } else {
      assert IndexOf(s, sep[0]) == Some(|a[0]|);
      assert |a[0]| == |b[0]|;
      assert a[0] == s[..|a[0]|] == b[0];
      var rest := |a[0]| + |sep|;
      assert Join(a[1..], sep) == s[rest..] == Join(b[1..], sep);
      JoinInjective(a[1..], b[1..], sep);
      assert a == [a[0]] + a[1..];
      assert b == [b[0]] + b[1..];
    }
  }

  /** Where the first separator character of a join lies. */
  lemma {:induction false} JoinFirst(a: seq<string>, sep: string)
    requires |sep| > 0 && |a| > 0
    requires forall i, j :: 0 <= i < |a| && 0 <= j < |a[i]| ==> a[i][j] != sep[0]
    ensures |a| == 1 ==> IndexOf(Join(a, sep), sep[0]).None?
    ensures |a| >= 2 ==> IndexOf(Join(a, sep), sep[0]) == Some(|a[0]|)
    ensures |a| >= 2 ==> Join(a, sep)[..|a[0]|] == a[0]
    ensures |a| >= 2 ==> Join(a, sep)[|a[0]| + |sep|..] == Join(a[1..], sep)
  {
    var s := Join(a, sep);
    if |a| >= 2 {
      assert s == a[0] + sep + Join(a[1..], sep);
      assert s[|a[0]|] == sep[0];
      assert forall j :: 0 <= j < |a[0]| ==> s[j] == a[0][j];
      IndexOfPrefix(s, sep[0], |a[0]|);
    } else {
      assert s == a[0];
    }
  }

  /** A character found at k that is absent before k is the first occurrence. */
  lemma {:induction false} IndexOfPrefix(s: string, c: char, k: nat)
    requires k < |s| && s[k] == c
    requires forall j :: 0 <= j < k ==> s[j] != c
    ensures IndexOf(s, c) == Some(k)
  {
    if k > 0 {
      IndexOfPrefix(s[1..], c, k - 1);
    }
  }
}
