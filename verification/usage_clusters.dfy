/** The "Clusteranalyse der Hallennutzung" page: booking start hours and durations,
    grouped into clusters by an external k-means fit, each cluster named after the
    time of day of its mean start hour. The fit itself is a parameter. */
module UsageClusters {
  import opened Wrappers

  /** A `belegungsplan` row as the page selects it; times are seconds. */
  datatype UsageRow = UsageRow(segmentId: int, wochentag: string, start: int, dauer: int, bereich: Option<string>)

  /** `TIME_TO_SEC(b.start)/3600`. */
  function StartHour(u: UsageRow): (h: real)
    ensures h * 3600.0 == u.start as real
  {
    u.start as real / 3600.0
  }

  /** `TIME_TO_SEC(b.dauer)/60`. */
  function DurationMinutes(u: UsageRow): (m: real)
    ensures m * 60.0 == u.dauer as real
  {
    u.dauer as real / 60.0
  }

  /** Noon and five o'clock, read on the start hour, are the same boundaries in seconds. */
  lemma HourThresholds(u: UsageRow)
    ensures StartHour(u) < 12.0 <==> u.start < 43200
    ensures StartHour(u) < 17.0 <==> u.start < 61200
  {
  }

  /** The three cluster names, in the order of the day. */
  datatype Label = Morning | Afternoon | Evening

  function Text(l: Label): string {
    match l
    case Morning => "Vormittags-Nutzung"
    case Afternoon => "Nachmittags-Nutzung"
    case Evening => "Abend-Nutzung"
  }

  function Rank(l: Label): int {
    match l
    case Morning => 0
    case Afternoon => 1
    case Evening => 2
  }

  /** The naming rule on a cluster's mean start hour. */
  function LabelOf(avg: real): (l: Label)
    ensures l == Morning <==> avg < 12.0
    ensures l == Afternoon <==> 12.0 <= avg < 17.0
    ensures l == Evening <==> 17.0 <= avg
  {
    if avg < 12.0 then Morning
    else if avg < 17.0 then Afternoon
    else Evening
  }

  /** A later mean never gets an earlier name. */
  lemma LabelMonotone(a: real, b: real)
    requires a <= b
    ensures Rank(LabelOf(a)) <= Rank(LabelOf(b))
  {
  }

  /** The names are distinct texts. */
  lemma TextInjective(l1: Label, l2: Label)
    requires Text(l1) == Text(l2)
    ensures l1 == l2
  {
  }

  function Sum(xs: seq<real>): real {
    if |xs| == 0 then 0.0 else xs[0] + Sum(xs[1..])
  }

  /** The start hours of the rows assigned to cluster `c`, in row order. */
  function Members(hours: seq<real>, assign: seq<int>, c: int): (r: seq<real>)
    requires |hours| == |assign|
    ensures |r| <= |hours|
    ensures c in assign ==> |r| > 0
    ensures forall x :: x in r ==> exists i :: 0 <= i < |hours| && assign[i] == c && hours[i] == x
    ensures forall i :: 0 <= i < |hours| && assign[i] == c ==> hours[i] in r
  {
    if |hours| == 0 then []
    else
      var rest := Members(hours[1..], assign[1..], c);
      assert forall x :: x in rest ==> exists i :: 0 <= i < |hours| && assign[i] == c && hours[i] == x by {
        forall x | x in rest
          ensures exists i :: 0 <= i < |hours| && assign[i] == c && hours[i] == x
        {
          var i :| 0 <= i < |hours| - 1 && assign[1..][i] == c && hours[1..][i] == x;
          assert assign[i + 1] == c && hours[i + 1] == x;
        }
      }
      assert forall i :: 1 <= i < |hours| && assign[i] == c ==> hours[i] in rest by {
        forall i | 1 <= i < |hours| && assign[i] == c
          ensures hours[i] in rest
        {
          assert assign[1..][i - 1] == c && hours[1..][i - 1] == hours[i];
        }
      }
      assert c in assign && assign[0] != c ==> c in assign[1..];
      if assign[0] == c then [hours[0]] + rest else rest
  }

  /** `df[df["cluster"] == c]["start_stunde"].mean()` for a cluster that occurs. */
  function ClusterMean(hours: seq<real>, assign: seq<int>, c: int): real
    requires |hours| == |assign|
    requires c in assign
  {
    var m := Members(hours, assign, c);
    Sum(m) / (|m| as real)
  }

  /** `cluster_labels`: one name for every cluster that occurs, from its mean start hour. */
  function Labels(hours: seq<real>, assign: seq<int>): (m: map<int, Label>)
    requires |hours| == |assign|
    ensures forall c :: c in m <==> c in assign
    ensures forall c :: c in m ==> m[c] == LabelOf(ClusterMean(hours, assign, c))
  {
    map c | c in assign :: LabelOf(ClusterMean(hours, assign, c))
  }

  /** `df["cluster"].map(cluster_labels)`: every row gets exactly one name, the name of its
      cluster, so rows of one cluster share it. */
  function RowLabels(hours: seq<real>, assign: seq<int>): (r: seq<Label>)
    requires |hours| == |assign|
    ensures |r| == |assign|
    ensures forall i :: 0 <= i < |r| ==> r[i] == LabelOf(ClusterMean(hours, assign, assign[i]))
    ensures forall i, j :: 0 <= i < |r| && 0 <= j < |r| && assign[i] == assign[j] ==> r[i] == r[j]
  {
    var m := Labels(hours, assign);
    seq(|assign|, i requires 0 <= i < |assign| => m[assign[i]])
  }

  /** A mean is below a bound exactly when the sum is below the bound times the count. */
  lemma MeanBelow(s: real, n: real, b: real)
    requires n > 0.0
    ensures s / n < b <==> s < b * n
  {
    var m := s / n;
    assert m * n == s;
    if m < b {
      assert (b - m) * n > 0.0;
    } else {
      assert (m - b) * n >= 0.0;
    }
  }

  lemma {:induction false} SumBelow(xs: seq<real>, b: real)
    requires forall x :: x in xs ==> x < b
    requires |xs| > 0
    ensures Sum(xs) < b * (|xs| as real)
  {
    assert xs[0] in xs;
    if |xs| > 1 {
      assert forall x :: x in xs[1..] ==> x in xs;
      SumBelow(xs[1..], b);
    } else {
      assert xs[1..] == [];
    }
  }

  lemma {:induction false} SumAtLeast(xs: seq<real>, b: real)
    requires forall x :: x in xs ==> b <= x
    ensures b * (|xs| as real) <= Sum(xs)
  {
    if |xs| > 0 {
      assert xs[0] in xs;
      assert forall x :: x in xs[1..] ==> x in xs;
      SumAtLeast(xs[1..], b);
    }
  }

  /** A cluster all of whose bookings start before noon is named "Vormittags-Nutzung". */
  lemma MorningCluster(hours: seq<real>, assign: seq<int>, c: int)
    requires |hours| == |assign|
    requires c in assign
    requires forall i :: 0 <= i < |hours| && assign[i] == c ==> hours[i] < 12.0
    ensures Labels(hours, assign)[c] == Morning
  {
    var m := Members(hours, assign, c);
    SumBelow(m, 12.0);
    MeanBelow(Sum(m), |m| as real, 12.0);
  }

  /** A cluster all of whose bookings start at five o'clock or later is named "Abend-Nutzung". */
  lemma EveningCluster(hours: seq<real>, assign: seq<int>, c: int)
    requires |hours| == |assign|
    requires c in assign
    requires forall i :: 0 <= i < |hours| && assign[i] == c ==> 17.0 <= hours[i]
    ensures Labels(hours, assign)[c] == Evening
  {
    var m := Members(hours, assign, c);
    SumAtLeast(m, 17.0);
    MeanBelow(Sum(m), |m| as real, 17.0);
  }

  /** The naming need not tell clusters apart: two clusters of morning bookings share a name. */
  lemma LabelsNotInjective(hours: seq<real>, assign: seq<int>)
    requires hours == [8.0, 9.5] && assign == [0, 1]
    ensures 0 != 1 && Labels(hours, assign)[0] == Labels(hours, assign)[1] == Morning
  {
    MorningCluster(hours, assign, 0);
    MorningCluster(hours, assign, 1);
  }

  /** A row of the result table and chart. */
  datatype Labelled = Labelled(row: UsageRow, startStunde: real, dauerMinuten: real, name: Label)

  function Count(ls: seq<Label>, l: Label): (n: nat)
    ensures n <= |ls|
  {
    if |ls| == 0 then 0 else (if ls[0] == l then 1 else 0) + Count(ls[1..], l)
  }

  /** The bar chart's counts per name add up to the number of rows. */
  lemma {:induction false} CountsAddUp(ls: seq<Label>)
    ensures Count(ls, Morning) + Count(ls, Afternoon) + Count(ls, Evening) == |ls|
  {
    if |ls| > 0 {
      CountsAddUp(ls[1..]);
    }
  }

  /** What the page shows. */
  datatype Outcome =
    | NoData(text: string)
    | FitError
    | Clustered(rows: seq<Labelled>, table: seq<Labelled>)

  const NoDataText: string := "Keine Daten für die Clusteranalyse gefunden."

  /** The slider's range. */
  predicate ValidK(k: int) {
    2 <= k <= 6
  }

  /** The page for `k` clusters. `assign` is the k-means assignment of the rows, used only
      when the fit can run: k-means fails on fewer rows than clusters. */
  function UsagePage(rows: seq<UsageRow>, k: int, assign: seq<int>): (o: Outcome)
    requires ValidK(k)
    requires |rows| >= k ==> |assign| == |rows| && forall i :: 0 <= i < |assign| ==> 0 <= assign[i] < k
    ensures o.NoData? <==> |rows| == 0
    ensures o.NoData? ==> o.text == NoDataText
    ensures o.FitError? <==> 0 < |rows| < k
    ensures o.Clustered? ==>
              && |o.rows| == |rows|
              && (forall i :: 0 <= i < |rows| ==>
                    && o.rows[i].row == rows[i]
                    && o.rows[i].startStunde * 3600.0 == rows[i].start as real
                    && o.rows[i].dauerMinuten * 60.0 == rows[i].dauer as real
                    && o.rows[i].name == LabelOf(ClusterMean(Hours(rows), assign, assign[i])))
              && (forall i, j :: 0 <= i < |rows| && 0 <= j < |rows| && assign[i] == assign[j] ==>
                    o.rows[i].name == o.rows[j].name)
              && o.table == o.rows[..if |rows| < 50 then |rows| else 50]
  {
    if |rows| == 0 then NoData(NoDataText)
    else if |rows| < k then FitError
    else
      var hours := Hours(rows);
      var labels := RowLabels(hours, assign);
      var out := seq(|rows|, i requires 0 <= i < |rows| =>
                   Labelled(rows[i], StartHour(rows[i]), DurationMinutes(rows[i]), labels[i]));
      Clustered(out, out[..if |out| < 50 then |out| else 50])
  }

  function Hours(rows: seq<UsageRow>): (hs: seq<real>)
    ensures |hs| == |rows|
    ensures forall i :: 0 <= i < |rows| ==> hs[i] == StartHour(rows[i])
  {
    seq(|rows|, i requires 0 <= i < |rows| => StartHour(rows[i]))
  }
}
