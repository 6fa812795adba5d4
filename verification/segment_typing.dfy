/** The "Ähnliche Segmente vergleichen" page: a segment chosen by its display name, its
    facility details with fallbacks, and the segments nearest to it in the scaled feature
    space, itself excluded. The scaling and the k-means segment type are parameters. */
module SegmentTyping {
  import opened Seqs
  import opened Sorting

  /** A row of the segment query, grouped by segment. */
  datatype SegmentRow = SegmentRow(
    segmentId: int,
    segmentName: string,
    einrichtungName: string,
    laenge: real,
    breite: real,
    flaeche: real,
    sportartenVielfalt: int,
    bereichsVielfalt: int)

  /** `f"{segment_name} – {einrichtung_name}"`, with an en dash between two spaces. */
  function DisplayName(r: SegmentRow): (d: string)
    ensures d == r.segmentName + " \U{2013} " + r.einrichtungName
    ensures |d| == |r.segmentName| + 3 + |r.einrichtungName|
  {
    r.segmentName + " \U{2013} " + r.einrichtungName
  }

  function SegmentIdOf(r: SegmentRow): int {
    r.segmentId
  }

  /** The first position holding `x`. */
  function FirstIndex<T(==)>(s: seq<T>, x: T): (i: nat)
    requires x in s
    ensures i < |s| && s[i] == x
    ensures forall j :: 0 <= j < i ==> s[j] != x
  {
    if s[0] == x then 0 else 1 + FirstIndex(s[1..], x)
  }

  /** `df[df["display_name"] == selected_display]["segment_id"].iloc[0]`, followed by the
      first row of that segment: a display name shared by several rows picks the first of
      them, and that segment's first row supplies the data. */
  function Selected(rows: seq<SegmentRow>, display: string): (i: nat)
    requires display in Map(rows, DisplayName)
    ensures i < |rows|
    ensures rows[i].segmentId == rows[FirstIndex(Map(rows, DisplayName), display)].segmentId
    ensures forall j :: 0 <= j < i ==> rows[j].segmentId != rows[i].segmentId
  {
    var k := FirstIndex(Map(rows, DisplayName), display);
    var ids := Map(rows, SegmentIdOf);
    assert ids[k] == rows[k].segmentId;
    FirstIndex(ids, rows[k].segmentId)
  }

  /** With one row per segment, the selected row is the first row carrying the display name. */
  lemma SelectedUniqueIds(rows: seq<SegmentRow>, display: string)
    requires display in Map(rows, DisplayName)
    requires forall i, j :: 0 <= i < j < |rows| ==> rows[i].segmentId != rows[j].segmentId
    ensures DisplayName(rows[Selected(rows, display)]) == display
    ensures forall j :: 0 <= j < Selected(rows, display) ==> DisplayName(rows[j]) != display
  {
    var names := Map(rows, DisplayName);
    var k := FirstIndex(names, display);
    var i := Selected(rows, display);
    assert i == k by {
      assert rows[i].segmentId == rows[k].segmentId;
      assert !(i < k) && !(k < i);
    }
    assert names[k] == DisplayName(rows[k]);
    forall j | 0 <= j < i
      ensures DisplayName(rows[j]) != display
    {
      assert names[j] == DisplayName(rows[j]);
    }
  }

  /** Two rows with the same display name: the later one can never be selected by it. */
  lemma DuplicateDisplayFirstWins(rows: seq<SegmentRow>, a: SegmentRow, b: SegmentRow)
    requires rows == [a, b] && a.segmentId != b.segmentId && DisplayName(a) == DisplayName(b)
    ensures Selected(rows, DisplayName(b)) == 0
  {
    assert Map(rows, DisplayName)[0] == DisplayName(b);
  }

  /** The squared Euclidean distance: ordering by it is ordering by the norm. */
  function SquaredDistance(x: seq<real>, y: seq<real>): (d: real)
    requires |x| == |y|
    ensures d >= 0.0
    ensures x == y ==> d == 0.0
  {
    if |x| == 0 then 0.0
    else
      var rest := SquaredDistance(x[1..], y[1..]);
      var diff := x[0] - y[0];
      assert diff * diff >= 0.0;
      assert x == y ==> diff == 0.0 && diff * diff == 0.0;
      diff * diff + rest
  }

  /** Every scaled feature vector has the same length. */
  predicate Rectangular(scaled: seq<seq<real>>) {
    forall i, j :: 0 <= i < |scaled| && 0 <= j < |scaled| ==> |scaled[i]| == |scaled[j]|
  }

  /** `distanz`: the distance of row `i` to row `s`. */
  function DistanceTo(scaled: seq<seq<real>>, s: int): int -> real {
    (i: int) =>
      if 0 <= s < |scaled| && 0 <= i < |scaled| && |scaled[i]| == |scaled[s]|
      then SquaredDistance(scaled[i], scaled[s])
      else 0.0
  }

  function Indices(n: nat): (r: seq<int>)
    ensures |r| == n
    ensures forall i :: 0 <= i < n ==> r[i] == i
    ensures NoDup(r)
  {
    seq(n, i requires 0 <= i < n => i)
  }

  /** `df.sort_values("distanz").head(6)`, as row positions. */
  function Candidates(scaled: seq<seq<real>>, s: int): (r: seq<int>)
    ensures |r| == if |scaled| < 6 then |scaled| else 6
    ensures NoDup(r)
    ensures forall i :: i in r ==> 0 <= i < |scaled|
    ensures SortedBy(r, DistanceTo(scaled, s))
    ensures forall i, j :: i in r && 0 <= j < |scaled| && j !in r ==> DistanceTo(scaled, s)(i) <= DistanceTo(scaled, s)(j)
  {
    var all := Indices(|scaled|);
    var sorted := SortBy(all, DistanceTo(scaled, s));
    PermutationNoDup(all, sorted);
    var n := if |scaled| < 6 then |scaled| else 6;
    PrefixNoDup(sorted, n);
    PermutedIndices(sorted, |scaled|);
    forall i, j | i in sorted[..n] && 0 <= j < |scaled| && j !in sorted[..n]
      ensures DistanceTo(scaled, s)(i) <= DistanceTo(scaled, s)(j)
    {
      CandidateBeforeRest(sorted, n, i, j, DistanceTo(scaled, s));
    }
    sorted[..n]
  }

  lemma PrefixNoDup<T>(s: seq<T>, n: nat)
    requires NoDup(s) && n <= |s|
    ensures NoDup(s[..n])
    ensures forall x :: x in s[..n] ==> x in s
  {
    assert forall x :: x in s[..n] ==> x in s by {
      forall x | x in s[..n]
        ensures x in s
      {
        var k :| 0 <= k < n && s[..n][k] == x;
        assert s[k] == x;
      }
    }
    forall i, j | 0 <= i < j < n
      ensures s[..n][i] != s[..n][j]
    {
      assert s[..n][i] == s[i] && s[..n][j] == s[j];
    }
  }

  lemma PermutedIndices(s: seq<int>, n: nat)
    requires multiset(s) == multiset(Indices(n))
    ensures forall i :: i in s <==> 0 <= i < n
  {
    var all := Indices(n);
    forall i
      ensures i in s <==> 0 <= i < n
    {
      assert i in s <==> i in multiset(s);
      assert i in all <==> i in multiset(all);
      if 0 <= i < n {
        assert all[i] == i;
      }
    }
  }

  lemma CandidateBeforeRest(sorted: seq<int>, n: nat, i: int, j: int, key: int -> real)
    requires n <= |sorted| && SortedBy(sorted, key)
    requires i in sorted[..n] && j in sorted && j !in sorted[..n]
    ensures key(i) <= key(j)
  {
    var q :| 0 <= q < n && sorted[..n][q] == i;
    var p :| 0 <= p < |sorted| && sorted[p] == j;
    assert sorted[q] == i;
  }

  /** The selected row is at distance zero from itself. */
  lemma SelfDistanceZero(scaled: seq<seq<real>>, s: int)
    requires 0 <= s < |scaled|
    ensures DistanceTo(scaled, s)(s) == 0.0
  {
  }

  /** The other rows at distance zero from row `s`. */
  function ZeroOthers(scaled: seq<seq<real>>, s: int): set<int> {
    set j | 0 <= j < |scaled| && j != s && DistanceTo(scaled, s)(j) == 0.0
  }

  /** The selected row is among the candidates unless six other rows coincide with it. */
  lemma SelfCandidate(scaled: seq<seq<real>>, s: int)
    requires 0 <= s < |scaled|
    ensures s in Candidates(scaled, s) || |ZeroOthers(scaled, s)| >= 6
  {
    var r := Candidates(scaled, s);
    var key := DistanceTo(scaled, s);
    if s !in r {
      forall i | i in r
        ensures i in ZeroOthers(scaled, s)
      {
        assert key(i) <= key(s) == 0.0;
        assert 0 <= i < |scaled|;
        assert key(i) == 0.0;
      }
      assert (set i | i in r) <= ZeroOthers(scaled, s);
      DistinctCard(r);
      assert |scaled| >= 6 by {
        if |scaled| < 6 {
          SmallCandidatesAll(scaled, s);
        }
      }
      SubsetCard((set i | i in r), ZeroOthers(scaled, s));
    }
  }

  lemma SmallCandidatesAll(scaled: seq<seq<real>>, s: int)
    requires 0 <= s < |scaled| < 6
    ensures s in Candidates(scaled, s)
  {
    FullRangeHasAll(Candidates(scaled, s), |scaled|, s);
  }

  /** `n` distinct positions below `n` are all of them. */
  lemma FullRangeHasAll(r: seq<int>, n: nat, s: int)
    requires |r| == n && NoDup(r)
    requires forall i :: i in r ==> 0 <= i < n
    requires 0 <= s < n
    ensures s in r
  {
    DistinctCard(r);
    if s !in r {
      assert (set i | i in r) <= Positions(n) - {s};
      SubsetCard((set i | i in r), Positions(n) - {s});
    }
  }

  lemma SubsetCard<T>(a: set<T>, b: set<T>)
    requires a <= b
    ensures |a| <= |b|
  {
    assert b == a + (b - a);
  }

  /** `abs(selected_data["flaeche"] - row["flaeche"])`. */
  function AreaDeviation(a: real, b: real): (d: real)
    ensures d >= 0.0
    ensures d == 0.0 <==> a == b
    ensures d == a - b || d == b - a
  {
    if a >= b then a - b else b - a
  }

  lemma AreaDeviationSymmetric(a: real, b: real)
    ensures AreaDeviation(a, b) == AreaDeviation(b, a)
  {
  }

  /** The facility details shown for a segment. */
  datatype Info = Info(einrichtungName: string, typ: string, strasse: string, plz: string, ort: string)

  /** A row of the facility-and-address query, tagged with the segment it was asked for. */
  datatype InfoRow = InfoRow(segmentId: int, info: Info)

  const Fallback: Info := Info("Unbekannt", "N/A", "-", "-", "-")

  /** `cursor.fetchone() or {...}`: the first address row of the segment, or the defaults. */
  function InfoFor(id: int, infos: seq<InfoRow>): (r: Info)
    ensures (forall k :: 0 <= k < |infos| ==> infos[k].segmentId != id) ==> r == Fallback
    ensures (exists k :: 0 <= k < |infos| && infos[k].segmentId == id) ==>
              exists k :: 0 <= k < |infos| && infos[k].segmentId == id && r == infos[k].info
                          && forall j :: 0 <= j < k ==> infos[j].segmentId != id
  {
    if |infos| == 0 then Fallback
    else if infos[0].segmentId == id then infos[0].info
    else
      var r := InfoFor(id, infos[1..]);
      assert (exists k :: 0 <= k < |infos| && infos[k].segmentId == id) ==>
               exists k :: 0 <= k < |infos| - 1 && infos[1..][k].segmentId == id by {
        if exists k :: 0 <= k < |infos| && infos[k].segmentId == id {
          var k :| 0 <= k < |infos| && infos[k].segmentId == id;
          assert infos[1..][k - 1].segmentId == id;
        }
      }
      assert (exists k :: 0 <= k < |infos| - 1 && infos[1..][k].segmentId == id) ==>
               exists k :: 0 <= k < |infos| && infos[k].segmentId == id && r == infos[k].info
                           && forall j :: 0 <= j < k ==> infos[j].segmentId != id by {
        if exists k :: 0 <= k < |infos| - 1 && infos[1..][k].segmentId == id {
          var k :| 0 <= k < |infos| - 1 && infos[1..][k].segmentId == id && r == infos[1..][k].info
                   && forall j :: 0 <= j < k ==> infos[1..][j].segmentId != id;
          assert infos[k + 1].segmentId == id && r == infos[k + 1].info;
          assert forall j :: 0 <= j < k + 1 ==> infos[j].segmentId != id by {
            forall j | 0 <= j < k + 1
              ensures infos[j].segmentId != id
            {
              if j > 0 {
                assert infos[j] == infos[1..][j - 1];
              }
            }
          }
        }
      }
      r
  }

  /** A recommended segment with its details and its area deviation from the selection. */
  datatype Recommendation = Recommendation(row: SegmentRow, segmentTyp: int, info: Info, deviation: real)

  function RecommendationOf(rows: seq<SegmentRow>, types: seq<int>, infos: seq<InfoRow>, s: int, c: int): Recommendation
    requires |types| == |rows| && 0 <= s < |rows| && 0 <= c < |rows|
  {
    Recommendation(rows[c], types[c], InfoFor(rows[c].segmentId, infos),
                   AreaDeviation(rows[s].flaeche, rows[c].flaeche))
  }

  /** The loop over the candidates, skipping those of the selected segment. */
  function Recommend(rows: seq<SegmentRow>, types: seq<int>, infos: seq<InfoRow>, s: int, cs: seq<int>): (r: seq<Recommendation>)
    requires |types| == |rows| && 0 <= s < |rows|
    requires forall c :: c in cs ==> 0 <= c < |rows|
    ensures |r| <= |cs|
    ensures forall x :: x in r <==> exists c :: c in cs && rows[c].segmentId != rows[s].segmentId
                                              && x == RecommendationOf(rows, types, infos, s, c)
  {
    if |cs| == 0 then []
    else
      assert forall c :: c in cs <==> c == cs[0] || c in cs[1..];
      assert cs[0] in cs;
      var rest := Recommend(rows, types, infos, s, cs[1..]);
      if rows[cs[0]].segmentId != rows[s].segmentId
      then [RecommendationOf(rows, types, infos, s, cs[0])] + rest
      else rest
  }

  /** The loop keeps the candidates' order: the recommendations of two blocks of
      candidates are those of the first block followed by those of the second. */
  lemma {:induction false} RecommendAppend(rows: seq<SegmentRow>, types: seq<int>, infos: seq<InfoRow>, s: int,
                                           a: seq<int>, b: seq<int>)
    requires |types| == |rows| && 0 <= s < |rows|
    requires (forall c :: c in a ==> 0 <= c < |rows|) && (forall c :: c in b ==> 0 <= c < |rows|)
    ensures Recommend(rows, types, infos, s, a + b) == Recommend(rows, types, infos, s, a) + Recommend(rows, types, infos, s, b)
  {
    if |a| != 0 {
      assert (a + b)[0] == a[0] && (a + b)[1..] == a[1..] + b;
      assert forall c :: c in a[1..] ==> c in a;
      assert a[0] in a;
      RecommendCons(rows, types, infos, s, a + b);
      RecommendCons(rows, types, infos, s, a);
      RecommendAppend(rows, types, infos, s, a[1..], b);
      var h := if rows[a[0]].segmentId != rows[s].segmentId then [RecommendationOf(rows, types, infos, s, a[0])] else [];
      var ra, rb := Recommend(rows, types, infos, s, a[1..]), Recommend(rows, types, infos, s, b);
      assert Recommend(rows, types, infos, s, a + b) == h + (ra + rb);
      assert h + (ra + rb) == (h + ra) + rb;
    } else {
      assert a + b == b;
    }
  }

  lemma RecommendCons(rows: seq<SegmentRow>, types: seq<int>, infos: seq<InfoRow>, s: int, cs: seq<int>)
    requires |types| == |rows| && 0 <= s < |rows| && |cs| != 0 && 0 <= cs[0] < |rows|
    requires (forall c :: c in cs ==> 0 <= c < |rows|) && (forall c :: c in cs[1..] ==> 0 <= c < |rows|)
    ensures Recommend(rows, types, infos, s, cs)
         == (if rows[cs[0]].segmentId != rows[s].segmentId then [RecommendationOf(rows, types, infos, s, cs[0])] else [])
            + Recommend(rows, types, infos, s, cs[1..])
  {
    assert cs[0] in cs;
  }

  /** One candidate gives its recommendation unless it is the selected segment itself. */
  lemma RecommendOne(rows: seq<SegmentRow>, types: seq<int>, infos: seq<InfoRow>, s: int, c: int)
    requires |types| == |rows| && 0 <= s < |rows| && 0 <= c < |rows|
    ensures Recommend(rows, types, infos, s, [c])
         == if rows[c].segmentId != rows[s].segmentId then [RecommendationOf(rows, types, infos, s, c)] else []
  {
    assert [c][1..] == [];
  }

  lemma RecommendedRows(rows: seq<SegmentRow>, types: seq<int>, infos: seq<InfoRow>, s: int, cs: seq<int>)
    requires |types| == |rows| && 0 <= s < |rows| && (forall i :: 0 <= i < |types| ==> 0 <= types[i] < 5)
    requires forall c :: c in cs ==> 0 <= c < |rows|
    ensures forall x :: x in Recommend(rows, types, infos, s, cs) ==> x.row in rows && 0 <= x.segmentTyp < 5
  {
    forall x | x in Recommend(rows, types, infos, s, cs)
      ensures x.row in rows && 0 <= x.segmentTyp < 5
    {
      var c :| c in cs && rows[c].segmentId != rows[s].segmentId && x == RecommendationOf(rows, types, infos, s, c);
    }
  }

  /** What the page shows. */
  datatype Outcome =
    | NoData(text: string)
    | FitError
    | Shown(selected: SegmentRow, segmentTyp: int, info: Info, recommendations: seq<Recommendation>)

  const NoDataText: string := "Keine Segmentdaten gefunden."

  /** The page for the display name chosen in the select box. `scaled` holds the
      standardised feature vectors and `types` the k-means labels of the rows; a fit
      with five clusters needs at least five rows. */
  function SegmentPage(rows: seq<SegmentRow>, display: string, scaled: seq<seq<real>>, types: seq<int>,
                       infos: seq<InfoRow>): (o: Outcome)
    requires |rows| >= 5 ==> && display in Map(rows, DisplayName)
                             && |scaled| == |rows| && Rectangular(scaled)
                             && |types| == |rows| && (forall i :: 0 <= i < |types| ==> 0 <= types[i] < 5)
    ensures o.NoData? <==> |rows| == 0
    ensures o.NoData? ==> o.text == NoDataText
    ensures o.FitError? <==> 0 < |rows| < 5
    ensures o.Shown? ==> && o.selected == rows[Selected(rows, display)]
                         && o.segmentTyp == types[Selected(rows, display)]
                         && 0 <= o.segmentTyp < 5
                         && o.info == InfoFor(o.selected.segmentId, infos)
                         && |o.recommendations| <= 6
    ensures o.Shown? ==> forall x :: x in o.recommendations ==>
                           && x.row.segmentId != o.selected.segmentId
                           && x.row in rows
                           && 0 <= x.segmentTyp < 5
                           && x.info == InfoFor(x.row.segmentId, infos)
                           && x.deviation == AreaDeviation(o.selected.flaeche, x.row.flaeche)
    ensures o.Shown? ==> forall c :: (c in Candidates(scaled, Selected(rows, display)) &&
                                      rows[c].segmentId != o.selected.segmentId) ==>
                           RecommendationOf(rows, types, infos, Selected(rows, display), c) in o.recommendations
    ensures o.Shown? ==> forall x :: x in o.recommendations ==>
                           exists c :: && c in Candidates(scaled, Selected(rows, display))
                                       && rows[c].segmentId != o.selected.segmentId
                                       && x == RecommendationOf(rows, types, infos, Selected(rows, display), c)
    ensures o.Shown? ==> o.recommendations == Recommend(rows, types, infos, Selected(rows, display),
                                                        Candidates(scaled, Selected(rows, display)))
  {
    if |rows| == 0 then NoData(NoDataText)
    else if |rows| < 5 then FitError
    else
      var s := Selected(rows, display);
      var cs := Candidates(scaled, s);
      var recs := Recommend(rows, types, infos, s, cs);
      RecommendedRows(rows, types, infos, s, cs);
      Shown(rows[s], types[s], InfoFor(rows[s].segmentId, infos), recs)
  }
}
