/** The "Belegungsdichte – Heatmap" page: one heat point per running booking at the
    chosen weekday and quarter hour. */
module OccupancyHeatmap {
  import opened Seqs
  import opened Records
  import opened Weekdays
  import opened Clock
  import opened Views

  /** The row filter of the `WHERE` clause. */
  function Running(code: string, t: int): Placed -> bool {
    (p: Placed) => OccupiedAt(p.booking, code, t)
  }

  /** `lade_belegungsdichte`: the join rows whose booking runs at `t` on the day with
      code `code`, each as often as the join produces it. */
  function OccupiedRows(bs: seq<Booking>, segs: seq<Segment>, sites: seq<Site>, code: string, t: int): (r: seq<Placed>)
    ensures forall p :: p in r <==> p in PlaceAll(bs, segs, sites) && OccupiedAt(p.booking, code, t)
    ensures forall p :: p in r ==> p.booking.wochentag == code && p.booking.start <= t < p.booking.ende
  {
    Filter(PlaceAll(bs, segs, sites), Running(code, t))
  }

  /** No `DISTINCT`: a join row occurs in the result exactly as often as in the join. */
  lemma OccupiedMultiplicity(bs: seq<Booking>, segs: seq<Segment>, sites: seq<Site>, code: string, t: int, p: Placed)
    requires OccupiedAt(p.booking, code, t)
    ensures multiset(OccupiedRows(bs, segs, sites, code, t))[p] == multiset(PlaceAll(bs, segs, sites))[p]
  {
    FilterMultiplicity(PlaceAll(bs, segs, sites), Running(code, t), p);
  }

  /** The result for two booking lists is the concatenation of their results. */
  lemma OccupiedAppend(bs1: seq<Booking>, bs2: seq<Booking>, segs: seq<Segment>, sites: seq<Site>, code: string, t: int)
    ensures OccupiedRows(bs1 + bs2, segs, sites, code, t)
         == OccupiedRows(bs1, segs, sites, code, t) + OccupiedRows(bs2, segs, sites, code, t)
  {
    PlaceAllAppend(bs1, bs2, segs, sites);
    FilterAppend(PlaceAll(bs1, segs, sites), PlaceAll(bs2, segs, sites), Running(code, t));
  }

  /** A further booking adds one row per site of its facility when it is running and
      none otherwise, even if an equal booking is already there. */
  lemma OccupiedAddBooking(bs: seq<Booking>, b: Booking, segs: seq<Segment>, sites: seq<Site>, code: string, t: int)
    ensures |OccupiedRows(bs + [b], segs, sites, code, t)|
         == |OccupiedRows(bs, segs, sites, code, t)| + (if OccupiedAt(b, code, t) then |PlaceOne(b, segs, sites)| else 0)
  {
    OccupiedAppend(bs, [b], segs, sites, code, t);
    assert [b][1..] == [];
    assert PlaceAll([b], segs, sites) == PlaceOne(b, segs, sites) + [];
    var one := PlaceOne(b, segs, sites);
    assert PlaceOne(b, segs, sites) + [] == one;
    if OccupiedAt(b, code, t) {
      FilterAll(one, Running(code, t));
    } else {
      assert forall p :: p in one ==> !Running(code, t)(p);
    }
  }

  function PointOf(p: Placed): (real, real) {
    (p.site.geo.breitengrad, p.site.geo.laengengrad)
  }

  function AtPoint(pt: (real, real)): Placed -> bool {
    (p: Placed) => PointOf(p) == pt
  }

  /** `heat_data`: `[breitengrad, laengengrad]` of every row, in row order. */
  function HeatData(rows: seq<Placed>): (r: seq<(real, real)>)
    ensures |r| == |rows|
    ensures forall i :: 0 <= i < |rows| ==>
              r[i] == (rows[i].site.geo.breitengrad, rows[i].site.geo.laengengrad)
  {
    Map(rows, PointOf)
  }

  /** A location receives as many heat points as there are rows at it. */
  lemma {:induction false} HeatMultiplicity(rows: seq<Placed>, pt: (real, real))
    ensures multiset(HeatData(rows))[pt] == |Filter(rows, AtPoint(pt))|
  {
    if |rows| > 0 {
      assert rows == [rows[0]] + rows[1..];
      MapAppend([rows[0]], rows[1..], PointOf);
      HeatMultiplicity(rows[1..], pt);
    }
  }

  const NoOccupancy: string := "Keine belegten Einrichtungen zum gewählten Zeitpunkt gefunden."

  /** The page: the slider time goes to the query as `HH:MM:SS` text; no running
      booking gives the info message, otherwise the heat layer of all rows. */
  function HeatmapPage(day: Weekday, t: TimeOfDay, bs: seq<Booking>, segs: seq<Segment>, sites: seq<Site>): (v: View<(real, real)>)
    ensures v.Message? <==> |OccupiedRows(bs, segs, sites, Code(day), t)| == 0
    ensures v.Message? ==> v.text == NoOccupancy
    ensures v.Shown? ==> |v.items| == |OccupiedRows(bs, segs, sites, Code(day), t)|
    ensures v.Shown? ==> forall i :: 0 <= i < |v.items| ==>
                           v.items[i] == PointOf(OccupiedRows(bs, segs, sites, Code(day), t)[i])
    ensures v.Shown? ==> forall pt :: multiset(v.items)[pt]
                           == |Filter(OccupiedRows(bs, segs, sites, Code(day), t), AtPoint(pt))|
  {
    FormatParse(t);
    var rows := OccupiedRows(bs, segs, sites, ToCode(FullName(day)).value, Parse(Format(t)).value);
    if |rows| == 0 then Message(NoOccupancy)
    else
      assert forall pt :: multiset(HeatData(rows))[pt] == |Filter(rows, AtPoint(pt))| by {
        forall pt
          ensures multiset(HeatData(rows))[pt] == |Filter(rows, AtPoint(pt))|
        {
          HeatMultiplicity(rows, pt);
        }
      }
      Shown(HeatData(rows))
  }
}
