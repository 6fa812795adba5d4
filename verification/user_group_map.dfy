/** The "Nutzergruppen-Karte" page: distinct running bookings with an area label,
    drawn as circle markers coloured by that label. */
module UserGroupMap {
  import opened Wrappers
  import opened Seqs
  import opened Records
  import opened Weekdays
  import opened Clock
  import opened Views

  /** A result row of `SELECT DISTINCT g.breitengrad, g.laengengrad, b.bereich, b.nutzer_gruppen, b.taetigkeit`. */
  datatype GroupRow = GroupRow(
    breitengrad: real,
    laengengrad: real,
    bereich: Option<string>,
    nutzerGruppen: Option<string>,
    taetigkeit: Option<string>)

  function RowOf(p: Placed): GroupRow {
    GroupRow(p.site.geo.breitengrad, p.site.geo.laengengrad, p.booking.bereich,
             p.booking.nutzerGruppen, p.booking.taetigkeit)
  }

  /** The `WHERE` clause: running at `t` on that day, with a non-null `bereich`. */
  function Selected(code: string, t: int): Placed -> bool {
    (p: Placed) => OccupiedAt(p.booking, code, t) && p.booking.bereich.Some?
  }

  /** `lade_belegungen_mit_farbe`. */
  function GroupRows(bs: seq<Booking>, segs: seq<Segment>, sites: seq<Site>, code: string, t: int): (r: seq<GroupRow>)
    ensures NoDup(r)
    ensures forall g :: g in r <==> exists p :: p in PlaceAll(bs, segs, sites) && Selected(code, t)(p) && g == RowOf(p)
    ensures forall g :: g in r ==> g.bereich.Some?
  {
    var kept := Filter(PlaceAll(bs, segs, sites), Selected(code, t));
    var rows := Map(kept, RowOf);
    assert forall g :: g in rows <==> exists p :: p in kept && g == RowOf(p) by {
      forall g
        ensures g in rows <==> exists p :: p in kept && g == RowOf(p)
      {
        MapMembership(kept, RowOf, g);
      }
    }
    Dedup(rows)
  }

  /** `nutzergruppen_farben`: the marker colour of each of the thirteen area labels. */
  const Colours: map<string, string> := map[
    "Schulsport" := "blue",
    "Wettkampfsport" := "red",
    "Lehrgänge" := "orange",
    "Breitensport" := "green",
    "Gesundheitssport" := "purple",
    "Kurse" := "cadetblue",
    "Allg. Schüler-Sportgem." := "darkblue",
    "Lehrerarbeitsgemein" := "lightgray",
    "Dienstsport" := "black",
    "Behindertensport" := "pink",
    "Lehrerfortbildung" := "darkred",
    "Seniorensport" := "lightgreen",
    "außersp. Veranstaltungen" := "darkgreen"
  ]

  const Fallback: string := "gray"

  /** No label of the table is drawn in the fallback colour, so a gray marker always
      means an unknown or missing label. */
  lemma ColoursTable()
    ensures forall k :: k in Colours ==> Colours[k] != Fallback
  {
  }

  /** `nutzergruppen_farben.get(bereich, "gray")`: the fallback colour is used
      exactly for labels outside the table, and a null label is one of those. */
  function ColourOf(bereich: Option<string>): (c: string)
    ensures c == Fallback <==> !(bereich.Some? && bereich.value in Colours)
    ensures bereich.Some? && bereich.value in Colours ==> c == Colours[bereich.value]
  {
    if bereich.Some? && bereich.value in Colours then Colours[bereich.value] else Fallback
  }

  /** Python's `x or default` on a nullable text column: `None` and `""` are both falsy. */
  function OrDefault(x: Option<string>, default: string): (r: string)
    ensures x.None? || x.value == "" ==> r == default
    ensures x.Some? && x.value != "" ==> r == x.value
  {
    if x.None? || x.value == "" then default else x.value
  }

  /** A circle marker: position, colour and the three popup lines. */
  datatype Marker = Marker(breitengrad: real, laengengrad: real, colour: string,
                           bereich: Option<string>, gruppe: string, taetigkeit: string)

  function MarkerOf(g: GroupRow): (m: Marker)
    ensures m.breitengrad == g.breitengrad && m.laengengrad == g.laengengrad
    ensures m.bereich == g.bereich
    ensures m.colour == ColourOf(g.bereich)
    ensures m.gruppe == OrDefault(g.nutzerGruppen, "Unbekannt")
    ensures m.taetigkeit == OrDefault(g.taetigkeit, "Keine Angabe")
  {
    Marker(g.breitengrad, g.laengengrad, ColourOf(g.bereich), g.bereich,
           OrDefault(g.nutzerGruppen, "Unbekannt"), OrDefault(g.taetigkeit, "Keine Angabe"))
  }

  /** The colour follows the area label alone: rows that differ only in user group
      or activity get the same colour. */
  lemma ColourIgnoresGroup(g1: GroupRow, g2: GroupRow)
    requires g1.bereich == g2.bereich
    ensures MarkerOf(g1).colour == MarkerOf(g2).colour
  {
  }

  /** The markers of `zeige_karte_farbig`, one per row and in row order. */
  function Markers(rows: seq<GroupRow>): (ms: seq<Marker>)
    ensures |ms| == |rows|
    ensures forall i :: 0 <= i < |rows| ==> ms[i] == MarkerOf(rows[i])
    ensures forall i :: 0 <= i < |rows| ==>
              && ms[i].breitengrad == rows[i].breitengrad && ms[i].laengengrad == rows[i].laengengrad
              && ms[i].bereich == rows[i].bereich && ms[i].colour == ColourOf(rows[i].bereich)
              && ms[i].gruppe == OrDefault(rows[i].nutzerGruppen, "Unbekannt")
              && ms[i].taetigkeit == OrDefault(rows[i].taetigkeit, "Keine Angabe")
  {
    Map(rows, MarkerOf)
  }

  const NoBookings: string := "Keine Belegungen zum gewählten Zeitpunkt gefunden."

  /** Rows that all carry a `bereich` give markers that all carry one, each in its colour. */
  lemma MarkedRows(rows: seq<GroupRow>)
    requires forall g :: g in rows ==> g.bereich.Some?
    ensures forall i :: 0 <= i < |Markers(rows)| ==>
              Markers(rows)[i].bereich.Some? && Markers(rows)[i].colour == ColourOf(Markers(rows)[i].bereich)
  {
    var ms := Markers(rows);
    forall i | 0 <= i < |ms|
      ensures ms[i].bereich.Some? && ms[i].colour == ColourOf(ms[i].bereich)
    {
      assert rows[i] in rows;
    }
  }

  /** The page: no row gives the info message, otherwise one marker per distinct row. */
  function GroupMapPage(day: Weekday, t: TimeOfDay, bs: seq<Booking>, segs: seq<Segment>, sites: seq<Site>): (v: View<Marker>)
    ensures v.Message? <==> |GroupRows(bs, segs, sites, Code(day), t)| == 0
    ensures v.Message? ==> v.text == NoBookings
    ensures v.Shown? ==> |v.items| == |GroupRows(bs, segs, sites, Code(day), t)|
    ensures v.Shown? ==> v.items == Markers(GroupRows(bs, segs, sites, Code(day), t))
    ensures v.Shown? ==> forall i :: 0 <= i < |v.items| ==>
                           v.items[i].bereich.Some? && v.items[i].colour == ColourOf(v.items[i].bereich)
  {
    FormatParse(t);
    assert ToCode(FullName(day)) == Some(Code(day));
    var rows := GroupRows(bs, segs, sites, ToCode(FullName(day)).value, Parse(Format(t)).value);
    MarkedRows(rows);
    if |rows| == 0 then Message(NoBookings) else Shown(Markers(rows))
  }
}
