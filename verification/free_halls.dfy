/** The "Freie Hallen" page: facilities with no running booking at a chosen weekday
    and time, and the located addresses of those facilities. */
module FreeHalls {
  import opened Wrappers
  import opened Seqs
  import opened Strings
  import opened Records
  import opened Weekdays
  import opened Clock
  import opened Views

  /** Facility `f` has a segment. */
  predicate HasSegment(f: int, segs: seq<Segment>) {
    exists s :: s in segs && s.einrichtungId == f
  }

  /** Some booking of a segment of facility `f` is running at `t` on the day with code `code`. */
  predicate Busy(f: int, segs: seq<Segment>, bs: seq<Booking>, code: string, t: int) {
    exists s, b :: s in segs && b in bs && s.einrichtungId == f && b.segmentId == s.id && OccupiedAt(b, code, t)
  }

  /** `SELECT DISTINCT einrichtung_id FROM segmente`. */
  function FacilityIds(segs: seq<Segment>): (r: seq<int>)
    ensures NoDup(r)
    ensures forall f :: f in r <==> HasSegment(f, segs)
  {
    var ids := Map(segs, (s: Segment) => s.einrichtungId);
    assert forall f :: f in ids <==> HasSegment(f, segs) by {
      forall f
        ensures f in ids <==> HasSegment(f, segs)
      {
        MapMembership(segs, (s: Segment) => s.einrichtungId, f);
      }
    }
    Dedup(ids)
  }

  /** `get_freie_einrichtungen`: the facility ids of the segment table for which the
      `NOT EXISTS` subquery finds no running booking on any of their segments. */
  function FreeFacilities(segs: seq<Segment>, bs: seq<Booking>, code: string, t: int): (r: seq<int>)
    ensures NoDup(r)
    ensures forall f :: f in r <==> HasSegment(f, segs) && !Busy(f, segs, bs, code, t)
  {
    Filter(FacilityIds(segs), f => !Busy(f, segs, bs, code, t))
  }

  /** More bookings can only take facilities out of the free list, and a facility
      leaves it only because one of the added bookings runs on one of its segments. */
  lemma FreeShrinks(segs: seq<Segment>, bs: seq<Booking>, extra: seq<Booking>, code: string, t: int)
    ensures forall f :: f in FreeFacilities(segs, bs + extra, code, t) ==> f in FreeFacilities(segs, bs, code, t)
    ensures forall f :: f in FreeFacilities(segs, bs, code, t) && f !in FreeFacilities(segs, bs + extra, code, t)
                        ==> Busy(f, segs, extra, code, t)
  {
    forall f | Busy(f, segs, bs, code, t)
      ensures Busy(f, segs, bs + extra, code, t)
    {
      var s, b :| s in segs && b in bs && s.einrichtungId == f && b.segmentId == s.id && OccupiedAt(b, code, t);
      assert b in bs + extra;
    }
    forall f | f in FreeFacilities(segs, bs, code, t) && f !in FreeFacilities(segs, bs + extra, code, t)
      ensures Busy(f, segs, extra, code, t)
    {
      var s, b :| s in segs && b in bs + extra && s.einrichtungId == f && b.segmentId == s.id && OccupiedAt(b, code, t);
      assert b in extra;
    }
  }

  /** A booking that ends exactly at `t` leaves the free list unchanged; one that
      starts exactly at `t` on that day takes its facility out of it. */
  lemma FreeBoundaries(segs: seq<Segment>, bs: seq<Booking>, b: Booking, code: string, t: int)
    ensures b.ende == t ==>
      forall f :: f in FreeFacilities(segs, bs + [b], code, t) <==> f in FreeFacilities(segs, bs, code, t)
    ensures b.wochentag == code && b.start == t && b.ende > t ==>
      forall s :: s in segs && s.id == b.segmentId ==> s.einrichtungId !in FreeFacilities(segs, bs + [b], code, t)
  {
    FreeShrinks(segs, bs, [b], code, t);
    if b.wochentag == code && b.start == t && b.ende > t {
      forall s | s in segs && s.id == b.segmentId
        ensures Busy(s.einrichtungId, segs, bs + [b], code, t)
      {
        assert b in bs + [b];
      }
    }
  }

  /** `','.join(['%s'] * n)`. */
  function Placeholders(n: nat): (r: string)
    ensures n == 0 <==> r == ""
    ensures n > 0 ==> |r| >= 2 && r[..2] == "%s"
  {
    var parts := seq(n, _ => "%s");
    if n == 0 then Join(",", parts)
    else if n == 1 then Join(",", parts)
    else
      assert Join(",", parts) == "%s" + ("," + Join(",", parts[1..]));
      Join(",", parts)
  }

  /** `n` placeholders take `3n - 1` characters: `%s` at every third position, commas between. */
  lemma {:induction false} PlaceholderShape(n: nat)
    requires n > 0
    ensures |Placeholders(n)| == 3 * n - 1
    ensures forall i :: 0 <= i < n ==> Placeholders(n)[3 * i..3 * i + 2] == "%s"
    ensures forall i :: 0 <= i < n - 1 ==> Placeholders(n)[3 * i + 2] == ','
  {
    if n > 1 {
      PlaceholderShape(n - 1);
      var p := Placeholders(n);
      var q := Placeholders(n - 1);
      assert seq(n, _ => "%s")[1..] == seq(n - 1, _ => "%s");
      assert p == "%s" + "," + q;
      forall i | 1 <= i < n
        ensures p[3 * i..3 * i + 2] == "%s"
      {
        assert p[3 * i..3 * i + 2] == q[3 * (i - 1)..3 * (i - 1) + 2];
      }
      forall i | 1 <= i < n - 1
        ensures p[3 * i + 2] == ','
      {
        assert p[3 * i + 2] == q[3 * (i - 1) + 2];
      }
    }
  }

  /** Splitting the placeholder list at its commas gives back exactly `n` placeholders. */
  lemma PlaceholderCount(n: nat)
    requires n > 0
    ensures Split(',', Placeholders(n)) == seq(n, _ => "%s")
  {
    SplitJoin(',', seq(n, _ => "%s"));
  }

  /** The query `lade_geodaten` sends (its placeholder list, if any) and the rows it returns. */
  datatype GeoLoad = GeoLoad(placeholders: Option<string>, rows: seq<Site>)

  /** `lade_geodaten`: no query at all for an empty id list, otherwise the located
      addresses of exactly the listed facilities. */
  function LoadGeo(ids: seq<int>, addrs: seq<Address>, geos: seq<Geo>): (r: GeoLoad)
    ensures |ids| == 0 ==> r == GeoLoad(None, [])
    ensures |ids| > 0 ==> r.placeholders == Some(Placeholders(|ids|))
    ensures forall x :: x in r.rows <==> |ids| > 0 && x.address.einrichtungId in ids
                                         && x.address in addrs && x.geo in geos && x.geo.adressenId == x.address.id
  {
    if |ids| == 0 then GeoLoad(None, [])
    else GeoLoad(Some(Placeholders(|ids|)), Filter(Sites(addrs, geos), (x: Site) => x.address.einrichtungId in ids))
  }

  /** The query always carries one placeholder per parameter. */
  lemma LoadGeoParameters(ids: seq<int>, addrs: seq<Address>, geos: seq<Geo>)
    requires |ids| > 0
    ensures |Split(',', LoadGeo(ids, addrs, geos).placeholders.value)| == |ids|
  {
    PlaceholderCount(|ids|);
  }

  /** A green map marker with the address as its popup. */
  datatype Marker = Marker(breitengrad: real, laengengrad: real, popup: string)

  function AddressLine(a: Address): string {
    a.strasse + " " + a.hausnr + ", " + a.plz + " " + a.ort
  }

  function MarkerOf(x: Site): Marker {
    Marker(x.geo.breitengrad, x.geo.laengengrad, AddressLine(x.address))
  }

  const NoFreeHalls: string := "Keine freien Hallen zum ausgewählten Zeitpunkt gefunden."

  /** The button action: the chosen time goes to the query as `HH:MM:SS` text; an empty
      free list gives the info message, otherwise one marker per located address of a
      free facility (possibly none, when no free facility has a located address). */
  function FreeHallsPage(day: Weekday, t: TimeOfDay, segs: seq<Segment>, bs: seq<Booking>,
                         addrs: seq<Address>, geos: seq<Geo>): (v: View<Marker>)
    ensures v.Message? <==> |FreeFacilities(segs, bs, Code(day), t)| == 0
    ensures v.Message? ==> v.text == NoFreeHalls
    ensures v.Shown? ==> forall m :: m in v.items <==>
      exists x :: x in LoadGeo(FreeFacilities(segs, bs, Code(day), t), addrs, geos).rows && m == MarkerOf(x)
  {
    FormatParse(t);
    var sent := Parse(Format(t)).value;
    var free := FreeFacilities(segs, bs, ToCode(FullName(day)).value, sent);
    if |free| == 0 then Message(NoFreeHalls)
    else
      Shown(Markers(LoadGeo(free, addrs, geos).rows))
  }

  /** One marker per located address, and nothing else. */
  function Markers(rows: seq<Site>): (ms: seq<Marker>)
    ensures forall m :: m in ms <==> exists x :: x in rows && m == MarkerOf(x)
  {
    assert forall m :: m in Map(rows, MarkerOf) <==> exists x :: x in rows && m == MarkerOf(x) by {
      forall m
        ensures m in Map(rows, MarkerOf) <==> exists x :: x in rows && m == MarkerOf(x)
      {
        MapMembership(rows, MarkerOf, m);
      }
    }
    Map(rows, MarkerOf)
  }
}
