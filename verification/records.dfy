/** Snapshots of the database tables the map pages read, the join they share
    (`belegungsplan b JOIN segmente s ON b.segment_id = s.id JOIN adressen a ON
    s.einrichtung_id = a.einrichtung_id JOIN geodaten g ON a.id = g.adressen_id`)
    and the two booking-window predicates of their `WHERE` clauses. Times are
    seconds since midnight; nullable text columns are `Option`. */
module Records {
  import opened Wrappers
  import opened Seqs

  /** A `belegungsplan` row; `wochentag` holds a two-letter code and `dauer` is in seconds. */
  datatype Booking = Booking(
    segmentId: int,
    wochentag: string,
    start: int,
    ende: int,
    dauer: int,
    taetigkeit: Option<string>,
    nutzerGruppen: Option<string>,
    bereich: Option<string>)

  /** A `segmente` row. */
  datatype Segment = Segment(id: int, einrichtungId: int)

  /** An `adressen` row. */
  datatype Address = Address(id: int, einrichtungId: int, strasse: string, hausnr: string, plz: string, ort: string)

  /** A `geodaten` row. */
  datatype Geo = Geo(adressenId: int, breitengrad: real, laengengrad: real)

  /** A row of `geodaten g JOIN adressen a ON g.adressen_id = a.id`. */
  datatype Site = Site(address: Address, geo: Geo)

  /** A row of the four-table join: a booking placed at a located address of its facility. */
  datatype Placed = Placed(booking: Booking, segment: Segment, site: Site)

  /** The running-booking test `b.wochentag = code AND b.start <= t AND b.ende > t`:
      the window is closed at its start and open at its end. */
  predicate OccupiedAt(b: Booking, code: string, t: int)
    ensures OccupiedAt(b, code, t) ==> b.wochentag == code && b.start < b.ende
    ensures OccupiedAt(b, code, t) <==> b.wochentag == code && 0 <= t - b.start < b.ende - b.start
  {
    b.wochentag == code && b.start <= t && b.ende > t
  }

  /** The search test `b.start >= s AND b.start <= e`: only the start is consulted, and
      the window is closed at both ends. */
  predicate StartsWithin(b: Booking, s: int, e: int)
    ensures StartsWithin(b, s, e) ==> s <= e
    ensures s <= e && (b.start == s || b.start == e) ==> StartsWithin(b, s, e)
  {
    s <= b.start <= e
  }

  /** A booking ending exactly at `t` is over; one starting exactly at `t` is running. */
  lemma OccupiedBoundaries(b: Booking, code: string, t: int)
    ensures b.ende == t ==> !OccupiedAt(b, code, t)
    ensures b.wochentag == code && b.start == t && b.ende > t ==> OccupiedAt(b, code, t)
    ensures b.start > t ==> !OccupiedAt(b, code, t)
  {
  }

  /** The geodata rows of one address. */
  function SitesAt(a: Address, geos: seq<Geo>): (r: seq<Site>)
    ensures forall x :: x in r <==> x.address == a && x.geo in geos && x.geo.adressenId == a.id
  {
    if |geos| == 0 then []
    else
      assert geos == [geos[0]] + geos[1..];
      (if geos[0].adressenId == a.id then [Site(a, geos[0])] else []) + SitesAt(a, geos[1..])
  }

  /** `geodaten g JOIN adressen a ON g.adressen_id = a.id`. */
  function Sites(addrs: seq<Address>, geos: seq<Geo>): (r: seq<Site>)
    ensures forall x :: x in r <==> x.address in addrs && x.geo in geos && x.geo.adressenId == x.address.id
  {
    if |addrs| == 0 then []
    else
      assert addrs == [addrs[0]] + addrs[1..];
      SitesAt(addrs[0], geos) + Sites(addrs[1..], geos)
  }

  /** The join keys of a placed row agree. */
  ghost predicate Linked(p: Placed) {
    && p.booking.segmentId == p.segment.id
    && p.segment.einrichtungId == p.site.address.einrichtungId
  }

  /** Booking `b` on segment `s`, at every site of the segment's facility. */
  function PlaceOnSegment(b: Booking, s: Segment, sites: seq<Site>): (r: seq<Placed>)
    ensures forall p :: p in r <==> p.booking == b && p.segment == s && p.site in sites
                                    && s.einrichtungId == p.site.address.einrichtungId
  {
    if |sites| == 0 then []
    else
      assert sites == [sites[0]] + sites[1..];
      (if sites[0].address.einrichtungId == s.einrichtungId then [Placed(b, s, sites[0])] else [])
      + PlaceOnSegment(b, s, sites[1..])
  }

  /** Every placement of one booking. */
  function PlaceOne(b: Booking, segs: seq<Segment>, sites: seq<Site>): (r: seq<Placed>)
    ensures forall p :: p in r <==> p.booking == b && p.segment in segs && p.site in sites && Linked(p)
  {
    if |segs| == 0 then []
    else
      assert segs == [segs[0]] + segs[1..];
      (if segs[0].id == b.segmentId then PlaceOnSegment(b, segs[0], sites) else [])
      + PlaceOne(b, segs[1..], sites)
  }

  /** The four-table join, booking by booking. It keeps duplicates: there is no `DISTINCT`. */
  function PlaceAll(bs: seq<Booking>, segs: seq<Segment>, sites: seq<Site>): (r: seq<Placed>)
    ensures forall p :: p in r <==> p.booking in bs && p.segment in segs && p.site in sites && Linked(p)
  {
    if |bs| == 0 then []
    else
      assert bs == [bs[0]] + bs[1..];
      PlaceOne(bs[0], segs, sites) + PlaceAll(bs[1..], segs, sites)
  }

  /** The join of a concatenation is the concatenation of the joins. */
  lemma {:induction false} PlaceAllAppend(bs1: seq<Booking>, bs2: seq<Booking>, segs: seq<Segment>, sites: seq<Site>)
    ensures PlaceAll(bs1 + bs2, segs, sites) == PlaceAll(bs1, segs, sites) + PlaceAll(bs2, segs, sites)
  {
    if |bs1| == 0 {
      assert bs1 + bs2 == bs2;
    } else {
      assert (bs1 + bs2)[1..] == bs1[1..] + bs2;
      PlaceAllAppend(bs1[1..], bs2, segs, sites);
    }
  }
}
