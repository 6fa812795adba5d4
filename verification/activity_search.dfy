/** The "Tätigkeit suchen" page: the list of recorded activities, and the located
    bookings of the chosen activity that start inside a time window on a weekday. */
module ActivitySearch {
  import opened Wrappers
  import opened Seqs
  import opened Strings
  import opened Records
  import opened Weekdays
  import opened Clock
  import opened Views

  ghost predicate StrictlySorted(s: seq<string>) {
    forall i, j :: 0 <= i < j < |s| ==> LexLess(s[i], s[j])
  }

  /** A strictly ascending list has no repeated entry. */
  lemma SortedNoDup(s: seq<string>)
    requires StrictlySorted(s)
    ensures NoDup(s)
  {
    forall i, j | 0 <= i < j < |s|
      ensures s[i] != s[j]
    {
      LexIrreflexive(s[i]);
    }
  }

  /** Adds `x` to an ascending list unless it is already there. */
  function InsertSorted(x: string, s: seq<string>): (r: seq<string>)
    requires StrictlySorted(s)
    ensures StrictlySorted(r)
    ensures forall y :: y in r <==> y == x || y in s
  {
    if |s| == 0 then [x]
    else if x == s[0] then s
    else if LexLess(x, s[0]) then
      assert StrictlySorted([x] + s) by {
        forall j | 0 <= j < |s|
          ensures LexLess(x, s[j])
        {
          if j > 0 {
            LexTransitive(x, s[0], s[j]);
          }
        }
      }
      [x] + s
    else
      LexTotal(x, s[0]);
      assert s == [s[0]] + s[1..];
      var r' := InsertSorted(x, s[1..]);
      assert StrictlySorted([s[0]] + r') by {
        forall j | 0 <= j < |r'|
          ensures LexLess(s[0], r'[j])
        {
          assert r'[j] in r';
        }
      }
      [s[0]] + r'
  }

  /** An activity worth listing: not NULL and not `''`. */
  predicate Listed(b: Booking) {
    b.taetigkeit.Some? && b.taetigkeit.value != ""
  }

  /** `lade_verfuegbare_taetigkeiten`: `SELECT DISTINCT taetigkeit ... WHERE taetigkeit IS
      NOT NULL AND taetigkeit != '' ORDER BY taetigkeit ASC`. */
  function ActivityList(bs: seq<Booking>): (r: seq<string>)
    ensures StrictlySorted(r)
    ensures forall x :: x in r <==> exists b :: b in bs && Listed(b) && b.taetigkeit.value == x
  {
    if |bs| == 0 then []
    else
      var init := bs[..|bs| - 1];
      var b := bs[|bs| - 1];
      assert bs == init + [b];
      var r := ActivityList(init);
      if Listed(b) then InsertSorted(b.taetigkeit.value, r) else r
  }

  /** The activity list never repeats an entry. */
  lemma ActivityListDistinct(bs: seq<Booking>)
    ensures NoDup(ActivityList(bs))
  {
    SortedNoDup(ActivityList(bs));
  }

  /** The `LIKE` pattern text: the selectbox yields `None` when it has no options,
      and the f-string then searches for the text `None`. */
  function Needle(activity: Option<string>): string {
    match activity
    case Some(a) => a
    case None => "None"
  }

  /** A result row of `SELECT DISTINCT g.breitengrad, g.laengengrad, b.start, b.nutzer_gruppen,
      b.taetigkeit, a.strasse, a.hausnr, a.ort`. */
  datatype Hit = Hit(breitengrad: real, laengengrad: real, start: int, nutzerGruppen: Option<string>,
                     taetigkeit: Option<string>, strasse: string, hausnr: string, ort: string)

  function HitOf(p: Placed): Hit {
    Hit(p.site.geo.breitengrad, p.site.geo.laengengrad, p.booking.start, p.booking.nutzerGruppen,
        p.booking.taetigkeit, p.site.address.strasse, p.site.address.hausnr, p.site.address.ort)
  }

  /** The booking conditions of the `WHERE` clause; `ende` is not among them. */
  predicate BookingMatches(b: Booking, needle: string, code: string, s: int, e: int) {
    b.wochentag == code && b.taetigkeit.Some? && Contains(b.taetigkeit.value, needle) && StartsWithin(b, s, e)
  }

  function Matching(needle: string, code: string, s: int, e: int): Placed -> bool {
    (p: Placed) => BookingMatches(p.booking, needle, code, s, e)
  }

  /** `lade_hallen_mit_taetigkeit`. */
  function Hits(needle: string, code: string, s: int, e: int, bs: seq<Booking>, segs: seq<Segment>, sites: seq<Site>): (r: seq<Hit>)
    ensures NoDup(r)
    ensures forall h :: h in r <==> exists p :: p in PlaceAll(bs, segs, sites) && Matching(needle, code, s, e)(p) && h == HitOf(p)
  {
    var kept := Filter(PlaceAll(bs, segs, sites), Matching(needle, code, s, e));
    var rows := Map(kept, HitOf);
    assert forall h :: h in rows <==> exists p :: p in kept && h == HitOf(p) by {
      forall h
        ensures h in rows <==> exists p :: p in kept && h == HitOf(p)
      {
        MapMembership(kept, HitOf, h);
      }
    }
    Dedup(rows)
  }

  /** Every row found starts inside the window and carries the searched text. */
  lemma HitsInWindow(needle: string, code: string, s: int, e: int, bs: seq<Booking>, segs: seq<Segment>, sites: seq<Site>, h: Hit)
    requires h in Hits(needle, code, s, e, bs, segs, sites)
    ensures s <= h.start <= e && h.taetigkeit.Some? && Contains(h.taetigkeit.value, needle)
  {
    var p :| p in PlaceAll(bs, segs, sites) && Matching(needle, code, s, e)(p) && h == HitOf(p);
  }

  /** Every located, matching booking is found. */
  lemma HitFound(needle: string, code: string, s: int, e: int, bs: seq<Booking>, segs: seq<Segment>, sites: seq<Site>, p: Placed)
    requires p in PlaceAll(bs, segs, sites) && BookingMatches(p.booking, needle, code, s, e)
    ensures HitOf(p) in Hits(needle, code, s, e, bs, segs, sites)
  {
    assert Matching(needle, code, s, e)(p);
  }

  /** A window whose start lies after its end finds nothing and raises nothing. */
  lemma EmptyWindow(needle: string, code: string, s: int, e: int, bs: seq<Booking>, segs: seq<Segment>, sites: seq<Site>)
    requires s > e
    ensures Hits(needle, code, s, e, bs, segs, sites) == []
  {
    var all := PlaceAll(bs, segs, sites);
    assert forall p :: p in all ==> !Matching(needle, code, s, e)(p);
    assert Filter(all, Matching(needle, code, s, e)) == [];
  }

  /** A booking with exactly the chosen activity, on that day and starting inside the
      window, is found at every site of its facility. */
  lemma ExactActivityFound(needle: string, code: string, s: int, e: int, bs: seq<Booking>, segs: seq<Segment>, sites: seq<Site>, p: Placed)
    requires p in PlaceAll(bs, segs, sites)
    requires p.booking.taetigkeit == Some(needle) && p.booking.wochentag == code && s <= p.booking.start <= e
    ensures HitOf(p) in Hits(needle, code, s, e, bs, segs, sites)
  {
    ContainsSelf(needle);
    HitFound(needle, code, s, e, bs, segs, sites, p);
  }

  /** The same bookings with other end times. */
  function WithEnds(bs: seq<Booking>, ends: seq<int>): (r: seq<Booking>)
    requires |ends| == |bs|
    ensures |r| == |bs| && forall i :: 0 <= i < |bs| ==> r[i] == bs[i].(ende := ends[i])
  {
    seq(|bs|, i requires 0 <= i < |bs| => bs[i].(ende := ends[i]))
  }

  /** Two booking lists that differ in end times at most. */
  predicate SameButEnds(a: seq<Booking>, b: seq<Booking>) {
    |a| == |b| && forall i :: 0 <= i < |a| ==> a[i] == b[i].(ende := a[i].ende)
  }

  lemma SameButEndsHits(needle: string, code: string, s: int, e: int, a: seq<Booking>, b: seq<Booking>,
                        segs: seq<Segment>, sites: seq<Site>, h: Hit)
    requires SameButEnds(a, b)
    requires h in Hits(needle, code, s, e, a, segs, sites)
    ensures h in Hits(needle, code, s, e, b, segs, sites)
  {
    var p :| p in PlaceAll(a, segs, sites) && Matching(needle, code, s, e)(p) && h == HitOf(p);
    var i :| 0 <= i < |a| && a[i] == p.booking;
    var q := Placed(b[i], p.segment, p.site);
    assert a[i] == b[i].(ende := a[i].ende);
    PlacedElsewhere(p, a, b, b[i], segs, sites);
    MatchesIgnoresEnd(a[i], b[i], needle, code, s, e);
    HitFound(needle, code, s, e, b, segs, sites, q);
  }

  /** The search conditions do not read the end time. */
  lemma MatchesIgnoresEnd(x: Booking, y: Booking, needle: string, code: string, s: int, e: int)
    requires x == y.(ende := x.ende)
    requires BookingMatches(x, needle, code, s, e)
    ensures BookingMatches(y, needle, code, s, e)
  {
    assert x.taetigkeit == y.taetigkeit && x.wochentag == y.wochentag && x.start == y.start;
  }

  /** A booking on the same segment as a placed one is placed at the same site. */
  lemma PlacedElsewhere(p: Placed, a: seq<Booking>, bs: seq<Booking>, x: Booking, segs: seq<Segment>, sites: seq<Site>)
    requires p in PlaceAll(a, segs, sites)
    requires x in bs && x.segmentId == p.booking.segmentId
    ensures Placed(x, p.segment, p.site) in PlaceAll(bs, segs, sites)
  {
    assert Linked(Placed(x, p.segment, p.site));
  }

  /** End times are never consulted: changing them leaves the result set unchanged. */
  lemma EndIgnored(needle: string, code: string, s: int, e: int, bs: seq<Booking>, ends: seq<int>,
                   segs: seq<Segment>, sites: seq<Site>)
    requires |ends| == |bs|
    ensures forall h :: h in Hits(needle, code, s, e, WithEnds(bs, ends), segs, sites)
                        <==> h in Hits(needle, code, s, e, bs, segs, sites)
  {
    var bs' := WithEnds(bs, ends);
    assert SameButEnds(bs', bs);
    assert SameButEnds(bs, bs') by {
      forall i | 0 <= i < |bs|
        ensures bs[i] == bs'[i].(ende := bs[i].ende)
      {
      }
    }
    forall h
      ensures h in Hits(needle, code, s, e, bs', segs, sites) <==> h in Hits(needle, code, s, e, bs, segs, sites)
    {
      if h in Hits(needle, code, s, e, bs', segs, sites) {
        SameButEndsHits(needle, code, s, e, bs', bs, segs, sites, h);
      }
      if h in Hits(needle, code, s, e, bs, segs, sites) {
        SameButEndsHits(needle, code, s, e, bs, bs', segs, sites, h);
      }
    }
  }

  /** With no listed activity the pattern `None` matches nothing: every activity is
      then NULL or empty. */
  lemma NoActivityNoHits(code: string, s: int, e: int, bs: seq<Booking>, segs: seq<Segment>, sites: seq<Site>)
    requires |ActivityList(bs)| == 0
    ensures Hits(Needle(None), code, s, e, bs, segs, sites) == []
  {
    var all := PlaceAll(bs, segs, sites);
    forall p | p in all
      ensures !Matching(Needle(None), code, s, e)(p)
    {
      assert p.booking in bs;
      if p.booking.taetigkeit.Some? {
        var x := p.booking.taetigkeit.value;
        assert x !in ActivityList(bs);
        assert x == "";
      }
    }
    assert Filter(all, Matching(Needle(None), code, s, e)) == [];
  }

  const NoHalls: string := "Keine Hallen für diese Tätigkeit und Zeitspanne gefunden."

  /** The page: the two slider times go to the query as `HH:MM:SS` text; no row gives
      the info message, otherwise one marker per distinct row. */
  function SearchPage(activity: Option<string>, day: Weekday, s: TimeOfDay, e: TimeOfDay,
                      bs: seq<Booking>, segs: seq<Segment>, sites: seq<Site>): (v: View<Hit>)
    requires activity.Some? ==> activity.value in ActivityList(bs)
    requires activity.None? <==> |ActivityList(bs)| == 0
    ensures v.Message? <==> |Hits(Needle(activity), Code(day), s, e, bs, segs, sites)| == 0
    ensures v.Message? ==> v.text == NoHalls
    ensures v.Shown? ==> v.items == Hits(Needle(activity), Code(day), s, e, bs, segs, sites)
    ensures s > e ==> v == Message(NoHalls)
  {
    FormatParse(s);
    FormatParse(e);
    assert s > e ==> Hits(Needle(activity), Code(day), s, e, bs, segs, sites) == [] by {
      if s > e {
        EmptyWindow(Needle(activity), Code(day), s, e, bs, segs, sites);
      }
    }
    var rows := Hits(Needle(activity), ToCode(FullName(day)).value, Parse(Format(s)).value, Parse(Format(e)).value, bs, segs, sites);
    if |rows| == 0 then Message(NoHalls) else Shown(rows)
  }
}
