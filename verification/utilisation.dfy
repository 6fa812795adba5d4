/** The "Auslastungsanalyse" page: booked against available minutes per facility and
    weekday, the weekday filter, and the ranking by mean utilisation per facility name. */
module Utilisation {
  import opened Wrappers
  import opened Seqs
  import opened Records
  import opened Weekdays
  import opened Ratios
  import opened Sorting
  import opened Frames
  import opened Groups
  import opened Errors

  /** An `einrichtungen` row. */
  datatype Facility = Facility(id: int, name: string)

  /** A `verfugbarkeit` row: a time span in which a segment is usable. */
  datatype Window = Window(segmentId: int, wochentag: string, start: int, ende: int)

  /** The grouping and merge key `(einrichtung_id, name, wochentag)`. */
  datatype Key = Key(id: int, name: string, wochentag: string)

  /** `JOIN segmente s ON x.segment_id = s.id JOIN einrichtungen e ON s.einrichtung_id = e.id`
      for one segment id. */
  function FacilitiesOf(segmentId: int, segs: seq<Segment>, facs: seq<Facility>): (r: seq<Facility>)
    ensures forall f :: f in r <==> f in facs && exists s :: s in segs && s.id == segmentId && s.einrichtungId == f.id
  {
    if |segs| == 0 then []
    else
      assert segs == [segs[0]] + segs[1..];
      var here := if segs[0].id == segmentId then Filter(facs, Hosts(segs[0])) else [];
      here + FacilitiesOf(segmentId, segs[1..], facs)
  }

  function Hosts(s: Segment): Facility -> bool {
    (f: Facility) => f.id == s.einrichtungId
  }

  /** How many segment rows carry the id `segmentId` and belong to facility `fid`. */
  function Links(segmentId: int, fid: int, segs: seq<Segment>): nat {
    if |segs| == 0 then 0
    else (if segs[0].id == segmentId && segs[0].einrichtungId == fid then 1 else 0) + Links(segmentId, fid, segs[1..])
  }

  /** The join yields a facility once for every segment row linking it to the id, and
      that as often as the facility row itself occurs. */
  lemma {:induction false} FacilitiesMultiplicity(segmentId: int, segs: seq<Segment>, facs: seq<Facility>, f: Facility)
    ensures multiset(FacilitiesOf(segmentId, segs, facs))[f] == Links(segmentId, f.id, segs) * multiset(facs)[f]
  {
    if |segs| != 0 {
      var rest := FacilitiesOf(segmentId, segs[1..], facs);
      FacilitiesMultiplicity(segmentId, segs[1..], facs, f);
      var here := if segs[0].id == segmentId then Filter(facs, Hosts(segs[0])) else [];
      var c := segs[0].id == segmentId && segs[0].einrichtungId == f.id;
      if segs[0].id == segmentId {
        FilterMultiplicity(facs, Hosts(segs[0]), f);
      }
      assert Links(segmentId, f.id, segs) == (if c then 1 else 0) + Links(segmentId, f.id, segs[1..]);
      CountSplit(FacilitiesOf(segmentId, segs, facs), here, rest, f, c, Links(segmentId, f.id, segs[1..]), multiset(facs)[f],
                 Links(segmentId, f.id, segs));
    } else {
      assert FacilitiesOf(segmentId, segs, facs) == [] && Links(segmentId, f.id, segs) == 0;
    }
  }

  /** Every row of `xs` paired with each facility its segment belongs to. */
  function Attach<T(!new)>(xs: seq<T>, seg: T -> int, segs: seq<Segment>, facs: seq<Facility>): (r: seq<(T, Facility)>)
    ensures forall p :: p in r <==> p.0 in xs && p.1 in FacilitiesOf(seg(p.0), segs, facs)
  {
    if |xs| == 0 then []
    else
      assert xs == [xs[0]] + xs[1..];
      var fs := FacilitiesOf(seg(xs[0]), segs, facs);
      var head := Map(fs, PairWith(xs[0]));
      assert forall p :: p in head <==> p.0 == xs[0] && p.1 in fs by {
        forall p
          ensures p in head <==> p.0 == xs[0] && p.1 in fs
        {
          MapMembership(fs, PairWith(xs[0]), p);
        }
      }
      head + Attach(xs[1..], seg, segs, facs)
  }

  /** `h + t` counts one more block of `m` when `c` holds. */
  lemma IndicatorSum(c: bool, n: int, m: int, h: int, t: int)
    requires h == (if c then m else 0) && t == n * m
    ensures h + t == ((if c then 1 else 0) + n) * m
  {
    Distribute(if c then 1 else 0, n, m);
  }

  /** A block that holds `x` either `m` times or not at all, followed by a rest holding it
      `n * m` times, holds it one more block of `m` times when the block counts. */
  lemma CountSplit<T>(whole: seq<T>, head: seq<T>, rest: seq<T>, x: T, c: bool, n: int, m: int, total: int)
    requires whole == head + rest
    requires multiset(head)[x] == (if c then m else 0) && multiset(rest)[x] == n * m
    requires total == (if c then 1 else 0) + n
    ensures multiset(whole)[x] == total * m
  {
    assert multiset(head + rest)[x] == multiset(head)[x] + multiset(rest)[x];
    IndicatorSum(c, n, m, multiset(head)[x], multiset(rest)[x]);
  }

  /** The join handles each row on its own: joining two blocks of rows gives the pairs
      of the first block followed by those of the second. */
  lemma {:induction false} AttachAppend<T(!new)>(a: seq<T>, b: seq<T>, seg: T -> int, segs: seq<Segment>, facs: seq<Facility>)
    ensures Attach(a + b, seg, segs, facs) == Attach(a, seg, segs, facs) + Attach(b, seg, segs, facs)
  {
    if |a| == 0 {
      assert a + b == b;
    } else {
      assert (a + b)[0] == a[0];
      assert (a + b)[1..] == a[1..] + b;
      AttachAppend(a[1..], b, seg, segs, facs);
      var head := Map(FacilitiesOf(seg(a[0]), segs, facs), PairWith(a[0]));
      assert Attach(a + b, seg, segs, facs) == head + Attach(a[1..] + b, seg, segs, facs);
      assert Attach(a, seg, segs, facs) == head + Attach(a[1..], seg, segs, facs);
      assert head + (Attach(a[1..], seg, segs, facs) + Attach(b, seg, segs, facs))
          == (head + Attach(a[1..], seg, segs, facs)) + Attach(b, seg, segs, facs);
    }
  }

  /** One row is paired with each facility of its segment, in the join's order. */
  lemma AttachOne<T(!new)>(x: T, seg: T -> int, segs: seq<Segment>, facs: seq<Facility>)
    ensures |Attach([x], seg, segs, facs)| == |FacilitiesOf(seg(x), segs, facs)|
    ensures forall i :: 0 <= i < |FacilitiesOf(seg(x), segs, facs)| ==>
              Attach([x], seg, segs, facs)[i] == (x, FacilitiesOf(seg(x), segs, facs)[i])
  {
    assert [x][1..] == [];
    assert Attach([x], seg, segs, facs) == Map(FacilitiesOf(seg(x), segs, facs), PairWith(x)) + [];
  }

  /** The join of a non-empty list: the pairs of its first row, then those of the rest. */
  lemma AttachUnfold<T(!new)>(xs: seq<T>, seg: T -> int, segs: seq<Segment>, facs: seq<Facility>)
    requires |xs| != 0
    ensures Attach(xs, seg, segs, facs)
         == Map(FacilitiesOf(seg(xs[0]), segs, facs), PairWith(xs[0])) + Attach(xs[1..], seg, segs, facs)
  {
  }

  /** The pairs of one row hold `p` as often as the row's facilities hold its facility,
      and not at all when `p` belongs to another row. */
  lemma PairsCount<T>(x: T, fs: seq<Facility>, p: (T, Facility))
    ensures multiset(Map(fs, PairWith(x)))[p] == if x == p.0 then multiset(fs)[p.1] else 0
  {
    if x == p.0 {
      MapInjectiveMultiplicity(fs, PairWith(x), p.1);
      assert PairWith(x)(p.1) == p;
    } else {
      MapMembership(fs, PairWith(x), p);
      assert p !in Map(fs, PairWith(x));
    }
  }

  /** A pair occurs in the join as often as its row times the number `m` of times the
      join yields its facility for that row's segment, so equal rows each contribute
      their pairs. */
  lemma {:induction false} AttachMultiplicity<T(!new)>(xs: seq<T>, seg: T -> int, segs: seq<Segment>, facs: seq<Facility>,
                                                       p: (T, Facility), m: int)
    requires m == multiset(FacilitiesOf(seg(p.0), segs, facs))[p.1]
    ensures multiset(Attach(xs, seg, segs, facs))[p] == multiset(xs)[p.0] * m
  {
    if |xs| != 0 {
      var rest := Attach(xs[1..], seg, segs, facs);
      AttachMultiplicity(xs[1..], seg, segs, facs, p, m);
      var fs := FacilitiesOf(seg(xs[0]), segs, facs);
      var head := Map(fs, PairWith(xs[0]));
      AttachUnfold(xs, seg, segs, facs);
      PairsCount(xs[0], fs, p);
      FirstCount(xs, p.0);
      CountSplit(Attach(xs, seg, segs, facs), head, rest, p, xs[0] == p.0, multiset(xs[1..])[p.0], m, multiset(xs)[p.0]);
    } else {
      assert Attach(xs, seg, segs, facs) == [] && multiset(xs)[p.0] == 0;
    }
  }

  function BookingSegment(b: Booking): int {
    b.segmentId
  }

  function WindowSegment(w: Window): int {
    w.segmentId
  }

  function BookedRow(p: (Booking, Facility)): (Key, int) {
    (Key(p.1.id, p.1.name, p.0.wochentag), p.0.dauer)
  }

  /** `TIME_TO_SEC(TIMEDIFF(v.ende, v.start))`: the window's length in seconds. */
  function Span(w: Window): int {
    w.ende - w.start
  }

  function AvailableRow(p: (Window, Facility)): (Key, int) {
    (Key(p.1.id, p.1.name, p.0.wochentag), Span(p.0))
  }

  /** `x` is the booked-seconds row of a booking joined to one of its facilities. */
  ghost predicate BookedFrom(bs: seq<Booking>, segs: seq<Segment>, facs: seq<Facility>, x: (Key, int)) {
    exists b, f :: b in bs && f in FacilitiesOf(b.segmentId, segs, facs) && x == (Key(f.id, f.name, b.wochentag), b.dauer)
  }

  /** `x` is the available-seconds row of a window joined to one of its facilities. */
  ghost predicate AvailableFrom(ws: seq<Window>, segs: seq<Segment>, facs: seq<Facility>, x: (Key, int)) {
    exists w, f :: w in ws && f in FacilitiesOf(w.segmentId, segs, facs) && x == (Key(f.id, f.name, w.wochentag), Span(w))
  }

  lemma BookedMember(bs: seq<Booking>, segs: seq<Segment>, facs: seq<Facility>, x: (Key, int))
    ensures x in Map(Attach(bs, BookingSegment, segs, facs), BookedRow) <==> BookedFrom(bs, segs, facs, x)
  {
    var joined := Attach(bs, BookingSegment, segs, facs);
    MapMembership(joined, BookedRow, x);
    if x in Map(joined, BookedRow) {
      var p :| p in joined && x == BookedRow(p);
      assert p.0 in bs && p.1 in FacilitiesOf(p.0.segmentId, segs, facs);
    }
    if BookedFrom(bs, segs, facs, x) {
      var b, f :| b in bs && f in FacilitiesOf(b.segmentId, segs, facs) && x == (Key(f.id, f.name, b.wochentag), b.dauer);
      assert BookingSegment(b) == b.segmentId;
      assert (b, f) in joined;
      assert x == BookedRow((b, f));
    }
  }

  lemma AvailableMember(ws: seq<Window>, segs: seq<Segment>, facs: seq<Facility>, x: (Key, int))
    ensures x in Map(Attach(ws, WindowSegment, segs, facs), AvailableRow) <==> AvailableFrom(ws, segs, facs, x)
  {
    var joined := Attach(ws, WindowSegment, segs, facs);
    MapMembership(joined, AvailableRow, x);
    if x in Map(joined, AvailableRow) {
      var p :| p in joined && x == AvailableRow(p);
      assert p.0 in ws && p.1 in FacilitiesOf(p.0.segmentId, segs, facs);
    }
    if AvailableFrom(ws, segs, facs, x) {
      var w, f :| w in ws && f in FacilitiesOf(w.segmentId, segs, facs) && x == (Key(f.id, f.name, w.wochentag), Span(w));
      assert WindowSegment(w) == w.segmentId;
      assert (w, f) in joined;
      assert x == AvailableRow((w, f));
    }
  }

  /** The booked seconds of each joined booking, before grouping. */
  function BookedSeconds(bs: seq<Booking>, segs: seq<Segment>, facs: seq<Facility>): (r: seq<(Key, int)>)
    ensures forall x :: x in r <==> BookedFrom(bs, segs, facs, x)
  {
    var r := Map(Attach(bs, BookingSegment, segs, facs), BookedRow);
    assert forall x :: x in r <==> BookedFrom(bs, segs, facs, x) by {
      forall x
        ensures x in r <==> BookedFrom(bs, segs, facs, x)
      {
        BookedMember(bs, segs, facs, x);
      }
    }
    r
  }

  /** Every booking contributes its own rows to the sum, so two equal bookings count
      twice: the rows of two booking lists are those of the first, then the second. */
  lemma BookedSecondsAppend(bs1: seq<Booking>, bs2: seq<Booking>, segs: seq<Segment>, facs: seq<Facility>)
    ensures BookedSeconds(bs1 + bs2, segs, facs) == BookedSeconds(bs1, segs, facs) + BookedSeconds(bs2, segs, facs)
    ensures multiset(BookedSeconds(bs1 + bs2, segs, facs))
         == multiset(BookedSeconds(bs1, segs, facs)) + multiset(BookedSeconds(bs2, segs, facs))
  {
    AttachAppend(bs1, bs2, BookingSegment, segs, facs);
    MapAppend(Attach(bs1, BookingSegment, segs, facs), Attach(bs2, BookingSegment, segs, facs), BookedRow);
  }

  /** One booking gives one row per facility its segment joins to, each carrying that
      facility's key for the booking's weekday and the booking's duration. */
  lemma BookedSecondsOne(b: Booking, segs: seq<Segment>, facs: seq<Facility>)
    ensures |BookedSeconds([b], segs, facs)| == |FacilitiesOf(b.segmentId, segs, facs)|
    ensures forall i :: 0 <= i < |FacilitiesOf(b.segmentId, segs, facs)| ==>
              BookedSeconds([b], segs, facs)[i]
              == (Key(FacilitiesOf(b.segmentId, segs, facs)[i].id, FacilitiesOf(b.segmentId, segs, facs)[i].name, b.wochentag), b.dauer)
  {
    AttachOne(b, BookingSegment, segs, facs);
  }

  /** The available seconds of each joined window, `ende - start`, before grouping. */
  function AvailableSeconds(ws: seq<Window>, segs: seq<Segment>, facs: seq<Facility>): (r: seq<(Key, int)>)
    ensures forall x :: x in r <==> AvailableFrom(ws, segs, facs, x)
  {
    var r := Map(Attach(ws, WindowSegment, segs, facs), AvailableRow);
    assert forall x :: x in r <==> AvailableFrom(ws, segs, facs, x) by {
      forall x
        ensures x in r <==> AvailableFrom(ws, segs, facs, x)
      {
        AvailableMember(ws, segs, facs, x);
      }
    }
    r
  }

  /** Every window contributes its own rows: the rows of two window lists are those of
      the first, then the second. */
  lemma AvailableSecondsAppend(ws1: seq<Window>, ws2: seq<Window>, segs: seq<Segment>, facs: seq<Facility>)
    ensures AvailableSeconds(ws1 + ws2, segs, facs) == AvailableSeconds(ws1, segs, facs) + AvailableSeconds(ws2, segs, facs)
    ensures multiset(AvailableSeconds(ws1 + ws2, segs, facs))
         == multiset(AvailableSeconds(ws1, segs, facs)) + multiset(AvailableSeconds(ws2, segs, facs))
  {
    AttachAppend(ws1, ws2, WindowSegment, segs, facs);
    MapAppend(Attach(ws1, WindowSegment, segs, facs), Attach(ws2, WindowSegment, segs, facs), AvailableRow);
  }

  /** One window gives one row per facility its segment joins to, with its length. */
  lemma AvailableSecondsOne(w: Window, segs: seq<Segment>, facs: seq<Facility>)
    ensures |AvailableSeconds([w], segs, facs)| == |FacilitiesOf(w.segmentId, segs, facs)|
    ensures forall i :: 0 <= i < |FacilitiesOf(w.segmentId, segs, facs)| ==>
              AvailableSeconds([w], segs, facs)[i]
              == (Key(FacilitiesOf(w.segmentId, segs, facs)[i].id, FacilitiesOf(w.segmentId, segs, facs)[i].name, w.wochentag), Span(w))
  {
    AttachOne(w, WindowSegment, segs, facs);
  }

  /** `df_belegung["wochentag"].replace(map_kurz_zu_lang)` on one grouped row. */
  function LongDay(row: (Key, int)): (r: (Key, int))
    ensures r.1 == row.1 && r.0.id == row.0.id && r.0.name == row.0.name
    ensures forall d :: Code(d) == row.0.wochentag ==> r.0.wochentag == FullName(d)
    ensures (forall d :: Code(d) != row.0.wochentag) ==> r == row
  {
    (row.0.(wochentag := ToFullName(row.0.wochentag)), row.1)
  }

  /** The booked side after the weekday replace. */
  function BookedGroups(bs: seq<Booking>, segs: seq<Segment>, facs: seq<Facility>): seq<(Key, int)> {
    Map(GroupSum(BookedSeconds(bs, segs, facs)), LongDay)
  }

  function AvailableGroups(ws: seq<Window>, segs: seq<Segment>, facs: seq<Facility>): seq<(Key, int)> {
    GroupSum(AvailableSeconds(ws, segs, facs))
  }

  /** A row of the merged frame. Both minute columns are DECIMAL sums; `auslastung` is
      `Raised` on a row whose Decimal division raises. */
  datatype Row = Row(key: Key, belegteMinuten: real, verfuegbareMinuten: real, auslastung: Fallible<real>)

  /** `SUM(...)/60` of both sides and `auslastung_% = belegte / verfuegbare * 100`: a
      zero availability makes the division raise, `InvalidOperation` when nothing was
      booked either and `DivisionByZero` otherwise. */
  function RowOf(p: ((Key, int), (Key, int))): (r: Row)
    ensures r.key == p.0.0
    ensures r.belegteMinuten == p.0.1 as real / 60.0 && r.verfuegbareMinuten == p.1.1 as real / 60.0
    ensures r.auslastung.Ok? <==> r.verfuegbareMinuten != 0.0
    ensures r.auslastung.Ok? ==> r.auslastung.value * r.verfuegbareMinuten == r.belegteMinuten * 100.0
    ensures r.auslastung.Raised? ==>
              r.auslastung.error == (if r.belegteMinuten == 0.0 then InvalidOperation else DivisionByZero)
  {
    var b := p.0.1 as real / 60.0;
    var a := p.1.1 as real / 60.0;
    var q := DecimalDiv(b, a);
    if q.Ok? then
      assert q.value * 100.0 * a == b * 100.0;
      Row(p.0.0, b, a, Ok(q.value * 100.0))
    else
      Row(p.0.0, b, a, Raised(q.error))
  }

  /** Two merged pairs with equal keys that give the same row are the same pair. */
  lemma RowOfInjective(p: ((Key, int), (Key, int)), q: ((Key, int), (Key, int)))
    requires p.0.0 == p.1.0 && q.0.0 == q.1.0
    requires RowOf(p) == RowOf(q)
    ensures p == q
  {
    assert p.0.1 as real == RowOf(p).belegteMinuten * 60.0;
    assert p.1.1 as real == RowOf(p).verfuegbareMinuten * 60.0;
  }

  /** `lade_auslastung` before the weekday filter: the inner merge on
      `(einrichtung_id, name, wochentag)`. */
  function Merged(bs: seq<Booking>, ws: seq<Window>, segs: seq<Segment>, facs: seq<Facility>): (r: seq<Row>)
    ensures forall row :: row in r <==> exists x, y :: x in BookedGroups(bs, segs, facs) && y in AvailableGroups(ws, segs, facs)
                                                    && x.0 == y.0 && row == RowOf((x, y))
  {
    MergeRows(BookedGroups(bs, segs, facs), AvailableGroups(ws, segs, facs))
  }

  /** The merge of two grouped sides, one row per pair of equal keys. */
  function MergeRows(booked: seq<(Key, int)>, available: seq<(Key, int)>): (r: seq<Row>)
    ensures forall row :: row in r <==> exists x, y :: x in booked && y in available && x.0 == y.0 && row == RowOf((x, y))
  {
    var m := InnerMerge(booked, available, KeyOf, KeyOf);
    assert forall row :: row in Map(m, RowOf) <==> exists p :: p in m && row == RowOf(p) by {
      forall row
        ensures row in Map(m, RowOf) <==> exists p :: p in m && row == RowOf(p)
      {
        MapMembership(m, RowOf, row);
      }
    }
    Map(m, RowOf)
  }

  /** The merge repeats a row as often as the pair it comes from: the product of the
      multiplicities of its two sides. */
  lemma MergeRowsMultiplicity(booked: seq<(Key, int)>, available: seq<(Key, int)>, x: (Key, int), y: (Key, int))
    requires x.0 == y.0
    ensures multiset(MergeRows(booked, available))[RowOf((x, y))] == multiset(booked)[x] * multiset(available)[y]
  {
    var m := InnerMerge(booked, available, KeyOf, KeyOf);
    forall z | z in m && RowOf(z) == RowOf((x, y))
      ensures z == (x, y)
    {
      RowOfInjective(z, (x, y));
    }
    MapInjectiveMultiplicity(m, RowOf, (x, y));
    InnerMergeMultiplicity(booked, available, KeyOf, KeyOf, (x, y));
  }

  /** The page's merge. The available side has one row per key, so a merged row occurs
      exactly as often as its booked row; the weekday replace can give that side two rows
      of one key (from "Mo" and "Montag"), and each is merged. */
  lemma MergedMultiplicity(bs: seq<Booking>, ws: seq<Window>, segs: seq<Segment>, facs: seq<Facility>,
                           x: (Key, int), y: (Key, int))
    requires x.0 == y.0
    ensures multiset(Merged(bs, ws, segs, facs))[RowOf((x, y))]
         == if y in AvailableGroups(ws, segs, facs) then multiset(BookedGroups(bs, segs, facs))[x] else 0
  {
    var booked, available := BookedGroups(bs, segs, facs), AvailableGroups(ws, segs, facs);
    assert Merged(bs, ws, segs, facs) == MergeRows(booked, available);
    MergeRowsUnique(booked, available, x, y);
  }

  lemma MergeRowsUnique(booked: seq<(Key, int)>, available: seq<(Key, int)>, x: (Key, int), y: (Key, int))
    requires x.0 == y.0 && NoDup(Keys(available))
    ensures multiset(MergeRows(booked, available))[RowOf((x, y))] == if y in available then multiset(booked)[x] else 0
  {
    MergeRowsMultiplicity(booked, available, x, y);
    GroupOnce(available, y);
    TimesIndicator(multiset(booked)[x], y in available);
  }

  lemma TimesIndicator(n: int, present: bool)
    ensures n * (if present then 1 else 0) == if present then n else 0
  {
  }

  /** The merge is inner: a key survives exactly when both sides have it. */
  lemma MergedKeys(bs: seq<Booking>, ws: seq<Window>, segs: seq<Segment>, facs: seq<Facility>, k: Key)
    ensures (exists row :: row in Merged(bs, ws, segs, facs) && row.key == k) <==>
              (exists x :: x in BookedGroups(bs, segs, facs) && x.0 == k) &&
              (exists y :: y in AvailableGroups(ws, segs, facs) && y.0 == k)
  {
    var r := Merged(bs, ws, segs, facs);
    if (exists x :: x in BookedGroups(bs, segs, facs) && x.0 == k) && (exists y :: y in AvailableGroups(ws, segs, facs) && y.0 == k) {
      var x :| x in BookedGroups(bs, segs, facs) && x.0 == k;
      var y :| y in AvailableGroups(ws, segs, facs) && y.0 == k;
      assert RowOf((x, y)) in r;
    }
  }

  /** The minutes of a merged row are the group sums of its two sides: the available
      minutes those of its own key, the booked minutes those of a key whose weekday code
      was replaced by the row's weekday. */
  lemma MergedSums(bs: seq<Booking>, ws: seq<Window>, segs: seq<Segment>, facs: seq<Facility>, row: Row)
    requires row in Merged(bs, ws, segs, facs)
    ensures row.verfuegbareMinuten == SumFor(AvailableSeconds(ws, segs, facs), row.key) as real / 60.0
    ensures exists k: Key :: k.id == row.key.id && k.name == row.key.name && ToFullName(k.wochentag) == row.key.wochentag
                     && row.belegteMinuten == SumFor(BookedSeconds(bs, segs, facs), k) as real / 60.0
  {
    var x, y := MergedPair(BookedGroups(bs, segs, facs), AvailableGroups(ws, segs, facs), row);
    AvailableSide(ws, segs, facs, y);
    var k := BookedSide(bs, segs, facs, x);
    assert k.id == row.key.id && k.name == row.key.name && ToFullName(k.wochentag) == row.key.wochentag
           && row.belegteMinuten == SumFor(BookedSeconds(bs, segs, facs), k) as real / 60.0;
  }

  /** The two grouped rows a merged row comes from. */
  lemma MergedPair(booked: seq<(Key, int)>, available: seq<(Key, int)>, row: Row) returns (x: (Key, int), y: (Key, int))
    requires row in MergeRows(booked, available)
    ensures x in booked && y in available && x.0 == y.0
    ensures row.key == x.0 && row.key == y.0
    ensures row.belegteMinuten == x.1 as real / 60.0 && row.verfuegbareMinuten == y.1 as real / 60.0
  {
    x, y :| x in booked && y in available && x.0 == y.0 && row == RowOf((x, y));
  }

  lemma AvailableSide(ws: seq<Window>, segs: seq<Segment>, facs: seq<Facility>, y: (Key, int))
    requires y in AvailableGroups(ws, segs, facs)
    ensures y.1 == SumFor(AvailableSeconds(ws, segs, facs), y.0)
  {
    var g := AvailableGroups(ws, segs, facs);
    var j :| 0 <= j < |g| && g[j] == y;
  }

  lemma BookedSide(bs: seq<Booking>, segs: seq<Segment>, facs: seq<Facility>, x: (Key, int)) returns (k: Key)
    requires x in BookedGroups(bs, segs, facs)
    ensures k.id == x.0.id && k.name == x.0.name && ToFullName(k.wochentag) == x.0.wochentag
    ensures x.1 == SumFor(BookedSeconds(bs, segs, facs), k)
  {
    var g := GroupSum(BookedSeconds(bs, segs, facs));
    var m := BookedGroups(bs, segs, facs);
    var i :| 0 <= i < |m| && m[i] == x;
    assert x == LongDay(g[i]);
    k := g[i].0;
    assert g[i].1 == SumFor(BookedSeconds(bs, segs, facs), k);
  }

  /** `wochentag and wochentag != "Alle"`: no selection, `""` and `"Alle"` keep every row. */
  predicate KeepsAll(sel: Option<string>) {
    sel.None? || sel.value == "" || sel.value == "Alle"
  }

  function OnDay(day: string): Row -> bool {
    (row: Row) => row.key.wochentag == day
  }

  /** `df[df["wochentag"] == wochentag]` unless the selection keeps every row. */
  function FilterDay(rows: seq<Row>, sel: Option<string>): (r: seq<Row>)
    ensures KeepsAll(sel) ==> r == rows
    ensures !KeepsAll(sel) ==> forall row :: row in r <==> row in rows && row.key.wochentag == sel.value
    ensures |r| <= |rows|
  {
    if KeepsAll(sel) then rows else Filter(rows, OnDay(sel.value))
  }

  /** The filter never adds a row nor repeats one more often. */
  lemma FilterDayNeverAdds(rows: seq<Row>, sel: Option<string>, row: Row)
    ensures multiset(FilterDay(rows, sel))[row] <= multiset(rows)[row]
  {
    if !KeepsAll(sel) {
      FilterMultiplicity(rows, OnDay(sel.value), row);
    }
  }

  /** The `auslastung_%` entry the ranking averages; a raising row never reaches it. */
  function Utilisation(row: Row): Float {
    if row.auslastung.Ok? then Finite(row.auslastung.value) else NaN
  }

  function HasName(n: string): Row -> bool {
    (row: Row) => row.key.name == n
  }

  /** `df.groupby("name")["auslastung_%"].mean()` for one name. */
  function MeanOf(rows: seq<Row>, n: string): (r: Float)
    ensures r.NaN? <==> forall row :: row in rows && row.key.name == n ==> row.auslastung.Raised?
    ensures r.Finite? <==> exists row :: row in rows && row.key.name == n && row.auslastung.Ok?
  {
    AllRaised(rows, n);
    Mean(Map(Filter(rows, HasName(n)), Utilisation))
  }

  /** The entries averaged for a name are never infinite, and all are NaN exactly when
      every row of that name raised. */
  lemma AllRaised(rows: seq<Row>, n: string)
    ensures PosInf !in Map(Filter(rows, HasName(n)), Utilisation) && NegInf !in Map(Filter(rows, HasName(n)), Utilisation)
    ensures (forall i :: 0 <= i < |Map(Filter(rows, HasName(n)), Utilisation)| ==> Map(Filter(rows, HasName(n)), Utilisation)[i].NaN?)
        <==> (forall row :: row in rows && row.key.name == n ==> row.auslastung.Raised?)
  {
    var fs := Filter(rows, HasName(n));
    var xs := Map(fs, Utilisation);
    if forall i :: 0 <= i < |xs| ==> xs[i].NaN? {
      forall row | row in rows && row.key.name == n
        ensures row.auslastung.Raised?
      {
        assert HasName(n)(row);
        var i :| 0 <= i < |fs| && fs[i] == row;
        assert xs[i] == Utilisation(row);
      }
    }
    if forall row :: row in rows && row.key.name == n ==> row.auslastung.Raised? {
      forall i | 0 <= i < |xs|
        ensures xs[i].NaN?
      {
        assert fs[i] in fs;
        assert xs[i] == Utilisation(fs[i]);
      }
    }
  }

  function NameOf(row: Row): string {
    row.key.name
  }

  /** The ranking order of `sort_values(ascending=False)`: larger first, NaN last. */
  ghost predicate NotAfter(x: Float, y: Float) {
    y.NaN? || (!x.NaN? && AtMost(y, x))
  }

  ghost predicate Descending(s: seq<(string, Float)>) {
    forall i, j :: 0 <= i < j < |s| ==> NotAfter(s[i].1, s[j].1)
  }

  function IsPosInf(e: (string, Float)): bool { e.1.PosInf? }
  function IsFinite(e: (string, Float)): bool { e.1.Finite? }
  function IsNegInf(e: (string, Float)): bool { e.1.NegInf? }
  function IsNaN(e: (string, Float)): bool { e.1.NaN? }

  /** The sort key of the finite block: the negated value, so larger values come first. */
  function Negated(e: (string, Float)): real {
    if e.1.Finite? then -e.1.v else 0.0
  }

  /** The block of a value in the descending order. */
  function Rank(x: Float): int {
    match x
    case PosInf => 0
    case Finite(_) => 1
    case NegInf => 2
    case NaN => 3
  }

  lemma BlocksOrdered(a: seq<(string, Float)>, b: seq<(string, Float)>, k: int)
    requires forall x :: x in a ==> Rank(x.1) <= k
    requires forall y :: y in b ==> Rank(y.1) > k
    ensures forall x, y :: x in a && y in b ==> NotAfter(x.1, y.1)
  {
  }

  lemma DescendingConcat(a: seq<(string, Float)>, b: seq<(string, Float)>)
    requires Descending(a) && Descending(b)
    requires forall x, y :: x in a && y in b ==> NotAfter(x.1, y.1)
    ensures Descending(a + b)
  {
    var c := a + b;
    forall i, j | 0 <= i < j < |c|
      ensures NotAfter(c[i].1, c[j].1)
    {
      if j < |a| {
        assert c[i] == a[i] && c[j] == a[j];
      } else if i >= |a| {
        assert c[i] == b[i - |a|] && c[j] == b[j - |a|];
      } else {
        assert c[i] in a && c[j] in b;
      }
    }
  }

  lemma FiniteBlock(es: seq<(string, Float)>)
    ensures forall x :: x in SortBy(Filter(es, IsFinite), Negated) ==> x.1.Finite?
    ensures Descending(SortBy(Filter(es, IsFinite), Negated))
  {
    var fin := SortBy(Filter(es, IsFinite), Negated);
    assert forall x :: x in fin ==> x.1.Finite? by {
      forall x | x in fin
        ensures x.1.Finite?
      {
        assert x in multiset(fin);
        assert x in multiset(Filter(es, IsFinite));
        assert x in Filter(es, IsFinite);
        assert IsFinite(x);
      }
    }
    forall i, j | 0 <= i < j < |fin|
      ensures NotAfter(fin[i].1, fin[j].1)
    {
      assert fin[i] in fin && fin[j] in fin;
      assert Negated(fin[i]) <= Negated(fin[j]);
    }
  }

  lemma PartitionMultiset(es: seq<(string, Float)>)
    ensures multiset(Filter(es, IsPosInf) + (SortBy(Filter(es, IsFinite), Negated) + (Filter(es, IsNegInf) + Filter(es, IsNaN))))
         == multiset(es)
  {
    var r := Filter(es, IsPosInf) + (SortBy(Filter(es, IsFinite), Negated) + (Filter(es, IsNegInf) + Filter(es, IsNaN)));
    forall x
      ensures multiset(r)[x] == multiset(es)[x]
    {
      FilterMultiplicity(es, IsPosInf, x);
      FilterMultiplicity(es, IsFinite, x);
      FilterMultiplicity(es, IsNegInf, x);
      FilterMultiplicity(es, IsNaN, x);
    }
  }

  /** A block of infinities of one sign, or of NaNs, is descending whatever its order. */
  lemma InfiniteBlock(a: seq<(string, Float)>, k: int)
    requires k == 0 || k == 2 || k == 3
    requires forall x :: x in a ==> Rank(x.1) == k
    ensures Descending(a)
  {
    forall i, j | 0 <= i < j < |a|
      ensures NotAfter(a[i].1, a[j].1)
    {
      assert a[i] in a && a[j] in a;
    }
  }

  lemma LowBlocks(es: seq<(string, Float)>)
    ensures Descending(Filter(es, IsNegInf) + Filter(es, IsNaN))
    ensures forall y :: y in Filter(es, IsNegInf) + Filter(es, IsNaN) ==> Rank(y.1) >= 2
  {
    InfiniteBlock(Filter(es, IsNegInf), 2);
    InfiniteBlock(Filter(es, IsNaN), 3);
    BlocksOrdered(Filter(es, IsNegInf), Filter(es, IsNaN), 2);
    DescendingConcat(Filter(es, IsNegInf), Filter(es, IsNaN));
  }

  lemma FiniteAndLow(es: seq<(string, Float)>)
    ensures Descending(SortBy(Filter(es, IsFinite), Negated) + (Filter(es, IsNegInf) + Filter(es, IsNaN)))
    ensures forall y :: y in SortBy(Filter(es, IsFinite), Negated) + (Filter(es, IsNegInf) + Filter(es, IsNaN)) ==> Rank(y.1) >= 1
  {
    var fin := SortBy(Filter(es, IsFinite), Negated);
    var low := Filter(es, IsNegInf) + Filter(es, IsNaN);
    FiniteBlock(es);
    LowBlocks(es);
    BlocksOrdered(fin, low, 1);
    DescendingConcat(fin, low);
  }

  /** The four blocks in order form a descending sequence. */
  lemma PartitionDescending(es: seq<(string, Float)>)
    ensures Descending(Filter(es, IsPosInf) + (SortBy(Filter(es, IsFinite), Negated) + (Filter(es, IsNegInf) + Filter(es, IsNaN))))
  {
    var pos := Filter(es, IsPosInf);
    var rest := SortBy(Filter(es, IsFinite), Negated) + (Filter(es, IsNegInf) + Filter(es, IsNaN));
    FiniteAndLow(es);
    InfiniteBlock(pos, 0);
    BlocksOrdered(pos, rest, 0);
    DescendingConcat(pos, rest);
  }

  /** `sort_values(ascending=False)`: +inf, then finite values from largest to smallest,
      then -inf, then NaN. */
  function SortDescending(es: seq<(string, Float)>): (r: seq<(string, Float)>)
    ensures Descending(r)
    ensures multiset(r) == multiset(es)
  {
    PartitionDescending(es);
    PartitionMultiset(es);
    Filter(es, IsPosInf) + (SortBy(Filter(es, IsFinite), Negated) + (Filter(es, IsNegInf) + Filter(es, IsNaN)))
  }

  function EntryName(e: (string, Float)): string {
    e.0
  }

  /** The names of a ranking, in order. */
  function Names(r: seq<(string, Float)>): (ns: seq<string>)
    ensures |ns| == |r| && forall i :: 0 <= i < |r| ==> ns[i] == r[i].0
  {
    Map(r, EntryName)
  }

  /** One entry per distinct name, before sorting. */
  function Entries(rows: seq<Row>): (es: seq<(string, Float)>)
    ensures NoDup(Names(es))
    ensures forall n :: n in Names(es) <==> exists row :: row in rows && row.key.name == n
    ensures forall e :: e in es ==> e.1 == MeanOf(rows, e.0)
  {
    var names := Dedup(Map(rows, NameOf));
    var es := seq(|names|, i requires 0 <= i < |names| => (names[i], MeanOf(rows, names[i])));
    assert Names(es) == names;
    assert forall n :: n in names <==> exists row :: row in rows && row.key.name == n by {
      forall n
        ensures n in names <==> exists row :: row in rows && row.key.name == n
      {
        MapMembership(rows, NameOf, n);
      }
    }
    es
  }

  /** Distinct names make distinct entries, and a permutation keeps both. */
  lemma PermutedNames(es: seq<(string, Float)>, r: seq<(string, Float)>, rows: seq<Row>)
    requires NoDup(Names(es)) && forall e :: e in es ==> e.1 == MeanOf(rows, e.0)
    requires multiset(r) == multiset(es)
    ensures NoDup(Names(r))
    ensures forall n :: n in Names(r) <==> n in Names(es)
  {
    assert NoDup(es) by {
      forall i, j | 0 <= i < j < |es|
        ensures es[i] != es[j]
      {
        assert Names(es)[i] != Names(es)[j];
      }
    }
    PermutationNoDup(es, r);
    assert forall e :: e in r <==> e in es by {
      forall e
        ensures e in r <==> e in es
      {
        assert e in r <==> e in multiset(r);
        assert e in es <==> e in multiset(es);
      }
    }
    SameEntriesNoDup(es, r, rows);
    SameEntriesNames(es, r);
  }

  lemma SameEntriesNoDup(es: seq<(string, Float)>, r: seq<(string, Float)>, rows: seq<Row>)
    requires NoDup(r) && forall e :: e in es ==> e.1 == MeanOf(rows, e.0)
    requires forall e :: e in r <==> e in es
    ensures NoDup(Names(r))
  {
    forall i, j | 0 <= i < j < |r|
      ensures Names(r)[i] != Names(r)[j]
    {
      assert r[i] in es && r[j] in es;
    }
  }

  lemma SameEntriesNames(es: seq<(string, Float)>, r: seq<(string, Float)>)
    requires forall e :: e in r <==> e in es
    ensures forall n :: n in Names(r) <==> n in Names(es)
  {
    forall n
      ensures n in Names(r) <==> n in Names(es)
    {
      if n in Names(r) {
        var i :| 0 <= i < |r| && Names(r)[i] == n;
        assert r[i] in es;
        var k :| 0 <= k < |es| && es[k] == r[i];
        assert Names(es)[k] == n;
      }
      if n in Names(es) {
        var k :| 0 <= k < |es| && Names(es)[k] == n;
        assert es[k] in r;
        var i :| 0 <= i < |r| && r[i] == es[k];
        assert Names(r)[i] == n;
      }
    }
  }

  /** The ranking: one entry per facility name (facilities sharing a name are pooled),
      carrying the mean utilisation of that name's rows, largest first. */
  function Ranking(rows: seq<Row>): (r: seq<(string, Float)>)
    ensures Descending(r)
    ensures NoDup(Names(r))
    ensures forall n :: n in Names(r) <==> exists row :: row in rows && row.key.name == n
    ensures forall i :: 0 <= i < |r| ==> r[i].1 == MeanOf(rows, r[i].0)
  {
    var es := Entries(rows);
    var r := SortDescending(es);
    PermutedNames(es, r, rows);
    assert forall i :: 0 <= i < |r| ==> r[i].1 == MeanOf(rows, r[i].0) by {
      forall i | 0 <= i < |r|
        ensures r[i].1 == MeanOf(rows, r[i].0)
      {
        assert r[i] in multiset(es);
      }
    }
    r
  }

  /** The position of the first row whose division raises, or the length when none does. */
  function FirstRaised(rows: seq<Row>): (i: nat)
    ensures i <= |rows|
    ensures forall j :: 0 <= j < i ==> rows[j].auslastung.Ok?
    ensures i < |rows| ==> rows[i].auslastung.Raised?
    decreases |rows|
  {
    if |rows| == 0 || rows[0].auslastung.Raised? then 0
    else
      var i := FirstRaised(rows[1..]);
      assert forall j :: 1 <= j < i + 1 ==> rows[j] == rows[1..][j - 1];
      1 + i
  }

  /** How the page ends: with the exception that stops it, or with the table and the ranking. */
  datatype Outcome = Failed(error: PyError) | Table(rows: seq<Row>, ranking: seq<(string, Float)>)

  /** `lade_auslastung` and the ranking from the two grouped query results. A result with
      no rows gives a frame without columns: the weekday replace then raises on the
      booked side, the merge on the available side. The division runs over the whole
      merged frame before the weekday filter, so its first zero availability stops the
      page. Otherwise the table is the filtered frame and the ranking is that of exactly
      the rows shown. */
  function MergePage(sel: Option<string>, booked: seq<(Key, int)>, available: seq<(Key, int)>): (o: Outcome)
    ensures |booked| == 0 ==> o == Failed(KeyError("wochentag"))
    ensures |booked| != 0 && |available| == 0 ==> o == Failed(KeyError("einrichtung_id"))
    ensures o.Table? <==> && |booked| != 0 && |available| != 0
                          && forall row :: row in MergeRows(booked, available) ==> row.verfuegbareMinuten != 0.0
    ensures o.Failed? && |booked| != 0 && |available| != 0 ==>
              exists i :: FirstZeroAt(MergeRows(booked, available), i) && o.error == ErrorAt(MergeRows(booked, available), i)
    ensures o.Table? ==> o.rows == FilterDay(MergeRows(booked, available), sel) && o.ranking == Ranking(o.rows)
    ensures o.Table? ==> forall row :: row in o.rows ==> row.auslastung.Ok?
  {
    if |booked| == 0 then Failed(KeyError("wochentag"))
    else if |available| == 0 then Failed(KeyError("einrichtung_id"))
    else
      var merged := MergeRows(booked, available);
      MergedDivided(booked, available);
      var i := FirstRaised(merged);
      if i < |merged| then
        RaisesAt(merged, i);
        Failed(merged[i].auslastung.error)
      else
        var shown := FilterDay(merged, sel);
        NoneRaises(merged, sel);
        Table(shown, Ranking(shown))
  }

  /** The division's outcome on a row, as `RowOf` computes it. */
  ghost predicate Divided(row: Row) {
    && (row.auslastung.Ok? <==> row.verfuegbareMinuten != 0.0)
    && (row.auslastung.Raised? ==>
          row.auslastung.error == (if row.belegteMinuten == 0.0 then InvalidOperation else DivisionByZero))
  }

  lemma MergedDivided(booked: seq<(Key, int)>, available: seq<(Key, int)>)
    ensures forall row :: row in MergeRows(booked, available) ==> Divided(row)
  {
    forall row | row in MergeRows(booked, available)
      ensures Divided(row)
    {
      var x, y :| x in booked && y in available && x.0 == y.0 && row == RowOf((x, y));
    }
  }

  lemma RaisesAt(rows: seq<Row>, i: nat)
    requires forall row :: row in rows ==> Divided(row)
    requires i == FirstRaised(rows) && i < |rows|
    ensures FirstZeroAt(rows, i) && rows[i].auslastung.error == ErrorAt(rows, i)
    ensures !forall row :: row in rows ==> row.verfuegbareMinuten != 0.0
  {
    assert Divided(rows[i]);
    forall j | 0 <= j < i
      ensures rows[j].verfuegbareMinuten != 0.0
    {
      assert Divided(rows[j]);
    }
  }

  lemma NoneRaises(rows: seq<Row>, sel: Option<string>)
    requires forall row :: row in rows ==> Divided(row)
    requires FirstRaised(rows) == |rows|
    ensures forall row :: row in rows ==> row.verfuegbareMinuten != 0.0
    ensures forall row :: row in FilterDay(rows, sel) ==> row.auslastung.Ok?
  {
    forall row | row in rows
      ensures row.auslastung.Ok?
    {
      var j :| 0 <= j < |rows| && rows[j] == row;
    }
  }

  /** A grouped result is empty exactly when no row joins. */
  lemma GroupsEmpty(bs: seq<Booking>, ws: seq<Window>, segs: seq<Segment>, facs: seq<Facility>)
    ensures |BookedGroups(bs, segs, facs)| == 0 <==> |BookedSeconds(bs, segs, facs)| == 0
    ensures |AvailableGroups(ws, segs, facs)| == 0 <==> |AvailableSeconds(ws, segs, facs)| == 0
  {
    GroupSumEmpty(BookedSeconds(bs, segs, facs));
    GroupSumEmpty(AvailableSeconds(ws, segs, facs));
  }

  /** The page: it fails when no booking or no availability window joins a facility, or
      on the first merged row without available minutes, and shows the table and the
      ranking otherwise. */
  function UtilisationPage(sel: Option<string>, bs: seq<Booking>, ws: seq<Window>,
                           segs: seq<Segment>, facs: seq<Facility>): (o: Outcome)
    ensures |BookedSeconds(bs, segs, facs)| == 0 ==> o == Failed(KeyError("wochentag"))
    ensures |BookedSeconds(bs, segs, facs)| != 0 && |AvailableSeconds(ws, segs, facs)| == 0 ==>
              o == Failed(KeyError("einrichtung_id"))
    ensures o.Table? <==> && |BookedSeconds(bs, segs, facs)| != 0 && |AvailableSeconds(ws, segs, facs)| != 0
                          && forall row :: row in Merged(bs, ws, segs, facs) ==> row.verfuegbareMinuten != 0.0
    ensures o.Failed? && |BookedSeconds(bs, segs, facs)| != 0 && |AvailableSeconds(ws, segs, facs)| != 0 ==>
              exists i :: FirstZeroAt(Merged(bs, ws, segs, facs), i) && o.error == ErrorAt(Merged(bs, ws, segs, facs), i)
    ensures o.Table? ==> o.rows == FilterDay(Merged(bs, ws, segs, facs), sel) && o.ranking == Ranking(o.rows)
    ensures o.Table? ==> forall row :: row in o.rows ==> row.auslastung.Ok?
  {
    GroupsEmpty(bs, ws, segs, facs);
    MergePage(sel, BookedGroups(bs, segs, facs), AvailableGroups(ws, segs, facs))
  }

  /** Row `i` is the first with zero available minutes. */
  ghost predicate FirstZeroAt(rows: seq<Row>, i: int) {
    && 0 <= i < |rows| && rows[i].verfuegbareMinuten == 0.0
    && forall j :: 0 <= j < i ==> rows[j].verfuegbareMinuten != 0.0
  }

  /** The exception the division raises on row `i` of zero availability. */
  function ErrorAt(rows: seq<Row>, i: int): PyError
    requires 0 <= i < |rows|
  {
    if rows[i].belegteMinuten == 0.0 then InvalidOperation else DivisionByZero
  }
}
