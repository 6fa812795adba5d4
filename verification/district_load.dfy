/** The "Auslastungs-Heatmap" page: district names normalised by `clean_name`, district
    geometry left-merged with booked minutes and population, the minutes per 1000
    inhabitants, and its three-colour scale. */
module DistrictLoad {
  import opened Wrappers
  import opened Seqs
  import opened Strings
  import opened Ratios
  import opened Frames
  import opened Errors

  /** The length of the leading digit run that `^\d+` matches. */
  function DigitRun(name: string): (k: nat)
    ensures k <= |name| && AllDigits(name[..k])
    ensures k == |name| || !IsDigit(name[k])
    ensures k > 0 <==> |name| > 0 && IsDigit(name[0])
  {
    |name| - |TrimDigits(name)|
  }

  /** `r` is a suffix of `name`, and what precedes it is the digit run followed by
      whitespace only. */
  ghost predicate Removed(name: string, r: string) {
    && |r| <= |name| - DigitRun(name)
    && r == name[|name| - |r|..]
    && AllSpace(name[DigitRun(name)..|name| - |r|])
  }

  /** `re.sub(r"^\d+\s*", "", name)`: without a leading digit the pattern does not
      match and nothing is removed; otherwise the digit run and the whitespace after
      it go, leaving no leading whitespace. */
  function StripPrefix(name: string): (r: string)
    ensures Removed(name, r)
    ensures DigitRun(name) == 0 ==> r == name
    ensures DigitRun(name) > 0 ==> |r| < |name| && (|r| == 0 || !IsSpace(r[0]))
  {
    if |name| > 0 && IsDigit(name[0]) then
      StripFacts(name);
      TrimStart(TrimDigits(name))
    else
      Unstripped(name);
      name
  }

  lemma Unstripped(name: string)
    requires |name| == 0 || !IsDigit(name[0])
    ensures DigitRun(name) == 0 && Removed(name, name)
  {
    assert name[0..0] == [];
  }

  lemma StripFacts(name: string)
    requires |name| > 0 && IsDigit(name[0])
    ensures var a := TrimStart(TrimDigits(name));
            && DigitRun(name) > 0 && Removed(name, a) && |a| < |name| && (|a| == 0 || !IsSpace(a[0]))
  {
    var t := TrimDigits(name);
    var k := DigitRun(name);
    var a := TrimStart(t);
    assert t == name[k..];
    var m := |t| - |a|;
    SliceOfSlice(name, k, m);
    assert t[..m] == name[k..k + m];
    assert a == t[m..] == name[k + m..];
    assert |name| - |a| == k + m;
  }

  lemma SliceOfSlice(s: string, k: nat, m: nat)
    requires k + m <= |s|
    ensures s[k..][..m] == s[k..k + m]
    ensures s[k..][m..] == s[k + m..]
  {
  }

  /** `re.sub(r"^\d+\s*", "", name).strip()`. */
  function CleanName(name: string): (r: string)
    ensures Trimmed(r)
    ensures |name| == 0 || !IsDigit(name[0]) ==> r == Trim(name)
  {
    Trim(StripPrefix(name))
  }

  /** `str.strip` leaves a string without outer whitespace unchanged. */
  lemma TrimTrimmed(s: string)
    requires Trimmed(s)
    ensures Trim(s) == s
  {
    assert TrimStart(s) == s;
    assert TrimEnd(s) == s;
  }

  /** `clean_name` is idempotent on every result that does not start with a digit. */
  lemma CleanNameIdempotent(name: string)
    requires |CleanName(name)| == 0 || !IsDigit(CleanName(name)[0])
    ensures CleanName(CleanName(name)) == CleanName(name)
  {
    TrimTrimmed(CleanName(name));
  }

  lemma {:induction false} TrimDigitsPrefix(p: string, rest: string)
    requires AllDigits(p) && (|rest| == 0 || !IsDigit(rest[0]))
    ensures TrimDigits(p + rest) == rest
  {
    if |p| == 0 {
      assert p + rest == rest;
    } else {
      assert (p + rest)[1..] == p[1..] + rest;
      TrimDigitsPrefix(p[1..], rest);
    }
  }

  lemma {:induction false} TrimStartPrefix(q: string, rest: string)
    requires AllSpace(q) && (|rest| == 0 || !IsSpace(rest[0]))
    ensures TrimStart(q + rest) == rest
  {
    if |q| == 0 {
      assert q + rest == rest;
    } else {
      assert (q + rest)[1..] == q[1..] + rest;
      TrimStartPrefix(q[1..], rest);
    }
  }

  /** A digit run followed by whitespace is removed in full. */
  lemma StripPrefixOf(p: string, q: string, u: string)
    requires |p| > 0 && AllDigits(p) && AllSpace(q)
    requires |q + u| == 0 || !IsDigit((q + u)[0])
    requires |u| == 0 || !IsSpace(u[0])
    ensures StripPrefix(p + q + u) == u
  {
    assert p + q + u == p + (q + u);
    TrimDigitsPrefix(p, q + u);
    TrimStartPrefix(q, u);
  }

  /** A trimmed name without a leading digit is already clean. */
  lemma CleanNameFixed(u: string)
    requires Trimmed(u) && (|u| == 0 || !IsDigit(u[0]))
    ensures CleanName(u) == u
  {
    TrimTrimmed(u);
  }

  /** Digits, whitespace, then a clean name: only the clean name is left. */
  lemma CleanNameAfterPrefix(s: string, p: string, q: string, u: string)
    requires |p| > 0 && AllDigits(p) && AllSpace(q) && |q| > 0
    requires Trimmed(u) && |u| > 0 && s == p + q + u
    ensures CleanName(s) == u
  {
    StripPrefixOf(p, q, u);
    TrimTrimmed(u);
  }

  /** `clean_name` on one name with a numeric prefix and one without. */
  lemma CleanNameExamples(a: string, b: string)
    requires a == "12 Altstadt" && b == "Altstadt"
    ensures CleanName(a) == b && CleanName(b) == b
  {
    CleanNameAfterPrefix(a, "12", " ", b);
    CleanNameFixed(b);
  }

  /** `" 12 X"` cleans to `"12 X"`, which cleans further to `"X"`. */
  lemma LeadingSpaceNotIdempotent(s: string, t: string, u: string)
    requires s == " 12 X" && t == "12 X" && u == "X"
    ensures CleanName(s) == t && CleanName(t) == u
  {
    assert s == " " + t;
    assert !IsDigit(s[0]);
    TrimStartPrefix(" ", t);
    assert TrimEnd(t) == t;
    assert CleanName(s) == TrimEnd(TrimStart(s)) == t;
    assert t == "12" + " " + u;
    CleanNameAfterPrefix(t, "12", " ", u);
  }

  /** `"1 2 X"` cleans to `"2 X"`, which cleans further to `"X"`. */
  lemma SecondRunNotIdempotent(s: string, t: string, u: string)
    requires s == "1 2 X" && t == "2 X" && u == "X"
    ensures CleanName(s) == t && CleanName(t) == u
  {
    CleanNameAfterPrefix(s, "1", " ", t);
    SingleDigitPrefix(t, u);
  }

  lemma SingleDigitPrefix(t: string, u: string)
    requires t == "2 X" && u == "X"
    ensures CleanName(t) == u
  {
    assert |u| == 1 && u[0] == 'X';
    assert Trimmed(u);
    CleanNameAfterPrefix(t, "2", " ", u);
  }

  /** A `stadtteile2` row; `geometry` is the parsed `geom_wkt`, absent when it is NULL. */
  datatype District = District(name: string, geometry: Option<string>)

  /** A row of the booked-minutes query: `stadtteil` and its `SUM(...)`, NULL when every
      summand is. */
  datatype Occupancy = Occupancy(stadtteil: string, belegteMinuten: Option<int>)

  /** An `einwohner` row of the chosen year. */
  datatype Population = Population(stadtteil: string, bevoelkerung: Option<int>)

  /** The join keys: the named column passed through the name normaliser `clean`. */
  function DistrictKey(clean: string -> string): District -> string {
    (d: District) => clean(d.name)
  }

  function OccupancyKey(clean: string -> string): Occupancy -> string {
    (o: Occupancy) => clean(o.stadtteil)
  }

  function PopulationKey(clean: string -> string): Population -> string {
    (p: Population) => clean(p.stadtteil)
  }

  function FirstKey(clean: string -> string): ((District, Option<Occupancy>)) -> string {
    (x: (District, Option<Occupancy>)) => clean(x.0.name)
  }

  /** A row of the combined frame. */
  datatype Joined = Joined(district: District, occupancy: Option<Occupancy>, population: Option<Population>)

  function Flatten(x: ((District, Option<Occupancy>), Option<Population>)): Joined {
    Joined(x.0.0, x.0.1, x.1)
  }

  function Merged(ds: seq<District>, os: seq<Occupancy>, ps: seq<Population>, clean: string -> string):
    seq<((District, Option<Occupancy>), Option<Population>)>
  {
    LeftMerge(LeftMerge(ds, os, DistrictKey(clean), OccupancyKey(clean)), ps, FirstKey(clean), PopulationKey(clean))
  }

  /** `gdf.merge(df_auslastung, on="stadtteil_clean", how="left").merge(df_einwohner, ...)`,
      with `clean` producing `stadtteil_clean` on all three sides. */
  function Combine(ds: seq<District>, os: seq<Occupancy>, ps: seq<Population>, clean: string -> string): (r: seq<Joined>)
    ensures |r| >= |ds|
    ensures forall j :: j in r ==> Consistent(j, ds, os, ps, clean)
    ensures forall d :: d in ds ==> exists j :: j in r && j.district == d
    ensures forall j :: Consistent(j, ds, os, ps, clean) ==> j in r
  {
    var r := Map(Merged(ds, os, ps, clean), Flatten);
    forall j | Consistent(j, ds, os, ps, clean)
      ensures j in r
    {
      AllCombined(ds, os, ps, clean, j);
    }
    forall j | j in r
      ensures Consistent(j, ds, os, ps, clean)
    {
      CombinedRow(ds, os, ps, clean, j);
    }
    forall d | d in ds
      ensures exists j :: j in r && j.district == d
    {
      KeptRow(ds, os, ps, clean, d);
    }
    r
  }

  /** What one combined row knows about its origin. */
  predicate Consistent(j: Joined, ds: seq<District>, os: seq<Occupancy>, ps: seq<Population>, clean: string -> string) {
    && j.district in ds
    && (j.occupancy.Some? ==> j.occupancy.value in os && clean(j.occupancy.value.stadtteil) == clean(j.district.name))
    && (j.occupancy.None? ==> forall o :: o in os ==> clean(o.stadtteil) != clean(j.district.name))
    && (j.population.Some? ==> j.population.value in ps && clean(j.population.value.stadtteil) == clean(j.district.name))
    && (j.population.None? ==> forall p :: p in ps ==> clean(p.stadtteil) != clean(j.district.name))
  }

  lemma CombinedRow(ds: seq<District>, os: seq<Occupancy>, ps: seq<Population>, clean: string -> string, j: Joined)
    requires j in Map(Merged(ds, os, ps, clean), Flatten)
    ensures Consistent(j, ds, os, ps, clean)
  {
    var m1 := LeftMerge(ds, os, DistrictKey(clean), OccupancyKey(clean));
    var m2 := LeftMerge(m1, ps, FirstKey(clean), PopulationKey(clean));
    MapMembership(m2, Flatten, j);
    var x :| x in m2 && j == Flatten(x);
    assert x.0 in m1;
  }

  /** Every combination a row could come from is there: a district with each matching
      minutes row, or with none when nothing matches, and likewise each matching
      population row, so a name two rows clean to yields a row for each. */
  lemma AllCombined(ds: seq<District>, os: seq<Occupancy>, ps: seq<Population>, clean: string -> string, j: Joined)
    requires Consistent(j, ds, os, ps, clean)
    ensures j in Map(Merged(ds, os, ps, clean), Flatten)
  {
    var m1 := LeftMerge(ds, os, DistrictKey(clean), OccupancyKey(clean));
    var m2 := LeftMerge(m1, ps, FirstKey(clean), PopulationKey(clean));
    var d := j.district;
    var x1 := (d, j.occupancy);
    if j.occupancy.Some? {
      assert OccupancyKey(clean)(j.occupancy.value) == DistrictKey(clean)(d);
    } else {
      assert forall o :: o in os ==> OccupancyKey(clean)(o) != DistrictKey(clean)(d);
    }
    assert x1 in m1;
    var x2 := (x1, j.population);
    if j.population.Some? {
      assert PopulationKey(clean)(j.population.value) == FirstKey(clean)(x1);
    } else {
      assert forall p :: p in ps ==> PopulationKey(clean)(p) != FirstKey(clean)(x1);
    }
    assert x2 in m2;
    assert Flatten(x2) == j;
    MapMembership(m2, Flatten, j);
  }

  lemma KeptRow(ds: seq<District>, os: seq<Occupancy>, ps: seq<Population>, clean: string -> string, d: District)
    requires d in ds
    ensures exists j :: j in Map(Merged(ds, os, ps, clean), Flatten) && j.district == d
  {
    var m1 := LeftMerge(ds, os, DistrictKey(clean), OccupancyKey(clean));
    var m2 := LeftMerge(m1, ps, FirstKey(clean), PopulationKey(clean));
    var x1: (District, Option<Occupancy>);
    if exists o :: o in os && OccupancyKey(clean)(o) == DistrictKey(clean)(d) {
      var o :| o in os && OccupancyKey(clean)(o) == DistrictKey(clean)(d);
      x1 := (d, Some(o));
    } else {
      x1 := (d, None);
    }
    assert x1 in m1;
    var x2: ((District, Option<Occupancy>), Option<Population>);
    if exists p :: p in ps && PopulationKey(clean)(p) == FirstKey(clean)(x1) {
      var p :| p in ps && PopulationKey(clean)(p) == FirstKey(clean)(x1);
      x2 := (x1, Some(p));
    } else {
      x2 := (x1, None);
    }
    assert x2 in m2;
    MapMembership(m2, Flatten, Flatten(x2));
  }

  /** With duplicate-free cleaned names on both right-hand sides every geometry row
      appears exactly once, in order. */
  lemma CombineUniqueKeys(ds: seq<District>, os: seq<Occupancy>, ps: seq<Population>, clean: string -> string)
    requires forall i, j :: 0 <= i < j < |os| ==> clean(os[i].stadtteil) != clean(os[j].stadtteil)
    requires forall i, j :: 0 <= i < j < |ps| ==> clean(ps[i].stadtteil) != clean(ps[j].stadtteil)
    ensures |Combine(ds, os, ps, clean)| == |ds|
    ensures forall i :: 0 <= i < |ds| ==> Combine(ds, os, ps, clean)[i].district == ds[i]
  {
    var m1 := LeftMerge(ds, os, DistrictKey(clean), OccupancyKey(clean));
    LeftMergeUniqueKeys(ds, os, DistrictKey(clean), OccupancyKey(clean));
    LeftMergeUniqueKeys(m1, ps, FirstKey(clean), PopulationKey(clean));
  }

  /** `belegte_minuten` of a combined row, a DECIMAL sum: absent without a matching row
      or when the sum is NULL. */
  function Minutes(j: Joined): Option<int> {
    if j.occupancy.None? then None else j.occupancy.value.belegteMinuten
  }

  /** `bevoelkerung` of a combined row: absent without a matching row or when NULL. */
  function Inhabitants(j: Joined): Option<int> {
    if j.population.None? then None else j.population.value.bevoelkerung
  }

  /** Both operands of the row's division are present; pandas divides only such rows. */
  predicate BothPresent(j: Joined) {
    Minutes(j).Some? && Inhabitants(j).Some?
  }

  /** `belegte_minuten / (bevoelkerung / 1000)` on one row of DECIMAL values: NaN when
      either side is missing, the quotient when the population is nonzero, and the
      Decimal exception when it is zero. */
  function PerThousand(j: Joined): (r: Fallible<Float>)
    ensures !BothPresent(j) ==> r == Ok(NaN)
    ensures BothPresent(j) && Inhabitants(j).value != 0 ==>
              r.Ok? && r.value.Finite? && r.value.v * (Inhabitants(j).value as real / 1000.0) == Minutes(j).value as real
    ensures BothPresent(j) && Inhabitants(j).value == 0 ==>
              r == Raised(if Minutes(j).value == 0 then InvalidOperation else DivisionByZero)
  {
    if !BothPresent(j) then Ok(NaN)
    else
      var q := DecimalDiv(Minutes(j).value as real, Inhabitants(j).value as real / 1000.0);
      if q.Ok? then Ok(Finite(q.value)) else Raised(q.error)
  }

  /** `minuten_pro_1000` of a row on which the division does not raise. */
  function Ratio(j: Joined): Float {
    if PerThousand(j).Ok? then PerThousand(j).value else NaN
  }

  /** The SQL type of `einwohner.bevoelkerung`, which decides what the division does. */
  datatype ColumnType = IntegerColumn | DecimalColumn

  /** The row holds a population of zero next to its minutes. */
  predicate ZeroPopulation(j: Joined) {
    BothPresent(j) && Inhabitants(j).value == 0
  }

  /** The position of the first row whose division raises, or the length when none does. */
  function FirstRaising(js: seq<Joined>): (i: nat)
    ensures i <= |js|
    ensures forall k :: 0 <= k < i ==> !ZeroPopulation(js[k])
    ensures i < |js| ==> ZeroPopulation(js[i])
    decreases |js|
  {
    if |js| == 0 || ZeroPopulation(js[0]) then 0
    else
      var i := FirstRaising(js[1..]);
      assert forall k :: 1 <= k < i + 1 ==> js[k] == js[1..][k - 1];
      1 + i
  }

  /** Row `i` is the first with a zero population next to its minutes. */
  ghost predicate FirstZeroAt(js: seq<Joined>, i: int) {
    0 <= i < |js| && ZeroPopulation(js[i]) && forall k :: 0 <= k < i ==> !ZeroPopulation(js[k])
  }

  /** The exception the column division `belegte_minuten / (bevoelkerung / 1000)` raises, if any. With an integer
      column `bevoelkerung / 1000` is a float, and dividing a Decimal by a float raises
      `TypeError`; pandas retries on the rows where both values are present, which
      raises again as soon as there is one. With a DECIMAL column the first row of zero
      population raises. */
  function ColumnError(js: seq<Joined>, pop: ColumnType): (e: Option<PyError>)
    ensures pop.IntegerColumn? ==> (e.Some? <==> exists j :: j in js && BothPresent(j))
    ensures pop.IntegerColumn? && e.Some? ==> e.value == TypeError
    ensures pop.DecimalColumn? ==> (e.Some? <==> exists j :: j in js && ZeroPopulation(j))
    ensures pop.DecimalColumn? && e.Some? ==>
              exists i :: FirstZeroAt(js, i) && e.value == (if Minutes(js[i]).value == 0 then InvalidOperation else DivisionByZero)
  {
    if pop.IntegerColumn? then
      if exists j :: j in js && BothPresent(j) then Some(TypeError) else None
    else
      var i := FirstRaising(js);
      if i < |js| then
        assert FirstZeroAt(js, i);
        Some(PerThousand(js[i]).error)
      else
        assert forall j :: j in js ==> !ZeroPopulation(j);
        None
  }

  /** Without both operands on any row nothing is divided: every ratio is NaN. */
  lemma NothingDivided(js: seq<Joined>, j: Joined)
    requires j in js && forall x :: x in js ==> !BothPresent(x)
    ensures Ratio(j) == NaN
  {
  }

  /** The four fill colours. */
  datatype Shade = NoData | Green | Yellow | Red

  predicate IsHexDigit(c: char) {
    '0' <= c <= '9' || 'A' <= c <= 'F' || 'a' <= c <= 'f'
  }

  /** The `fillColor` of a shade: a `#rrggbb` code. */
  function Hex(s: Shade): (r: string)
    ensures |r| == 7 && r[0] == '#'
    ensures forall i :: 1 <= i < 7 ==> IsHexDigit(r[i])
  {
    match s
    case NoData => "#cccccc"
    case Green => "#2ECC71"
    case Yellow => "#F1C40F"
    case Red => "#E74C3C"
  }

  /** The four shades are told apart on the map: no two share a colour code. */
  lemma HexInjective(a: Shade, b: Shade)
    ensures Hex(a) == Hex(b) ==> a == b
  {
  }

  /** The colour rule: grey without a value, then the thresholds 50 and 150 as Python's
      `<` on floats decides them (so +inf is red and -inf green). */
  function ShadeOf(v: Float): (s: Shade)
    ensures s == NoData <==> v.NaN?
    ensures v.Finite? ==> (s == Green <==> v.v < 50.0)
    ensures v.Finite? ==> (s == Yellow <==> 50.0 <= v.v < 150.0)
    ensures v.Finite? ==> (s == Red <==> v.v >= 150.0)
    ensures v.PosInf? ==> s == Red
    ensures v.NegInf? ==> s == Green
  {
    if !NotNull(v) then NoData
    else if LessThan(v, 50.0) then Green
    else if LessThan(v, 150.0) then Yellow
    else Red
  }

  function Level(s: Shade): int {
    match s
    case NoData => -1
    case Green => 0
    case Yellow => 1
    case Red => 2
  }

  /** More load never gives a cooler colour. */
  lemma ShadeMonotone(x: Float, y: Float)
    requires AtMost(x, y)
    ensures 0 <= Level(ShadeOf(x)) <= Level(ShadeOf(y))
  {
  }

  /** A drawn district: its geometry, its cleaned name and its fill. */
  datatype Area = Area(geometry: string, name: string, shade: Shade)

  predicate HasGeometry(j: Joined) {
    j.district.geometry.Some?
  }

  function AreaOf(clean: string -> string): Joined -> Area {
    (j: Joined) =>
      Area(if j.district.geometry.Some? then j.district.geometry.value else "", clean(j.district.name),
           ShadeOf(Ratio(j)))
  }

  /** The drawing loop: rows without geometry are skipped, every other row becomes an area. */
  function Draw(js: seq<Joined>, clean: string -> string): (r: seq<Area>)
    ensures |r| <= |js|
    ensures forall a :: a in r <==> exists j :: j in js && HasGeometry(j) && a == AreaOf(clean)(j)
  {
    var r := Map(Filter(js, HasGeometry), AreaOf(clean));
    assert forall a :: a in r <==> exists j :: j in js && HasGeometry(j) && a == AreaOf(clean)(j) by {
      forall a
        ensures a in r <==> exists j :: j in js && HasGeometry(j) && a == AreaOf(clean)(j)
      {
        DrawMember(js, clean, a);
      }
    }
    r
  }

  lemma DrawMember(js: seq<Joined>, clean: string -> string, a: Area)
    ensures a in Map(Filter(js, HasGeometry), AreaOf(clean)) <==> exists j :: j in js && HasGeometry(j) && a == AreaOf(clean)(j)
  {
    var kept := Filter(js, HasGeometry);
    MapMembership(kept, AreaOf(clean), a);
    if a in Map(kept, AreaOf(clean)) {
      var j :| j in kept && a == AreaOf(clean)(j);
      assert j in js && HasGeometry(j);
    }
    if exists j :: j in js && HasGeometry(j) && a == AreaOf(clean)(j) {
      var j :| j in js && HasGeometry(j) && a == AreaOf(clean)(j);
      assert j in kept;
    }
  }

  /** No booked-minutes row has the district's cleaned name. */
  predicate Unmatched(d: District, os: seq<Occupancy>, clean: string -> string) {
    forall o :: o in os ==> clean(o.stadtteil) != clean(d.name)
  }

  /** Every district with a geometry is drawn under its cleaned name. */
  ghost predicate DrawsAll(ds: seq<District>, r: seq<Area>, clean: string -> string) {
    forall d :: d in ds && d.geometry.Some? ==>
      exists a :: a in r && a.geometry == d.geometry.value && a.name == clean(d.name)
  }

  /** Every drawn area is the geometry of some district, under that district's cleaned name. */
  ghost predicate DrawsOnly(ds: seq<District>, r: seq<Area>, clean: string -> string) {
    forall a :: a in r ==> exists d :: d in ds && d.geometry == Some(a.geometry) && a.name == clean(d.name)
  }

  /** Every district with a geometry and no booked-minutes row is drawn grey. */
  ghost predicate GreysUnmatched(ds: seq<District>, os: seq<Occupancy>, r: seq<Area>, clean: string -> string) {
    forall d :: d in ds && d.geometry.Some? && Unmatched(d, os, clean) ==>
      Area(d.geometry.value, clean(d.name), NoData) in r
  }

  /** The drawing facts for any name normaliser `clean`. */
  lemma PageFacts(ds: seq<District>, os: seq<Occupancy>, ps: seq<Population>, clean: string -> string)
    ensures DrawsAll(ds, Draw(Combine(ds, os, ps, clean), clean), clean)
    ensures DrawsOnly(ds, Draw(Combine(ds, os, ps, clean), clean), clean)
    ensures GreysUnmatched(ds, os, Draw(Combine(ds, os, ps, clean), clean), clean)
  {
    AllDrawn(ds, os, ps, clean);
    OnlyDrawn(ds, os, ps, clean);
    UnmatchedGrey(ds, os, ps, clean);
  }

  lemma AllDrawn(ds: seq<District>, os: seq<Occupancy>, ps: seq<Population>, clean: string -> string)
    ensures DrawsAll(ds, Draw(Combine(ds, os, ps, clean), clean), clean)
  {
    var r := Draw(Combine(ds, os, ps, clean), clean);
    forall d | d in ds && d.geometry.Some?
      ensures exists a :: a in r && a.geometry == d.geometry.value && a.name == clean(d.name)
    {
      DrawnDistrict(ds, os, ps, clean, d);
    }
  }

  lemma OnlyDrawn(ds: seq<District>, os: seq<Occupancy>, ps: seq<Population>, clean: string -> string)
    ensures DrawsOnly(ds, Draw(Combine(ds, os, ps, clean), clean), clean)
  {
    var r := Draw(Combine(ds, os, ps, clean), clean);
    forall a | a in r
      ensures exists d :: d in ds && d.geometry == Some(a.geometry) && a.name == clean(d.name)
    {
      DrawnFrom(ds, os, ps, clean, a);
    }
  }

  lemma UnmatchedGrey(ds: seq<District>, os: seq<Occupancy>, ps: seq<Population>, clean: string -> string)
    ensures GreysUnmatched(ds, os, Draw(Combine(ds, os, ps, clean), clean), clean)
  {
    var r := Draw(Combine(ds, os, ps, clean), clean);
    forall d | d in ds && d.geometry.Some? && Unmatched(d, os, clean)
      ensures Area(d.geometry.value, clean(d.name), NoData) in r
    {
      GreyDistrict(ds, os, ps, clean, d);
    }
  }

  lemma DrawnDistrict(ds: seq<District>, os: seq<Occupancy>, ps: seq<Population>, clean: string -> string, d: District)
    requires d in ds && d.geometry.Some?
    ensures exists a :: a in Draw(Combine(ds, os, ps, clean), clean) && a.geometry == d.geometry.value && a.name == clean(d.name)
  {
    var js := Combine(ds, os, ps, clean);
    var j :| j in js && j.district == d;
    assert HasGeometry(j);
    assert AreaOf(clean)(j) in Draw(js, clean);
  }

  lemma DrawnFrom(ds: seq<District>, os: seq<Occupancy>, ps: seq<Population>, clean: string -> string, a: Area)
    requires a in Draw(Combine(ds, os, ps, clean), clean)
    ensures exists d :: d in ds && d.geometry == Some(a.geometry) && a.name == clean(d.name)
  {
    var js := Combine(ds, os, ps, clean);
    var j :| j in js && HasGeometry(j) && a == AreaOf(clean)(j);
    assert j.district in ds;
  }

  lemma GreyDistrict(ds: seq<District>, os: seq<Occupancy>, ps: seq<Population>, clean: string -> string, d: District)
    requires d in ds && d.geometry.Some?
    requires Unmatched(d, os, clean)
    ensures Area(d.geometry.value, clean(d.name), NoData) in Draw(Combine(ds, os, ps, clean), clean)
  {
    var js := Combine(ds, os, ps, clean);
    var j :| j in js && j.district == d;
    UnmatchedHasNoOccupancy(j, ds, os, ps, clean);
    assert AreaOf(clean)(j) == Area(d.geometry.value, clean(d.name), NoData);
    DrawMember(js, clean, AreaOf(clean)(j));
  }

  lemma UnmatchedHasNoOccupancy(j: Joined, ds: seq<District>, os: seq<Occupancy>, ps: seq<Population>, clean: string -> string)
    requires Unmatched(j.district, os, clean) && Consistent(j, ds, os, ps, clean)
    ensures j.occupancy.None?
  {
  }

  /** `clean_name` as the normaliser the page applies to all three name columns. */
  const Clean: string -> string := CleanName

  /** The page's normaliser is `clean_name`. */
  lemma CleanIsCleanName(name: string)
    ensures Clean(name) == CleanName(name)
  {
  }

  /** The rows as the three queries return them, with a name column that may be NULL. */
  datatype DistrictRow = DistrictRow(name: Option<string>, geometry: Option<string>)
  datatype OccupancyRow = OccupancyRow(stadtteil: Option<string>, belegteMinuten: Option<int>)
  datatype PopulationRow = PopulationRow(stadtteil: Option<string>, bevoelkerung: Option<int>)

  function DistrictName(r: DistrictRow): Option<string> { r.name }
  function OccupancyName(r: OccupancyRow): Option<string> { r.stadtteil }
  function PopulationName(r: PopulationRow): Option<string> { r.stadtteil }

  /** No row has a NULL name. */
  predicate AllNamed<T>(rows: seq<T>, name: T -> Option<string>) {
    forall i :: 0 <= i < |rows| ==> name(rows[i]).Some?
  }

  /** The error the loading and name cleaning raise before the merge, if any: a query
      with no rows gives a frame without columns, so `gdf["geom_wkt"]` in `lade_stadtteile`
      and `df_auslastung["stadtteil"]` or `df_einwohner["stadtteil"]` in the name
      cleaning raise `KeyError`; a NULL name makes `re.sub` in `clean_name` raise
      `TypeError`. */
  function LoadError(ds: seq<DistrictRow>, os: seq<OccupancyRow>, ps: seq<PopulationRow>): (e: Option<PyError>)
    ensures e.None? <==> && |ds| != 0 && |os| != 0 && |ps| != 0
                         && AllNamed(ds, DistrictName) && AllNamed(os, OccupancyName) && AllNamed(ps, PopulationName)
    ensures |ds| == 0 ==> e == Some(KeyError("geom_wkt"))
    ensures |ds| != 0 && !AllNamed(ds, DistrictName) ==> e == Some(TypeError)
    ensures |ds| != 0 && AllNamed(ds, DistrictName) && (|os| == 0 || (AllNamed(os, OccupancyName) && |ps| == 0)) ==>
              e == Some(KeyError("stadtteil"))
    ensures |ds| != 0 && AllNamed(ds, DistrictName) && |os| != 0 && !AllNamed(os, OccupancyName) ==> e == Some(TypeError)
    ensures (&& |ds| != 0 && AllNamed(ds, DistrictName) && |os| != 0 && AllNamed(os, OccupancyName)
             && |ps| != 0 && !AllNamed(ps, PopulationName)) ==> e == Some(TypeError)
  {
    if |ds| == 0 then Some(KeyError("geom_wkt"))
    else if !AllNamed(ds, DistrictName) then Some(TypeError)
    else if |os| == 0 then Some(KeyError("stadtteil"))
    else if !AllNamed(os, OccupancyName) then Some(TypeError)
    else if |ps| == 0 then Some(KeyError("stadtteil"))
    else if !AllNamed(ps, PopulationName) then Some(TypeError)
    else None
  }

  function DistrictOf(r: DistrictRow): District { District(r.name.GetOr(""), r.geometry) }
  function OccupancyOf(r: OccupancyRow): Occupancy { Occupancy(r.stadtteil.GetOr(""), r.belegteMinuten) }
  function PopulationOf(r: PopulationRow): Population { Population(r.stadtteil.GetOr(""), r.bevoelkerung) }

  /** The combined frame of the page, built once every name is present. */
  function Joins(ds: seq<DistrictRow>, os: seq<OccupancyRow>, ps: seq<PopulationRow>): seq<Joined> {
    Combine(Map(ds, DistrictOf), Map(os, OccupancyOf), Map(ps, PopulationOf), Clean)
  }

  /** How the page ends: with the exception that stops it, or with the drawn areas. */
  datatype Outcome = Failed(error: PyError) | Drawn(areas: seq<Area>)

  /** The map drawn from a combined frame, unless its division raises. */
  function DrawPage(pop: ColumnType, ds: seq<District>, os: seq<Occupancy>, ps: seq<Population>): (o: Outcome)
    ensures o.Failed? <==> ColumnError(Combine(ds, os, ps, Clean), pop).Some?
    ensures o.Failed? ==> o.error == ColumnError(Combine(ds, os, ps, Clean), pop).value
    ensures o.Drawn? ==> DrawsAll(ds, o.areas, Clean) && DrawsOnly(ds, o.areas, Clean) && GreysUnmatched(ds, os, o.areas, Clean)
    ensures o.Drawn? ==> forall a :: a in o.areas <==>
              exists j :: j in Combine(ds, os, ps, Clean) && HasGeometry(j) && a == AreaOf(Clean)(j)
    ensures o.Drawn? && pop.IntegerColumn? ==> forall a :: a in o.areas ==> a.shade == NoData
  {
    var js := Combine(ds, os, ps, Clean);
    var e := ColumnError(js, pop);
    if e.Some? then Failed(e.value)
    else
      PageFacts(ds, os, ps, Clean);
      if pop.IntegerColumn? then
        IntegerGrey(js, Clean);
        Drawn(Draw(js, Clean))
      else
        Drawn(Draw(js, Clean))
  }

  /** Without a row to divide every drawn area is grey. */
  lemma IntegerGrey(js: seq<Joined>, clean: string -> string)
    requires forall x :: x in js ==> !BothPresent(x)
    ensures forall a :: a in Draw(js, clean) ==> a.shade == NoData
  {
    forall a | a in Draw(js, clean)
      ensures a.shade == NoData
    {
      var j :| j in js && HasGeometry(j) && a == AreaOf(clean)(j);
      NothingDivided(js, j);
      assert a.shade == ShadeOf(Ratio(j));
    }
  }

  /** The page: it fails on an empty query result or a NULL name, then on a raising
      division; otherwise every district with a geometry is drawn, with the colour of
      its ratio, and a district without matching minutes is grey. */
  function HeatmapPage(pop: ColumnType, ds: seq<DistrictRow>, os: seq<OccupancyRow>, ps: seq<PopulationRow>): (o: Outcome)
    ensures LoadError(ds, os, ps).Some? ==> o == Failed(LoadError(ds, os, ps).value)
    ensures LoadError(ds, os, ps).None? ==> (o.Failed? <==> ColumnError(Joins(ds, os, ps), pop).Some?)
    ensures LoadError(ds, os, ps).None? && o.Failed? ==> o.error == ColumnError(Joins(ds, os, ps), pop).value
    ensures o.Drawn? ==> && DrawsAll(Map(ds, DistrictOf), o.areas, Clean)
                         && DrawsOnly(Map(ds, DistrictOf), o.areas, Clean)
                         && GreysUnmatched(Map(ds, DistrictOf), Map(os, OccupancyOf), o.areas, Clean)
    ensures o.Drawn? ==> forall a :: a in o.areas <==> exists j :: j in Joins(ds, os, ps) && HasGeometry(j) && a == AreaOf(Clean)(j)
    ensures o.Drawn? && pop.IntegerColumn? ==> forall a :: a in o.areas ==> a.shade == NoData
  {
    var e := LoadError(ds, os, ps);
    if e.Some? then Failed(e.value)
    else DrawPage(pop, Map(ds, DistrictOf), Map(os, OccupancyOf), Map(ps, PopulationOf))
  }

  /** Once every name is present the rows keep their values. */
  lemma NamedRows(ds: seq<DistrictRow>, i: int)
    requires AllNamed(ds, DistrictName) && 0 <= i < |ds|
    ensures Map(ds, DistrictOf)[i] == District(ds[i].name.value, ds[i].geometry)
  {
    assert DistrictName(ds[i]).Some?;
  }
}
