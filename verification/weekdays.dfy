/** The two weekday encodings: the full German names offered by every weekday
    selector and stored in `verfugbarkeit`, and the two-letter codes stored in
    `belegungsplan`. */
module Weekdays {
  import opened Wrappers

  datatype Weekday = Montag | Dienstag | Mittwoch | Donnerstag | Freitag | Samstag | Sonntag

  /** The selector entries, in the order the pages list them. */
  const Days: seq<Weekday> := [Montag, Dienstag, Mittwoch, Donnerstag, Freitag, Samstag, Sonntag]

  function FullName(d: Weekday): string {
    match d
    case Montag => "Montag"
    case Dienstag => "Dienstag"
    case Mittwoch => "Mittwoch"
    case Donnerstag => "Donnerstag"
    case Freitag => "Freitag"
    case Samstag => "Samstag"
    case Sonntag => "Sonntag"
  }

  /** The two-letter code of a day: the first two letters of its name. */
  function Code(d: Weekday): (r: string)
    ensures |r| == 2 && r == FullName(d)[..2]
  {
    match d
    case Montag => "Mo"
    case Dienstag => "Di"
    case Mittwoch => "Mi"
    case Donnerstag => "Do"
    case Freitag => "Fr"
    case Samstag => "Sa"
    case Sonntag => "So"
  }

  /** `wochentag_map[name]`: the dictionary lookup, which raises `KeyError`
      (here `None`) for any string that is not one of the seven full names. */
  function ToCode(name: string): (r: Option<string>)
    ensures r.None? ==> forall d :: FullName(d) != name
    ensures forall d :: FullName(d) == name ==> r == Some(Code(d))
  {
    if name == "Montag" then Some("Mo")
    else if name == "Dienstag" then Some("Di")
    else if name == "Mittwoch" then Some("Mi")
    else if name == "Donnerstag" then Some("Do")
    else if name == "Freitag" then Some("Fr")
    else if name == "Samstag" then Some("Sa")
    else if name == "Sonntag" then Some("So")
    else None
  }

  /** `Series.replace(map_kurz_zu_lang)`: a code becomes its full name, and every
      other value, known or not, passes through unchanged. */
  function ToFullName(s: string): (r: string)
    ensures forall d :: Code(d) == s ==> r == FullName(d)
    ensures (forall d :: Code(d) != s) ==> r == s
  {
    if s == "Mo" then assert s == Code(Montag); "Montag"
    else if s == "Di" then assert s == Code(Dienstag); "Dienstag"
    else if s == "Mi" then assert s == Code(Mittwoch); "Mittwoch"
    else if s == "Do" then assert s == Code(Donnerstag); "Donnerstag"
    else if s == "Fr" then assert s == Code(Freitag); "Freitag"
    else if s == "Sa" then assert s == Code(Samstag); "Samstag"
    else if s == "So" then assert s == Code(Sonntag); "Sonntag"
    else s
  }

  /** The seven codes are distinct two-letter strings, and so the map is injective. */
  lemma CodesDistinct(d1: Weekday, d2: Weekday)
    ensures |Code(d1)| == 2
    ensures Code(d1) == Code(d2) ==> d1 == d2
    ensures FullName(d1) == FullName(d2) ==> d1 == d2
  {
  }

  /** Every selector entry has a code, and the codes of the seven entries are pairwise different. */
  lemma ToCodeTotalInjective()
    ensures forall i :: 0 <= i < |Days| ==> ToCode(FullName(Days[i])).Some?
    ensures forall i, j :: 0 <= i < j < |Days| ==> ToCode(FullName(Days[i])) != ToCode(FullName(Days[j]))
  {
  }

  /** Full name to code and back is the identity on the seven full names. */
  lemma {:induction false} NameCodeRoundTrip(name: string)
    requires ToCode(name).Some?
    ensures ToFullName(ToCode(name).value) == name
  {
    var d :| FullName(d) == name;
    assert ToCode(name) == Some(Code(d));
  }

  /** Code to full name and back is the identity on the seven codes. */
  lemma CodeNameRoundTrip(d: Weekday)
    ensures ToCode(ToFullName(Code(d))) == Some(Code(d))
  {
  }

  /** No full name is a code, so replacing codes a second time changes nothing. */
  lemma ToFullNameIdempotent(s: string)
    ensures ToFullName(ToFullName(s)) == ToFullName(s)
  {
  }
}
