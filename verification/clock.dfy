/** Times of day as whole seconds since midnight: the `HH:MM:SS` text that
    `strftime("%H:%M:%S")` produces and MySQL reads back as a `TIME`, and the
    value grid of the time sliders. */
module Clock {
  import opened Wrappers

  type TimeOfDay = t: int | 0 <= t < 86400

  function Hms(h: int, m: int, s: int): int {
    h * 3600 + m * 60 + s
  }

  function DigitChar(n: int): char
    requires 0 <= n < 10
  {
    (48 + n) as char
  }

  function DigitValue(c: char): int {
    c as int - 48
  }

  /** Two decimal digits, zero-padded. */
  function Pad2(n: int): string
    requires 0 <= n < 100
  {
    [DigitChar(n / 10), DigitChar(n % 10)]
  }

  predicate IsDigitChar(c: char) {
    '0' <= c <= '9'
  }

  /** `strftime("%H:%M:%S")`. */
  function Format(t: TimeOfDay): (r: string)
    ensures |r| == 8 && r[2] == ':' && r[5] == ':'
    ensures forall k :: k in {0, 1, 3, 4, 6, 7} ==> IsDigitChar(r[k])
  {
    Pad2(t / 3600) + ":" + Pad2(t % 3600 / 60) + ":" + Pad2(t % 60)
  }

  function TwoDigits(s: string, at: nat): int
    requires at + 2 <= |s|
  {
    10 * DigitValue(s[at]) + DigitValue(s[at + 1])
  }

  /** Reads `HH:MM:SS` back, as MySQL does when it compares a `TIME` column with the text. */
  function Parse(s: string): (r: Option<TimeOfDay>)
    ensures r.Some? ==> |s| == 8
  {
    if |s| == 8 && s[2] == ':' && s[5] == ':'
       && IsDigitChar(s[0]) && IsDigitChar(s[1]) && IsDigitChar(s[3])
       && IsDigitChar(s[4]) && IsDigitChar(s[6]) && IsDigitChar(s[7])
       && TwoDigits(s, 0) < 24 && TwoDigits(s, 3) < 60 && TwoDigits(s, 6) < 60
    then Some(Hms(TwoDigits(s, 0), TwoDigits(s, 3), TwoDigits(s, 6)))
    else None
  }

  lemma Pad2Digits(n: int)
    requires 0 <= n < 100
    ensures TwoDigits(Pad2(n), 0) == n
  {
  }

  /** Hours, minutes and seconds are recovered from the second count and vice versa. */
  lemma HmsSplit(t: TimeOfDay, h: int, m: int, x: int)
    requires 0 <= h < 24 && 0 <= m < 60 && 0 <= x < 60
    ensures t == Hms(h, m, x) <==> (h == t / 3600 && m == t % 3600 / 60 && x == t % 60)
  {
    var r := t % 3600;
    assert t == 3600 * (t / 3600) + r && 0 <= r < 3600;
    assert r == 60 * (r / 60) + r % 60 && 0 <= r % 60 < 60;
    assert t % 60 == r % 60 by {
      assert t == 60 * (60 * (t / 3600) + r / 60) + r % 60;
    }
    if t == Hms(h, m, x) {
      assert 60 * m + x < 3600;
      assert t / 3600 == h;
      assert r == 60 * m + x;
      assert r / 60 == m;
    }
  }

  /** Formatting and reading back yields the same instant. */
  lemma FormatParse(t: TimeOfDay)
    ensures Parse(Format(t)) == Some(t)
  {
    var h, m, x := t / 3600, t % 3600 / 60, t % 60;
    var r := Format(t);
    assert r[0..2] == Pad2(h) && r[3..5] == Pad2(m) && r[6..8] == Pad2(x);
    Pad2Digits(h);
    Pad2Digits(m);
    Pad2Digits(x);
    assert TwoDigits(r, 0) == h && TwoDigits(r, 3) == m && TwoDigits(r, 6) == x;
    HmsSplit(t, h, m, x);
  }

  /** Every text that reads as a time is the formatting of that time: the format is canonical. */
  lemma ParseFormat(s: string)
    requires Parse(s).Some?
    ensures Format(Parse(s).value) == s
  {
    var h, m, x := TwoDigits(s, 0), TwoDigits(s, 3), TwoDigits(s, 6);
    var t: TimeOfDay := Hms(h, m, x);
    HmsSplit(t, h, m, x);
    var r := Format(t);
    assert r[0] == s[0] && r[1] == s[1] && r[3] == s[3] && r[4] == s[4] && r[6] == s[6] && r[7] == s[7];
    assert r == s;
  }

  /** The values `lo, lo + step, ...` up to and including `hi`: a slider's domain. */
  function Grid(lo: int, hi: int, step: int): (r: seq<int>)
    requires step > 0 && lo <= hi
    ensures |r| > 0 && r[0] == lo && r[|r| - 1] <= hi < r[|r| - 1] + step
    ensures forall i :: 0 < i < |r| ==> r[i] == r[i - 1] + step
  {
    var n := (hi - lo) / step;
    assert hi - lo == step * n + (hi - lo) % step;
    seq(n + 1, i => lo + i * step)
  }

  /** 06:00, 22:00, 15 minutes and the initial 16:00, in seconds. */
  const SliderMin: int := 21600
  const SliderMax: int := 79200
  const SliderStep: int := 900
  const SliderDefault: int := 57600

  /** `st.slider(min_value=time(6, 0), max_value=time(22, 0), step=timedelta(minutes=15))`. */
  function SliderTimes(): seq<int> {
    Grid(SliderMin, SliderMax, SliderStep)
  }

  lemma SliderValue(i: int)
    requires 0 <= i < |SliderTimes()|
    ensures SliderTimes()[i] == SliderMin + i * SliderStep
  {
  }

  /** The slider offers 65 instants: exactly the quarter hours from 06:00 to 22:00. */
  lemma SliderDomain(t: int)
    ensures |SliderTimes()| == 65
    ensures t in SliderTimes() <==> SliderMin <= t <= SliderMax && t % SliderStep == 0
    ensures SliderDefault in SliderTimes()
  {
    var g := SliderTimes();
    if SliderMin <= t <= SliderMax && t % SliderStep == 0 {
      SliderValue((t - SliderMin) / SliderStep);
    }
    if t in g {
      var i :| 0 <= i < |g| && g[i] == t;
      SliderValue(i);
    }
    SliderValue(40);
  }
}
