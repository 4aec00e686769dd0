/** Chart titles and image paths (main.py: TS_FORMAT, TS_FORMAT_FILE, the
    output folder and the f-strings inside the window loop). */
module Naming {
  import opened Ticks
  import opened Calendar
  import opened Windows

  // ---------------------------------------------------------------------
  // Zero-padded decimal fields
  // ---------------------------------------------------------------------

  predicate IsDigit(c: char) {
    '0' <= c <= '9'
  }

  predicate AllDigits(s: string) {
    forall i :: 0 <= i < |s| ==> IsDigit(s[i])
  }

  function Pow10(n: nat): nat {
    if n == 0 then 1 else 10 * Pow10(n - 1)
  }

  function DigitChar(d: int): (c: char)
    requires 0 <= d < 10
    ensures IsDigit(c) && c as int - '0' as int == d
  {
    ('0' as int + d) as char
  }

  /** The value of a string of decimal digits. */
  function DigitsValue(s: string): nat
    requires AllDigits(s)
  {
    if |s| == 0 then 0
    else DigitsValue(s[..|s| - 1]) * 10 + (s[|s| - 1] as int - '0' as int)
  }

  /** n written in exactly `width` decimal digits, with leading zeros. */
  function Pad(n: nat, width: nat): (r: string)
    requires n < Pow10(width)
    ensures |r| == width && AllDigits(r)
  {
    if width == 0 then ""
    else Pad(n / 10, width - 1) + [DigitChar(n % 10)]
  }

  /** Reading a padded field back gives the number that was written. */
  lemma {:induction false} PadRoundTrip(n: nat, width: nat)
    requires n < Pow10(width)
    ensures DigitsValue(Pad(n, width)) == n
  {
    if width > 0 {
      var r := Pad(n, width);
      PadRoundTrip(n / 10, width - 1);
      assert r[..|r| - 1] == Pad(n / 10, width - 1);
    }
  }

  // ---------------------------------------------------------------------
  // Timestamp formats
  // ---------------------------------------------------------------------

  /** '%Y-%m-%d %H' + sep + '%M' of an instant Python can represent.
      With ':' this is TS_FORMAT; with '-' it is TS_FORMAT_FILE. */
  function FormatStamp(t: int, sep: char): (r: string)
    requires InDatetimeRange(t)
    ensures |r| == 16
    ensures r[4] == '-' && r[7] == '-' && r[10] == ' ' && r[13] == sep
    ensures forall i :: 0 <= i < 16 && i != 4 && i != 7 && i != 10 && i != 13 ==> IsDigit(r[i])
  {
    var c := CivilOf(t);
    RangeYears(t);
    Pad(c.year, 4) + "-" + Pad(c.month, 2) + "-" + Pad(c.day, 2) + " "
      + Pad(c.hour, 2) + [sep] + Pad(c.minute, 2)
  }

  function TitleStamp(t: int): string
    requires InDatetimeRange(t)
  {
    FormatStamp(t, ':')
  }

  function FileStamp(t: int): string
    requires InDatetimeRange(t)
  {
    FormatStamp(t, '-')
  }

  /** The fields a formatted timestamp spells, read back from its text. */
  datatype Fields = Fields(year: int, month: int, day: int, hour: int, minute: int)

  function FieldsOf(c: DateTime): Fields {
    Fields(c.year, c.month, c.day, c.hour, c.minute)
  }

  predicate StampShaped(s: string) {
    |s| == 16
    && AllDigits(s[0..4]) && AllDigits(s[5..7]) && AllDigits(s[8..10])
    && AllDigits(s[11..13]) && AllDigits(s[14..16])
  }

  function ReadStamp(s: string): Fields
    requires StampShaped(s)
  {
    Fields(DigitsValue(s[0..4]), DigitsValue(s[5..7]), DigitsValue(s[8..10]),
           DigitsValue(s[11..13]), DigitsValue(s[14..16]))
  }

  /** Both formats spell the instant's year, month, day, hour and minute. */
  lemma ReadFormatted(t: int, sep: char)
    requires InDatetimeRange(t)
    ensures StampShaped(FormatStamp(t, sep))
    ensures ReadStamp(FormatStamp(t, sep)) == FieldsOf(CivilOf(t))
  {
    var c := CivilOf(t);
    RangeYears(t);
    var r := FormatStamp(t, sep);
    assert r[0..4] == Pad(c.year, 4);
    assert r[5..7] == Pad(c.month, 2);
    assert r[8..10] == Pad(c.day, 2);
    assert r[11..13] == Pad(c.hour, 2);
    assert r[14..16] == Pad(c.minute, 2);
    PadRoundTrip(c.year, 4);
    PadRoundTrip(c.month, 2);
    PadRoundTrip(c.day, 2);
    PadRoundTrip(c.hour, 2);
    PadRoundTrip(c.minute, 2);
  }

  /** Replaces every ':' by '-'. */
  function DashColons(s: string): (r: string)
    ensures |r| == |s|
    ensures forall i :: 0 <= i < |s| ==> r[i] == (if s[i] == ':' then '-' else s[i])
  {
    if |s| == 0 then "" else DashColons(s[..|s| - 1]) + [if s[|s| - 1] == ':' then '-' else s[|s| - 1]]
  }

  /** The file timestamp is the title timestamp with its colon dashed, and
      it contains no colon at all. */
  lemma FileStampDashesTitle(t: int)
    requires InDatetimeRange(t)
    ensures FileStamp(t) == DashColons(TitleStamp(t))
    ensures forall i :: 0 <= i < |FileStamp(t)| ==> FileStamp(t)[i] != ':'
  {
    var a, b := TitleStamp(t), FileStamp(t);
    assert forall i :: 0 <= i < 16 && i != 13 ==> a[i] == b[i];
  }

  /** Instants on a whole minute carry no fraction. */
  lemma MinuteAlignedNoFraction(t: int)
    requires t % TicksPerMinute == 0
    ensures CivilOf(t).fraction == 0
  {
    var c := CivilOf(t);
    MinuteCount(c);
    DivExact(t, TicksPerMinute, MinutesOf(c), c.fraction);
  }

  /** Whole minutes since the epoch up to the fields' minute. */
  function MinutesOf(c: DateTime): int
    requires 1 <= c.month <= 12
  {
    DayNumber(c.year, c.month, c.day) * 1440 + c.hour * 60 + c.minute
  }

  lemma MinuteCount(c: DateTime)
    requires 1 <= c.month <= 12
    ensures TicksOf(c) == MinutesOf(c) * TicksPerMinute + c.fraction
  {
  }

  /** Distinct whole-minute instants are formatted differently. */
  lemma FormatInjective(a: int, b: int, sep: char)
    requires InDatetimeRange(a) && InDatetimeRange(b)
    requires a % TicksPerMinute == 0 && b % TicksPerMinute == 0
    requires FormatStamp(a, sep) == FormatStamp(b, sep)
    ensures a == b
  {
    ReadFormatted(a, sep);
    ReadFormatted(b, sep);
    MinuteAlignedNoFraction(a);
    MinuteAlignedNoFraction(b);
    assert CivilOf(a) == CivilOf(b);
  }

  // ---------------------------------------------------------------------
  // Titles and paths
  // ---------------------------------------------------------------------

  /** Both bounds of the window can be formatted. */
  predicate Printable(w: Window) {
    InDatetimeRange(w.start) && InDatetimeRange(w.stop)
  }

  /** f'output/{tag.name}' */
  function OutputFolder(name: string): string {
    "output/" + name
  }

  /** f'{tag.name}, {start:TS_FORMAT} - {stop:TS_FORMAT}' */
  function Title(name: string, w: Window): (r: string)
    requires Printable(w)
    ensures |r| == |name| + 37 && r[..|name|] == name
  {
    var a, b := TitleStamp(w.start), TitleStamp(w.stop);
    TitleSlices(name, a, b);
    name + ", " + a + " - " + b
  }

  /** f'{output_folder}/{tag.name}, {start:TS_FORMAT_FILE} - {stop:TS_FORMAT_FILE}.png' */
  function FilePath(name: string, w: Window): (r: string)
    requires Printable(w)
    ensures |r| == 2 * |name| + 49
    ensures r[..|name| + 8] == OutputFolder(name) + "/" && r[2 * |name| + 45..] == ".png"
  {
    var a, b := FileStamp(w.start), FileStamp(w.stop);
    PathSlices(name, a, b);
    OutputFolder(name) + "/" + name + ", " + a + " - " + b + ".png"
  }

  /** Where the two timestamps sit in `name, a - b`. */
  lemma TitleSlices(name: string, a: string, b: string)
    requires |a| == 16 && |b| == 16
    ensures |name + ", " + a + " - " + b| == |name| + 37
    ensures (name + ", " + a + " - " + b)[..|name|] == name
    ensures (name + ", " + a + " - " + b)[|name|..] == ", " + a + " - " + b
    ensures (name + ", " + a + " - " + b)[|name| + 2..|name| + 18] == a
    ensures (name + ", " + a + " - " + b)[|name| + 21..] == b
    ensures (name + ", " + a + " - " + b)[|name|..|name| + 2] == ", "
    ensures (name + ", " + a + " - " + b)[|name| + 18..|name| + 21] == " - "
  {
    var r := name + ", " + a + " - " + b;
    var n := |name|;
    assert r == name + (", " + a + " - " + b);
    assert r[n..n + 2] == ", " by {
      forall i | 0 <= i < 2 ensures r[n + i] == ", "[i] {}
    }
    assert r[n + 18..n + 21] == " - " by {
      forall i | 0 <= i < 3 ensures r[n + 18 + i] == " - "[i] {}
    }
    assert r[n + 2..n + 18] == a by {
      forall i | 0 <= i < 16 ensures r[n + 2 + i] == a[i] {}
    }
    assert r[n + 21..] == b by {
      forall i | 0 <= i < 16 ensures r[n + 21 + i] == b[i] {}
    }
  }

  /** Where the two timestamps sit in `output/name/name, a - b.png`. */
  lemma PathSlices(name: string, a: string, b: string)
    requires |a| == 16 && |b| == 16
    ensures (OutputFolder(name) + "/" + name + ", " + a + " - " + b + ".png")[..|name| + 8] == OutputFolder(name) + "/"
    ensures (OutputFolder(name) + "/" + name + ", " + a + " - " + b + ".png")[|name| + 8..2 * |name| + 8] == name
    ensures (OutputFolder(name) + "/" + name + ", " + a + " - " + b + ".png")[2 * |name| + 45..] == ".png"
    ensures (OutputFolder(name) + "/" + name + ", " + a + " - " + b + ".png")[2 * |name| + 10..2 * |name| + 26] == a
    ensures (OutputFolder(name) + "/" + name + ", " + a + " - " + b + ".png")[2 * |name| + 29..2 * |name| + 45] == b
    ensures |OutputFolder(name) + "/" + name + ", " + a + " - " + b + ".png"| == 2 * |name| + 49
    ensures (OutputFolder(name) + "/" + name + ", " + a + " - " + b + ".png")[2 * |name| + 8..2 * |name| + 10] == ", "
    ensures (OutputFolder(name) + "/" + name + ", " + a + " - " + b + ".png")[2 * |name| + 26..2 * |name| + 29] == " - "
  {
    var p := OutputFolder(name) + "/" + name + ", " + a + " - " + b + ".png";
    var n := |name|;
    assert p[2 * n + 8..2 * n + 10] == ", " by {
      forall i | 0 <= i < 2 ensures p[2 * n + 8 + i] == ", "[i] {}
    }
    assert p[2 * n + 26..2 * n + 29] == " - " by {
      forall i | 0 <= i < 3 ensures p[2 * n + 26 + i] == " - "[i] {}
    }
    assert p[2 * n + 10..2 * n + 26] == a by {
      forall i | 0 <= i < 16 ensures p[2 * n + 10 + i] == a[i] {}
    }
    assert p[2 * n + 29..2 * n + 45] == b by {
      forall i | 0 <= i < 16 ensures p[2 * n + 29 + i] == b[i] {}
    }
  }

  lemma DashColonsSpread(a: string, b: string)
    ensures DashColons(", " + a + " - " + b) == ", " + DashColons(a) + " - " + DashColons(b)
  {
    var x, y := DashColons(", " + a + " - " + b), ", " + DashColons(a) + " - " + DashColons(b);
    assert |x| == |y|;
    forall i | 0 <= i < |x| ensures x[i] == y[i] {
      if i < 2 {
      } else if i < 2 + |a| {
        assert y[i] == DashColons(a)[i - 2];
      } else if i < 5 + |a| {
      } else {
        assert y[i] == DashColons(b)[i - |a| - 5];
      }
    }
  }

  /** `s` is a formatted timestamp that spells instant t to the minute. */
  predicate Spells(s: string, t: int) {
    StampShaped(s) && ReadStamp(s) == FieldsOf(CivilOf(t))
  }

  /** The title is the tag name, ", ", the start, " - " and the stop, each
      bound in TS_FORMAT and spelled to the minute. */
  lemma TitleNamesWindow(name: string, w: Window)
    requires Printable(w)
    ensures |Title(name, w)| == |name| + 37
    ensures Title(name, w)[..|name|] == name
    ensures Title(name, w)[|name|..|name| + 2] == ", "
    ensures Title(name, w)[|name| + 18..|name| + 21] == " - "
    ensures Title(name, w)[|name| + 2..|name| + 18] == TitleStamp(w.start)
    ensures Title(name, w)[|name| + 21..] == TitleStamp(w.stop)
    ensures Spells(Title(name, w)[|name| + 2..|name| + 18], w.start)
    ensures Spells(Title(name, w)[|name| + 21..], w.stop)
  {
    TitleSlices(name, TitleStamp(w.start), TitleStamp(w.stop));
    ReadFormatted(w.start, ':');
    ReadFormatted(w.stop, ':');
  }

  /** The image lies in the tag's folder, is named `name, start - stop.png`
      with both bounds in TS_FORMAT_FILE, and has no colon after the tag name. */
  lemma FilePathNamesWindow(name: string, w: Window)
    requires Printable(w)
    ensures |FilePath(name, w)| == 2 * |name| + 49
    ensures FilePath(name, w)[..|name| + 8] == OutputFolder(name) + "/"
    ensures FilePath(name, w)[|name| + 8..2 * |name| + 8] == name
    ensures FilePath(name, w)[2 * |name| + 8..2 * |name| + 10] == ", "
    ensures FilePath(name, w)[2 * |name| + 26..2 * |name| + 29] == " - "
    ensures FilePath(name, w)[2 * |name| + 10..2 * |name| + 26] == FileStamp(w.start)
    ensures FilePath(name, w)[2 * |name| + 29..2 * |name| + 45] == FileStamp(w.stop)
    ensures FilePath(name, w)[2 * |name| + 45..] == ".png"
    ensures Spells(FilePath(name, w)[2 * |name| + 10..2 * |name| + 26], w.start)
    ensures Spells(FilePath(name, w)[2 * |name| + 29..2 * |name| + 45], w.stop)
    ensures forall i :: 2 * |name| + 8 <= i < |FilePath(name, w)| ==> FilePath(name, w)[i] != ':'
  {
    var fa, fb := FileStamp(w.start), FileStamp(w.stop);
    PathSlices(name, fa, fb);
    ReadFormatted(w.start, '-');
    ReadFormatted(w.stop, '-');
    FileStampDashesTitle(w.start);
    FileStampDashesTitle(w.stop);
    PathTailHasNoColon(name, fa, fb);
  }

  lemma PathTailHasNoColon(name: string, a: string, b: string)
    requires forall i :: 0 <= i < |a| ==> a[i] != ':'
    requires forall i :: 0 <= i < |b| ==> b[i] != ':'
    ensures var p := OutputFolder(name) + "/" + name + ", " + a + " - " + b + ".png";
            forall i :: 2 * |name| + 8 <= i < |p| ==> p[i] != ':'
  {
    var n := |name|;
    var p := OutputFolder(name) + "/" + name + ", " + a + " - " + b + ".png";
    var tail := ", " + a + " - " + b + ".png";
    assert p == (OutputFolder(name) + "/") + name + tail;
    forall i | 2 * n + 8 <= i < |p| ensures p[i] != ':' {
      assert p[i] == tail[i - 2 * n - 8];
    }
  }

  /** The file name is the title with the time colons dashed. */
  lemma FilePathMirrorsTitle(name: string, w: Window)
    requires Printable(w)
    ensures FilePath(name, w) ==
              OutputFolder(name) + "/" + name + DashColons(Title(name, w)[|name|..]) + ".png"
  {
    var ta, tb := TitleStamp(w.start), TitleStamp(w.stop);
    TitleSlices(name, ta, tb);
    FileStampDashesTitle(w.start);
    FileStampDashesTitle(w.stop);
    DashColonsSpread(ta, tb);
    assert DashColons(Title(name, w)[|name|..]) == ", " + FileStamp(w.start) + " - " + FileStamp(w.stop);
  }

  /** Windows with different starts get different image files, so no chart
      of a tag overwrites another. */
  lemma DistinctWindowsDistinctFiles(name: string, v: Window, w: Window)
    requires Printable(v) && Printable(w)
    requires Aligned(v.start) && Aligned(w.start) && v.start != w.start
    ensures FilePath(name, v) != FilePath(name, w)
  {
    var n := |name|;
    PathSlices(name, FileStamp(v.start), FileStamp(v.stop));
    PathSlices(name, FileStamp(w.start), FileStamp(w.stop));
    AlignedOnMinute(v.start);
    AlignedOnMinute(w.start);
    if FilePath(name, v) == FilePath(name, w) {
      FormatInjective(v.start, w.start, '-');
      assert false;
    }
  }

  lemma AlignedOnMinute(t: int)
    requires Aligned(t)
    ensures t % TicksPerMinute == 0
  {
    DivExact(t, TicksPerMinute, (t / WindowTicks) * 480, 0);
  }
}
