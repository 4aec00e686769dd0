/** Concrete runs of the model on 2021-09-15: the window split of a small
    table, the chart title and image path of one window, a window without
    samples, and a row duplicated by overlapping chunks. */
module Scenarios {
  import opened Results
  import opened Ticks
  import opened Calendar
  import opened Samples
  import opened Windows
  import opened Naming

  /** 2021-09-15 at 00:00, 06:00, 08:00, 10:00, 15:00, 16:00 and 20:00. */
  const Midnight: int := 132_761_376_000_000_000
  const At0600: int := Midnight + 6 * TicksPerHour
  const At0800: int := Midnight + 8 * TicksPerHour
  const At1000: int := Midnight + 10 * TicksPerHour
  const At1500: int := Midnight + 15 * TicksPerHour
  const At1600: int := Midnight + 16 * TicksPerHour
  const At2000: int := Midnight + 20 * TicksPerHour

  /** Day number of 2021-09-15, evaluated once so later proofs need not. */
  lemma Day153659()
    ensures DaysBeforeYear(2021) + DaysBeforeMonth(2021, 9) + 14 == 153_659
  {
  }

  /** The instant `hour` hours after midnight on 2021-09-15 has those fields. */
  lemma DateAt(t: int, hour: int)
    requires 0 <= hour < 24 && t == Midnight + hour * TicksPerHour
    ensures CivilOf(t) == DateTime(2021, 9, 15, hour, 0, 0)
  {
    var c := DateTime(2021, 9, 15, hour, 0, 0);
    Day153659();
    assert DayNumber(2021, 9, 15) == 153_659;
    assert 153_659 * TicksPerDay == Midnight;
    assert TicksOf(c) == t;
    CivilOfTicksOf(c);
  }

  /** The constants are the calendar instants their names say. */
  lemma ScenarioDates()
    ensures CivilOf(Midnight) == DateTime(2021, 9, 15, 0, 0, 0)
    ensures CivilOf(At0800) == DateTime(2021, 9, 15, 8, 0, 0)
    ensures CivilOf(At1600) == DateTime(2021, 9, 15, 16, 0, 0)
  {
    DateAt(Midnight, 0);
    DateAt(At0800, 8);
    DateAt(At1600, 16);
  }

  /** The three samples of the example table. */
  function ThreeSamples(): seq<Sample> {
    [Sample(1.0, At(At0600)), Sample(2.0, At(At1000)), Sample(3.0, At(At1500))]
  }

  lemma ThreeSamplesRange()
    ensures Earliest(ThreeSamples()) == Some(At0600) && Latest(ThreeSamples()) == Some(At1500)
  {
    var table := ThreeSamples();
    assert table[1..][1..] == table[2..];
    assert Latest(table[2..]) == Some(At1500);
    assert Latest(table[1..]) == Some(At1500);
    assert Earliest(table[2..]) == Some(At1500);
    assert Earliest(table[1..]) == Some(At1000);
  }

  lemma ThreeSamplesWindows()
    ensures Partition(At0600, At1500) == [Window(Midnight, At0800), Window(At0800, At1600)]
  {
    assert FloorWindow(At0600) == Midnight;
    assert CeilWindow(At1500) == At1600;
    PartitionStart(At0600, At1500, 0);
    PartitionStart(At0600, At1500, 1);
  }

  /** Samples at 06:00, 10:00 and 15:00 give the windows 00:00-08:00 and
      08:00-16:00, holding one and two samples; none is in both. */
  lemma ThreeSamplesTwoWindows()
    ensures Earliest(ThreeSamples()) == Some(At0600) && Latest(ThreeSamples()) == Some(At1500)
    ensures Partition(At0600, At1500) == [Window(Midnight, At0800), Window(At0800, At1600)]
    ensures Filter(ThreeSamples(), Window(Midnight, At0800)) == [ThreeSamples()[0]]
    ensures Filter(ThreeSamples(), Window(At0800, At1600)) == [ThreeSamples()[1], ThreeSamples()[2]]
  {
    ThreeSamplesRange();
    ThreeSamplesWindows();
    ThreeSamplesFirstWindow();
    ThreeSamplesSecondWindow();
  }

  lemma ThreeSamplesFirstWindow()
    ensures Filter(ThreeSamples(), Window(Midnight, At0800)) == [ThreeSamples()[0]]
  {
    var table := ThreeSamples();
    var w := Window(Midnight, At0800);
    assert table[1..][1..] == table[2..];
    assert table[2..][1..] == [];
    assert Filter(table[2..], w) == [];
    assert Filter(table[1..], w) == [];
  }

  lemma ThreeSamplesSecondWindow()
    ensures Filter(ThreeSamples(), Window(At0800, At1600)) == [ThreeSamples()[1], ThreeSamples()[2]]
  {
    var table := ThreeSamples();
    var w := Window(At0800, At1600);
    assert table[1..][1..] == table[2..];
    assert table[2..][1..] == [];
    assert Filter(table[2..], w) == [table[2]];
    assert Filter(table[1..], w) == [table[1], table[2]];
  }

  /** Samples at 00:00 and 20:00 span three windows; the middle one holds no
      sample, yet it is a window and gets a chart. */
  lemma EmptyMiddleWindow()
    ensures var table := [Sample(1.0, At(Midnight)), Sample(2.0, At(At2000))];
            && |Partition(Midnight, At2000)| == 3
            && Partition(Midnight, At2000)[1] == Window(At0800, At1600)
            && Filter(table, Window(At0800, At1600)) == []
  {
    assert FloorWindow(Midnight) == Midnight;
    assert CeilWindow(At2000) == Midnight + 24 * TicksPerHour;
    PartitionStart(Midnight, At2000, 1);
  }

  /** A table whose only instant is 08:00 has no window at all. */
  lemma SingleInstantOnBoundary()
    ensures Partition(At0800, At0800) == []
  {
    assert Aligned(At0800);
  }

  /** FormatStamp spelled out over given calendar fields. */
  lemma FormatOfCivil(t: int, sep: char, c: DateTime)
    requires InDatetimeRange(t) && CivilOf(t) == c && 1 <= c.year <= 9999
    ensures FormatStamp(t, sep) == Pad(c.year, 4) + "-" + Pad(c.month, 2) + "-" + Pad(c.day, 2)
              + " " + Pad(c.hour, 2) + [sep] + Pad(c.minute, 2)
  {
  }

  /** The padded fields the scenarios need. */
  lemma ScenarioPads()
    ensures Pad(2021, 4) == "2021" && Pad(9, 2) == "09" && Pad(15, 2) == "15"
    ensures Pad(8, 2) == "08" && Pad(16, 2) == "16" && Pad(0, 2) == "00"
  {
    assert Pad(2021, 4) == "2021";
    assert Pad(9, 2) == "09";
    assert Pad(15, 2) == "15";
    assert Pad(8, 2) == "08";
    assert Pad(16, 2) == "16";
    assert Pad(0, 2) == "00";
  }

  /** Step of the stamp proofs: splices the fixed date fields into one literal. */
  lemma SpellOn15th(y: string, m: string, d: string, h: string, mi: string, sep: char, s: string)
    requires y == "2021" && m == "09" && d == "15" && mi == "00"
    requires s == y + "-" + m + "-" + d + " " + h + [sep] + mi
    ensures s == "2021-09-15 " + h + [sep] + "00"
  {
  }

  /** Both scenario bounds lie in Python's datetime range. */
  lemma ScenarioInRange()
    ensures InDatetimeRange(At0800) && InDatetimeRange(At1600)
  {
  }

  /** 08:00 on 2021-09-15 in the format with separator `sep`. */
  lemma StampAt0800(sep: char)
    requires InDatetimeRange(At0800)
    ensures FormatStamp(At0800, sep) == "2021-09-15 08" + [sep] + "00"
  {
    ScenarioDates();
    ScenarioPads();
    FormatOfCivil(At0800, sep, DateTime(2021, 9, 15, 8, 0, 0));
    SpellOn15th(Pad(2021, 4), Pad(9, 2), Pad(15, 2), Pad(8, 2), Pad(0, 2), sep, FormatStamp(At0800, sep));
  }

  /** 16:00 on 2021-09-15 in the format with separator `sep`. */
  lemma StampAt1600(sep: char)
    requires InDatetimeRange(At1600)
    ensures FormatStamp(At1600, sep) == "2021-09-15 16" + [sep] + "00"
  {
    ScenarioDates();
    ScenarioPads();
    FormatOfCivil(At1600, sep, DateTime(2021, 9, 15, 16, 0, 0));
    SpellOn15th(Pad(2021, 4), Pad(9, 2), Pad(15, 2), Pad(16, 2), Pad(0, 2), sep, FormatStamp(At1600, sep));
  }

  /** 08:00 and 16:00 on 2021-09-15 in both timestamp formats. */
  lemma StampTexts()
    ensures InDatetimeRange(At0800) && InDatetimeRange(At1600)
    ensures TitleStamp(At0800) == "2021-09-15 08:00" && FileStamp(At0800) == "2021-09-15 08-00"
    ensures TitleStamp(At1600) == "2021-09-15 16:00" && FileStamp(At1600) == "2021-09-15 16-00"
  {
    ScenarioInRange();
    StampAt0800(':');
    StampAt0800('-');
    StampAt1600(':');
    StampAt1600('-');
  }

  /** Step of TitleAndPathOfWindow: joins the title from its literal parts. */
  lemma JoinTitle(name: string, a: string, b: string, title: string)
    requires a == "2021-09-15 08:00" && b == "2021-09-15 16:00"
    requires name == "1H01A-TT02" && title == name + ", " + a + " - " + b
    ensures title == "1H01A-TT02, 2021-09-15 08:00 - 2021-09-15 16:00"
  {
  }

  /** Step of TitleAndPathOfWindow: the literal folder and name prefix. */
  lemma PathPrefix(name: string)
    requires name == "1H01A-TT02"
    ensures OutputFolder(name) + "/" + name + ", " == "output/1H01A-TT02/1H01A-TT02, "
  {
  }

  /** Step of TitleAndPathOfWindow: joins the path from its literal parts. */
  lemma JoinFileName(head: string, a: string, b: string, path: string)
    requires head == "output/1H01A-TT02/1H01A-TT02, "
    requires a == "2021-09-15 08-00" && b == "2021-09-15 16-00"
    requires path == head + a + " - " + b + ".png"
    ensures path == "output/1H01A-TT02/1H01A-TT02, 2021-09-15 08-00 - 2021-09-15 16-00.png"
  {
  }

  /** Step of TitleAndPathOfWindow: the path of tag 1H01A-TT02 from its stamps. */
  lemma JoinPath(name: string, a: string, b: string, path: string)
    requires a == "2021-09-15 08-00" && b == "2021-09-15 16-00"
    requires name == "1H01A-TT02" && path == OutputFolder(name) + "/" + name + ", " + a + " - " + b + ".png"
    ensures path == "output/1H01A-TT02/1H01A-TT02, 2021-09-15 08-00 - 2021-09-15 16-00.png"
  {
    PathPrefix(name);
    JoinFileName(OutputFolder(name) + "/" + name + ", ", a, b, path);
  }

  /** The title and image path of the window 08:00-16:00 of tag 1H01A-TT02. */
  lemma TitleAndPathOfWindow()
    ensures Printable(Window(At0800, At1600))
    ensures Title("1H01A-TT02", Window(At0800, At1600))
              == "1H01A-TT02, 2021-09-15 08:00 - 2021-09-15 16:00"
    ensures FilePath("1H01A-TT02", Window(At0800, At1600))
              == "output/1H01A-TT02/1H01A-TT02, 2021-09-15 08-00 - 2021-09-15 16-00.png"
  {
    StampTexts();
    var w := Window(At0800, At1600);
    JoinTitle("1H01A-TT02", TitleStamp(At0800), TitleStamp(At1600), Title("1H01A-TT02", w));
    JoinPath("1H01A-TT02", FileStamp(At0800), FileStamp(At1600), FilePath("1H01A-TT02", w));
  }

  /** The same row in two chunks appears twice after merging. */
  lemma OverlappingChunksDoubleCount()
    ensures var row := Row(1.0, Some(At0600));
            Concat([[row], [row]]) == [row, row]
  {
    var row := Row(1.0, Some(At0600));
    var chunks := [[row], [row]];
    assert chunks[..1] == [[row]];
    assert chunks[..1][..0] == [];
  }
}
