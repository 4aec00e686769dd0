/** One export pass (main.py, the `__main__` block): for every tag, read its
    rows from every chunk, build the sorted sample table, split its time
    range into 8-hour windows and describe one chart per window. */
module Export {
  import opened Results
  import opened Ticks
  import opened Calendar
  import opened Ldap
  import opened Samples
  import opened Windows
  import opened Naming

  /** LoggedTag: database id, chart name and y-axis label. */
  datatype Tag = Tag(tagId: int, name: string, titleY: string)

  /** A row of the LoggedProcessValue table of one chunk file. */
  datatype StoredRow = StoredRow(tagRef: int, value: real, timeStamp: Option<int>)

  /** The query `SELECT Value, pk_TimeStamp FROM LoggedProcessValue WHERE
      pk_fk_Id = {tagid}` on one chunk, in storage order. */
  function Query(chunk: seq<StoredRow>, tagId: int): (r: seq<Row>)
    ensures |r| <= |chunk|
    ensures forall x :: x in r <==>
              exists i :: 0 <= i < |chunk| && chunk[i].tagRef == tagId
                && x == Row(chunk[i].value, chunk[i].timeStamp)
  {
    if |chunk| == 0 then []
    else
      var rest := Query(chunk[1..], tagId);
      assert forall i :: 1 <= i < |chunk| ==> chunk[i] == chunk[1..][i - 1];
      if chunk[0].tagRef == tagId then [Row(chunk[0].value, chunk[0].timeStamp)] + rest
      else rest
  }

  /** A single stored row answers with itself exactly when it belongs to
      the tag. */
  lemma QueryOne(x: StoredRow, tagId: int)
    ensures Query([x], tagId) == if x.tagRef == tagId then [Row(x.value, x.timeStamp)] else []
  {
    assert [x][1..] == [];
  }

  /** The query keeps storage order and multiplicity: the answer for two
      stretches of storage is the answer for the first followed by the
      answer for the second. With QueryOne this fixes the result row by row. */
  lemma {:induction false} QueryAppend(a: seq<StoredRow>, b: seq<StoredRow>, tagId: int)
    ensures Query(a + b, tagId) == Query(a, tagId) + Query(b, tagId)
  {
    if |a| > 0 {
      assert (a + b)[1..] == a[1..] + b;
      QueryAppend(a[1..], b, tagId);
    } else {
      assert a + b == b;
    }
  }

  /** The x-axis label of every chart ('Время'). */
  const XLabel: string := "Время"

  /** What px.line(...).write_image(...) is given for one window: the title,
      the image path, the axis labels and the plotted rows. */
  datatype Chart = Chart(title: string, path: string, xLabel: string, yLabel: string, data: seq<Sample>)

  datatype ExportError =
    | Conversion(cause: ConvertError)  // convert_ldap raised
    | NoTimestamps                     // min/max over no instant at all
    | BoundOutOfRange                  // ceiled bound past 9999-12-31

  /** Every instant in the table can be held by Python's datetime. */
  predicate StampsInRange(s: seq<Sample>) {
    forall i :: 0 <= i < |s| && s[i].stamp.At? ==> InDatetimeRange(s[i].stamp.ticks)
  }

  /** The per-chunk query results for one tag. */
  function TagChunks(tag: Tag, chunks: seq<seq<StoredRow>>): (r: seq<seq<Row>>)
    ensures |r| == |chunks|
    ensures forall i :: 0 <= i < |chunks| ==> r[i] == Query(chunks[i], tag.tagId)
  {
    seq(|chunks|, i requires 0 <= i < |chunks| => Query(chunks[i], tag.tagId))
  }

  /** Merge, convert and sort: the DataFrame `df` after line 99. */
  function SampleTable(tag: Tag, chunks: seq<seq<StoredRow>>): (r: Result<seq<Sample>, ExportError>)
    ensures r.Ok? ==> Sorted(r.value) && StampsInRange(r.value)
    ensures r.Ok? ==> |r.value| == TotalLength(TagChunks(tag, chunks))
    ensures r.Err? ==> r.error.Conversion?
    ensures r.Ok? <==> Normalize(Concat(TagChunks(tag, chunks))).Ok?
    ensures r.Ok? ==> multiset(r.value) == multiset(Normalize(Concat(TagChunks(tag, chunks))).value)
    ensures r.Err? ==> Normalize(Concat(TagChunks(tag, chunks))) == Err(r.error.cause)
  {
    var merged := Concat(TagChunks(tag, chunks));
    match Normalize(merged)
    case Err(e) => Err(Conversion(e))
    case Ok(converted) =>
      var sorted := SortByStamp(converted);
      SortKeepsRange(converted, sorted);
      Ok(sorted)
  }

  lemma SortKeepsRange(a: seq<Sample>, b: seq<Sample>)
    requires StampsInRange(a) && multiset(a) == multiset(b)
    ensures StampsInRange(b)
  {
    forall i | 0 <= i < |b| && b[i].stamp.At?
      ensures InDatetimeRange(b[i].stamp.ticks)
    {
      assert b[i] in multiset(a);
      var k :| 0 <= k < |a| && a[k] == b[i];
    }
  }

  /** The chart of one window. */
  function ChartFor(tag: Tag, table: seq<Sample>, w: Window): (r: Chart)
    requires Printable(w)
    ensures |r.title| == |tag.name| + 37 && r.title[..|tag.name|] == tag.name
    ensures |r.path| == 2 * |tag.name| + 49 && r.path[..|tag.name| + 8] == OutputFolder(tag.name) + "/"
    ensures r.xLabel == XLabel && r.yLabel == tag.titleY
    ensures r.title == Title(tag.name, w) && r.path == FilePath(tag.name, w)
    ensures forall x :: x in r.data <==> x in table && InWindow(w, x.stamp)
    ensures forall x :: multiset(r.data)[x] == if InWindow(w, x.stamp) then multiset(table)[x] else 0
  {
    Chart(Title(tag.name, w), FilePath(tag.name, w), XLabel, tag.titleY, Filter(table, w))
  }

  /** The windows are printable when the observed range is inside Python's
      datetime range and the ceiled upper bound is too. */
  lemma WindowsPrintable(e: int, l: int, ws: seq<Window>)
    requires InDatetimeRange(e) && e <= l && CeilWindow(l) <= MaxTicks
    requires ws == Partition(e, l)
    ensures forall i :: 0 <= i < |ws| ==> Printable(ws[i])
  {
    RangeConstants();
    assert Aligned(MinTicks);
    FloorIsGreatest(e, MinTicks);
  }

  /** All charts of one tag, or the error that stops the run. */
  function ExportTag(tag: Tag, chunks: seq<seq<StoredRow>>): (r: Result<seq<Chart>, ExportError>)
    ensures r == Err(NoTimestamps) <==>
              SampleTable(tag, chunks).Ok? && forall x :: x in SampleTable(tag, chunks).value ==> x.stamp.Missing?
    ensures r.Ok? ==> SampleTable(tag, chunks).Ok?
    ensures r.Ok? <==>
              SampleTable(tag, chunks).Ok? && Earliest(SampleTable(tag, chunks).value).Some?
                && CeilWindow(Latest(SampleTable(tag, chunks).value).value) <= MaxTicks
    ensures SampleTable(tag, chunks).Err? ==> r == Err(SampleTable(tag, chunks).error)
  {
    match SampleTable(tag, chunks)
    case Err(e) => Err(e)
    case Ok(table) =>
      var e, l := Earliest(table), Latest(table);
      RangeDefinedTogether(table);
      if e.None? then
        assert forall x :: x in table ==> x.stamp.Missing?;
        Err(NoTimestamps)
      else if CeilWindow(l.value) > MaxTicks then
        Err(BoundOutOfRange)
      else
        var ws := Partition(e.value, l.value);
        WindowsPrintable(e.value, l.value, ws);
        Ok(seq(|ws|, i requires 0 <= i < |ws| => ChartFor(tag, table, ws[i])))
  }

  /** One chart per 8-hour window from the floored earliest to the ceiled
      latest instant, none skipped even when its window holds no sample;
      chart i plots exactly the rows of window i. */
  lemma ExportTagCharts(tag: Tag, chunks: seq<seq<StoredRow>>)
    requires ExportTag(tag, chunks).Ok?
    ensures SampleTable(tag, chunks).Ok?
    ensures Earliest(SampleTable(tag, chunks).value).Some?
    ensures Latest(SampleTable(tag, chunks).value).Some?
    ensures |ExportTag(tag, chunks).value| * WindowTicks ==
              CeilWindow(Latest(SampleTable(tag, chunks).value).value)
                - FloorWindow(Earliest(SampleTable(tag, chunks).value).value)
    ensures forall i :: 0 <= i < |ExportTag(tag, chunks).value| ==>
              var w := WindowAt(Earliest(SampleTable(tag, chunks).value).value, i);
              && Printable(w)
              && ExportTag(tag, chunks).value[i] == ChartFor(tag, SampleTable(tag, chunks).value, w)
  {
    var table := SampleTable(tag, chunks).value;
    RangeDefinedTogether(table);
    var e, l := Earliest(table).value, Latest(table).value;
    var ws := Partition(e, l);
    WindowsPrintable(e, l, ws);
    var charts := seq(|ws|, i requires 0 <= i < |ws| => ChartFor(tag, table, ws[i]));
    assert ExportTag(tag, chunks) == Ok(charts);
    forall i | 0 <= i < |charts|
      ensures Printable(WindowAt(e, i)) && charts[i] == ChartFor(tag, table, WindowAt(e, i))
    {
      PartitionStart(e, l, i);
      assert ws[i] == WindowAt(e, i);
    }
  }

  /** The i-th 8-hour window after the floor of `earliest`. */
  function WindowAt(earliest: int, i: nat): Window {
    Window(FloorWindow(earliest) + i * WindowTicks, FloorWindow(earliest) + (i + 1) * WindowTicks)
  }

  /** The outcomes of all tags in order: every tag's charts, or the first
      error. */
  function Collect(rs: seq<Result<seq<Chart>, ExportError>>): (r: Result<seq<seq<Chart>>, ExportError>)
    ensures r.Ok? <==> forall i :: 0 <= i < |rs| ==> rs[i].Ok?
    ensures r.Ok? ==> |r.value| == |rs| && forall i :: 0 <= i < |rs| ==> rs[i] == Ok(r.value[i])
    ensures r.Err? ==>
              exists i :: 0 <= i < |rs| && rs[i] == Err(r.error) && (forall k :: 0 <= k < i ==> rs[k].Ok?)
  {
    if |rs| == 0 then Ok([])
    else
      assert forall i :: 1 <= i < |rs| ==> rs[i] == rs[1..][i - 1];
      match rs[0]
      case Err(e) => Err(e)
      case Ok(charts) =>
        match Collect(rs[1..])
        case Err(e) => Err(e)
        case Ok(rest) => Ok([charts] + rest)
  }

  /** The whole run: tags in order; the first error aborts everything. */
  function ExportAll(tags: seq<Tag>, chunks: seq<seq<StoredRow>>): (r: Result<seq<seq<Chart>>, ExportError>)
    ensures r.Ok? <==> forall i :: 0 <= i < |tags| ==> ExportTag(tags[i], chunks).Ok?
    ensures r.Ok? ==> |r.value| == |tags|
    ensures r.Ok? ==> forall i :: 0 <= i < |tags| ==> ExportTag(tags[i], chunks) == Ok(r.value[i])
    ensures r.Err? ==>
              exists i :: 0 <= i < |tags| && ExportTag(tags[i], chunks) == Err(r.error)
                && (forall k :: 0 <= k < i ==> ExportTag(tags[k], chunks).Ok?)
  {
    var rs := seq(|tags|, i requires 0 <= i < |tags| => ExportTag(tags[i], chunks));
    var r := Collect(rs);
    assert forall i :: 0 <= i < |tags| ==> rs[i] == ExportTag(tags[i], chunks);
    r
  }

  /** A tag's charts depend only on that tag's rows: the rows of other tags
      never reach them. */
  lemma OtherTagsIrrelevant(tag: Tag, a: seq<seq<StoredRow>>, b: seq<seq<StoredRow>>)
    requires |a| == |b|
    requires forall i :: 0 <= i < |a| ==> Query(a[i], tag.tagId) == Query(b[i], tag.tagId)
    ensures ExportTag(tag, a) == ExportTag(tag, b)
  {
    assert TagChunks(tag, a) == TagChunks(tag, b);
    assert SampleTable(tag, a) == SampleTable(tag, b);
    SameTableSameCharts(tag, a, b);
  }

  lemma SameTableSameCharts(tag: Tag, a: seq<seq<StoredRow>>, b: seq<seq<StoredRow>>)
    requires SampleTable(tag, a) == SampleTable(tag, b)
    ensures ExportTag(tag, a) == ExportTag(tag, b)
  {
  }
}
