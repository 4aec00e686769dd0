/** The per-tag sample table: the rows read from every chunk, concatenated
    (pd.concat), their timestamps converted, then sorted by timestamp
    (sort_values). */
module Samples {
  import opened Results
  import opened Ticks
  import opened Ldap

  /** One query result row: Value and pk_TimeStamp (which may be NULL).
      Values are carried, never computed on, so a real stands for the float. */
  datatype Row = Row(value: real, raw: Option<int>)

  /** A row after its timestamp has been converted. */
  datatype Sample = Sample(value: real, stamp: Stamp)

  // ---------------------------------------------------------------------
  // Merging chunks
  // ---------------------------------------------------------------------

  function TotalLength(chunks: seq<seq<Row>>): nat {
    if |chunks| == 0 then 0 else TotalLength(chunks[..|chunks| - 1]) + |chunks[|chunks| - 1]|
  }

  /** Every row of every chunk, counted with multiplicity. */
  function Bag(chunks: seq<seq<Row>>): multiset<Row> {
    if |chunks| == 0 then multiset{} else Bag(chunks[..|chunks| - 1]) + multiset(chunks[|chunks| - 1])
  }

  /** pd.concat of the chunk tables, in chunk-list order, without removing
      duplicates. */
  function Concat(chunks: seq<seq<Row>>): (r: seq<Row>)
    ensures |r| == TotalLength(chunks)
    ensures multiset(r) == Bag(chunks)
  {
    if |chunks| == 0 then []
    else Concat(chunks[..|chunks| - 1]) + chunks[|chunks| - 1]
  }

  /** Where the rows of chunk i start in the merged table. */
  function Offset(chunks: seq<seq<Row>>, i: nat): nat
    requires i <= |chunks|
  {
    TotalLength(chunks[..i])
  }

  /** Row j of chunk i sits at Offset(i) + j of the merged table: chunk order
      and the order inside each chunk are both kept. */
  lemma {:induction false} ConcatPlacesRows(chunks: seq<seq<Row>>, i: nat, j: nat)
    requires i < |chunks| && j < |chunks[i]|
    ensures Offset(chunks, i) + j < |Concat(chunks)|
    ensures Concat(chunks)[Offset(chunks, i) + j] == chunks[i][j]
  {
    var n := |chunks|;
    var prefix := chunks[..n - 1];
    if i == n - 1 {
      assert chunks[..i] == prefix;
    } else {
      ConcatPlacesRows(prefix, i, j);
      assert prefix[..i] == chunks[..i];
      assert prefix[i] == chunks[i];
    }
  }

  lemma {:induction false} BagHasChunk(chunks: seq<seq<Row>>, i: nat, x: Row)
    requires i < |chunks|
    ensures Bag(chunks)[x] >= multiset(chunks[i])[x]
  {
    var n := |chunks|;
    if i < n - 1 {
      BagHasChunk(chunks[..n - 1], i, x);
    }
  }

  lemma {:induction false} BagHasTwoChunks(chunks: seq<seq<Row>>, i: nat, j: nat, x: Row)
    requires i < j < |chunks|
    ensures Bag(chunks)[x] >= multiset(chunks[i])[x] + multiset(chunks[j])[x]
  {
    var n := |chunks|;
    var prefix := chunks[..n - 1];
    if j == n - 1 {
      BagHasChunk(prefix, i, x);
    } else {
      BagHasTwoChunks(prefix, i, j, x);
    }
  }

  /** The same row present in two different chunks appears (at least) twice
      in the merged table: overlapping chunks are double counted. */
  lemma DuplicatesKept(chunks: seq<seq<Row>>, i: nat, j: nat, x: Row)
    requires i < |chunks| && j < |chunks| && i != j
    requires x in chunks[i] && x in chunks[j]
    ensures multiset(Concat(chunks))[x] >= 2
  {
    if i < j {
      BagHasTwoChunks(chunks, i, j, x);
    } else {
      BagHasTwoChunks(chunks, j, i, x);
    }
  }

  // ---------------------------------------------------------------------
  // Converting the timestamp column
  // ---------------------------------------------------------------------

  /** fillna(0).apply(convert_ldap) over the column, row by row: the first
      row whose conversion raises aborts the whole column. */
  function Normalize(rows: seq<Row>): (r: Result<seq<Sample>, ConvertError>)
    ensures r.Ok? <==> forall i :: 0 <= i < |rows| ==> ConvertCell(rows[i].raw).Ok?
    ensures r.Ok? ==> |r.value| == |rows|
    ensures r.Ok? ==> forall i :: 0 <= i < |rows| ==>
              r.value[i] == Sample(rows[i].value, ConvertCell(rows[i].raw).value)
    ensures r.Err? ==>
              exists i :: 0 <= i < |rows| && ConvertCell(rows[i].raw) == Err(r.error)
                && (forall k :: 0 <= k < i ==> ConvertCell(rows[k].raw).Ok?)
  {
    if |rows| == 0 then Ok([])
    else
      match ConvertCell(rows[0].raw)
      case Err(e) => Err(e)
      case Ok(s) =>
        match Normalize(rows[1..])
        case Err(e) => Err(e)
        case Ok(rest) => Ok([Sample(rows[0].value, s)] + rest)
  }

  // ---------------------------------------------------------------------
  // Sorting by timestamp
  // ---------------------------------------------------------------------

  /** Order used by sort_values: instants ascending, missing stamps last. */
  predicate StampLe(a: Stamp, b: Stamp) {
    match a
    case Missing => b.Missing?
    case At(x) => b.Missing? || x <= b.ticks
  }

  predicate Sorted(s: seq<Sample>) {
    forall i, j :: 0 <= i < j < |s| ==> StampLe(s[i].stamp, s[j].stamp)
  }

  function Insert(x: Sample, s: seq<Sample>): (r: seq<Sample>)
    requires Sorted(s)
    ensures Sorted(r)
    ensures multiset(r) == multiset(s) + multiset{x}
  {
    if |s| == 0 then [x]
    else if StampLe(x.stamp, s[0].stamp) then [x] + s
    else
      var rest := Insert(x, s[1..]);
      assert s == [s[0]] + s[1..];
      InsertBelow(x, s, rest);
      SortedCons(s[0], rest);
      [s[0]] + rest
  }

  lemma InsertBelow(x: Sample, s: seq<Sample>, rest: seq<Sample>)
    requires Sorted(s) && |s| > 0 && !StampLe(x.stamp, s[0].stamp)
    requires multiset(rest) == multiset(s[1..]) + multiset{x}
    ensures forall y :: y in rest ==> StampLe(s[0].stamp, y.stamp)
  {
    forall y | y in rest
      ensures StampLe(s[0].stamp, y.stamp)
    {
      assert y in multiset(rest);
      if y != x {
        assert y in multiset(s[1..]);
        var k :| 0 <= k < |s[1..]| && s[1..][k] == y;
        assert s[k + 1] == y;
      }
    }
  }

  lemma SortedCons(a: Sample, t: seq<Sample>)
    requires Sorted(t)
    requires forall y :: y in t ==> StampLe(a.stamp, y.stamp)
    ensures Sorted([a] + t)
  {
    var r := [a] + t;
    forall i, j | 0 <= i < j < |r|
      ensures StampLe(r[i].stamp, r[j].stamp)
    {
      if i == 0 {
        assert r[j] == t[j - 1];
        assert r[j] in t;
      } else {
        assert r[i] == t[i - 1] && r[j] == t[j - 1];
      }
    }
  }

  /** The table sorted by timestamp: a permutation of its input. pandas'
      default sort is not stable; this one is, which is one of the orders
      pandas may produce. */
  function SortByStamp(s: seq<Sample>): (r: seq<Sample>)
    ensures Sorted(r)
    ensures multiset(r) == multiset(s)
  {
    if |s| == 0 then []
    else
      assert s == [s[0]] + s[1..];
      Insert(s[0], SortByStamp(s[1..]))
  }

  /** In a sorted table every sample with an instant precedes every sample
      whose stamp is missing. */
  lemma SortedMissingLast(s: seq<Sample>, i: nat, j: nat)
    requires Sorted(s) && i < |s| && j < |s|
    requires s[i].stamp.Missing? && s[j].stamp.At?
    ensures j < i
  {
  }
}
