/** Conversion of the historian's raw timestamp column (main.py, convert_ldap
    and the fillna(0) that precedes it). */
module Ldap {
  import opened Results
  import opened Ticks
  import opened Calendar

  /** The only way convert_ldap fails: Python's datetime cannot hold the
      instant (OverflowError outside years 1 to 9999). */
  datatype ConvertError = DateOutOfRange(raw: int)

  /** A raw count of 100 ns since 1601-01-01. 0 means "not logged" and maps
      to the missing marker; any other value is that many ticks after the
      epoch, provided Python's datetime can represent it. */
  function ConvertLdap(raw: int): (r: Result<Stamp, ConvertError>)
    ensures r == Ok(Missing) <==> raw == 0
    ensures r.Ok? && r.value.At? ==> r.value.ticks == raw && InDatetimeRange(raw)
    ensures r.Err? <==> raw != 0 && !InDatetimeRange(raw)
    ensures r.Err? ==> r.error == DateOutOfRange(raw)
  {
    if raw != 0 then
      if InDatetimeRange(raw) then Ok(At(raw)) else Err(DateOutOfRange(raw))
    else
      Ok(Missing)
  }

  /** The raw count a converted stamp came from. */
  function RawOf(s: Stamp): int {
    match s
    case Missing => 0
    case At(t) => t
  }

  /** Converting and reading back the raw count is the identity. */
  lemma ConvertRoundTrip(raw: int)
    requires ConvertLdap(raw).Ok?
    ensures RawOf(ConvertLdap(raw).value) == raw
  {
  }

  /** Every representable instant other than the epoch itself has a raw
      encoding; the epoch instant 1601-01-01 00:00 has none, because its
      encoding is the sentinel. */
  lemma EncodeRoundTrip(s: Stamp)
    requires s.At? ==> InDatetimeRange(s.ticks)
    ensures s != At(0) <==> ConvertLdap(RawOf(s)) == Ok(s)
  {
  }

  /** fillna(0) followed by convert_ldap, for one cell: a database NULL
      reads as 0. */
  function ConvertCell(raw: Option<int>): (r: Result<Stamp, ConvertError>)
    ensures raw.None? ==> r == Ok(Missing)
    ensures r == Ok(Missing) <==> raw.None? || raw == Some(0)
    ensures r.Ok? && r.value.At? ==> raw == Some(r.value.ticks) && InDatetimeRange(r.value.ticks)
    ensures raw.Some? ==> (r == Ok(At(raw.value)) <==> raw.value != 0 && InDatetimeRange(raw.value))
    ensures r.Err? <==> raw.Some? && raw.value != 0 && !InDatetimeRange(raw.value)
  {
    match raw
    case None => ConvertLdap(0)
    case Some(v) => ConvertLdap(v)
  }
}
