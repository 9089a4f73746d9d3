/** `process_data`: the extracted field maps become a table whose `status` and
    `size` columns are converted to int64 and whose `timestamp` column is
    converted to offset-aware instants, or to `NaT` for pandas' missing-value
    strings. Each conversion is applied to a whole column and raises on the
    first cell it cannot convert, so a single bad cell makes the whole call
    fail (`None`); no row is ever dropped. */
module Coercion {
  import opened Wrappers
  import opened Chars
  import opened LogPattern
  import opened Decimal
  import opened Timestamp

  /** The DataFrame, column by column (`verb` is the `method` column). */
  datatype Frame = Frame(ip: seq<string>, timestamp: seq<Stamp>, verb: seq<string>,
                         path: seq<string>, status: seq<int>, size: seq<int>)

  /** Every column has one cell per row. */
  predicate Rectangular(df: Frame) {
    var n := |df.status|;
    |df.ip| == n && |df.timestamp| == n && |df.verb| == n && |df.path| == n && |df.size| == n
  }

  /** `df.empty`. */
  predicate IsEmpty(df: Frame) {
    |df.status| == 0
  }

  /** `pd.DataFrame()`: no columns, no rows. */
  const EmptyFrame: Frame := Frame([], [], [], [], [], [])

  /** The three conversions succeed on the cells of this row. */
  predicate RowConverts(f: FieldMap) {
    ToInt(f.status).Some? && ToInt(f.size).Some? && ToDatetime(f.timestamp).Some?
  }

  /** A status or size the pattern captured converts exactly when its value
      fits the int64 column, and then to the non-negative value of its digits. */
  lemma CapturedNumberConverts(digits: string)
    requires |digits| > 0 && AllOf(digits, Digit)
    ensures IsDigits(digits)
    ensures ToInt(digits).Some? <==> DecimalValue(digits) <= Int64Max
    ensures ToInt(digits).Some? ==> ToInt(digits).value >= 0 && ToInt(digits).value == DecimalValue(digits)
  {
    forall i | 0 <= i < |digits|
      ensures IsDigit(digits[i])
    {
      assert InClass(digits[i], Digit);
    }
  }

  /** Both numeric fields of every record the pattern yields convert unless
      their value exceeds the int64 range. */
  lemma CapturedRowConverts(f: FieldMap)
    requires WellShaped(f)
    ensures ToInt(f.status).Some? <==> DecimalValue(f.status) <= Int64Max
    ensures ToInt(f.size).Some? <==> DecimalValue(f.size) <= Int64Max
  {
    CapturedNumberConverts(f.status);
    CapturedNumberConverts(f.size);
  }

  /** A conversion applied to a whole column (`astype(int)`,
      `pd.to_datetime`): every cell converted, in order, or a failure as soon
      as one cell does not convert. */
  method ConvertColumn<T>(column: seq<string>, convert: string -> Option<T>) returns (r: Option<seq<T>>)
    ensures r.Some? <==> forall i :: 0 <= i < |column| ==> convert(column[i]).Some?
    ensures r.Some? ==> |r.value| == |column|
    ensures r.Some? ==> forall i :: 0 <= i < |column| ==> convert(column[i]) == Some(r.value[i])
  {
    var converted: seq<T> := [];
    for i := 0 to |column|
      invariant |converted| == i
      invariant forall j :: 0 <= j < i ==> convert(column[j]) == Some(converted[j])
    {
      var cell := convert(column[i]);
      if cell.None? {
        return None;
      }
      converted := converted + [cell.value];
    }
    return Some(converted);
  }

  /** `process_data(data_list)`: an empty list gives the empty frame; otherwise
      the frame has one row per field map, in order, with ip, method and path
      as captured and status, size and timestamp converted, or the call fails
      as a whole when any cell does not convert. */
  method ProcessData(data: seq<FieldMap>) returns (df: Option<Frame>)
    ensures data == [] ==> df == Some(EmptyFrame)
    ensures df.Some? <==> forall i :: 0 <= i < |data| ==> RowConverts(data[i])
    ensures df.Some? ==> Rectangular(df.value) && |df.value.status| == |data|
    ensures df.Some? ==> forall i :: 0 <= i < |data| ==>
              && df.value.ip[i] == data[i].ip
              && df.value.verb[i] == data[i].verb
              && df.value.path[i] == data[i].path
              && ToInt(data[i].status) == Some(df.value.status[i])
              && ToInt(data[i].size) == Some(df.value.size[i])
              && ToDatetime(data[i].timestamp) == Some(df.value.timestamp[i])
  {
    if |data| == 0 {
      return Some(EmptyFrame);
    }
    var n := |data|;
    var statusColumn := seq(n, i requires 0 <= i < n => data[i].status);
    var sizeColumn := seq(n, i requires 0 <= i < n => data[i].size);
    var timestampColumn := seq(n, i requires 0 <= i < n => data[i].timestamp);
    var status := ConvertColumn(statusColumn, ToInt);
    if status.None? {
      var i :| 0 <= i < n && ToInt(statusColumn[i]).None?;
      assert statusColumn[i] == data[i].status;
      assert !RowConverts(data[i]);
      return None;
    }
    var size := ConvertColumn(sizeColumn, ToInt);
    if size.None? {
      var i :| 0 <= i < n && ToInt(sizeColumn[i]).None?;
      assert sizeColumn[i] == data[i].size;
      assert !RowConverts(data[i]);
      return None;
    }
    var timestamp := ConvertColumn(timestampColumn, ToDatetime);
    if timestamp.None? {
      var i :| 0 <= i < n && ToDatetime(timestampColumn[i]).None?;
      assert timestampColumn[i] == data[i].timestamp;
      assert !RowConverts(data[i]);
      return None;
    }
    forall i | 0 <= i < n
      ensures RowConverts(data[i])
    {
      assert statusColumn[i] == data[i].status && sizeColumn[i] == data[i].size;
      assert timestampColumn[i] == data[i].timestamp;
    }
    df := Some(Frame(seq(n, i requires 0 <= i < n => data[i].ip), timestamp.value,
                     seq(n, i requires 0 <= i < n => data[i].verb),
                     seq(n, i requires 0 <= i < n => data[i].path), status.value, size.value));
  }
}
