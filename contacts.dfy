/**
 * sync_contacts: the incremental contacts stream. Rows updated before the
 * start point are not written; the bookmark becomes the largest
 * `updated_at` seen, never less than the start point. Timestamps are
 * integer milliseconds and are compared as they are.
 */
module Contacts {
  import opened Wrappers
  import opened Json
  import opened Errors
  import opened Seqs
  import opened Urls
  import opened Pagination
  import opened Singer
  import opened Transform

  const UPDATED_AT := "updated_at"

  /** get_start: the stream's `updated_at` bookmark, or the configured start date when there is none. */
  function GetStart(state: State, stream: string, startDate: int): (start: int)
    ensures GetBookmark(state, stream, UPDATED_AT).Some? ==> start == GetBookmark(state, stream, UPDATED_AT).value
    ensures GetBookmark(state, stream, UPDATED_AT).None? ==> start == startDate
  {
    match GetBookmark(state, stream, UPDATED_AT)
    case None => startDate
    case Some(b) => b
  }

  /** A row's `updated_at`: None when absent; a value that is not integer milliseconds cannot be converted. */
  function UpdatedAt(row: Object): (r: Result<Option<int>, TapError>)
    ensures r == Ok(None) <==> Get(row, UPDATED_AT).None?
    ensures r.Ok? && r.value.Some? ==> Get(row, UPDATED_AT) == Some(JInt(r.value.value))
    ensures r.Err? <==> Get(row, UPDATED_AT).Some? && !Get(row, UPDATED_AT).value.JInt?
    ensures r.Err? ==> r.error == NotATimestamp(UPDATED_AT)
  {
    match Get(row, UPDATED_AT)
    case None => Ok(None)
    case Some(JInt(t)) => Ok(Some(t))
    case Some(_) => Err(NotATimestamp(UPDATED_AT))
  }

  /** The timestamp a row offers the watermark. */
  function Stamp(row: Object): Option<int>
  {
    match UpdatedAt(row)
    case Ok(Some(t)) => Some(t)
    case _ => None
  }

  predicate Stamped(row: Object)
  {
    Stamp(row).Some?
  }

  /** The row is written: it has no `updated_at`, or one at or after `start`. */
  predicate Emits(start: int, row: Object)
  {
    match UpdatedAt(row)
    case Ok(None) => true
    case Ok(Some(t)) => t >= start
    case Err(_) => false
  }

  function EmitsFrom(start: int): Object -> bool
  {
    row => Emits(start, row)
  }

  /**
   * The transformation applied to each written row. The loop is stated for
   * any transformation; the sync uses transform_contact's, `Transformed`.
   */
  type Reshape = Object -> Result<Object, TapError>

  /** The loop gets past the row: its timestamp converts and, when it is written, it can be transformed. */
  predicate Good(start: int, reshape: Reshape, row: Object)
  {
    UpdatedAt(row).Ok? && (Emits(start, row) ==> reshape(row).Ok?)
  }

  function GoodFrom(start: int, reshape: Reshape): Object -> bool
  {
    row => Good(start, reshape, row)
  }

  /** The exception a row the loop cannot get past raises. */
  function RowFailure(start: int, reshape: Reshape, row: Object): TapError
    requires !Good(start, reshape, row)
  {
    if UpdatedAt(row).Err? then UpdatedAt(row).error else reshape(row).error
  }

  /** The rows written, in their order. */
  function Emitted(rows: seq<Object>, start: int): seq<Object>
  {
    Filter(rows, EmitsFrom(start))
  }

  /** The record written for a row: the transformed contact. */
  function Reshaped(reshape: Reshape, row: Object): Object
  {
    match reshape(row)
    case Ok(c) => c
    case Err(_) => row
  }

  function Records(stream: string, reshape: Reshape, rows: seq<Object>): (r: seq<Message>)
    ensures |r| == |rows|
    ensures forall j :: 0 <= j < |rows| ==> r[j] == RecordMessage(stream, Reshaped(reshape, rows[j]))
    decreases |rows|
  {
    if |rows| == 0 then []
    else
      var init := rows[..|rows| - 1];
      assert forall j :: 0 <= j < |init| ==> init[j] == rows[j];
      Records(stream, reshape, init) + [RecordMessage(stream, Reshaped(reshape, rows[|rows| - 1]))]
  }

  /**
   * The new bookmark: `start` raised by every `updated_at` of the rows. It is
   * at least `start` and every stamp, and it is `start` or one of the stamps.
   */
  function Watermark(rows: seq<Object>, start: int): (w: int)
    ensures w >= start
    ensures forall j :: 0 <= j < |rows| && Stamp(rows[j]).Some? ==> Stamp(rows[j]).value <= w
    ensures w == start || exists j :: 0 <= j < |rows| && Stamp(rows[j]) == Some(w)
    decreases |rows|
  {
    if |rows| == 0 then start
    else
      var init := rows[..|rows| - 1];
      assert forall j :: 0 <= j < |init| ==> init[j] == rows[j];
      Raise(Watermark(init, start), rows[|rows| - 1])
  }

  /** `max_updated_at` after looking at `row`. */
  function Raise(max: int, row: Object): int
  {
    match Stamp(row)
    case Some(t) => if t > max then t else max
    case None => max
  }

  /** What the loop of sync_contacts has written and reached so far, and the exception that stopped it, if any. */
  datatype Progress = Progress(records: seq<Message>, maxUpdatedAt: int, failure: Option<TapError>)

  /** One pass of the loop body over `row`. */
  function Step(stream: string, start: int, reshape: Reshape, p: Progress, row: Object): (r: Progress)
    ensures p.records <= r.records && |r.records| <= |p.records| + 1
    ensures r.failure.Some? ==> r.records == p.records && r.maxUpdatedAt == p.maxUpdatedAt
    ensures r.failure.None? ==> r.maxUpdatedAt >= p.maxUpdatedAt
  {
    match UpdatedAt(row)
    case Err(e) => Progress(p.records, p.maxUpdatedAt, Some(e))
    case Ok(u) =>
      var max := if u.Some? && u.value > p.maxUpdatedAt then u.value else p.maxUpdatedAt;
      if u.None? || u.value >= start then
        match reshape(row)
        case Err(e) => Progress(p.records, p.maxUpdatedAt, Some(e))
        case Ok(c) => Progress(p.records + [RecordMessage(stream, c)], max, None)
      else Progress(p.records, max, None)
  }

  /** The loop over `rows`, stopping at the first exception. */
  function WriteRowsSpec(stream: string, rows: seq<Object>, start: int, reshape: Reshape): Progress
    decreases |rows|
  {
    if |rows| == 0 then Progress([], start, None)
    else
      var p := WriteRowsSpec(stream, rows[..|rows| - 1], start, reshape);
      if p.failure.Some? then p else Step(stream, start, reshape, p, rows[|rows| - 1])
  }

  /** The whole contacts sync against `api`, with `startDate` as the configured start date. */
  function ContactsSync(state: State, stream: Stream, api: Api, startDate: int): SyncResult
  {
    var schema := SchemaMessage(stream.id, stream.schema, stream.keyProperties);
    match GetUrl(stream.id, None)
    case Err(e) => SyncResult([schema], state, Some(e))
    case Ok(url) =>
      ContactsFinish(state, stream, GetStart(state, stream.id, startDate), Paginate(url, map[], ResponsesFor(api, url)))
  }

  /**
   * The contacts sync once its pagination run `p` is known: the schema, the
   * loop's records, and on completion the bookmark set to the maximum and
   * written out. The loop raises before a failed run's exception surfaces.
   */
  function ContactsFinish(state: State, stream: Stream, start: int, p: Pagination): SyncResult
  {
    var schema := SchemaMessage(stream.id, stream.schema, stream.keyProperties);
    var w := WriteRowsSpec(stream.id, p.rows, start, Transformed);
    var out := [schema] + w.records;
    if w.failure.Some? then SyncResult(out, state, w.failure)
    else if p.failure.Some? then SyncResult(out, state, p.failure)
    else
      var next := WriteBookmark(state, stream.id, UPDATED_AT, w.maxUpdatedAt);
      SyncResult(out + [StateMessage(next)], next, None)
  }

  /** The loop of sync_contacts over the yielded rows. */
  method WriteRows(stream: string, rows: seq<Object>, start: int)
    returns (records: seq<Message>, maxUpdatedAt: int, failure: Option<TapError>)
    ensures Progress(records, maxUpdatedAt, failure) == WriteRowsSpec(stream, rows, start, Transformed)
  {
    records := [];
    maxUpdatedAt := start;
    var i := 0;
    while i < |rows|
      invariant 0 <= i <= |rows|
      invariant WriteRowsSpec(stream, rows[..i], start, Transformed) == Progress(records, maxUpdatedAt, None)
    {
      WriteRowsSnoc(stream, rows, start, Transformed, i);
      var p := WriteRow(stream, start, Progress(records, maxUpdatedAt, None), rows[i]);
      if p.failure.Some? {
        FailureSticks(stream, rows, start, Transformed, i + 1);
        return p.records, p.maxUpdatedAt, p.failure;
      }
      records, maxUpdatedAt := p.records, p.maxUpdatedAt;
      i := i + 1;
    }
    assert rows[..i] == rows;
    return records, maxUpdatedAt, None;
  }

  /** The loop body on one row: skipped, written, or the exception it raises. */
  method WriteRow(stream: string, start: int, p: Progress, row: Object) returns (r: Progress)
    ensures r == Step(stream, start, Transformed, p, row)
  {
    var updatedAt := UpdatedAt(row);
    if updatedAt.Err? {
      StepFails(stream, start, Transformed, p, row);
      return Progress(p.records, p.maxUpdatedAt, Some(updatedAt.error));
    }
    var records := p.records;
    if updatedAt.value.None? || updatedAt.value.value >= start {
      var record := TransformContact(row);
      if record.Err? {
        StepFails(stream, start, Transformed, p, row);
        return Progress(p.records, p.maxUpdatedAt, Some(record.error));
      }
      records := records + [RecordMessage(stream, record.value)];
    }
    StepGood(stream, start, Transformed, p, row);
    var maxUpdatedAt := p.maxUpdatedAt;
    if updatedAt.value.Some? && updatedAt.value.value > maxUpdatedAt {
      maxUpdatedAt := updatedAt.value.value;
    }
    return Progress(records, maxUpdatedAt, None);
  }

  /** sync_contacts. */
  method SyncContacts(state: State, stream: Stream, api: Api, startDate: int) returns (r: SyncResult)
    ensures r == ContactsSync(state, stream, api, startDate)
  {
    var out := [SchemaMessage(stream.id, stream.schema, stream.keyProperties)];
    var start := GetStart(state, stream.id, startDate);
    var url := GetUrl(stream.id, None);
    if url.Err? {
      return SyncResult(out, state, Some(url.error));
    }
    var p := GenRequest(url.value, map[], ResponsesFor(api, url.value));
    var records, maxUpdatedAt, failure := WriteRows(stream.id, p.rows, start);
    out := out + records;
    if failure.Some? {
      return SyncResult(out, state, failure);
    }
    if p.failure.Some? {
      return SyncResult(out, state, p.failure);
    }
    var next := WriteBookmark(state, stream.id, UPDATED_AT, maxUpdatedAt);
    out := out + [StateMessage(next)];
    return SyncResult(out, next, None);
  }

  /** The loop over one more row. */
  lemma WriteRowsSnoc(stream: string, rows: seq<Object>, start: int, reshape: Reshape, i: nat)
    requires i < |rows|
    ensures WriteRowsSpec(stream, rows[..i + 1], start, reshape)
      == if WriteRowsSpec(stream, rows[..i], start, reshape).failure.Some? then WriteRowsSpec(stream, rows[..i], start, reshape)
         else Step(stream, start, reshape, WriteRowsSpec(stream, rows[..i], start, reshape), rows[i])
  {
    assert rows[..i + 1][..i] == rows[..i];
  }

  /** Once the loop has raised, later rows change nothing. */
  lemma {:induction false} FailureSticks(stream: string, rows: seq<Object>, start: int, reshape: Reshape, m: nat)
    requires m <= |rows|
    requires WriteRowsSpec(stream, rows[..m], start, reshape).failure.Some?
    ensures WriteRowsSpec(stream, rows, start, reshape) == WriteRowsSpec(stream, rows[..m], start, reshape)
    decreases |rows| - m
  {
    if m < |rows| {
      assert rows[..m + 1][..m] == rows[..m];
      FailureSticks(stream, rows, start, reshape, m + 1);
    } else {
      assert rows[..m] == rows;
    }
  }

  // ----- the loop, declaratively -----

  /**
   * Over rows it gets past, the loop writes the transformed written rows in
   * order and reaches their watermark.
   */
  lemma {:induction false} WriteRowsAllGood(stream: string, rows: seq<Object>, start: int, reshape: Reshape)
    requires forall j :: 0 <= j < |rows| ==> Good(start, reshape, rows[j])
    ensures WriteRowsSpec(stream, rows, start, reshape)
      == Progress(Records(stream, reshape, Emitted(rows, start)), Watermark(rows, start), None)
    decreases |rows|
  {
    if |rows| > 0 {
      var init := rows[..|rows| - 1];
      var last := rows[|rows| - 1];
      assert forall j :: 0 <= j < |init| ==> init[j] == rows[j];
      WriteRowsAllGood(stream, init, start, reshape);
      EmittedSnoc(rows, start);
      RecordsSnoc(stream, reshape, Emitted(init, start), last);
      StepGood(stream, start, reshape, WriteRowsSpec(stream, init, start, reshape), last);
    }
  }

  /** The loop body on a row it cannot get past: that row's exception. */
  lemma StepFails(stream: string, start: int, reshape: Reshape, p: Progress, row: Object)
    requires !Good(start, reshape, row)
    ensures Step(stream, start, reshape, p, row) == Progress(p.records, p.maxUpdatedAt, Some(RowFailure(start, reshape, row)))
  {
  }

  /** The loop body on a row it gets past: the record if the row is written, and the raised maximum. */
  lemma StepGood(stream: string, start: int, reshape: Reshape, p: Progress, row: Object)
    requires Good(start, reshape, row)
    ensures Step(stream, start, reshape, p, row)
      == Progress(p.records + (if Emits(start, row) then [RecordMessage(stream, Reshaped(reshape, row))] else []),
                  Raise(p.maxUpdatedAt, row), None)
  {
  }

  /** The rows written from `rows`: those written from all but the last, and the last if it is written. */
  lemma EmittedSnoc(rows: seq<Object>, start: int)
    requires |rows| > 0
    ensures Emitted(rows, start) == Emitted(rows[..|rows| - 1], start)
      + (if Emits(start, rows[|rows| - 1]) then [rows[|rows| - 1]] else [])
  {
  }

  lemma RecordsSnoc(stream: string, reshape: Reshape, rows: seq<Object>, row: Object)
    ensures Records(stream, reshape, rows + [row]) == Records(stream, reshape, rows) + [RecordMessage(stream, Reshaped(reshape, row))]
  {
    assert (rows + [row])[..|rows|] == rows;
  }

  /**
   * The loop stops at the first row it cannot get past, with that row's
   * exception, having written the records of the rows before it.
   */
  lemma WriteRowsStopsAt(stream: string, rows: seq<Object>, start: int, reshape: Reshape, k: nat)
    requires k < |rows| && !Good(start, reshape, rows[k])
    requires forall j :: 0 <= j < k ==> Good(start, reshape, rows[j])
    ensures WriteRowsSpec(stream, rows, start, reshape)
      == Progress(Records(stream, reshape, Emitted(rows[..k], start)), Watermark(rows[..k], start),
                  Some(RowFailure(start, reshape, rows[k])))
  {
    WriteRowsAllGood(stream, rows[..k], start, reshape);
    assert rows[..k + 1][..k] == rows[..k];
    assert rows[..k + 1][k] == rows[k];
    FailureSticks(stream, rows, start, reshape, k + 1);
  }

  /** The loop gets through all rows exactly when it can get past each of them. */
  lemma WriteRowsSucceedsIff(stream: string, rows: seq<Object>, start: int, reshape: Reshape)
    ensures WriteRowsSpec(stream, rows, start, reshape).failure.None? <==> forall j :: 0 <= j < |rows| ==> Good(start, reshape, rows[j])
  {
    var k := FirstFailing(rows, GoodFrom(start, reshape));
    if k < |rows| {
      WriteRowsStopsAt(stream, rows, start, reshape, k);
    } else {
      WriteRowsAllGood(stream, rows, start, reshape);
    }
  }

  // ----- which rows are written -----

  /** A row is written exactly when it lacks `updated_at` or its `updated_at` is at or after `start`. */
  lemma EmittedIff(rows: seq<Object>, start: int, row: Object)
    ensures row in Emitted(rows, start) <==>
      row in rows && (Get(row, UPDATED_AT).None? ||
                      (Get(row, UPDATED_AT).value.JInt? && Get(row, UPDATED_AT).value.i >= start))
  {
    FilterMembership(rows, EmitsFrom(start), row);
  }

  /** Written rows keep their input order. */
  lemma EmittedKeepsOrder(xs: seq<Object>, ys: seq<Object>, start: int)
    ensures Emitted(xs + ys, start) == Emitted(xs, start) + Emitted(ys, start)
  {
    FilterConcat(xs, ys, EmitsFrom(start));
  }

  // ----- the watermark -----

  /** Rows without `updated_at` (or with one that does not convert) do not affect the bookmark. */
  lemma {:induction false} WatermarkIgnoresUnstamped(rows: seq<Object>, start: int)
    ensures Watermark(Filter(rows, Stamped), start) == Watermark(rows, start)
    decreases |rows|
  {
    if |rows| > 0 {
      var init := rows[..|rows| - 1];
      var last := rows[|rows| - 1];
      WatermarkIgnoresUnstamped(init, start);
      var f := Filter(init, Stamped);
      if Stamped(last) {
        assert Filter(rows, Stamped) == f + [last];
        assert (f + [last])[..|f + [last]| - 1] == f;
      } else {
        assert Filter(rows, Stamped) == f;
      }
    }
  }

  /**
   * Counting the suppressed rows' timestamps, as the loop does, makes no
   * difference: they are below `start`, which the maximum starts from.
   */
  lemma {:induction false} WatermarkOfEmitted(rows: seq<Object>, start: int)
    ensures Watermark(Emitted(rows, start), start) == Watermark(rows, start)
    decreases |rows|
  {
    if |rows| > 0 {
      var init := rows[..|rows| - 1];
      var last := rows[|rows| - 1];
      WatermarkOfEmitted(init, start);
      var e := Emitted(init, start);
      if Emits(start, last) {
        assert Emitted(rows, start) == e + [last];
        assert (e + [last])[..|e + [last]| - 1] == e;
      } else {
        assert Emitted(rows, start) == e;
        assert Stamp(last).Some? ==> Stamp(last).value < start;
      }
    }
  }

  // ----- the sync as a whole -----

  /** The loop writes only record messages. */
  lemma {:induction false} WriteRowsRecordsOnly(stream: string, rows: seq<Object>, start: int, reshape: Reshape)
    ensures forall j :: 0 <= j < |WriteRowsSpec(stream, rows, start, reshape).records| ==>
      WriteRowsSpec(stream, rows, start, reshape).records[j].RecordMessage?
    decreases |rows|
  {
    if |rows| > 0 {
      WriteRowsRecordsOnly(stream, rows[..|rows| - 1], start, reshape);
    }
  }

  /** After its pagination run, a contacts sync writes the schema first and state only on completion, last. */
  lemma FinishShape(state: State, stream: Stream, start: int, p: Pagination)
    ensures var r := ContactsFinish(state, stream, start, p);
      && |r.out| >= 1 && r.out[0] == SchemaMessage(stream.id, stream.schema, stream.keyProperties)
      && (r.failure.Some? ==> r.state == state && forall j :: 0 <= j < |r.out| ==> !r.out[j].StateMessage?)
      && (r.failure.None? ==>
            && r.out[|r.out| - 1] == StateMessage(r.state)
            && r.state == WriteBookmark(state, stream.id, UPDATED_AT, WriteRowsSpec(stream.id, p.rows, start, Transformed).maxUpdatedAt))
      && MarksOnly(r.out, state.currentlySyncing)
  {
    var schema := [SchemaMessage(stream.id, stream.schema, stream.keyProperties)];
    var w := WriteRowsSpec(stream.id, p.rows, start, Transformed);
    WriteRowsRecordsOnly(stream.id, p.rows, start, Transformed);
    MarksOnlyConcat(schema, w.records, state.currentlySyncing);
    if w.failure.None? && p.failure.None? {
      var next := WriteBookmark(state, stream.id, UPDATED_AT, w.maxUpdatedAt);
      MarksOnlyConcat(schema + w.records, [StateMessage(next)], state.currentlySyncing);
    } else {
      forall j | 0 <= j < |schema + w.records|
        ensures !(schema + w.records)[j].StateMessage?
      {
        if j > 0 {
          assert (schema + w.records)[j] == w.records[j - 1];
        }
      }
    }
  }

  /**
   * After its pagination run, a completed contacts sync writes the schema,
   * one record per written row in order (each the transformed row, whose
   * transformation succeeded), and the state with the watermark of all rows
   * as the bookmark.
   */
  lemma FinishRecords(state: State, stream: Stream, start: int, p: Pagination)
    requires ContactsFinish(state, stream, start, p).failure.None?
    ensures var r := ContactsFinish(state, stream, start, p);
      && r.out == [SchemaMessage(stream.id, stream.schema, stream.keyProperties)]
                  + Records(stream.id, Transformed, Emitted(p.rows, start)) + [StateMessage(r.state)]
      && (forall j :: 0 <= j < |Emitted(p.rows, start)| ==> Transformed(Emitted(p.rows, start)[j]).Ok?)
      && r.state == WriteBookmark(state, stream.id, UPDATED_AT, Watermark(p.rows, start))
  {
    WriteRowsSucceedsIff(stream.id, p.rows, start, Transformed);
    WriteRowsAllGood(stream.id, p.rows, start, Transformed);
    forall j | 0 <= j < |Emitted(p.rows, start)|
      ensures Transformed(Emitted(p.rows, start)[j]).Ok?
    {
      var x := Emitted(p.rows, start)[j];
      FilterMembership(p.rows, EmitsFrom(start), x);
      var m :| 0 <= m < |p.rows| && p.rows[m] == x;
      assert Good(start, Transformed, p.rows[m]);
    }
  }

  /**
   * A contacts sync writes the schema first and, when it completes, ends
   * with a state message holding the new bookmark: at least the start point
   * (so never behind a previous bookmark), and every other bookmark and the
   * resume marker as they were. A sync that fails writes no state.
   */
  lemma ContactsSyncOutcome(state: State, stream: Stream, api: Api, startDate: int)
    ensures var r := ContactsSync(state, stream, api, startDate);
      && |r.out| >= 1 && r.out[0] == SchemaMessage(stream.id, stream.schema, stream.keyProperties)
      && (r.failure.Some? ==> r.state == state && forall j :: 0 <= j < |r.out| ==> !r.out[j].StateMessage?)
      && (r.failure.None? ==>
            && r.out[|r.out| - 1] == StateMessage(r.state)
            && GetBookmark(r.state, stream.id, UPDATED_AT).Some?
            && GetBookmark(r.state, stream.id, UPDATED_AT).value >= GetStart(state, stream.id, startDate)
            && (GetBookmark(state, stream.id, UPDATED_AT).Some? ==>
                  GetBookmark(r.state, stream.id, UPDATED_AT).value >= GetBookmark(state, stream.id, UPDATED_AT).value)
            && (forall s, k :: (s != stream.id || k != UPDATED_AT) ==> GetBookmark(r.state, s, k) == GetBookmark(state, s, k))
            && r.state.currentlySyncing == state.currentlySyncing)
  {
    var start := GetStart(state, stream.id, startDate);
    if GetUrl(stream.id, None).Ok? {
      var url := GetUrl(stream.id, None).value;
      var p := Paginate(url, map[], ResponsesFor(api, url));
      FinishShape(state, stream, start, p);
      if ContactsFinish(state, stream, start, p).failure.None? {
        FinishRecords(state, stream, start, p);
      }
    }
  }

  /** Every state a contacts sync writes keeps the resume marker it was given. */
  lemma ContactsSyncKeepsMarker(state: State, stream: Stream, api: Api, startDate: int)
    ensures MarksOnly(ContactsSync(state, stream, api, startDate).out, state.currentlySyncing)
  {
    if GetUrl(stream.id, None).Ok? {
      var url := GetUrl(stream.id, None).value;
      FinishShape(state, stream, GetStart(state, stream.id, startDate), Paginate(url, map[], ResponsesFor(api, url)));
    }
  }

  /**
   * A completed contacts sync writes the schema, one record per written row
   * in order (each the transformed row, whose transformation succeeded), and
   * the state holding the watermark of all rows as the bookmark.
   */
  lemma ContactsSyncRecords(state: State, stream: Stream, api: Api, startDate: int)
    requires GetUrl(stream.id, None).Ok?
    requires ContactsSync(state, stream, api, startDate).failure.None?
    ensures var url := GetUrl(stream.id, None).value;
      var rows := Paginate(url, map[], ResponsesFor(api, url)).rows;
      var start := GetStart(state, stream.id, startDate);
      var r := ContactsSync(state, stream, api, startDate);
      && r.out == [SchemaMessage(stream.id, stream.schema, stream.keyProperties)]
                  + Records(stream.id, Transformed, Emitted(rows, start)) + [StateMessage(r.state)]
      && (forall j :: 0 <= j < |Emitted(rows, start)| ==> Transformed(Emitted(rows, start)[j]).Ok?)
      && GetBookmark(r.state, stream.id, UPDATED_AT) == Some(Watermark(rows, start))
  {
    var url := GetUrl(stream.id, None).value;
    FinishRecords(state, stream, GetStart(state, stream.id, startDate), Paginate(url, map[], ResponsesFor(api, url)));
  }
}
