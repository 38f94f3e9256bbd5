/**
 * The full-table streams: lists and smart segments, written row by row as
 * the API returns them, and the contacts of every smart segment, fetched
 * with one nested pagination run per segment.
 */
module Streams {
  import opened Wrappers
  import opened Json
  import opened Errors
  import opened Urls
  import opened Pagination
  import opened Singer

  /** The records a loop has written, and the exception that stopped it, if any. */
  datatype Written = Written(records: seq<Message>, failure: Option<TapError>)

  /** Runs `step` over `rows` in order, stopping at the first exception. */
  function Fold(rows: seq<Object>, step: (Written, Object) -> Written): Written
    decreases |rows|
  {
    if |rows| == 0 then Written([], None)
    else
      var w := Fold(rows[..|rows| - 1], step);
      if w.failure.Some? then w else step(w, rows[|rows| - 1])
  }

  /** Once a loop has raised, later rows change nothing. */
  lemma {:induction false} FoldSticks(rows: seq<Object>, step: (Written, Object) -> Written, m: nat)
    requires m <= |rows|
    requires Fold(rows[..m], step).failure.Some?
    ensures Fold(rows, step) == Fold(rows[..m], step)
    decreases |rows| - m
  {
    if m < |rows| {
      assert rows[..m + 1][..m] == rows[..m];
      FoldSticks(rows, step, m + 1);
    } else {
      assert rows[..m] == rows;
    }
  }

  /** The loop over one more row. */
  lemma FoldSnoc(rows: seq<Object>, step: (Written, Object) -> Written, i: nat)
    requires i < |rows|
    ensures Fold(rows[..i + 1], step)
      == if Fold(rows[..i], step).failure.Some? then Fold(rows[..i], step) else step(Fold(rows[..i], step), rows[i])
  {
    assert rows[..i + 1][..i] == rows[..i];
  }

  // ----- lists and smart segments -----

  /** One record per row, each the row itself, in order. */
  function Verbatim(stream: string, rows: seq<Object>): (r: seq<Message>)
    ensures |r| == |rows|
    ensures forall j :: 0 <= j < |rows| ==> r[j] == RecordMessage(stream, rows[j])
    decreases |rows|
  {
    if |rows| == 0 then []
    else Verbatim(stream, rows[..|rows| - 1]) + [RecordMessage(stream, rows[|rows| - 1])]
  }

  lemma VerbatimSnoc(stream: string, rows: seq<Object>, i: nat)
    requires i < |rows|
    ensures Verbatim(stream, rows[..i + 1]) == Verbatim(stream, rows[..i]) + [RecordMessage(stream, rows[i])]
  {
    assert rows[..i + 1][..i] == rows[..i];
  }

  /** sync_lists and sync_smart_segments: the schema under `name` and key `keyProperty`, then every row of the endpoint. */
  function FullRefresh(state: State, name: string, keyProperty: string, stream: Stream, api: Api): SyncResult
  {
    var schema := SchemaMessage(name, stream.schema, Some([keyProperty]));
    match GetUrl(name, None)
    case Err(e) => SyncResult([schema], state, Some(e))
    case Ok(url) =>
      var p := Paginate(url, map[], ResponsesFor(api, url));
      SyncResult([schema] + Verbatim(name, p.rows), state, p.failure)
  }

  method SyncFullRefresh(state: State, name: string, keyProperty: string, stream: Stream, api: Api)
    returns (r: SyncResult)
    ensures r == FullRefresh(state, name, keyProperty, stream, api)
  {
    var schema := SchemaMessage(name, stream.schema, Some([keyProperty]));
    var url := GetUrl(name, None);
    if url.Err? {
      return SyncResult([schema], state, Some(url.error));
    }
    var p := GenRequest(url.value, map[], ResponsesFor(api, url.value));
    var records := WriteVerbatim(name, p.rows);
    return SyncResult([schema] + records, state, p.failure);
  }

  /** The loop of the full-table syncs: one record per yielded row. */
  method WriteVerbatim(name: string, rows: seq<Object>) returns (records: seq<Message>)
    ensures records == Verbatim(name, rows)
  {
    records := [];
    var i := 0;
    while i < |rows|
      invariant 0 <= i <= |rows|
      invariant records == Verbatim(name, rows[..i])
    {
      VerbatimSnoc(name, rows, i);
      records := records + [RecordMessage(name, rows[i])];
      i := i + 1;
    }
    assert rows[..i] == rows;
  }

  /**
   * Over `m` full pages and then a short one, a full-table sync writes its
   * schema and every row of those pages, m * PER_PAGE plus the short page's
   * size, and completes.
   */
  lemma FullRefreshCount(state: State, name: string, keyProperty: string, stream: Stream, api: Api, m: nat)
    requires GetUrl(name, None).Ok? && ParseSourceFromUrl(GetUrl(name, None).value).Ok?
    requires var url := GetUrl(name, None).value;
      var key := ParseKeyFromSource(ParseSourceFromUrl(url).value);
      var rs := ResponsesFor(api, url);
      && (forall j :: 0 <= j < m ==>
            HasRows(ResponseAt(rs, j), key) && |RowsOf(ResponseAt(rs, j), key)| == PER_PAGE)
      && HasRows(ResponseAt(rs, m), key) && |RowsOf(ResponseAt(rs, m), key)| < PER_PAGE
    ensures var url := GetUrl(name, None).value;
      var key := ParseKeyFromSource(ParseSourceFromUrl(url).value);
      var r := FullRefresh(state, name, keyProperty, stream, api);
      && r.failure.None? && r.state == state
      && |r.out| == 1 + m * PER_PAGE + |RowsOf(ResponseAt(ResponsesFor(api, url), m), key)|
  {
    var url := GetUrl(name, None).value;
    FullPagesThenShortCount(url, map[], ResponsesFor(api, url), m);
  }

  // ----- the contacts of the smart segments -----

  const SEGMENT_CONTACTS := "smart_segments_contacts"

  /** The record for one contact of a segment. */
  function SegmentContact(segment: Value, contact: Value): Message
  {
    RecordMessage(SEGMENT_CONTACTS, [Field("segment_id", segment), Field("contact_id", contact)])
  }

  /** The inner loop body: one contact row of a segment; a row without `contact_id` raises. */
  function ContactOnce(segment: Value, w: Written, subrow: Object): Written
  {
    match Get(subrow, "contact_id")
    case None => Written(w.records, Some(MissingKey("contact_id")))
    case Some(c) => Written(w.records + [SegmentContact(segment, c)], None)
  }

  function ContactStep(segment: Value): (Written, Object) -> Written
  {
    (w: Written, subrow: Object) => ContactOnce(segment, w, subrow)
  }

  /** The segment id as the URL template receives it: only a string forms a URL here. */
  function SegmentIdText(v: Value): Result<string, TapError>
  {
    if v.JStr? then Ok(v.s) else Err(NotAString("segment_id"))
  }

  /** The pagination run over the contacts of one segment, at `url`. */
  function SegmentRun(api: Api, url: string): Pagination
  {
    Paginate(url, map[], ResponsesFor(api, url))
  }

  /** The outer loop body: one segment row, whose contacts are fetched and written. */
  function SegmentOnce(api: Api, w: Written, row: Object): Written
  {
    match Get(row, "segment_id")
    case None => Written(w.records, Some(MissingKey("segment_id")))
    case Some(segment) =>
      match SegmentIdText(segment)
      case Err(e) => Written(w.records, Some(e))
      case Ok(id) =>
        var q := SegmentRun(api, GetUrl(SEGMENT_CONTACTS, Some(id)).value);
        var inner := Fold(q.rows, ContactStep(segment));
        Written(w.records + inner.records, if inner.failure.Some? then inner.failure else q.failure)
  }

  function SegmentStep(api: Api): (Written, Object) -> Written
  {
    (w: Written, row: Object) => SegmentOnce(api, w, row)
  }

  /** sync_smart_segment_contacts. */
  function SegmentContactsSync(state: State, stream: Stream, api: Api): SyncResult
  {
    var schema := SchemaMessage(SEGMENT_CONTACTS, stream.schema, Some(["segment_id", "contact_id"]));
    var url := GetUrl("smart_segments", None).value;
    var p := Paginate(url, map[], ResponsesFor(api, url));
    var w := Fold(p.rows, SegmentStep(api));
    SyncResult([schema] + w.records, state, if w.failure.Some? then w.failure else p.failure)
  }

  /** The inner loop over the contact rows of one segment. */
  method WriteSegmentContacts(segment: Value, subrows: seq<Object>) returns (w: Written)
    ensures w == Fold(subrows, ContactStep(segment))
  {
    w := Written([], None);
    var i := 0;
    while i < |subrows|
      invariant 0 <= i <= |subrows|
      invariant Fold(subrows[..i], ContactStep(segment)) == w && w.failure.None?
    {
      FoldSnoc(subrows, ContactStep(segment), i);
      var contact := Get(subrows[i], "contact_id");
      if contact.None? {
        w := Written(w.records, Some(MissingKey("contact_id")));
        FoldSticks(subrows, ContactStep(segment), i + 1);
        return;
      }
      w := Written(w.records + [SegmentContact(segment, contact.value)], None);
      i := i + 1;
    }
    assert subrows[..i] == subrows;
  }

  method SyncSmartSegmentContacts(state: State, stream: Stream, api: Api) returns (r: SyncResult)
    ensures r == SegmentContactsSync(state, stream, api)
  {
    var schema := SchemaMessage(SEGMENT_CONTACTS, stream.schema, Some(["segment_id", "contact_id"]));
    var url := GetUrl("smart_segments", None).value;
    var p := GenRequest(url, map[], ResponsesFor(api, url));
    var w := WriteSegments(api, p.rows);
    return SyncResult([schema] + w.records, state, if w.failure.Some? then w.failure else p.failure);
  }

  /** The outer loop over the segment rows, with a nested pagination run per segment. */
  method WriteSegments(api: Api, rows: seq<Object>) returns (w: Written)
    ensures w == Fold(rows, SegmentStep(api))
  {
    w := Written([], None);
    var i := 0;
    while i < |rows|
      invariant 0 <= i <= |rows|
      invariant Fold(rows[..i], SegmentStep(api)) == w && w.failure.None?
    {
      FoldSnoc(rows, SegmentStep(api), i);
      w := WriteSegment(api, w.records, rows[i]);
      if w.failure.Some? {
        FoldSticks(rows, SegmentStep(api), i + 1);
        return;
      }
      i := i + 1;
    }
    assert rows[..i] == rows;
  }

  /** One segment: its contacts are fetched and appended to `records`. */
  method WriteSegment(api: Api, records: seq<Message>, row: Object) returns (w: Written)
    ensures w == SegmentOnce(api, Written(records, None), row)
  {
    var segment := Get(row, "segment_id");
    if segment.None? {
      return Written(records, Some(MissingKey("segment_id")));
    }
    var id := SegmentIdText(segment.value);
    if id.Err? {
      return Written(records, Some(id.error));
    }
    var subrowUrl := GetUrl(SEGMENT_CONTACTS, Some(id.value)).value;
    var q := GenRequest(subrowUrl, map[], ResponsesFor(api, subrowUrl));
    var inner := WriteSegmentContacts(segment.value, q.rows);
    return Written(records + inner.records, if inner.failure.Some? then inner.failure else q.failure);
  }

  /** A record of the inner loop for `segment`: the pair of that segment id and a contact id. */
  predicate IsContactRecord(segment: Value, m: Message)
  {
    m.RecordMessage? && m.stream == SEGMENT_CONTACTS && |m.record| == 2
    && m.record[0] == Field("segment_id", segment) && m.record[1].key == "contact_id"
  }

  /** The inner loop completes exactly when every contact row has a `contact_id`; otherwise it raises on that key. */
  lemma {:induction false} SegmentContactsComplete(segment: Value, subrows: seq<Object>)
    ensures var w := Fold(subrows, ContactStep(segment));
      && (w.failure.None? <==> forall j :: 0 <= j < |subrows| ==> Get(subrows[j], "contact_id").Some?)
      && (w.failure.Some? ==> w.failure == Some(MissingKey("contact_id")))
    decreases |subrows|
  {
    if |subrows| > 0 {
      var init := subrows[..|subrows| - 1];
      var last := subrows[|subrows| - 1];
      SegmentContactsComplete(segment, init);
      var w := Fold(init, ContactStep(segment));
      assert forall j :: 0 <= j < |init| ==> subrows[j] == init[j];
      if w.failure.Some? {
        var j :| 0 <= j < |init| && Get(init[j], "contact_id").None?;
        assert Get(subrows[j], "contact_id").None?;
      } else {
        match Get(last, "contact_id")
        case None =>
          assert Fold(subrows, ContactStep(segment)) == Written(w.records, Some(MissingKey("contact_id")));
        case Some(c) =>
          assert Fold(subrows, ContactStep(segment)) == Written(w.records + [SegmentContact(segment, c)], None);
      }
    }
  }

  /** A completed inner loop writes one record per contact row, in order, pairing the segment id with the row's contact id. */
  lemma {:induction false} SegmentContactsRecords(segment: Value, subrows: seq<Object>)
    requires Fold(subrows, ContactStep(segment)).failure.None?
    ensures var w := Fold(subrows, ContactStep(segment));
      && |w.records| == |subrows|
      && forall j :: 0 <= j < |subrows| ==>
           Get(subrows[j], "contact_id").Some? &&
           w.records[j] == SegmentContact(segment, Get(subrows[j], "contact_id").value)
    decreases |subrows|
  {
    if |subrows| > 0 {
      var init := subrows[..|subrows| - 1];
      var last := subrows[|subrows| - 1];
      var w := Fold(init, ContactStep(segment));
      assert w.failure.None?;
      SegmentContactsRecords(segment, init);
      assert forall j :: 0 <= j < |init| ==> subrows[j] == init[j];
      var c := Get(last, "contact_id").value;
      assert Fold(subrows, ContactStep(segment)) == Written(w.records + [SegmentContact(segment, c)], None);
    }
  }

  /** Every record of the inner loop carries `segment` as its segment id. */
  lemma {:induction false} ContactRecordsShape(segment: Value, subrows: seq<Object>)
    ensures forall j :: 0 <= j < |Fold(subrows, ContactStep(segment)).records| ==>
      IsContactRecord(segment, Fold(subrows, ContactStep(segment)).records[j])
    decreases |subrows|
  {
    if |subrows| > 0 {
      var init := subrows[..|subrows| - 1];
      var last := subrows[|subrows| - 1];
      ContactRecordsShape(segment, init);
      var w := Fold(init, ContactStep(segment));
      var all := Fold(subrows, ContactStep(segment)).records;
      if w.failure.None? && Get(last, "contact_id").Some? {
        assert all == w.records + [SegmentContact(segment, Get(last, "contact_id").value)];
      } else {
        assert all == w.records;
      }
      forall j | 0 <= j < |all|
        ensures IsContactRecord(segment, all[j])
      {
        if j < |w.records| {
          assert all[j] == w.records[j];
        }
      }
    }
  }

  /** A record of the segment contacts stream: a string segment id and a contact id, under those two keys. */
  predicate IsSegmentContactRecord(m: Message)
  {
    m.RecordMessage? && m.stream == SEGMENT_CONTACTS && |m.record| == 2
    && m.record[0].key == "segment_id" && m.record[0].value.JStr? && m.record[1].key == "contact_id"
  }

  /** Every record of the segment contacts stream pairs a string segment id with a contact id, under those two keys. */
  lemma {:induction false} SegmentRecordsShape(api: Api, rows: seq<Object>)
    ensures forall j :: 0 <= j < |Fold(rows, SegmentStep(api)).records| ==>
      IsSegmentContactRecord(Fold(rows, SegmentStep(api)).records[j])
    decreases |rows|
  {
    if |rows| > 0 {
      var init := rows[..|rows| - 1];
      var row := rows[|rows| - 1];
      SegmentRecordsShape(api, init);
      var w := Fold(init, SegmentStep(api));
      if w.failure.Some? {
        assert Fold(rows, SegmentStep(api)) == w;
      } else {
        match Get(row, "segment_id")
        case None =>
          assert Fold(rows, SegmentStep(api)).records == w.records;
        case Some(segment) =>
          if segment.JStr? {
            var q := SegmentRun(api, GetUrl(SEGMENT_CONTACTS, Some(segment.s)).value);
            var inner := Fold(q.rows, ContactStep(segment));
            ContactRecordsShape(segment, q.rows);
            var all := Fold(rows, SegmentStep(api)).records;
            assert all == w.records + inner.records;
            forall j | 0 <= j < |all|
              ensures IsSegmentContactRecord(all[j])
            {
              if j >= |w.records| {
                assert all[j] == inner.records[j - |w.records|];
                assert IsContactRecord(segment, inner.records[j - |w.records|]);
              } else {
                assert all[j] == w.records[j];
              }
            }
          } else {
            assert Fold(rows, SegmentStep(api)).records == w.records;
          }
      }
    }
  }

  /** The full-table syncs write no state. */
  lemma FullRefreshWritesNoState(state: State, name: string, keyProperty: string, stream: Stream, api: Api)
    ensures forall j :: 0 <= j < |FullRefresh(state, name, keyProperty, stream, api).out| ==>
      !FullRefresh(state, name, keyProperty, stream, api).out[j].StateMessage?
  {
  }

  /** The segment contacts sync writes no state. */
  lemma SegmentContactsWritesNoState(state: State, stream: Stream, api: Api)
    ensures forall j :: 0 <= j < |SegmentContactsSync(state, stream, api).out| ==>
      !SegmentContactsSync(state, stream, api).out[j].StateMessage?
  {
    var r := SegmentContactsSync(state, stream, api);
    var url := GetUrl("smart_segments", None).value;
    var p := Paginate(url, map[], ResponsesFor(api, url));
    SegmentRecordsShape(api, p.rows);
    var w := Fold(p.rows, SegmentStep(api));
    assert r.out == [SchemaMessage(SEGMENT_CONTACTS, stream.schema, Some(["segment_id", "contact_id"]))] + w.records;
    forall j | 0 <= j < |r.out|
      ensures !r.out[j].StateMessage?
    {
      if j > 0 {
        assert r.out[j] == w.records[j - 1];
        assert IsSegmentContactRecord(w.records[j - 1]);
      }
    }
  }
}
