# tap-autopilot, modelled in Dafny

tap-autopilot is a Singer extractor for the Autopilot marketing API. This
project models its sync core: the sequential logic between the HTTP fetcher
and the Singer output. That core covers:

- building endpoint URLs and recovering the source name from a URL;
- choosing the key under which a page holds its rows;
- the pagination loop `gen_request`;
- the incremental contacts sync, with its start-point filter and
  `updated_at` watermark;
- the reshaping of a contact's boolean and timestamp properties;
- the full-table streams (lists, smart segments, and the contacts of every
  smart segment);
- choosing the streams to sync (resume from `currently_syncing`, then keep
  the selected ones);
- the driver that marks each stream in the state before syncing it.

Conventions of the model:

- **The API** is a value. `Api` maps an endpoint URL to the sequence of
  responses one pagination run over it receives. The i-th request of a run
  gets the i-th response. Beyond the recorded ones the request raises with no
  response. Each response is a page (row arrays by key, plus an optional
  bookmark) or the exception `request` raised after its retries.
- **Exceptions** are values. A sync returns a `SyncResult`: the messages
  written so far, the state reached, and the `TapError` that ended it, if
  any. Python's exceptions (`ValueError`, `KeyError`, the request's
  `RequestException`, the "Unknown stream" exception) each become one
  constructor of `TapError`.
- **Output** is a sequence. Each call to `write_schema`, `write_record` or
  `write_state` appends one `Message`. The state holds integer bookmarks per
  stream and key, and the `currently_syncing` marker.
- **JSON objects** are sequences of fields, in insertion order as Python
  dicts keep them. A lookup finds the first field with the key.
- **Timestamps** are integer milliseconds, compared as they are.
- **Loops become methods.** Every loop of the source (the pagination loop,
  the contacts loop, the two loops of `transform_contact`, the selection
  loop, the nested segment loops, the driver loop) is a method with a
  `while` loop. Each method is proved equal to a recursive specification
  function. The properties the source promises are lemmas about those
  functions.

## Model

| member | source | states |
|---|---|---|
| Http.ClientError | tap_autopilot/__init__.py:70-72 | A failed request is given up on exactly when the server answered with a status in [400, 500) other than 408. With no response, it is always retried. |
| Http.RequestUrl | tap_autopilot/__init__.py:164-165 | The fetched URL extends the endpoint URL. It equals it exactly when the params hold no bookmark. Otherwise the rest is "/" followed by the bookmark. |
| Urls.GetUrl | tap_autopilot/__init__.py:137-143 | An unknown endpoint name is an InvalidEndpoint error. A known one succeeds exactly when its template needs no segment id or one is given. Every URL starts with the base URL. |
| Urls.ParseSourceFromUrl | tap_autopilot/__init__.py:75-86 | It fails (UnparsableUrl) exactly when the URL does not start with the base URL or has no slash followed by a word character after it. A source found is a non-empty run of word characters. |
| Urls.LastSlash | tap_autopilot/__init__.py:77-78 | The greedy `.*/` of the regex stops at the last slash followed by a word character: nothing after the result has one, and the result does. |
| Urls.WordEnd | tap_autopilot/__init__.py:77-78 | The greedy `\w+` of the regex consumes the maximal run of word characters. |
| Urls.SourceOfLastSegment | tap_autopilot/__init__.py:80-84 | A URL ending in "/w" has source w. The exception is w = "contacts" in a URL mentioning "segment", which has source "smart_segments_contacts". |
| Urls.SourceOfContactsUrl | tap_autopilot/__init__.py:80-84 | The contacts endpoint URL has source "contacts": it does not mention "segment". |
| Urls.SourceOfCustomFieldsUrl | tap_autopilot/__init__.py:80-84 | The custom-fields endpoint URL has source "custom_fields". |
| Urls.SourceOfTopLevelUrl | tap_autopilot/__init__.py:80-84 | A URL one word below the base URL has that word as its source, for any word other than "contacts". The lists and smart-segments endpoint URLs are two cases. |
| Urls.SourceOfSegmentContactsUrl | tap_autopilot/__init__.py:81-83 | The URL of any segment's contacts has source "smart_segments_contacts", whatever the segment id. |
| Urls.ParseSourceOfGetUrl | tap_autopilot/__init__.py:137-143 | Parsing the URL of any named endpoint gives back that endpoint's name. get_url and parse_source_from_url are inverse on the endpoint table. |
| Urls.ParseKeyCases | tap_autopilot/__init__.py:89-100 | The key is "contacts" exactly for a source containing "contact". It is "segments" exactly for the other sources that contain "smart_segments" (or are "segments"). Any other key is the source unchanged. |
| Urls.ParseKeyFromSource | tap_autopilot/__init__.py:89-100 | The row key is the source itself, "contacts" or "segments". Its three cases, both ways round, are stated by `ParseKeyCases`. |
| Urls.RowKeyOfEndpoint | tap_autopilot/__init__.py:89-100 | Each endpoint's source selects the row key its pages use: contacts and segment contacts use "contacts", smart segments "segments", the others their own name. |
| Pagination.GenRequest | tap_autopilot/__init__.py:177-211 | The loop's rows, requests and exception are those of the specification `Paginate`. An unparsable URL raises before any request. |
| Pagination.RequestPages | tap_autopilot/__init__.py:196-211 | The `while True` loop after parsing equals the run `PaginateFrom` from request 0. |
| Pagination.PaginateFromStops | tap_autopilot/__init__.py:196-211 | A run from request i stops at the first response that is not a full page; all earlier ones are full. It completes exactly when that response holds rows, and otherwise raises that response's exception. |
| Pagination.PaginateFromRows | tap_autopilot/__init__.py:205-211 | A run yields the rows of every page it requested, in page order. That includes the last page when it holds rows. |
| Pagination.NextParams | tap_autopilot/__init__.py:198-203 | A source without "contact" keeps its params. For a contacts source, the params hold a bookmark exactly when the page has one, and then it is the page's. No key other than the bookmark is ever added. |
| Pagination.PaginateFromRequests | tap_autopilot/__init__.py:197-203 | Every request goes to the endpoint URL. The first has the initial params. Each later one has the params the previous page implies. |
| Pagination.PaginationShape | tap_autopilot/__init__.py:196-211 | For a parsable URL: the run ends right after the first page that is not full, every earlier page was full, and the rows yielded are those of all pages up to and including the last page with rows, in order. A response without rows ends the run with its exception. |
| Pagination.StopsAtFirstShortPage | tap_autopilot/__init__.py:209-211 | After m full pages and then a short one, the run issues exactly m + 1 requests and completes, yielding the rows of those pages. This holds even when the short page has a bookmark. |
| Pagination.FullPagesThenShortCount | tap_autopilot/__init__.py:205-211 | After m pages of exactly 100 rows and a short page, the run yields m * 100 plus that page's size rows, in m + 1 requests. |
| Pagination.ContactBookmarkCarried | tap_autopilot/__init__.py:198-203 | For a contacts source, the request after a page carries that page's bookmark: in the params and as the extra URL segment. A page without a bookmark empties the params, so the next URL is the bare endpoint. |
| Pagination.NonContactParamsFixed | tap_autopilot/__init__.py:198-203 | For a source without "contact", every request is the endpoint URL with the initial params. No bookmark is ever added. |
| Pagination.FullPagesRunOut | tap_autopilot/__init__.py:196-211 | When every recorded response is a full page, the run makes one request per response plus one more, and that last request raises with no response. The source would keep requesting; see "## Left out". |
| Contacts.GetStart | tap_autopilot/__init__.py:63-68 | The start point is the stream's `updated_at` bookmark when there is one, and the configured start date otherwise. |
| Contacts.UpdatedAt | tap_autopilot/__init__.py:241-246 | A row has no timestamp exactly when it has no `updated_at`. An integer `updated_at` is its timestamp. Any other value is a NotATimestamp error. |
| Contacts.Step | tap_autopilot/__init__.py:241-252 | One pass of the loop body only appends: at most one record. A row that raises leaves the records and the maximum as they were. A row the loop gets past never lowers the maximum. |
| Contacts.Records | tap_autopilot/__init__.py:249 | One record message per written row, in order, each holding the transformed row. |
| Contacts.Watermark | tap_autopilot/__init__.py:238-252 | The new bookmark is at least the start point and at least every row's `updated_at`. It equals the start point or one of those timestamps. |
| Contacts.WriteRows | tap_autopilot/__init__.py:240-252 | The contacts loop writes and reaches exactly what the specification `WriteRowsSpec` says, using transform_contact's transformation. |
| Contacts.WriteRow | tap_autopilot/__init__.py:241-252 | One pass of the contacts loop body does what `Step` says: a timestamp that does not convert or a row that does not transform raises with the progress unchanged; otherwise the row is written when it has no timestamp or one at or after the start, and the watermark rises to a later timestamp. |
| Contacts.SyncContacts | tap_autopilot/__init__.py:214-258 | The contacts sync returns exactly the outcome `ContactsSync` gives: schema, records, and the bookmark state on completion. |
| Contacts.FailureSticks | tap_autopilot/__init__.py:240-252 | Once a row has raised, later rows change nothing: the exception ends the loop. |
| Contacts.WriteRowsAllGood | tap_autopilot/__init__.py:240-252 | Over rows whose timestamps convert and whose written ones transform, the loop writes the transformed written rows in order. It reaches their watermark. |
| Contacts.WriteRowsStopsAt | tap_autopilot/__init__.py:240-252 | The loop stops at the first row it cannot get past, with that row's exception. It has written the records of the earlier written rows and reached their watermark. |
| Contacts.WriteRowsSucceedsIff | tap_autopilot/__init__.py:240-252 | The loop gets through all rows exactly when it can get past each of them. |
| Contacts.EmittedIff | tap_autopilot/__init__.py:241-249 | A row is written exactly when it is among the rows and it has no `updated_at` or its `updated_at` is at or after the start point. |
| Contacts.EmittedKeepsOrder | tap_autopilot/__init__.py:248-249 | The emitted rows keep their input order: writing the rows of a concatenation writes those of each part, in turn. |
| Contacts.WatermarkIgnoresUnstamped | tap_autopilot/__init__.py:251-252 | Rows without `updated_at` do not affect the bookmark. |
| Contacts.WatermarkOfEmitted | tap_autopilot/__init__.py:248-252 | Counting suppressed rows' timestamps, as the loop does, gives the same bookmark as counting only written rows: they are below the start point the maximum starts from. |
| Contacts.WriteRowsRecordsOnly | tap_autopilot/__init__.py:249 | The loop writes only record messages. |
| Contacts.FinishShape | tap_autopilot/__init__.py:231-255 | After its pagination run, the sync writes the schema first. A failed sync writes no state and keeps the state. A completed one ends with the state message whose bookmark is the loop's maximum. Every state written keeps the resume marker. |
| Contacts.FinishRecords | tap_autopilot/__init__.py:240-255 | A completed sync after its pagination run writes the schema, one transformed record per written row in order, and the state. Every written row transformed successfully. The bookmark is the watermark of all rows. |
| Contacts.ContactsSyncOutcome | tap_autopilot/__init__.py:214-258 | A contacts sync writes the schema first. A failed sync writes no state. A completed one ends with the new state, whose `updated_at` bookmark is at least the start point and never behind the previous bookmark. Every other bookmark and the resume marker are unchanged. |
| Contacts.ContactsSyncKeepsMarker | tap_autopilot/__init__.py:254-255 | Every state a contacts sync writes has the resume marker it was given. |
| Contacts.ContactsSyncRecords | tap_autopilot/__init__.py:235-255 | A completed contacts sync writes the schema, one transformed record per written row of the pagination run in order, and the state. The bookmark is the watermark of all rows. |
| Transform.Pairs | tap_autopilot/__init__.py:114-119 | One pair per map entry, in map order, each holding the entry's key and value. |
| Transform.RewriteProps | tap_autopilot/__init__.py:112-120 | The loop over one property list, with its inner loop over a map's entries, equals the specification `RewritePropsSpec`. The timestamp loop at lines 122-132 is the same method with other keys. |
| Transform.TransformContact | tap_autopilot/__init__.py:103-134 | transform_contact equals `Transformed`: the boolean pass, then the timestamp pass. |
| Transform.RewritePropsFieldwise | tap_autopilot/__init__.py:112-120 | For distinct properties over an object with distinct keys, rewriting them in turn acts on each field on its own. It succeeds exactly when every field can be rewritten. The length and order of the fields are kept. A failure names a listed property. |
| Transform.TransformedFieldwise | tap_autopilot/__init__.py:103-134 | transform_contact succeeds exactly when every listed property present holds a map. It then keeps every field in place and under its key. It rewrites the listed properties and leaves the others unchanged; none is added. A failure names a listed property. |
| Transform.PropListsDistinct | tap_autopilot/__init__.py:109-110 | The two property lists have no repeats and share no property. |
| Transform.BooleanPropRewritten | tap_autopilot/__init__.py:112-120 | In a transformed contact, a boolean property's map becomes a list with one {url, value} pair per entry, in order, each keyed by the original key and carrying the original value. |
| Transform.TimestampPropRewritten | tap_autopilot/__init__.py:122-132 | In a transformed contact, a timestamp property's map becomes a list with one {id, timestamp} pair per entry, in order. Integer milliseconds pass through unchanged. |
| Selection.DropUntilId | tap_autopilot/__init__.py:353-354 | The drop-while is a suffix of the catalog. It starts at a stream with the id, and no stream before it has that id. |
| Selection.DropUntilIdKeeps | tap_autopilot/__init__.py:353-354 | Every stream with the id is in the suffix. |
| Selection.Resuming | tap_autopilot/__init__.py:352 | `if current_stream:`: a marker that is None or the empty string means there is nothing to resume. It has no contract of its own; `GetStreamsToSync` states both branches. |
| Selection.GetStreamsToSync | tap_autopilot/__init__.py:348-357 | Without a marker (None or empty), the result is the whole catalog, and an empty catalog is an error. With a marker, it succeeds exactly when some stream has that id. It is then the suffix from the first such stream. Any error is UnknownStream with the marker. |
| Selection.ResumedFromCatalog | tap_autopilot/__init__.py:348-357 | Every stream to sync comes from the catalog. |
| Selection.ResumeKeeps | tap_autopilot/__init__.py:350-354 | Resuming from a marker that is the id of a catalog stream succeeds and keeps that stream. |
| Selection.IsSelected | tap_autopilot/__init__.py:366 | Python's `selected == True`, which the JSON values true and 1 satisfy. It has no contract of its own; `GetSelectedStreams` states the filter it drives. |
| Selection.GetSelectedStreams | tap_autopilot/__init__.py:360-371 | The loop keeps exactly the streams whose `selected` equals True (so 1 as well), in their original order. |
| Singer.WriteBookmark | tap_autopilot/__init__.py:254 | Writing a bookmark sets exactly that stream's key. Every other bookmark and the marker are unchanged. |
| Streams.Verbatim | tap_autopilot/__init__.py:282-283 | One record per row, holding the row itself, in order. |
| Streams.SyncFullRefresh | tap_autopilot/__init__.py:261-285 | sync_lists (and, with its own name and key, sync_smart_segments at lines 288-312) writes the schema, then every yielded row verbatim. It equals `FullRefresh`. |
| Streams.WriteVerbatim | tap_autopilot/__init__.py:282-283 | The loop of the full-table syncs writes exactly `Verbatim`: one record per yielded row, holding the row, in order. |
| Streams.FoldSticks | tap_autopilot/__init__.py:328-334 | Once a loop body has raised, later rows change nothing. |
| Streams.FullRefreshCount | tap_autopilot/__init__.py:282-283 | After m full pages and a short page, a full-table sync completes with 1 + m * 100 + (short page size) messages and the state unchanged. |
| Streams.WriteSegments | tap_autopilot/__init__.py:328-334 | The outer loop over the segment rows equals the specification fold of `SegmentStep`, stopping at the first segment that raises. |
| Streams.WriteSegment | tap_autopilot/__init__.py:329-334 | One segment does what `SegmentOnce` says: a row without `segment_id`, or one whose id is not a string, raises; otherwise that segment's contacts are fetched from its own URL and appended, and the inner loop's or the pagination's exception ends it. |
| Streams.WriteSegmentContacts | tap_autopilot/__init__.py:330-334 | The inner loop over a segment's contacts equals the specification fold of `ContactStep`. |
| Streams.SyncSmartSegmentContacts | tap_autopilot/__init__.py:315-336 | The nested loops write what `SegmentContactsSync` says: for each segment, its contacts fetched from that segment's URL, in order. The first exception ends the sync. |
| Streams.SegmentContactsComplete | tap_autopilot/__init__.py:330-334 | The inner loop completes exactly when every contact row has `contact_id`. Otherwise it raises a KeyError on that key. |
| Streams.SegmentContactsRecords | tap_autopilot/__init__.py:330-334 | A completed inner loop writes one record per contact row, in order, pairing the segment id with the row's contact id. |
| Streams.ContactRecordsShape | tap_autopilot/__init__.py:331-334 | Every record of the inner loop holds exactly the segment id and then the contact id. |
| Streams.SegmentRecordsShape | tap_autopilot/__init__.py:328-334 | Every record of the segment contacts stream pairs a string segment id with a contact id, under those two keys. |
| Streams.FullRefreshWritesNoState | tap_autopilot/__init__.py:280-285 | The full-table syncs write no state message. |
| Streams.SegmentContactsWritesNoState | tap_autopilot/__init__.py:323-336 | The segment contacts sync writes no state message. |
| Driver.SyncOne | tap_autopilot/__init__.py:373-385 | The specification of sync: each known id goes to its own sync, and any other id syncs nothing. Its properties are stated by `SyncOneKeepsMarker`. |
| Driver.Sync | tap_autopilot/__init__.py:373-385 | sync dispatches on the stream id to its own sync. An unknown id does nothing. |
| Driver.RunStreams | tap_autopilot/__init__.py:399-404 | The specification of the loop of do_sync: for each stream, the state marking it, then its sync, stopping at the first exception. Its properties are stated by `RunStreamsMarker`, `RunStreamsStart`, `RunStreamsSticks` and `RunStreamsFailureMarker`. |
| Driver.RunSync | tap_autopilot/__init__.py:387-408 | The specification of do_sync. Its properties are stated by `NothingSelected`, `CompletedRunClearsMarker` and `ResumeAfterFailure`. |
| Driver.DoSync | tap_autopilot/__init__.py:387-408 | do_sync equals `RunSync`: resume, select, nothing if none are selected, then for each stream the marked state and its sync, and finally the cleared state. |
| Driver.RunStreamsSticks | tap_autopilot/__init__.py:399-404 | Once a stream has raised, the later streams are not synced. |
| Driver.LastState | tap_autopilot/__init__.py:402 | The state of the last state message written: present exactly when some state was written, it is one of the states written, and no state message follows it. |
| Driver.SyncOneKeepsMarker | tap_autopilot/__init__.py:373-385 | A stream's sync keeps the marker it was given, in its result and in every state it writes. Only the contacts sync changes the state. |
| Driver.RunStreamsFailureMarker | tap_autopilot/__init__.py:399-404 | A loop that raised did so at some stream k: the streams before k completed and stream k raised. The state it reached marks stream k. |
| Driver.RunStreamsMarker | tap_autopilot/__init__.py:399-404 | Over a non-empty list of streams, the last state written and the state reached carry the same marker, the id of one of the streams. When all completed it is the last stream's id. When the loop raised it is the id of the stream k that raised, the first whose sync failed. |
| Driver.NothingSelected | tap_autopilot/__init__.py:392-394 | When no stream to sync is selected, the run writes nothing and leaves the state alone. |
| Driver.CompletedRunClearsMarker | tap_autopilot/__init__.py:399-407 | A completed run over a non-empty selection begins by writing the state marking the first selected stream. It ends by writing the state with the marker cleared. |
| Driver.RunStreamsStart | tap_autopilot/__init__.py:400-402 | The first message of the loop is the state marking the first stream. |
| Driver.ResumeAfterFailure | tap_autopilot/__init__.py:399-404 | After a run that raised, the last state written marks the selected stream that raised. Resuming from that state succeeds and syncs a suffix of the catalog that contains that stream. Unless its id is empty, the suffix starts at a stream with that id, so the failed stream is not skipped. |
| Driver.ResumeWithin | tap_autopilot/__init__.py:348-357 | Resuming from a state that marks a selected stream succeeds and keeps that stream. Unless its id is empty, the suffix starts at that id. |

## Left out

- The body of `request`, `SESSION`, headers, the user agent, and the backoff and rate-limit decorators are left out: they are HTTP I/O. Only the give-up predicate `client_error` and the URL a request goes to are modelled. The API's answers are a parameter (`Api`), and a request that raised after its retries is one response value.
- `metrics` counters and timers, and `LOGGER` and `log_info` calls, are left out: they are logging with no effect on output or state.
- The Singer library (`write_schema`, `write_record`, `write_state`, `get_bookmark`, `write_bookmark`, `set_currently_syncing`, the `metadata` helpers) is not modelled as I/O. Writing is appending to the output sequence. Each stream's `table-key-properties` and `selected` metadata are fields of `Stream`.
- `Pagination.Paginate` and the syncs: Python generators are lazy, and here each pagination run is computed whole before its rows are consumed. Because each URL has its own response sequence, this gives the same messages and the same state as lazy generators. A run that fails partway yields its earlier rows, and they are written before the failure surfaces, exactly as in Python.
- `_transform_datetime`, `strptime_with_tz` and `strftime` are not modelled: timestamps are integer milliseconds and conversion is the identity. An `updated_at` that is not an integer is a NotATimestamp error. A timestamp-property value in `transform_contact` is passed through unchanged.
- Urls.ParseSourceFromUrl: the regex is read with literal dots in the base URL, ASCII `\w`, and no special case for newlines. Parsing happens only on endpoint URLs here. `request` also parses the bookmarked URL to tag its timer, and that is part of the left-out metrics.
- Transform.TransformedFieldwise: requires distinct keys, which every Python dict has. For a listed property whose value is not a map, only a map, an empty list and an empty string iterate without error. Everything else is a NotAMap error. For a non-empty string and for other scalars Python fails as well. A non-empty list differs: Python fails only if an item is not a valid index of the list, such as a string. A list of in-range integer or boolean indices (such as `[0]` or `[1, 0]`) is rewritten by Python into pairs of each index and the item at it.
- Streams.SegmentContactsSync: a segment id that is not a string is a NotAString error. Python would format it into the URL as its text.
- Pagination.PaginateFrom: the run ends when the recorded responses do. Past them, a request raises with no response, which is what makes every run finite. The source's `while True` instead goes on requesting for as long as full pages arrive. For a source without "contact" every request is the same (`NonContactParamsFixed`), so a server that keeps answering it with a full page makes `sync_lists` or `sync_smart_segments` loop forever, writing the same rows again. `FullPagesRunOut` states where the model cuts such a run off.
- `gen_request` is only called with `params` empty: every caller passes none. The model still takes params as an argument.
- `load_schema`, `get_abs_path`, `discover_schemas`, `do_discover`, `main` and setup.py are left out: they are file, CLI and packaging code.
- Floating-point `selected` values (Python's `1.0 == True`) are left out: JSON values here have no floats.
