/**
 * The parts of the Singer protocol the tap uses: the messages it writes to
 * its output, and the state it reads bookmarks and the resume marker from.
 * Writing a message is appending it to the output sequence.
 */
module Singer {
  import opened Wrappers
  import opened Json
  import opened Errors

  /** A catalog entry: its id, schema, and the `table-key-properties` and `selected` metadata of its root. */
  datatype Stream = Stream(id: string, schema: Value, keyProperties: Option<seq<string>>, selected: Option<Value>)

  /** The state: integer bookmarks per stream and key, and the stream a sync was interrupted in. */
  datatype State = State(bookmarks: map<string, map<string, int>>, currentlySyncing: Option<string>)

  datatype Message =
    | SchemaMessage(stream: string, schema: Value, keyProperties: Option<seq<string>>)
    | RecordMessage(stream: string, record: Object)
    | StateMessage(state: State)

  /** Output written so far, the state reached, and the exception that ended the run, if any. */
  datatype SyncResult = SyncResult(out: seq<Message>, state: State, failure: Option<TapError>)

  /** `singer.get_bookmark`: None when the stream or the key has no bookmark. */
  function GetBookmark(state: State, stream: string, key: string): Option<int>
  {
    if stream in state.bookmarks && key in state.bookmarks[stream] then Some(state.bookmarks[stream][key])
    else None
  }

  /** `singer.write_bookmark`: sets one bookmark, creating the stream's entry when missing. */
  function WriteBookmark(state: State, stream: string, key: string, value: int): (r: State)
    ensures GetBookmark(r, stream, key) == Some(value)
    ensures forall s, k :: (s != stream || k != key) ==> GetBookmark(r, s, k) == GetBookmark(state, s, k)
    ensures r.currentlySyncing == state.currentlySyncing
  {
    var entry := if stream in state.bookmarks then state.bookmarks[stream] else map[];
    State(state.bookmarks[stream := entry[key := value]], state.currentlySyncing)
  }

  /** `singer.set_currently_syncing`. */
  function SetCurrentlySyncing(state: State, stream: Option<string>): State
  {
    State(state.bookmarks, stream)
  }

  /** Every state message in `out` carries the resume marker `marker`. */
  predicate MarksOnly(out: seq<Message>, marker: Option<string>)
  {
    forall j :: 0 <= j < |out| && out[j].StateMessage? ==> out[j].state.currentlySyncing == marker
  }

  lemma MarksOnlyConcat(a: seq<Message>, b: seq<Message>, marker: Option<string>)
    requires MarksOnly(a, marker) && MarksOnly(b, marker)
    ensures MarksOnly(a + b, marker)
  {
    forall j | 0 <= j < |a + b| && (a + b)[j].StateMessage?
      ensures (a + b)[j].state.currentlySyncing == marker
    {
      if j >= |a| {
        assert (a + b)[j] == b[j - |a|];
      }
    }
  }
}
