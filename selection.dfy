/**
 * Which catalog streams a run syncs: resuming from the stream an
 * interrupted run was syncing, then keeping the streams marked selected.
 */
module Selection {
  import opened Wrappers
  import opened Json
  import opened Errors
  import opened Seqs
  import opened Singer

  /** `itertools.dropwhile(lambda x: x.get('tap_stream_id') != id, streams)`: the suffix from the first stream with `id`. */
  function DropUntilId(streams: seq<Stream>, id: string): (r: seq<Stream>)
    ensures |r| <= |streams| && r == streams[|streams| - |r|..]
    ensures |r| > 0 ==> r[0].id == id
    ensures forall j :: 0 <= j < |streams| - |r| ==> streams[j].id != id
    decreases |streams|
  {
    if |streams| == 0 then []
    else if streams[0].id != id then DropUntilId(streams[1..], id)
    else streams
  }

  /** Every stream with `id` is in the suffix. */
  lemma DropUntilIdKeeps(streams: seq<Stream>, id: string, s: Stream)
    requires s in streams && s.id == id
    ensures s in DropUntilId(streams, id)
  {
    var r := DropUntilId(streams, id);
    var m :| 0 <= m < |streams| && streams[m] == s;
    var k := |streams| - |r|;
    assert k <= m;
    assert r[m - k] == streams[k..][m - k];
  }

  /** `if current_stream:` — a marker that is None or empty means there is nothing to resume. */
  predicate Resuming(state: State)
  {
    state.currentlySyncing.Some? && state.currentlySyncing.value != ""
  }

  /**
   * get_streams_to_sync: the whole catalog, or, when resuming, the catalog
   * from the first stream with the marked id; an empty result is an error.
   */
  function GetStreamsToSync(streams: seq<Stream>, state: State): (r: Result<seq<Stream>, TapError>)
    ensures !Resuming(state) ==> (r.Ok? <==> |streams| > 0) && (r.Ok? ==> r.value == streams)
    ensures Resuming(state) ==>
      && (r.Ok? <==> exists j :: 0 <= j < |streams| && streams[j].id == state.currentlySyncing.value)
      && (r.Ok? ==> && 0 < |r.value| <= |streams| && r.value == streams[|streams| - |r.value|..]
                    && r.value[0].id == state.currentlySyncing.value
                    && forall j :: 0 <= j < |streams| - |r.value| ==> streams[j].id != state.currentlySyncing.value)
    ensures r.Err? ==> r.error == UnknownStream(state.currentlySyncing)
  {
    var result := if Resuming(state) then DropUntilId(streams, state.currentlySyncing.value) else streams;
    assert Resuming(state) && |result| > 0 ==> streams[|streams| - |result|].id == state.currentlySyncing.value;
    if |result| == 0 then Err(UnknownStream(state.currentlySyncing)) else Ok(result)
  }

  /** The streams a run syncs come from the catalog. */
  lemma ResumedFromCatalog(streams: seq<Stream>, state: State, s: Stream)
    requires GetStreamsToSync(streams, state).Ok? && s in GetStreamsToSync(streams, state).value
    ensures s in streams
  {
    var r := GetStreamsToSync(streams, state).value;
    var m :| 0 <= m < |r| && r[m] == s;
    var k := |streams| - |r|;
    assert r[m] == streams[k..][m];
  }

  /** A stream of the catalog whose id is the marker survives the resume. */
  lemma ResumeKeeps(streams: seq<Stream>, state: State, s: Stream)
    requires s in streams && state.currentlySyncing == Some(s.id)
    ensures GetStreamsToSync(streams, state).Ok? && s in GetStreamsToSync(streams, state).value
  {
    if Resuming(state) {
      DropUntilIdKeeps(streams, s.id, s);
    }
  }

  /** Python's `selected == True`, which `1` also satisfies. */
  predicate IsSelected(s: Stream)
  {
    s.selected == Some(JBool(true)) || s.selected == Some(JInt(1))
  }

  /** get_selected_streams: the selected streams, in catalog order. */
  method GetSelectedStreams(remaining: seq<Stream>) returns (selected: seq<Stream>)
    ensures selected == Filter(remaining, IsSelected)
    ensures forall s :: s in selected <==> s in remaining && IsSelected(s)
  {
    selected := [];
    var i := 0;
    while i < |remaining|
      invariant 0 <= i <= |remaining|
      invariant selected == Filter(remaining[..i], IsSelected)
    {
      var stream := remaining[i];
      assert remaining[..i + 1][..i] == remaining[..i];
      if IsSelected(stream) {
        selected := selected + [stream];
      }
      i := i + 1;
    }
    assert remaining[..i] == remaining;
    forall s
      ensures s in selected <==> s in remaining && IsSelected(s)
    {
      FilterMembership(remaining, IsSelected, s);
    }
  }
}
