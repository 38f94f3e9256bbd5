/**
 * sync and do_sync: the run over the selected streams. Before each stream
 * the state marks it as the one being synced and is written out; after the
 * last one the mark is cleared and the state written once more.
 */
module Driver {
  import opened Wrappers
  import opened Seqs
  import opened Pagination
  import opened Singer
  import opened Contacts
  import opened Selection
  import opened Streams

  /** sync: the stream's own sync, chosen by its id; an unknown id syncs nothing. */
  function SyncOne(state: State, stream: Stream, api: Api, startDate: int): SyncResult
  {
    if stream.id == "contacts" then ContactsSync(state, stream, api, startDate)
    else if stream.id == "lists" then FullRefresh(state, "lists", "list_id", stream, api)
    else if stream.id == "smart_segments" then FullRefresh(state, "smart_segments", "segment_id", stream, api)
    else if stream.id == SEGMENT_CONTACTS then SegmentContactsSync(state, stream, api)
    else SyncResult([], state, None)
  }

  method Sync(state: State, stream: Stream, api: Api, startDate: int) returns (r: SyncResult)
    ensures r == SyncOne(state, stream, api, startDate)
  {
    if stream.id == "contacts" {
      r := SyncContacts(state, stream, api, startDate);
    } else if stream.id == "lists" {
      r := SyncFullRefresh(state, "lists", "list_id", stream, api);
    } else if stream.id == "smart_segments" {
      r := SyncFullRefresh(state, "smart_segments", "segment_id", stream, api);
    } else if stream.id == SEGMENT_CONTACTS {
      r := SyncSmartSegmentContacts(state, stream, api);
    } else {
      r := SyncResult([], state, None);
    }
  }

  /** The loop of do_sync over `streams`, stopping at the first exception. */
  function RunStreams(state: State, streams: seq<Stream>, api: Api, startDate: int): SyncResult
    decreases |streams|
  {
    if |streams| == 0 then SyncResult([], state, None)
    else
      var prev := RunStreams(state, streams[..|streams| - 1], api, startDate);
      if prev.failure.Some? then prev
      else
        var marked := SetCurrentlySyncing(prev.state, Some(streams[|streams| - 1].id));
        var r := SyncOne(marked, streams[|streams| - 1], api, startDate);
        SyncResult(prev.out + [StateMessage(marked)] + r.out, r.state, r.failure)
  }

  /** do_sync over `catalog`, starting from `state`. */
  function RunSync(state: State, catalog: seq<Stream>, api: Api, startDate: int): SyncResult
  {
    match GetStreamsToSync(catalog, state)
    case Err(e) => SyncResult([], state, Some(e))
    case Ok(remaining) =>
      var selected := Filter(remaining, IsSelected);
      if |selected| == 0 then SyncResult([], state, None)
      else
        var run := RunStreams(state, selected, api, startDate);
        if run.failure.Some? then run
        else
          var cleared := SetCurrentlySyncing(run.state, None);
          SyncResult(run.out + [StateMessage(cleared)], cleared, None)
  }

  method DoSync(state: State, catalog: seq<Stream>, api: Api, startDate: int) returns (r: SyncResult)
    ensures r == RunSync(state, catalog, api, startDate)
  {
    var remaining := GetStreamsToSync(catalog, state);
    if remaining.Err? {
      return SyncResult([], state, Some(remaining.error));
    }
    var selected := GetSelectedStreams(remaining.value);
    if |selected| < 1 {
      return SyncResult([], state, None);
    }
    var current := state;
    var out: seq<Message> := [];
    var i := 0;
    while i < |selected|
      invariant 0 <= i <= |selected|
      invariant RunStreams(state, selected[..i], api, startDate) == SyncResult(out, current, None)
    {
      var stream := selected[i];
      RunStreamsSnoc(state, selected, api, startDate, i);
      current := SetCurrentlySyncing(current, Some(stream.id));
      out := out + [StateMessage(current)];
      var result := Sync(current, stream, api, startDate);
      out := out + result.out;
      current := result.state;
      if result.failure.Some? {
        RunStreamsSticks(state, selected, api, startDate, i + 1);
        return SyncResult(out, current, result.failure);
      }
      i := i + 1;
    }
    assert selected[..i] == selected;
    current := SetCurrentlySyncing(current, None);
    out := out + [StateMessage(current)];
    return SyncResult(out, current, None);
  }

  /** The loop over one more stream. */
  lemma RunStreamsSnoc(state: State, streams: seq<Stream>, api: Api, startDate: int, i: nat)
    requires i < |streams|
    ensures var prev := RunStreams(state, streams[..i], api, startDate);
      var marked := SetCurrentlySyncing(prev.state, Some(streams[i].id));
      var r := SyncOne(marked, streams[i], api, startDate);
      RunStreams(state, streams[..i + 1], api, startDate)
        == if prev.failure.Some? then prev else SyncResult(prev.out + [StateMessage(marked)] + r.out, r.state, r.failure)
  {
    assert streams[..i + 1][..i] == streams[..i];
  }

  /** Once a stream has raised, the later streams are not synced. */
  lemma {:induction false} RunStreamsSticks(state: State, streams: seq<Stream>, api: Api, startDate: int, m: nat)
    requires m <= |streams|
    requires RunStreams(state, streams[..m], api, startDate).failure.Some?
    ensures RunStreams(state, streams, api, startDate) == RunStreams(state, streams[..m], api, startDate)
    decreases |streams| - m
  {
    if m < |streams| {
      assert streams[..m + 1][..m] == streams[..m];
      RunStreamsSticks(state, streams, api, startDate, m + 1);
    } else {
      assert streams[..m] == streams;
    }
  }

  // ----- the resume marker -----

  /** The ids of `streams`, in order. */
  function Ids(streams: seq<Stream>): (r: seq<string>)
    ensures |r| == |streams|
    ensures forall i :: 0 <= i < |streams| ==> r[i] == streams[i].id
    decreases |streams|
  {
    if |streams| == 0 then [] else Ids(streams[..|streams| - 1]) + [streams[|streams| - 1].id]
  }

  /** The state of the last state message in `out`: what a runner keeps for the next run. */
  function LastState(out: seq<Message>): (r: Option<State>)
    ensures r.Some? <==> exists j :: 0 <= j < |out| && out[j].StateMessage?
    ensures r.Some? ==> exists j :: (0 <= j < |out| && out[j] == StateMessage(r.value)
                                     && forall k :: j < k < |out| ==> !out[k].StateMessage?)
    decreases |out|
  {
    if |out| == 0 then None
    else if out[|out| - 1].StateMessage? then Some(out[|out| - 1].state)
    else
      var r := LastState(out[..|out| - 1]);
      assert forall j :: 0 <= j < |out| - 1 ==> out[..|out| - 1][j] == out[j];
      if r.Some? then LastStateExtends(out, out[..|out| - 1], r.value); r else r
  }

  /** A message that is not a state message, appended, keeps the last state message last. */
  lemma LastStateExtends(out: seq<Message>, init: seq<Message>, s: State)
    requires |out| > 0 && init == out[..|out| - 1] && !out[|out| - 1].StateMessage?
    requires exists j :: (0 <= j < |init| && init[j] == StateMessage(s)
                          && forall k :: j < k < |init| ==> !init[k].StateMessage?)
    ensures exists j :: (0 <= j < |out| && out[j] == StateMessage(s)
                         && forall k :: j < k < |out| ==> !out[k].StateMessage?)
  {
    var j :| 0 <= j < |init| && init[j] == StateMessage(s)
             && forall k :: j < k < |init| ==> !init[k].StateMessage?;
    forall k | j < k < |out|
      ensures !out[k].StateMessage?
    {
      if k < |init| {
        assert init[k] == out[k];
      }
    }
    assert out[j] == StateMessage(s) by {
      assert init[j] == out[j];
    }
  }

  lemma {:induction false} LastStateConcat(a: seq<Message>, b: seq<Message>)
    ensures LastState(a + b) == if LastState(b).Some? then LastState(b) else LastState(a)
    decreases |b|
  {
    if |b| == 0 {
      assert a + b == a;
    } else {
      assert (a + b)[..|a + b| - 1] == a + b[..|b| - 1];
      if !b[|b| - 1].StateMessage? {
        LastStateConcat(a, b[..|b| - 1]);
      }
    }
  }

  /** A stream's own sync keeps the marker it was given, in its state and in every state it writes. */
  lemma SyncOneKeepsMarker(state: State, stream: Stream, api: Api, startDate: int)
    ensures SyncOne(state, stream, api, startDate).state.currentlySyncing == state.currentlySyncing
    ensures MarksOnly(SyncOne(state, stream, api, startDate).out, state.currentlySyncing)
    ensures stream.id != "contacts" ==> SyncOne(state, stream, api, startDate).state == state
  {
    if stream.id == "contacts" {
      ContactsSyncOutcome(state, stream, api, startDate);
      ContactsSyncKeepsMarker(state, stream, api, startDate);
    } else if stream.id == "lists" {
      FullRefreshWritesNoState(state, "lists", "list_id", stream, api);
    } else if stream.id == "smart_segments" {
      FullRefreshWritesNoState(state, "smart_segments", "segment_id", stream, api);
    } else if stream.id == SEGMENT_CONTACTS {
      SegmentContactsWritesNoState(state, stream, api);
    }
  }

  /** The loop completed the streams before the one at `k`, and raised on that one. */
  predicate RaisedAt(state: State, streams: seq<Stream>, api: Api, startDate: int, k: int)
  {
    0 <= k < |streams|
    && RunStreams(state, streams[..k], api, startDate).failure.None?
    && RunStreams(state, streams[..k + 1], api, startDate).failure.Some?
  }

  /** A loop that raised did so at some stream, and the state it reached marks that stream. */
  lemma {:induction false} RunStreamsFailureMarker(state: State, streams: seq<Stream>, api: Api, startDate: int)
    requires RunStreams(state, streams, api, startDate).failure.Some?
    ensures exists k :: (RaisedAt(state, streams, api, startDate, k)
                         && RunStreams(state, streams, api, startDate).state.currentlySyncing == Some(streams[k].id))
    decreases |streams|
  {
    var n := |streams| - 1;
    var init := streams[..n];
    assert streams[..n + 1] == streams;
    if RunStreams(state, init, api, startDate).failure.Some? {
      RunStreamsSticks(state, streams, api, startDate, n);
      RunStreamsFailureMarker(state, init, api, startDate);
      var k :| RaisedAt(state, init, api, startDate, k)
        && RunStreams(state, init, api, startDate).state.currentlySyncing == Some(init[k].id);
      RaisedAtExtends(state, streams, api, startDate, k);
    } else {
      RunStreamsSnoc(state, streams, api, startDate, n);
      var marked := SetCurrentlySyncing(RunStreams(state, init, api, startDate).state, Some(streams[n].id));
      SyncOneKeepsMarker(marked, streams[n], api, startDate);
      assert RaisedAt(state, streams, api, startDate, n);
    }
  }

  /** Where the loop over all but the last stream raised, the loop over all of them raised too. */
  lemma RaisedAtExtends(state: State, streams: seq<Stream>, api: Api, startDate: int, k: int)
    requires |streams| > 0 && RaisedAt(state, streams[..|streams| - 1], api, startDate, k)
    ensures RaisedAt(state, streams, api, startDate, k) && streams[k] == streams[..|streams| - 1][k]
  {
    var init := streams[..|streams| - 1];
    assert streams[..k] == init[..k];
    assert streams[..k + 1] == init[..k + 1];
  }

  /**
   * Over a non-empty list of streams, the last state written and the state
   * reached carry the same marker, an id of one of the streams: the last
   * one when all completed, and otherwise the one that raised.
   */
  lemma {:induction false} RunStreamsMarker(state: State, streams: seq<Stream>, api: Api, startDate: int)
    requires |streams| > 0
    ensures var r := RunStreams(state, streams, api, startDate);
      && LastState(r.out).Some?
      && LastState(r.out).value.currentlySyncing == r.state.currentlySyncing
      && r.state.currentlySyncing.Some? && r.state.currentlySyncing.value in Ids(streams)
      && (r.failure.None? ==> r.state.currentlySyncing == Some(streams[|streams| - 1].id))
      && (r.failure.Some? ==> exists k :: (RaisedAt(state, streams, api, startDate, k)
                                           && r.state.currentlySyncing == Some(streams[k].id)))
    decreases |streams|
  {
    if RunStreams(state, streams, api, startDate).failure.Some? {
      RunStreamsFailureMarker(state, streams, api, startDate);
    }
    var init := streams[..|streams| - 1];
    var last := streams[|streams| - 1];
    var prev := RunStreams(state, init, api, startDate);
    assert Ids(streams) == Ids(init) + [last.id];
    if |init| > 0 {
      RunStreamsMarker(state, init, api, startDate);
    }
    if prev.failure.None? {
      var marked := SetCurrentlySyncing(prev.state, Some(last.id));
      var r := SyncOne(marked, last, api, startDate);
      SyncOneKeepsMarker(marked, last, api, startDate);
      LastStateConcat(prev.out + [StateMessage(marked)], r.out);
      LastStateConcat(prev.out, [StateMessage(marked)]);
      if LastState(r.out).Some? {
        var j :| 0 <= j < |r.out| && r.out[j] == StateMessage(LastState(r.out).value);
      }
    }
  }

  // ----- what a run does -----

  /** With nothing selected (after resuming), a run writes nothing and leaves the state alone. */
  lemma NothingSelected(state: State, catalog: seq<Stream>, api: Api, startDate: int)
    requires GetStreamsToSync(catalog, state).Ok?
    requires forall s :: s in GetStreamsToSync(catalog, state).value ==> !IsSelected(s)
    ensures RunSync(state, catalog, api, startDate) == SyncResult([], state, None)
  {
    var remaining := GetStreamsToSync(catalog, state).value;
    if |Filter(remaining, IsSelected)| > 0 {
      var s := Filter(remaining, IsSelected)[0];
      FilterMembership(remaining, IsSelected, s);
    }
  }

  /**
   * A run that completes over a non-empty selection starts by marking the
   * first selected stream and ends with a state whose marker is cleared.
   */
  lemma CompletedRunClearsMarker(state: State, catalog: seq<Stream>, api: Api, startDate: int)
    requires GetStreamsToSync(catalog, state).Ok?
    requires |Filter(GetStreamsToSync(catalog, state).value, IsSelected)| > 0
    requires RunSync(state, catalog, api, startDate).failure.None?
    ensures var r := RunSync(state, catalog, api, startDate);
      var selected := Filter(GetStreamsToSync(catalog, state).value, IsSelected);
      && r.state.currentlySyncing.None?
      && |r.out| >= 2
      && r.out[|r.out| - 1] == StateMessage(r.state)
      && r.out[0] == StateMessage(SetCurrentlySyncing(state, Some(selected[0].id)))
  {
    var selected := Filter(GetStreamsToSync(catalog, state).value, IsSelected);
    RunStreamsStart(state, selected, api, startDate);
  }

  /** The first message of a run over streams marks the first of them. */
  lemma {:induction false} RunStreamsStart(state: State, streams: seq<Stream>, api: Api, startDate: int)
    requires |streams| > 0
    ensures var r := RunStreams(state, streams, api, startDate);
      |r.out| >= 1 && r.out[0] == StateMessage(SetCurrentlySyncing(state, Some(streams[0].id)))
    decreases |streams|
  {
    var init := streams[..|streams| - 1];
    if |init| > 0 {
      RunStreamsStart(state, init, api, startDate);
      assert init[0] == streams[0];
    }
  }

  /**
   * After a run that raised, the last state it wrote marks the selected
   * stream that raised. Resuming from that state succeeds, syncs a suffix of
   * the catalog that contains that stream and, unless its id is empty (which
   * marks nothing), starts at a stream with that id.
   */
  lemma ResumeAfterFailure(state: State, catalog: seq<Stream>, api: Api, startDate: int)
    requires GetStreamsToSync(catalog, state).Ok?
    requires RunSync(state, catalog, api, startDate).failure.Some?
    ensures var r := RunSync(state, catalog, api, startDate);
      var selected := Filter(GetStreamsToSync(catalog, state).value, IsSelected);
      && LastState(r.out).Some?
      && exists k :: (RaisedAt(state, selected, api, startDate, k)
                      && LastState(r.out).value.currentlySyncing == Some(selected[k].id)
                      && GetStreamsToSync(catalog, LastState(r.out).value).Ok?
                      && selected[k] in GetStreamsToSync(catalog, LastState(r.out).value).value
                      && (selected[k].id != "" ==>
                            GetStreamsToSync(catalog, LastState(r.out).value).value[0].id == selected[k].id))
  {
    var selected := Filter(GetStreamsToSync(catalog, state).value, IsSelected);
    RunSyncRaised(state, catalog, api, startDate);
    RunStreamsMarker(state, selected, api, startDate);
    var run := RunStreams(state, selected, api, startDate);
    var k :| RaisedAt(state, selected, api, startDate, k) && run.state.currentlySyncing == Some(selected[k].id);
    ResumeWithin(catalog, state, selected, LastState(run.out).value, k);
  }

  /** A run that raised is the loop over a non-empty selection, which raised. */
  lemma RunSyncRaised(state: State, catalog: seq<Stream>, api: Api, startDate: int)
    requires GetStreamsToSync(catalog, state).Ok?
    requires RunSync(state, catalog, api, startDate).failure.Some?
    ensures var selected := Filter(GetStreamsToSync(catalog, state).value, IsSelected);
      |selected| > 0 && RunSync(state, catalog, api, startDate) == RunStreams(state, selected, api, startDate)
  {
  }

  /** Resuming from a state that marks the selected stream at `k` keeps that stream, and starts at its id. */
  lemma ResumeWithin(catalog: seq<Stream>, state: State, selected: seq<Stream>, last: State, k: nat)
    requires GetStreamsToSync(catalog, state).Ok?
    requires selected == Filter(GetStreamsToSync(catalog, state).value, IsSelected)
    requires k < |selected| && last.currentlySyncing == Some(selected[k].id)
    ensures GetStreamsToSync(catalog, last).Ok?
    ensures selected[k] in GetStreamsToSync(catalog, last).value
    ensures selected[k].id != "" ==> GetStreamsToSync(catalog, last).value[0].id == selected[k].id
  {
    var s := selected[k];
    FilterMembership(GetStreamsToSync(catalog, state).value, IsSelected, s);
    ResumedFromCatalog(catalog, state, s);
    ResumeKeeps(catalog, last, s);
  }
}
