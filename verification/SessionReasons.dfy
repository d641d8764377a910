// Why the safety gate and the session decide as they do.

module SessionReasons {
  import opened Gate
  import opened Playlist
  import opened Session
  import opened Text

  /** Why the safety gate decides as it does: only the idle state may play, only unknown and no playlist hold. */
  lemma SafetySays(snapshot: Option<string>, playlist: Option<PlayerPlaylist>)
    ensures
      var d := DecideSafety(snapshot, playlist);
      var state := if snapshot.Some? then Lower(Strip(snapshot.value)) else "";
      var known := snapshot.Some? && IsKnown(state);
      && (d.reason == MissingSnapshot <==> snapshot.None?)
      && (d.reason == InvalidSafetyState <==> snapshot.Some? && !known)
      && (d.reason == StateUnknown <==> known && state == "unknown")
      && (d.reason == StateActive <==> known && state != "unknown" && state != "idle")
      && (d.reason == PlaylistNotReady <==> known && state == "idle" && !(playlist.Some? && playlist.value.ready))
      && (d.reason == SafetyReady <==> known && state == "idle" && playlist.Some? && playlist.value.ready)
      && (d.action == Play <==> d.reason == SafetyReady)
      && (d.action == Hold <==> d.reason == StateUnknown || d.reason == PlaylistNotReady)
      && (d.action == Stop <==>
            d.reason == MissingSnapshot || d.reason == InvalidSafetyState || d.reason == StateActive)
      && (d.allowed <==> d.reason == SafetyReady)
  {
    if snapshot.Some? {
      KnownExactly(Lower(Strip(snapshot.value)));
      StopStatesAre(Lower(Strip(snapshot.value)));
      EmptyIsUnknown(snapshot.value);
    }
  }

  lemma StopStatesAre(state: string)
    ensures IsKnown(state) ==> (state in STOP_STATES <==> state != "idle" && state != "unknown")
  {
    assert "idle" !in STOP_STATES && "unknown" !in STOP_STATES;
  }

  lemma EmptyIsUnknown(s: string)
    ensures Strip(s) == "" ==> !IsKnown(Lower(Strip(s)))
  {
    if Strip(s) == "" {
      assert |Lower(Strip(s))| == 0;
      assert forall w | IsKnown(w) :: |w| > 0;
    }
  }

  /** Why a session decision is what it is. */
  lemma SessionSays(playlist: PlayerPlaylist, safety: SafetyDecision, state: Option<SessionState>)
    ensures
      var d := SelectNext(playlist, safety, state);
      var can := safety.allowed && playlist.ready && playlist.items != [];
      var bad := state.Some? && !ValidState(state.value, |playlist.items|);
      && (d.reason == SafetyBlocked <==> !safety.allowed)
      && (d.reason == SessionPlaylistNotReady <==> safety.allowed && !playlist.ready)
      && (d.reason == NoItems <==> safety.allowed && playlist.ready && playlist.items == [])
      && (d.reason == InvalidSessionState <==> can && bad) && (d.reason == SessionReady <==> can && !bad)
      && (d.action == Stop <==> d.reason == SafetyBlocked) && (d.action == Play <==> d.reason == SessionReady)
      && (d.allowed <==> d.reason == SessionReady)
      && (d.selected.Some? <==> d.allowed) && (d.nextIndex.Some? <==> d.allowed)
      && (!d.allowed ==> d.cycleCount == 0)
  {
  }

  /** Which states select_next_item goes on from. */
  lemma StateIsValidExactly(state: SessionState, n: nat)
    ensures ValidState(state, n) <==>
      && state.cycleCount >= 0 && (state.currentIndex.None? || 0 <= state.currentIndex.value <= n - 1)
      && (state.lastId.None? || ValidNote(state.lastId))
  {
  }
}
