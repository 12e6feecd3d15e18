/** The reworked player, `components/VideoPlayer_NEW.tsx`. It differs from
    the classic one in four ways the model keeps: the controls never hide in
    audio-only mode, navigation also shows the controls, a retry raises no
    alert, and `canplay` clears the spinner only when its delayed start
    fires. It also prunes unfinished new-learning playlists from storage
    when the current item has no catalog record. */
module VideoPlayerNew {
  import opened Wrappers
  import opened Types
  import opened Persistence
  import opened Playback

  /** `hideControlsAfterDelay`: in audio-only mode the controls are forced
      visible and nothing is scheduled; otherwise any pending hide is
      replaced by a new one. */
  function HideControlsAfterDelay(s: Session): (r: Session)
    ensures s.audioOnlyMode ==> r == s.(showControls := true)
    ensures !s.audioOnlyMode ==> r == s.(hidePending := true)
  {
    if s.audioOnlyMode then s.(showControls := true) else s.(hidePending := true)
  }

  /** `showControlsTemporarily`. */
  function ShowControlsTemporarily(s: Session): (r: Session)
    ensures r.showControls
    ensures r.hidePending <==> s.hidePending || !s.audioOnlyMode
    ensures r.(showControls := s.showControls, hidePending := s.hidePending) == s
  {
    var shown := s.(showControls := true);
    if !s.audioOnlyMode then HideControlsAfterDelay(shown) else shown
  }

  /** `goToPrevious`: step back if possible, then show the controls. */
  function GoToPrevious(s: Session): (r: Session)
    ensures r.currentIndex == (if s.currentIndex > 0 then s.currentIndex - 1 else s.currentIndex)
    ensures r == ShowControlsTemporarily(s.(currentIndex := r.currentIndex))
  {
    ShowControlsTemporarily(if s.currentIndex > 0 then s.(currentIndex := s.currentIndex - 1) else s)
  }

  /** `goToNext`: advance or report completion, then show the controls in
      either case. */
  function GoToNext(s: Session, length: int): (r: Step)
    ensures r.completed <==> s.currentIndex >= length - 1
    ensures r.next.currentIndex == (if r.completed then s.currentIndex else s.currentIndex + 1)
    ensures r.next == ShowControlsTemporarily(s.(currentIndex := r.next.currentIndex))
  {
    if s.currentIndex < length - 1 then
      Step(ShowControlsTemporarily(s.(currentIndex := s.currentIndex + 1)), false)
    else
      Step(ShowControlsTemporarily(s), true)
  }

  /** Next as evidently intended: like the classic player's, advancing
      clears the error so that the next item is loaded. */
  function GoToNextIntended(s: Session, length: int): (r: Step)
    ensures r.completed <==> s.currentIndex >= length - 1
    ensures r.completed ==> r == GoToNext(s, length)
    ensures !r.completed ==> r.next == GoToNext(s, length).next.(videoError := false)
  {
    if s.currentIndex < length - 1 then
      Step(ShowControlsTemporarily(s.(currentIndex := s.currentIndex + 1, videoError := false)), false)
    else
      GoToNext(s, length)
  }

  /** `handleVideoEnded`: like next, without touching the controls. */
  function HandleEnded(s: Session, length: int): (r: Step)
    ensures r.completed <==> s.currentIndex >= length - 1
    ensures r.completed ==> r.next == s
    ensures !r.completed ==> r.next == s.(currentIndex := s.currentIndex + 1)
  {
    if s.currentIndex < length - 1 then Step(s.(currentIndex := s.currentIndex + 1), false)
    else Step(s, true)
  }

  /** The result of `retryVideo`: the new state, and whether it reset and
      reloaded the element's source. */
  datatype Retried = Retried(next: Session, reloadsSource: bool)

  /** `retryVideo`: spends one retry if any is left; shows the controls
      either way and never alerts. The source is reloaded only behind
      `videoRef.current && currentVideo`, that is while the element is
      mounted. */
  function RetryVideo(s: Session, resolved: seq<bool>): (r: Retried)
    ensures RetryAllowed(s) ==>
              r.next == ShowControlsTemporarily(s.(retryCount := s.retryCount + 1, videoError := false, isLoading := true))
    ensures !RetryAllowed(s) ==> r.next == ShowControlsTemporarily(s)
    ensures r.reloadsSource <==> RetryAllowed(s) && Mounted(s, resolved)
  {
    if s.retryCount < MaxRetries then
      Retried(ShowControlsTemporarily(s.(retryCount := s.retryCount + 1, videoError := false, isLoading := true)),
              Mounted(s, resolved))
    else
      Retried(ShowControlsTemporarily(s), false)
  }

  /** The retry as evidently intended: the same state, and the source
      reloaded whenever a retry is spent on a resolving item. */
  function RetryVideoIntended(s: Session, resolved: seq<bool>): (r: Retried)
    ensures r.next == RetryVideo(s, resolved).next
    ensures r.reloadsSource <==> RetryAllowed(s) && Resolves(resolved, s.currentIndex)
  {
    Retried(RetryVideo(s, resolved).next, s.retryCount < MaxRetries && Resolves(resolved, s.currentIndex))
  }

  /** The delayed start `canplay` schedules: its delay, and whether it also
      starts playback. */
  datatype DelayedStart = DelayedStart(delayMs: nat, play: bool)

  datatype CanPlayResult = CanPlayResult(next: Session, start: Option<DelayedStart>)

  /** `handleCanPlay`: after a user gesture the spinner stays until the
      delayed start fires; before one it goes at once. The error flag is
      left alone. */
  function HandleCanPlay(s: Session, initialIndex: int, isIOS: bool): (r: CanPlayResult)
    ensures r.start.Some? <==> s.userInteracted
    ensures s.userInteracted ==>
              r.next == s && r.start.value == DelayedStart(PlayDelay(isIOS), s.currentIndex >= initialIndex)
    ensures !s.userInteracted ==> r.next == s.(isLoading := false)
  {
    if s.userInteracted then CanPlayResult(s, Some(DelayedStart(PlayDelay(isIOS), s.currentIndex >= initialIndex)))
    else CanPlayResult(s.(isLoading := false), None)
  }

  /** The `play` event. */
  function HandlePlay(s: Session): (r: Session)
    ensures r.isPlaying
    ensures r == HideControlsAfterDelay(s.(isPlaying := true))
    ensures s.audioOnlyMode ==> r.showControls && r.hidePending == s.hidePending
  {
    HideControlsAfterDelay(s.(isPlaying := true))
  }

  /** `togglePlay`: the button is disabled while loading; the play or pause
      it requests arrives as its own media event. */
  function TogglePlay(s: Session): (r: Session)
    ensures s.isLoading ==> r == s
    ensures !s.isLoading ==> r == ShowControlsTemporarily(s)
  {
    if s.isLoading then s else ShowControlsTemporarily(s)
  }

  /** The overlay is drawn while there is no error and the controls are
      shown or the player is in audio-only mode. */
  predicate OverlayVisible(s: Session) {
    !s.videoError && (s.showControls || s.audioOnlyMode)
  }

  datatype Event =
    | Next
    | Previous
    | Ended
    | Retry
    | MediaError
    | CanPlay
    | StartTimer
    | Played
    | Paused
    | HideTimer
    | Tap          // a click or touch on the video or the audio panel
    | TogglePlay
    | Seek
    | Interaction

  /** The playlist length, the resume index, the platform, and which
      playlist positions resolve to a catalog record. */
  datatype Context = Context(length: int, initialIndex: int, isIOS: bool, resolved: seq<bool>)

  function Handle(s: Session, e: Event, ctx: Context): (r: Step)
    ensures r.completed <==> (e.Next? || e.Ended?) && s.currentIndex >= ctx.length - 1
    ensures r.next.audioOnlyMode == s.audioOnlyMode
  {
    match e
    case Next => GoToNext(s, ctx.length)
    case Previous => Step(GoToPrevious(s), false)
    case Ended => HandleEnded(s, ctx.length)
    case Retry => Step(RetryVideo(s, ctx.resolved).next, false)
    case MediaError => Step(OnError(s), false)
    case CanPlay => Step(HandleCanPlay(s, ctx.initialIndex, ctx.isIOS).next, false)
    case StartTimer => Step(LoadingDone(s), false)
    case Played => Step(HandlePlay(s), false)
    case Paused => Step(OnPause(s), false)
    case HideTimer => Step(HideTimerFires(s), false)
    case Tap => Step(ShowControlsTemporarily(s), false)
    case TogglePlay => Step(TogglePlay(s), false)
    case Seek => Step(ShowControlsTemporarily(s), false)
    case Interaction => Step(s.(userInteracted := true), false)
  }

  /** One event, then the load effect when its dependencies changed. The
      audio-only mode is fixed for the player's lifetime. */
  function Dispatch(s: Session, e: Event, ctx: Context): (r: Step)
    ensures r.completed <==> (e.Next? || e.Ended?) && s.currentIndex >= ctx.length - 1
    ensures r.next.audioOnlyMode == s.audioOnlyMode
  {
    var st := Handle(s, e, ctx);
    Step(Settle(s, st.next, ctx.resolved), st.completed)
  }

  /** Without an error shown, moving to another item that resolves to a
      record resets the spinner and the retry budget, and shows the
      controls. */
  lemma NextReloadsItem(s: Session, ctx: Context)
    requires 0 <= s.currentIndex < ctx.length - 1 && !s.videoError
    requires Resolves(ctx.resolved, s.currentIndex + 1)
    ensures var r := Dispatch(s, Next, ctx).next;
            && r.currentIndex == s.currentIndex + 1 && r.showControls
            && !r.videoError && r.isLoading && r.retryCount == 0
  {
  }

  /** The error screen's skip button calls `goToNext`, which leaves the
      error set; the element stays unmounted, so the load effect does
      nothing. The error screen stays up over the next item, with the old
      item's retry count, and that item is never loaded. */
  lemma SkipFromErrorScreenKeepsError(s: Session, ctx: Context)
    requires 0 <= s.currentIndex < ctx.length - 1 && s.videoError
    ensures var r := Dispatch(s, Next, ctx).next;
            && r.currentIndex == s.currentIndex + 1
            && r.videoError && r.retryCount == s.retryCount && r.isLoading == s.isLoading
  {
  }

  /** With the intended next, skipping from the error screen to a resolving
      item loads it with a fresh retry budget. */
  lemma IntendedSkipLoadsNextItem(s: Session, ctx: Context)
    requires 0 <= s.currentIndex < ctx.length - 1 && Resolves(ctx.resolved, s.currentIndex + 1)
    ensures var r := Settle(s, GoToNextIntended(s, ctx.length).next, ctx.resolved);
            && r.currentIndex == s.currentIndex + 1
            && !r.videoError && r.isLoading && r.retryCount == 0
  {
  }

  /** A retry from the error screen reloads nothing as written: the element
      is unmounted and no dependency of the load effect changes, so the
      spinner stays up over an element with no source. Once the user has
      interacted, further gestures change nothing. */
  lemma RetryFromErrorScreenNeverReloads(s: Session, ctx: Context)
    requires s.videoError && RetryAllowed(s)
    ensures var r := RetryVideo(s, ctx.resolved);
            && !r.reloadsSource
            && Dispatch(s, Retry, ctx).next == r.next
            && (s.userInteracted ==> Dispatch(r.next, Interaction, ctx).next == r.next)
            && r.next.isLoading && !r.next.videoError
  {
  }

  /** Only a retry clicked (mouse or keyboard) as the user's first gesture
      escapes: the button's handler runs before the document `click`
      listener sets `userInteracted`, a dependency of the load effect, and
      the re-mounted element is reloaded with a fresh budget. */
  lemma FirstGestureRetryReloads(s: Session, ctx: Context)
    requires s.videoError && RetryAllowed(s) && !s.userInteracted
    requires Resolves(ctx.resolved, s.currentIndex)
    ensures var r := Dispatch(Dispatch(s, Retry, ctx).next, Interaction, ctx).next;
            && r.userInteracted && !r.videoError && r.isLoading && r.retryCount == 0
  {
  }

  /** A first tap does not escape: its `touchstart` reaches the document
      listener, and `userInteracted` is set while the error screen still
      shows, so the load effect finds no element; the retry's `click` then
      reloads nothing and later gestures change nothing. */
  lemma TouchFirstGestureRetryStaysStuck(s: Session, ctx: Context)
    requires s.videoError && RetryAllowed(s) && !s.userInteracted
    ensures var touched := Dispatch(s, Interaction, ctx).next;
            var r := Dispatch(touched, Retry, ctx).next;
            && touched == s.(userInteracted := true)
            && !RetryVideo(touched, ctx.resolved).reloadsSource
            && r.isLoading && !r.videoError && r.retryCount == s.retryCount + 1
            && Dispatch(r, Interaction, ctx).next == r
  {
  }

  /** The intended retry from the error screen reloads a resolving item. */
  lemma IntendedRetryReloads(s: Session, resolved: seq<bool>)
    requires s.videoError && RetryAllowed(s) && Resolves(resolved, s.currentIndex)
    ensures RetryVideoIntended(s, resolved).reloadsSource
  {
  }

  /** In audio-only mode the controls stay shown and no hide is ever
      scheduled. */
  ghost predicate AudioControlsPinned(s: Session) {
    s.audioOnlyMode ==> s.showControls && !s.hidePending
  }

  ghost predicate Valid(s: Session, length: int) {
    Invariant(s, length) && AudioControlsPinned(s)
  }

  lemma StartValid(initialIndex: int, isAudioMode: bool, length: int)
    requires 0 <= initialIndex < length
    ensures Valid(Start(initialIndex, isAudioMode), length)
  {
  }

  lemma DispatchKeepsValid(s: Session, e: Event, ctx: Context)
    requires Valid(s, ctx.length)
    ensures Valid(Dispatch(s, e, ctx).next, ctx.length)
  {
    var st := Handle(s, e, ctx);
    assert Valid(st.next, ctx.length) by {
      match e {
        case Next =>
        case Previous =>
        case Ended =>
        case Retry =>
        case MediaError =>
        case CanPlay =>
        case Played =>
        case Paused =>
        case HideTimer =>
        case Tap =>
        case TogglePlay =>
        case Interaction =>
        case _ =>
      }
    }
    SettleKeepsInvariant(s, st.next, ctx.resolved, ctx.length);
    assert AudioControlsPinned(Settle(s, st.next, ctx.resolved));
  }

  function Run(s: Session, events: seq<Event>, ctx: Context): Session
    decreases |events|
  {
    if |events| == 0 then s
    else Run(Dispatch(s, events[0], ctx).next, events[1..], ctx)
  }

  lemma {:induction false} RunKeepsValid(s: Session, events: seq<Event>, ctx: Context)
    requires Valid(s, ctx.length)
    ensures Valid(Run(s, events, ctx), ctx.length)
    ensures Run(s, events, ctx).audioOnlyMode == s.audioOnlyMode
    decreases |events|
  {
    if |events| > 0 {
      DispatchKeepsValid(s, events[0], ctx);
      RunKeepsValid(Dispatch(s, events[0], ctx).next, events[1..], ctx);
    }
  }

  /** Whatever happens, a player opened in audio-only mode at a valid index
      shows its controls whenever there is no error. */
  lemma AudioOverlayAlwaysShown(initialIndex: int, events: seq<Event>, ctx: Context)
    requires 0 <= initialIndex < ctx.length
    ensures var s := Run(Start(initialIndex, true), events, ctx);
            s.videoError || OverlayVisible(s)
    ensures Run(Start(initialIndex, true), events, ctx).showControls
  {
    StartValid(initialIndex, true, ctx.length);
    RunKeepsValid(Start(initialIndex, true), events, ctx);
  }

  /** What `playlists.filter(p => p.isCompleted || p.playlistType !== 'new')`
      keeps. */
  predicate KeepsPlaylist(p: StoredPlaylist) {
    p.isCompleted || p.playlistType != NewKind
  }

  /** The pruning done when the current item has no catalog record. */
  function FilterStalePlaylists(ps: seq<StoredPlaylist>): (r: seq<StoredPlaylist>)
    ensures |r| <= |ps|
    ensures forall i :: 0 <= i < |r| ==> KeepsPlaylist(r[i])
  {
    if |ps| == 0 then []
    else
      var init := ps[..|ps| - 1];
      var last := ps[|ps| - 1];
      FilterStalePlaylists(init) + (if KeepsPlaylist(last) then [last] else [])
  }

  /** Pruning keeps the survivors in their stored order: it distributes over
      concatenation. */
  lemma {:induction false} FilterKeepsOrder(a: seq<StoredPlaylist>, b: seq<StoredPlaylist>)
    ensures FilterStalePlaylists(a + b) == FilterStalePlaylists(a) + FilterStalePlaylists(b)
    decreases |b|
  {
    if |b| == 0 {
      assert a + b == a;
    } else {
      var b' := b[..|b| - 1];
      var last := b[|b| - 1];
      var tail := if KeepsPlaylist(last) then [last] else [];
      FilterKeepsOrder(a, b');
      var ab := a + b;
      assert ab[..|ab| - 1] == a + b';
      assert ab[|ab| - 1] == last;
      assert FilterStalePlaylists(ab) == FilterStalePlaylists(a + b') + tail;
      assert FilterStalePlaylists(a) + FilterStalePlaylists(b') + tail
          == FilterStalePlaylists(a) + (FilterStalePlaylists(b') + tail);
    }
  }

  /** Exactly the completed playlists and the review playlists survive. */
  lemma {:induction false} FilterMembership(ps: seq<StoredPlaylist>)
    ensures forall p :: p in FilterStalePlaylists(ps) <==> p in ps && KeepsPlaylist(p)
  {
    if |ps| > 0 {
      var init := ps[..|ps| - 1];
      var last := ps[|ps| - 1];
      FilterMembership(init);
      assert ps == init + [last];
    }
  }

  /** A list with nothing stale is left as it is; in particular pruning
      twice is pruning once. */
  lemma {:induction false} FilterNothingStale(ps: seq<StoredPlaylist>)
    requires forall i :: 0 <= i < |ps| ==> KeepsPlaylist(ps[i])
    ensures FilterStalePlaylists(ps) == ps
  {
    if |ps| > 0 {
      var init := ps[..|ps| - 1];
      FilterNothingStale(init);
      assert ps == init + [ps[|ps| - 1]];
    }
  }

  lemma FilterIdempotent(ps: seq<StoredPlaylist>)
    ensures FilterStalePlaylists(FilterStalePlaylists(ps)) == FilterStalePlaylists(ps)
  {
    FilterNothingStale(FilterStalePlaylists(ps));
  }

  /** The stored list after the pruning: a missing or empty entry, or one
      that does not parse, is left untouched. */
  function PruneStoredPlaylists(stored: Option<seq<StoredPlaylist>>): (r: Option<seq<StoredPlaylist>>)
    ensures r.Some? <==> stored.Some?
    ensures stored.Some? ==> r.value == FilterStalePlaylists(stored.value)
  {
    match stored
    case Some(ps) => Some(FilterStalePlaylists(ps))
    case None => None
  }
}
