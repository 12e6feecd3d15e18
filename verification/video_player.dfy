/** The classic player, `components/VideoPlayer.tsx`: navigation, the
    ended/retry/load/canplay handlers, the controls' enabled states, and
    the cast-support decision, as pure transitions over `Playback.Session`. */
module VideoPlayer {
  import opened Wrappers
  import opened Playback

  /** `autoPlayRef` starts true and is never cleared. */
  const AutoPlay: bool := true
  /** Delay between a retry's reload and its play attempt. */
  const RetryPlayDelayMs: nat := 1000

  /** `goToNext`: advance, or report completion at the last item. */
  function GoToNext(s: Session, length: int): (r: Step)
    ensures s.currentIndex < length - 1 ==>
              !r.completed && r.next == s.(currentIndex := s.currentIndex + 1, isPlaying := false, videoError := false)
    ensures s.currentIndex >= length - 1 ==> r.completed && r.next == s
  {
    if s.currentIndex < length - 1 then
      Step(s.(currentIndex := s.currentIndex + 1, isPlaying := false, videoError := false), false)
    else
      Step(s, true)
  }

  /** `goToPrevious`: step back, never below the first item. */
  function GoToPrevious(s: Session): (r: Session)
    ensures s.currentIndex > 0 ==>
              r == s.(currentIndex := s.currentIndex - 1, isPlaying := false, videoError := false)
    ensures s.currentIndex <= 0 ==> r == s
  {
    if s.currentIndex > 0 then s.(currentIndex := s.currentIndex - 1, isPlaying := false, videoError := false)
    else s
  }

  /** `jumpToItem`: no bounds check of its own (and no caller in the
      component); the index is taken as given. */
  function JumpToItem(s: Session, index: int): (r: Session)
    ensures r.currentIndex == index
    ensures !r.isPlaying && !r.showPlaylist && !r.videoError
    ensures r.(currentIndex := s.currentIndex, isPlaying := s.isPlaying,
               showPlaylist := s.showPlaylist, videoError := s.videoError) == s
  {
    s.(currentIndex := index, isPlaying := false, showPlaylist := false, videoError := false)
  }

  /** `handleVideoEnded`. */
  function HandleEnded(s: Session, length: int): (r: Step)
    ensures s.currentIndex < length - 1 ==> !r.completed && r.next == GoToNext(s, length).next
    ensures s.currentIndex >= length - 1 ==> r.completed && r.next == s
  {
    if AutoPlay && s.currentIndex < length - 1 then GoToNext(s, length)
    else if s.currentIndex >= length - 1 then Step(s, true)
    else Step(s, false)
  }

  /** Ending the last item completes the playlist exactly once, without
      advancing or wrapping; ending any other item moves to the next one. */
  lemma EndedAtLastCompletes(s: Session, length: int)
    requires length > 0 && s.currentIndex == length - 1
    ensures HandleEnded(s, length) == Step(s, true)
  {
  }

  lemma EndedElsewhereAdvances(s: Session, length: int)
    requires 0 <= s.currentIndex < length - 1
    ensures !HandleEnded(s, length).completed
    ensures HandleEnded(s, length).next.currentIndex == s.currentIndex + 1
  {
  }

  /** The result of `retryVideo`: the new state, whether the "too many
      failures" alert was shown, whether it reset and reloaded the
      element's source, and the delayed play attempt it schedules. */
  datatype RetryResult = RetryResult(next: Session, alerted: bool, reloadsSource: bool, playAfterMs: Option<nat>)

  /** `retryVideo`. The reload of the source and the play attempt 1000 ms
      later sit behind `videoRef.current && currentVideo`, so they happen
      only while the element is mounted. */
  function RetryVideo(s: Session, resolved: seq<bool>): (r: RetryResult)
    ensures RetryAllowed(s) ==>
              && r.next == s.(retryCount := s.retryCount + 1, videoError := false, isLoading := true)
              && !r.alerted
              && (r.reloadsSource <==> Mounted(s, resolved))
              && r.playAfterMs == (if Mounted(s, resolved) then Some(RetryPlayDelayMs) else None)
    ensures !RetryAllowed(s) ==> r.next == s && r.alerted && !r.reloadsSource && r.playAfterMs.None?
  {
    if s.retryCount < MaxRetries then
      var mounted := Mounted(s, resolved);
      RetryResult(s.(retryCount := s.retryCount + 1, videoError := false, isLoading := true),
                  false, mounted, if mounted then Some(RetryPlayDelayMs) else None)
    else
      RetryResult(s, true, false, None)
  }

  /** The retry button is disabled exactly when pressing it would change
      nothing. */
  lemma RetryEnabledIffEffective(s: Session, resolved: seq<bool>)
    ensures RetryAllowed(s) <==> RetryVideo(s, resolved).next != s
    ensures !RetryAllowed(s) <==> RetryVideo(s, resolved).alerted
  {
  }

  /** The retry as evidently intended: the source is reloaded, and its play
      attempt scheduled, whenever the item resolves, including from the
      error screen. The state it leaves is the same as the code's. */
  function RetryVideoIntended(s: Session, resolved: seq<bool>): (r: RetryResult)
    ensures r.next == RetryVideo(s, resolved).next && r.alerted == RetryVideo(s, resolved).alerted
    ensures r.reloadsSource <==> RetryAllowed(s) && Resolves(resolved, s.currentIndex)
    ensures r.playAfterMs == (if r.reloadsSource then Some(RetryPlayDelayMs) else None)
  {
    var found := Resolves(resolved, s.currentIndex);
    var written := RetryVideo(s, resolved);
    var reloads := s.retryCount < MaxRetries && found;
    RetryResult(written.next, written.alerted, reloads, if reloads then Some(RetryPlayDelayMs) else None)
  }

  /** The result of the `canplay` handler: the new state and the delay after
      which it tries to play, if it does. */
  datatype CanPlayResult = CanPlayResult(next: Session, playAfterMs: Option<nat>)

  /** `handleCanPlay`: the spinner and error go; playback is attempted only
      after a user gesture and from the resume index on. */
  function HandleCanPlay(s: Session, initialIndex: int, isIOS: bool): (r: CanPlayResult)
    ensures r.next == s.(isLoading := false, videoError := false)
    ensures r.playAfterMs.Some? <==> s.userInteracted && s.currentIndex >= initialIndex
    ensures r.playAfterMs.Some? ==> r.playAfterMs.value == (if isIOS then 100 else 500)
  {
    var s' := s.(isLoading := false, videoError := false);
    if AutoPlay && s.currentIndex >= initialIndex && s.userInteracted then
      CanPlayResult(s', Some(PlayDelay(isIOS)))
    else
      CanPlayResult(s', None)
  }

  /** `hideControlsAfterDelay`: replaces any pending hide with a new one. */
  function HideControlsAfterDelay(s: Session): (r: Session)
    ensures r.hidePending && r.(hidePending := s.hidePending) == s
  {
    s.(hidePending := true)
  }

  /** `showControlsTemporarily`, run on a tap or click of the video. */
  function ShowControlsTemporarily(s: Session): (r: Session)
    ensures r.showControls && r.hidePending
    ensures r.(showControls := s.showControls, hidePending := s.hidePending) == s
  {
    HideControlsAfterDelay(s.(showControls := true))
  }

  /** The `play` event. */
  function HandlePlay(s: Session): (r: Session)
    ensures r.isPlaying && r.hidePending
    ensures r.(isPlaying := s.isPlaying, hidePending := s.hidePending) == s
  {
    HideControlsAfterDelay(s.(isPlaying := true))
  }

  /** The controls overlay is drawn only while there is no error and the
      controls are shown; in audio-only mode they still hide. */
  predicate OverlayVisible(s: Session) {
    !s.videoError && s.showControls
  }

  /** Unlike the reworked player's, the classic player's controls hide in
      audio-only mode too: a pending hide firing takes the overlay away,
      and the error screen never has it. */
  lemma AudioModeControlsHide(s: Session)
    ensures s.hidePending ==> !OverlayVisible(HideTimerFires(s))
    ensures s.videoError ==> !OverlayVisible(s)
  {
  }

  /** The enabled state of the control buttons: previous, next, the error
      screen's skip, and play/pause (disabled while loading). */
  predicate PlayEnabled(s: Session) { !s.isLoading }
  predicate PreviousEnabled(s: Session) { s.currentIndex != 0 }
  predicate NextEnabled(s: Session, length: int) { s.currentIndex != length - 1 }
  predicate SkipEnabled(s: Session, length: int) { s.currentIndex < length - 1 }

  /** Within a playlist, the enabled previous and next buttons are exactly
      the ones that move the index. */
  lemma NavigationButtonsIffMove(s: Session, length: int)
    requires Invariant(s, length)
    ensures PreviousEnabled(s) <==> GoToPrevious(s).currentIndex != s.currentIndex
    ensures NextEnabled(s, length) <==> !GoToNext(s, length).completed
    ensures SkipEnabled(s, length) <==> !GoToNext(s, length).completed
  {
  }

  /** The inputs to the session. */
  datatype Event =
    | Next
    | Previous
    | Jump(index: int)
    | Ended
    | Retry
    | MediaError
    | CanPlay
    | LoadedMetadata
    | Played
    | Paused
    | HideTimer
    | Tap          // a click or touch on the video
    | TogglePlay   // the play/pause button; the media event follows separately
    | ToggleMode
    | Interaction

  /** The playlist length, the resume index the player was opened with, the
      platform, and which playlist positions resolve to a catalog record. */
  datatype Context = Context(length: int, initialIndex: int, isIOS: bool, resolved: seq<bool>)

  /** A jump names an item of the playlist (the invariant needs this, since
      `jumpToItem` does not check it). */
  predicate WellFormed(e: Event, ctx: Context) {
    e.Jump? ==> 0 <= e.index < ctx.length
  }

  /** One handler, before the load effect. */
  function Handle(s: Session, e: Event, ctx: Context): Step
  {
    match e
    case Next => GoToNext(s, ctx.length)
    case Previous => Step(GoToPrevious(s), false)
    case Jump(i) => Step(JumpToItem(s, i), false)
    case Ended => HandleEnded(s, ctx.length)
    case Retry => Step(RetryVideo(s, ctx.resolved).next, false)
    case MediaError => Step(OnError(s), false)
    case CanPlay => Step(HandleCanPlay(s, ctx.initialIndex, ctx.isIOS).next, false)
    case LoadedMetadata => Step(LoadingDone(s), false)
    case Played => Step(HandlePlay(s), false)
    case Paused => Step(OnPause(s), false)
    case HideTimer => Step(HideTimerFires(s), false)
    case Tap => Step(ShowControlsTemporarily(s), false)
    case TogglePlay => Step(if PlayEnabled(s) then ShowControlsTemporarily(s) else s, false)
    case ToggleMode => Step(s.(audioOnlyMode := !s.audioOnlyMode), false)
    case Interaction => Step(s.(userInteracted := true), false)
  }

  /** One event: the handler, then the load effect if its dependencies
      changed. Completion is signalled only by next or ended at the last item. */
  function Dispatch(s: Session, e: Event, ctx: Context): (r: Step)
    ensures r.completed <==> (e.Next? || e.Ended?) && s.currentIndex >= ctx.length - 1
    ensures r.completed ==> r.next == s
  {
    var st := Handle(s, e, ctx);
    Step(Settle(s, st.next, ctx.resolved), st.completed)
  }

  /** Next clears the error, so the element mounts again: moving to an
      item that resolves to a record resets the spinner and the retry
      budget, even from the error screen; when the item resolves to nothing
      the load effect does not run and the budget is left as it was. */
  lemma NextReloadsItem(s: Session, ctx: Context)
    requires 0 <= s.currentIndex < ctx.length - 1
    ensures var r := Dispatch(s, Next, ctx).next;
            && r.currentIndex == s.currentIndex + 1 && !r.isPlaying && !r.videoError
            && (Resolves(ctx.resolved, s.currentIndex + 1) ==> r.isLoading && r.retryCount == 0)
            && (!Resolves(ctx.resolved, s.currentIndex + 1) ==>
                  r.retryCount == s.retryCount && r.isLoading == s.isLoading)
  {
  }

  /** The retry button is drawn only on the error screen, where the element
      is not mounted. A retry there neither reloads the source nor schedules
      a play, and no dependency of the load effect changes, so the effect
      does not reload it either: the element comes back with no source and
      the spinner shows. Once the user has interacted, further gestures
      change nothing. */
  lemma RetryFromErrorScreenNeverReloads(s: Session, ctx: Context)
    requires s.videoError && RetryAllowed(s)
    ensures var r := RetryVideo(s, ctx.resolved);
            && !r.reloadsSource && r.playAfterMs.None?
            && Dispatch(s, Retry, ctx).next == r.next
            && (s.userInteracted ==> Dispatch(r.next, Interaction, ctx).next == r.next)
            && r.next.isLoading && !r.next.videoError
  {
  }

  /** Only a retry clicked (mouse or keyboard) as the user's first gesture
      escapes: the button's handler runs before the document `click`
      listener sets `userInteracted`, a dependency of the load effect, and
      the re-mounted element is reloaded with a fresh budget. */
  lemma FirstGestureRetryReloads(s: Session, ctx: Context)
    requires s.videoError && RetryAllowed(s) && !s.userInteracted
    requires Resolves(ctx.resolved, s.currentIndex)
    ensures var r := Dispatch(Dispatch(s, Retry, ctx).next, Interaction, ctx).next;
            && r.userInteracted && !r.videoError && r.isLoading && r.retryCount == 0
  {
  }

  /** A first tap does not escape: its `touchstart` reaches the document
      listener, and `userInteracted` is set while the error screen still
      shows, so the load effect finds no element; the retry's `click` then
      reloads nothing and later gestures change nothing. */
  lemma TouchFirstGestureRetryStaysStuck(s: Session, ctx: Context)
    requires s.videoError && RetryAllowed(s) && !s.userInteracted
    ensures var touched := Dispatch(s, Interaction, ctx).next;
            var r := Dispatch(touched, Retry, ctx).next;
            && touched == s.(userInteracted := true)
            && !RetryVideo(touched, ctx.resolved).reloadsSource
            && r.isLoading && !r.videoError && r.retryCount == s.retryCount + 1
            && Dispatch(r, Interaction, ctx).next == r
  {
  }

  /** The intended retry from the error screen of a resolving item reloads
      the source and tries to play it 1000 ms later. */
  lemma IntendedRetryReloads(s: Session, resolved: seq<bool>)
    requires s.videoError && RetryAllowed(s) && Resolves(resolved, s.currentIndex)
    ensures RetryVideoIntended(s, resolved).reloadsSource
    ensures RetryVideoIntended(s, resolved).playAfterMs == Some(RetryPlayDelayMs)
  {
  }

  /** Every event keeps the index inside the playlist and the retry count
      within its budget. */
  lemma DispatchKeepsInvariant(s: Session, e: Event, ctx: Context)
    requires Invariant(s, ctx.length) && WellFormed(e, ctx)
    ensures Invariant(Dispatch(s, e, ctx).next, ctx.length)
  {
    var st := Handle(s, e, ctx);
    assert Invariant(st.next, ctx.length) by {
      match e {
        case Next =>
        case Previous =>
        case Ended =>
        case Retry =>
        case MediaError =>
        case CanPlay =>
        case Played =>
        case Paused =>
        case HideTimer =>
        case Tap =>
        case TogglePlay =>
        case Interaction =>
        case _ =>
      }
    }
    SettleKeepsInvariant(s, st.next, ctx.resolved, ctx.length);
  }

  /** The state after a whole sequence of events. */
  function Run(s: Session, events: seq<Event>, ctx: Context): Session
    decreases |events|
  {
    if |events| == 0 then s
    else Run(Dispatch(s, events[0], ctx).next, events[1..], ctx)
  }

  /** The invariant holds after any sequence of events from a state that
      satisfies it, such as the initial state at a valid resume index. */
  lemma {:induction false} RunKeepsInvariant(s: Session, events: seq<Event>, ctx: Context)
    requires Invariant(s, ctx.length)
    requires forall i :: 0 <= i < |events| ==> WellFormed(events[i], ctx)
    ensures Invariant(Run(s, events, ctx), ctx.length)
    decreases |events|
  {
    if |events| > 0 {
      DispatchKeepsInvariant(s, events[0], ctx);
      RunKeepsInvariant(Dispatch(s, events[0], ctx).next, events[1..], ctx);
    }
  }

  /** The platform facts the cast check reads. `androidMajor` is the number
      the version test compares with 5 (see `Platform.AndroidMajor`). */
  datatype Platform = Platform(
    isIOS: bool,
    isSafari: bool,
    isAndroid: bool,
    androidMajor: int,
    chromeVersion: int,
    hasAirPlayPicker: bool,
    hasPresentation: bool,
    hasPresentationRequest: bool,
    hasRemotePlayback: bool)

  /** Why casting is unavailable; each corresponds to one message. */
  datatype CastError =
    | NeedsSafari
    | NoAirPlay
    | AndroidTooOld(androidMajor: int)
    | ChromeTooOld(chromeVersion: int)
    | NoChromecast
    | NoRemotePlayback

  datatype CastSupport = CastSupport(supported: bool, error: Option<CastError>)

  /** An independent statement of when casting is available. */
  predicate CastCapable(p: Platform) {
    if p.isIOS then p.isSafari && p.hasAirPlayPicker
    else if p.isAndroid then
      p.androidMajor >= 5 && p.chromeVersion >= 66 && p.hasPresentation && p.hasPresentationRequest
    else p.hasRemotePlayback
  }

  /** `checkCastSupport`: iOS first, then Android, then desktop; on Android
      the version, Chrome and API checks run in that order and the first
      failure names the error. */
  function CheckCastSupport(p: Platform): (r: CastSupport)
    ensures r.supported <==> r.error.None?
    ensures r.supported <==> CastCapable(p)
    ensures p.isIOS && !p.isSafari ==> r.error == Some(NeedsSafari)
    ensures p.isIOS && p.isSafari && !p.hasAirPlayPicker ==> r.error == Some(NoAirPlay)
    ensures !p.isIOS && p.isAndroid && p.androidMajor < 5 ==> r.error == Some(AndroidTooOld(p.androidMajor))
    ensures !p.isIOS && p.isAndroid && p.androidMajor >= 5 && p.chromeVersion < 66 ==>
              r.error == Some(ChromeTooOld(p.chromeVersion))
    ensures (!p.isIOS && p.isAndroid && p.androidMajor >= 5 && p.chromeVersion >= 66
             && !(p.hasPresentation && p.hasPresentationRequest)) ==> r.error == Some(NoChromecast)
    ensures !p.isIOS && !p.isAndroid && !p.hasRemotePlayback ==> r.error == Some(NoRemotePlayback)
  {
    if p.isIOS then
      if !p.isSafari then CastSupport(false, Some(NeedsSafari))
      else if p.hasAirPlayPicker then CastSupport(true, None)
      else CastSupport(false, Some(NoAirPlay))
    else if p.isAndroid then
      if p.androidMajor < 5 then CastSupport(false, Some(AndroidTooOld(p.androidMajor)))
      else if p.chromeVersion < 66 then CastSupport(false, Some(ChromeTooOld(p.chromeVersion)))
      else if p.hasPresentation && p.hasPresentationRequest then CastSupport(true, None)
      else CastSupport(false, Some(NoChromecast))
    else if p.hasRemotePlayback then CastSupport(true, None)
    else CastSupport(false, Some(NoRemotePlayback))
  }

  /** The Android version token of a user-agent string: `Android 4.4`
      carries a dotted version, `Android 10` (what Chrome's reduced user-agent string sends, as `Android 10; K`)
      carries a major number alone. */
  datatype AndroidToken = Dotted(major: nat, minor: nat) | MajorOnly(major: nat) | NoToken

  /** The version as the component reads it: only a dotted token matches
      its pattern, and anything else falls back to 0. */
  function AndroidMajorAsWritten(t: AndroidToken): (v: int)
    ensures t.Dotted? ==> v == t.major
    ensures !t.Dotted? ==> v == 0
  {
    match t
    case Dotted(major, _) => major
    case MajorOnly(_) => 0
    case NoToken => 0
  }

  /** The version as evidently intended: the major number of any token. */
  function AndroidMajor(t: AndroidToken): (v: int)
    ensures t.Dotted? || t.MajorOnly? ==> v == t.major
    ensures t.NoToken? ==> v == 0
  {
    match t
    case Dotted(major, _) => major
    case MajorOnly(major) => major
    case NoToken => 0
  }

  /** An Android device with current Chrome and the Presentation API. */
  function ModernAndroid(t: AndroidToken, read: AndroidToken -> int): Platform {
    Platform(false, false, true, read(t), 120, false, true, true, false)
  }

  /** As written, an Android 10 device with Chrome 120 and the Presentation
      API is told its Android version 0 is too old. */
  lemma AndroidVersionMisread()
    ensures CheckCastSupport(ModernAndroid(MajorOnly(10), AndroidMajorAsWritten)).error
            == Some(AndroidTooOld(0))
  {
  }

  /** With the major number read from any token, every such device from
      Android 5 on is supported, and a dotted token reads as before. */
  lemma AndroidVersionCorrected(t: AndroidToken)
    requires (t.Dotted? || t.MajorOnly?) && t.major >= 5
    ensures CheckCastSupport(ModernAndroid(t, AndroidMajor)).supported
    ensures t.Dotted? ==> AndroidMajor(t) == AndroidMajorAsWritten(t)
  {
  }
}
