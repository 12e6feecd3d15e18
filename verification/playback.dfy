/** What the two player components (`components/VideoPlayer.tsx` and
    `components/VideoPlayer_NEW.tsx`) share: the session record they keep in
    React state, the handlers they write identically, and the invariant both
    state machines keep. Timers are not run: a scheduled hide is the flag
    `hidePending`, and its firing is the `HideTimerFires` event. */
module Playback {

  /** Retries allowed per item. */
  const MaxRetries: int := 3
  /** Settle delay before the automatic play on iOS, and elsewhere. */
  const IOSPlayDelayMs: nat := 100
  const DefaultPlayDelayMs: nat := 500

  /** The session state. `hidePending` records that a hide of the controls
      is scheduled (`controlsTimeout` still running); `showPlaylist` is used
      by the classic player only. */
  datatype Session = Session(
    currentIndex: int,
    isPlaying: bool,
    videoError: bool,
    isLoading: bool,
    retryCount: int,
    audioOnlyMode: bool,
    userInteracted: bool,
    showControls: bool,
    hidePending: bool,
    showPlaylist: bool)

  /** The state a player mounts with (its `useState` initial values). */
  function Start(initialIndex: int, isAudioMode: bool): (s: Session)
    ensures s.currentIndex == initialIndex && s.audioOnlyMode == isAudioMode
    ensures s.isLoading && !s.videoError && !s.isPlaying && s.retryCount == 0
    ensures s.showControls && !s.hidePending && !s.userInteracted && !s.showPlaylist
  {
    Session(initialIndex, false, false, true, 0, isAudioMode, false, true, false, false)
  }

  /** A transition's result: the new state and whether the caller's
      `onPlaylistComplete` was invoked. */
  datatype Step = Step(next: Session, completed: bool)

  /** The delay before the automatic play after `canplay`. */
  function PlayDelay(isIOS: bool): (ms: nat)
    ensures ms == IOSPlayDelayMs <==> isIOS
    ensures ms == DefaultPlayDelayMs <==> !isIOS
  {
    if isIOS then IOSPlayDelayMs else DefaultPlayDelayMs
  }

  /** The load effect, run when the item changes (and when another of the
      effect's dependencies changes) while the item resolves: clears the
      error, shows the spinner and resets the retry budget. Nothing else
      changes. */
  function Reload(s: Session): (r: Session)
    ensures !r.videoError && r.isLoading && r.retryCount == 0
    ensures r.(videoError := s.videoError, isLoading := s.isLoading, retryCount := s.retryCount) == s
  {
    s.(videoError := false, isLoading := true, retryCount := 0)
  }

  /** The media element's `error` event. */
  function OnError(s: Session): (r: Session)
    ensures r.videoError && !r.isLoading
    ensures r.(videoError := s.videoError, isLoading := s.isLoading) == s
  {
    s.(videoError := true, isLoading := false)
  }

  /** The spinner goes: the classic player's `loadedmetadata` event and the
      reworked player's delayed start both do only this (the duration read
      and the play call are media-element effects). */
  function LoadingDone(s: Session): (r: Session)
    ensures !r.isLoading && r.(isLoading := s.isLoading) == s
  {
    s.(isLoading := false)
  }

  /** The `pause` event: controls forced visible, any pending hide cancelled. */
  function OnPause(s: Session): (r: Session)
    ensures !r.isPlaying && r.showControls && !r.hidePending
    ensures r.(isPlaying := s.isPlaying, showControls := s.showControls, hidePending := s.hidePending) == s
  {
    s.(isPlaying := false, showControls := true, hidePending := false)
  }

  /** The scheduled hide firing; without a pending hide nothing happens. */
  function HideTimerFires(s: Session): (r: Session)
    ensures s.hidePending ==> !r.showControls && !r.hidePending
    ensures s.hidePending ==> r.(showControls := s.showControls, hidePending := s.hidePending) == s
    ensures !s.hidePending ==> r == s
  {
    if s.hidePending then s.(showControls := false, hidePending := false) else s
  }

  /** The retry button is enabled exactly while the budget is not used up. */
  predicate RetryAllowed(s: Session) {
    s.retryCount < MaxRetries
  }

  /** What both players keep: the index names an item of the playlist and
      the retry count stays within its budget. */
  ghost predicate Invariant(s: Session, length: int) {
    0 <= s.currentIndex < length && 0 <= s.retryCount <= MaxRetries
  }

  /** The effect's dependencies that the model tracks changed between two
      states: the item index, the audio-only mode or the first user gesture. */
  predicate LoadDepsChanged(before: Session, after: Session) {
    || before.currentIndex != after.currentIndex
    || before.audioOnlyMode != after.audioOnlyMode
    || before.userInteracted != after.userInteracted
  }

  /** Playlist position `i` resolves to a catalog record (`videos.find` on
      the item's video id succeeds); `resolved` lists this per position. */
  predicate Resolves(resolved: seq<bool>, i: int) {
    0 <= i < |resolved| && resolved[i]
  }

  /** The `<video>` element is in the tree, so `videoRef.current` is set:
      the item resolves (otherwise the "not found" screen replaces the
      player) and no error is shown (otherwise the error screen does). */
  predicate Mounted(s: Session, resolved: seq<bool>) {
    Resolves(resolved, s.currentIndex) && !s.videoError
  }

  /** Runs the load effect after a handler when its dependencies changed;
      its body is guarded by `videoRef.current && currentVideo`, so it does
      something only when the element is mounted in the new state. */
  function Settle(before: Session, after: Session, resolved: seq<bool>): (r: Session)
    ensures LoadDepsChanged(before, after) && Mounted(after, resolved) ==> r == Reload(after)
    ensures !(LoadDepsChanged(before, after) && Mounted(after, resolved)) ==> r == after
  {
    if LoadDepsChanged(before, after) && Mounted(after, resolved) then Reload(after) else after
  }

  /** The load effect never changes the error flag: it clears it only when
      it runs, and it runs only while no error is shown. In particular
      moving to another item while the error screen shows loads nothing. */
  lemma SettleKeepsErrorFlag(before: Session, after: Session, resolved: seq<bool>)
    ensures Settle(before, after, resolved).videoError == after.videoError
    ensures after.videoError ==> Settle(before, after, resolved) == after
  {
  }

  /** The load effect never breaks the invariant: it keeps the index and
      only resets the retry count. */
  lemma SettleKeepsInvariant(before: Session, after: Session, resolved: seq<bool>, length: int)
    requires Invariant(after, length)
    ensures Invariant(Settle(before, after, resolved), length)
  {
  }
}
