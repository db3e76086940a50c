/** The playback session: the `isPlaying` flag and play button, the episode
    shown in the player, the media element's position, the 5-second snapshot
    to the `playerState` key (an explicit `SnapshotTick` step here) and the
    restore at page load. The media element's own behaviour (decoding,
    `timeupdate` and `loadedmetadata` timing) is supplied as input events. */
module Playback {
  import opened Opt
  import opened Media
  import opened DurableStore
  import opened Clock
  import opened Transport

  /** The play button's icon class: `fa-play` or `fa-pause`. */
  datatype Icon = PlayIcon | PauseIcon

  /** Everything the player's script reads or writes. `duration` is the media
      element's; `durationKnown` is false while the element has none (the
      browser's NaN), and `duration` is then 0, which `formatTime` and the
      progress width treat as they treat NaN. `metadataListeners` counts the
      `loadedmetadata` handlers `loadPodcast` has added. */
  datatype Session = Session(
    isPlaying: bool,
    icon: Icon,
    buttonLabel: string,
    title: string,
    date: string,
    image: string,
    src: string,
    currentTime: nat,
    duration: nat,
    durationKnown: bool,
    currentText: string,
    durationText: string,
    progress: real,
    loading: bool,
    metadataListeners: nat,
    playerView: bool)

  /** A user action or a media event delivered to the player. */
  datatype Action =
    | PressPlay
    | PressPrev
    | PressNext
    | LoadEpisode(ep: Episode, dateText: string)
    | MetadataLoaded(duration: nat)
    | TimeUpdate(time: nat)
    | SnapshotTick

  /** The page as loaded, before any restore: paused, showing the play icon. */
  function Initial(): (s: Session)
    ensures !s.isPlaying && s.icon == PlayIcon && s.metadataListeners == 0 && !s.playerView
    ensures !s.durationKnown && s.duration == 0
  {
    Session(false, PlayIcon, "Play", "", "", "", "", 0, 0, false, "", "", 0.0, false, 0, false)
  }

  /** The play button shows the pause affordance exactly while playing. */
  predicate ButtonMatches(s: Session) {
    && (s.isPlaying <==> s.icon == PauseIcon)
    && s.buttonLabel == (if s.isPlaying then "Pause" else "Play")
  }

  /** `playPodcast`: set the flag, show the pause icon, start the media. */
  function PlayPodcast(s: Session): (r: Session)
    ensures r.isPlaying && r.icon == PauseIcon && r.buttonLabel == "Pause"
    ensures r.(isPlaying := s.isPlaying, icon := s.icon, buttonLabel := s.buttonLabel) == s
  {
    s.(isPlaying := true, icon := PauseIcon, buttonLabel := "Pause")
  }

  /** `pausePodcast`: clear the flag, show the play icon, pause the media. */
  function PausePodcast(s: Session): (r: Session)
    ensures !r.isPlaying && r.icon == PlayIcon && r.buttonLabel == "Play"
    ensures r.(isPlaying := s.isPlaying, icon := s.icon, buttonLabel := s.buttonLabel) == s
  {
    s.(isPlaying := false, icon := PlayIcon, buttonLabel := "Play")
  }

  /** The play button: pause when playing, play otherwise. */
  function TogglePlay(s: Session): (r: Session)
    ensures r.isPlaying == !s.isPlaying
    ensures ButtonMatches(r)
    ensures r.(isPlaying := s.isPlaying, icon := s.icon, buttonLabel := s.buttonLabel) == s
  {
    if s.isPlaying then PausePodcast(s) else PlayPodcast(s)
  }

  /** Two presses of the play button restore the session, once the button
      shows the state it is in. */
  lemma ToggleTwiceIsIdentity(s: Session)
    requires ButtonMatches(s)
    ensures TogglePlay(TogglePlay(s)) == s
  {
  }

  /** `loadPodcast`: show the episode, point the media at its enclosure,
      rewind, mark the progress bar as loading and add one more
      `loadedmetadata` handler. The new source has no duration yet. Nothing
      else changes: `isPlaying`, the button, the shown duration, the progress
      width and the view stay as they were. */
  function LoadPodcast(s: Session, ep: Episode, dateText: string): (r: Session)
    ensures r.title == ep.title && r.date == dateText && r.src == ep.enclosureUrl
    ensures r.image == EpisodeArtwork(ep)
    ensures r.currentTime == 0 && r.currentText == "0:00" && r.loading
    ensures !r.durationKnown && r.duration == 0
    ensures r.metadataListeners == s.metadataListeners + 1
    ensures r.(title := s.title, date := s.date, src := s.src, image := s.image,
               currentTime := s.currentTime, duration := s.duration, durationKnown := s.durationKnown,
               currentText := s.currentText, loading := s.loading,
               metadataListeners := s.metadataListeners) == s
  {
    s.(title := ep.title, date := dateText, src := ep.enclosureUrl, image := EpisodeArtwork(ep),
       currentTime := 0, duration := 0, durationKnown := false, currentText := "0:00", loading := true,
       metadataListeners := s.metadataListeners + 1)
  }

  /** One `loadedmetadata` handler: show the duration, clear the loading
      mark and play; nothing else changes. */
  function MetadataHandler(s: Session): (r: Session)
    ensures r.isPlaying && r.icon == PauseIcon && r.buttonLabel == "Pause"
    ensures !r.loading && r.durationText == ShowTime(s.duration, s.durationText)
    ensures r.(isPlaying := s.isPlaying, icon := s.icon, buttonLabel := s.buttonLabel,
               durationText := s.durationText, loading := s.loading) == s
  {
    PlayPodcast(s.(durationText := ShowTime(s.duration, s.durationText), loading := false))
  }

  /** The handlers added by successive `loadPodcast` calls, all run on one event. */
  function RunHandlers(s: Session, k: nat): (r: Session)
    ensures k == 0 ==> r == s
    ensures k >= 1 ==> r.isPlaying && r.icon == PauseIcon && !r.loading
    ensures r.src == s.src && r.currentTime == s.currentTime && r.duration == s.duration
    decreases k
  {
    if k == 0 then s else RunHandlers(MetadataHandler(s), k - 1)
  }

  /** Running the accumulated handlers has the effect of running one. */
  lemma {:induction false} HandlersCollapse(s: Session, k: nat)
    requires k >= 1
    ensures RunHandlers(s, k) == MetadataHandler(s)
    decreases k
  {
    if k > 1 {
      HandlersCollapse(MetadataHandler(s), k - 1);
      assert ShowTime(s.duration, ShowTime(s.duration, s.durationText)) == ShowTime(s.duration, s.durationText);
      assert MetadataHandler(MetadataHandler(s)) == MetadataHandler(s);
    }
  }

  /** The media element learned its duration; the handlers, if any, run. */
  function OnMetadata(s: Session, duration: nat): (r: Session)
    ensures r.duration == duration && r.durationKnown
    ensures s.metadataListeners > 0 ==> r == MetadataHandler(s.(duration := duration, durationKnown := true))
    ensures s.metadataListeners == 0 ==> r == s.(duration := duration, durationKnown := true)
  {
    var s' := s.(duration := duration, durationKnown := true);
    if s.metadataListeners > 0 then HandlersCollapse(s', s.metadataListeners); RunHandlers(s', s.metadataListeners)
    else s'
  }

  /** The share `c / d` of a positive `d`: it recombines to `c`, lies in
      [0, 1] when `0 <= c <= d`, and is 1 when `c == d`. */
  lemma ShareBounds(c: real, d: real)
    requires d > 0.0
    ensures (c / d) * d == c
    ensures 0.0 <= c <= d ==> 0.0 <= c / d <= 1.0
    ensures c == d ==> c / d == 1.0
  {
    var q := c / d;
    assert q * d == c;
    assert (q - 1.0) * d == c - d;
  }

  /** The progress-bar width `currentTime / duration * 100`, when it is a
      number; a zero duration yields NaN or Infinity, which the style ignores. */
  function Percent(current: nat, duration: nat): (r: Option<real>)
    ensures r.Some? <==> duration > 0
    ensures r.Some? ==> r.value * (duration as real) == (current as real) * 100.0
    ensures r.Some? && current <= duration ==> 0.0 <= r.value <= 100.0
    ensures r.Some? && current == duration ==> r.value == 100.0
  {
    if duration > 0 then
      var ratio := current as real / duration as real;
      ShareBounds(current as real, duration as real);
      Some(ratio * 100.0)
    else None
  }

  /** `updateProgressBar` on `timeupdate`: the media reports its position;
      only the position, the progress width and the two times change. */
  function OnTimeUpdate(s: Session, time: nat): (r: Session)
    ensures r.currentTime == time
    ensures r.progress == Percent(time, s.duration).GetOr(s.progress)
    ensures r.currentText == ShowTime(time, s.currentText)
    ensures r.durationText == ShowTime(s.duration, s.durationText)
    ensures r.(currentTime := s.currentTime, progress := s.progress,
               currentText := s.currentText, durationText := s.durationText) == s
  {
    s.(currentTime := time,
       progress := Percent(time, s.duration).GetOr(s.progress),
       currentText := ShowTime(time, s.currentText),
       durationText := ShowTime(s.duration, s.durationText))
  }

  /** `skipTime` on the media element's position. While the duration is
      unknown the clamp computes NaN, assigning it to `currentTime` throws, and
      the position stays. */
  function Skip(s: Session, amount: int): (r: Session)
    ensures !s.durationKnown ==> r == s
    ensures s.durationKnown ==> r.currentTime <= r.duration
    ensures r == s.(currentTime := r.currentTime)
    ensures s.durationKnown ==> r.currentTime == SkipTime(s.currentTime, s.duration, amount)
    ensures s.durationKnown && 0 <= s.currentTime + amount <= s.duration ==>
      r.currentTime == s.currentTime + amount
    ensures s.durationKnown && s.currentTime + amount < 0 ==> r.currentTime == 0
    ensures s.durationKnown && s.currentTime + amount > s.duration ==> r.currentTime == s.duration
  {
    if !s.durationKnown then s
    else s.(currentTime := SkipTime(s.currentTime, s.duration, amount))
  }

  /** The six fields the timer persists. An unknown duration is NaN, which
      `JSON.stringify` writes as `null`; the snapshot holds 0 for it, which
      the restore treats as it treats `null`. */
  function SnapshotOf(s: Session): (r: Snapshot)
    ensures r.title == s.title && r.datePublished == s.date && r.image == s.image && r.src == s.src
    ensures r.currentTime == s.currentTime
    ensures r.duration == (if s.durationKnown then s.duration else 0)
  {
    Snapshot(s.title, s.date, s.currentTime, if s.durationKnown then s.duration else 0, s.image, s.src)
  }

  /** One firing of the 5-second timer: write the snapshot if and only if playing. */
  function Tick(s: Session, st: Store): (r: Store)
    ensures s.isPlaying ==> Get(r, PlayerStateKey) == Some(State(SnapshotOf(s)))
    ensures !s.isPlaying ==> r == st
    ensures forall k :: k != PlayerStateKey ==> Get(r, k) == Get(st, k)
    ensures WellTyped(st) ==> WellTyped(r)
  {
    if s.isPlaying then Put(st, PlayerStateKey, State(SnapshotOf(s))) else st
  }

  /** `loadPlayerState`: adopt a stored snapshot into the display without
      playing it. The assignment to the media's read-only `duration` has no
      effect, so the session keeps its own; on a small screen the player view
      is shown. */
  function LoadPlayerState(st: Store, s: Session, mobile: bool): (r: Session)
    requires WellTyped(st)
    ensures PlayerStateKey !in st ==> r == s
    ensures PlayerStateKey in st ==>
      var snap := st[PlayerStateKey].snapshot;
      && r.title == snap.title && r.date == snap.datePublished
      && r.currentTime == snap.currentTime && r.image == snap.image && r.src == snap.src
      && r.currentText == ShowTime(snap.currentTime, s.currentText)
      && r.durationText == ShowTime(snap.duration, s.durationText)
      && r.progress == Percent(snap.currentTime, snap.duration).GetOr(s.progress)
      && r.playerView == (s.playerView || mobile)
    ensures r.(title := s.title, date := s.date, currentTime := s.currentTime, image := s.image,
               src := s.src, currentText := s.currentText, durationText := s.durationText,
               progress := s.progress, playerView := s.playerView) == s
  {
    if PlayerStateKey !in st then s
    else
      var snap := st[PlayerStateKey].snapshot;
      s.(title := snap.title, date := snap.datePublished, currentTime := snap.currentTime,
         image := snap.image, src := snap.src,
         currentText := ShowTime(snap.currentTime, s.currentText),
         durationText := ShowTime(snap.duration, s.durationText),
         progress := Percent(snap.currentTime, snap.duration).GetOr(s.progress),
         playerView := s.playerView || mobile)
  }

  /** Restoring after a snapshot shows the snapshotted episode and position,
      and the progress bar is within bounds, but playback does not resume. */
  lemma RestoreAfterTick(s: Session, st: Store, page: Session, mobile: bool)
    requires WellTyped(st) && s.isPlaying && (s.durationKnown ==> s.currentTime <= s.duration)
    ensures var r := LoadPlayerState(Tick(s, st), page, mobile);
      && r.title == s.title && r.date == s.date && r.image == s.image && r.src == s.src
      && r.currentTime == s.currentTime
      && r.currentText == ShowTime(s.currentTime, page.currentText)
      && (s.durationKnown ==> r.durationText == ShowTime(s.duration, page.durationText))
      && (!s.durationKnown ==> r.durationText == page.durationText && r.progress == page.progress)
      && (s.durationKnown && s.duration > 0 ==>
            r.progress == Percent(s.currentTime, s.duration).value && 0.0 <= r.progress <= 100.0)
      && (s.durationKnown && s.duration == 0 ==> r.progress == page.progress)
      && r.isPlaying == page.isPlaying
  {
    var st' := Tick(s, st);
    assert st'[PlayerStateKey] == State(SnapshotOf(s));
    var snap := SnapshotOf(s);
    var r := LoadPlayerState(st', page, mobile);
    assert r.progress == Percent(snap.currentTime, snap.duration).GetOr(page.progress);
  }

  /** The page's start-up: restore from storage into the fresh page. */
  function Startup(st: Store, mobile: bool): (r: Session)
    requires WellTyped(st)
    ensures !r.isPlaying && r.icon == PlayIcon && ButtonMatches(r)
    ensures r.playerView <==> PlayerStateKey in st && mobile
    ensures r.metadataListeners == 0 && !r.durationKnown && !r.loading
  {
    LoadPlayerState(st, Initial(), mobile)
  }

  /** After start-up no handler is waiting, so the restored source's metadata
      shows nothing new and does not start playback. */
  lemma RestoredMetadataStaysPaused(st: Store, mobile: bool, duration: nat)
    requires WellTyped(st)
    ensures var r := OnMetadata(Startup(st, mobile), duration);
      && !r.isPlaying && r == Startup(st, mobile).(duration := duration, durationKnown := true)
  {
  }

  /** Prev or next pressed after start-up and before the restored source's
      metadata arrives leaves the restored position where it was. */
  lemma RestoredSkipWaitsForMetadata(st: Store, mobile: bool, amount: int)
    requires WellTyped(st)
    ensures Skip(Startup(st, mobile), amount) == Startup(st, mobile)
  {
  }

  /** A duration is only ever recorded together with the media knowing it. */
  predicate DurationConsistent(s: Session) {
    !s.durationKnown ==> s.duration == 0
  }

  /** The session together with the store it writes to. */
  datatype Machine = Machine(session: Session, store: Store)

  /** One action delivered to the page: the play button toggles, prev and
      next skip by their fixed amounts, the media events reach their
      handlers, and the timer writes the snapshot. */
  function Step(m: Machine, a: Action): (r: Machine)
    ensures a.SnapshotTick? ==> r.session == m.session
    ensures !a.SnapshotTick? ==> r.store == m.store
    ensures a.PressPlay? ==> r == m.(session := TogglePlay(m.session))
    ensures a.PressPrev? ==> r == m.(session := Skip(m.session, PrevSeconds))
    ensures a.PressNext? ==> r == m.(session := Skip(m.session, NextSeconds))
    ensures a.LoadEpisode? ==> r == m.(session := LoadPodcast(m.session, a.ep, a.dateText))
    ensures a.MetadataLoaded? ==> r == m.(session := OnMetadata(m.session, a.duration))
    ensures a.TimeUpdate? ==> r == m.(session := OnTimeUpdate(m.session, a.time))
    ensures a.SnapshotTick? ==> r == m.(store := Tick(m.session, m.store))
  {
    var s := m.session;
    match a
    case PressPlay => m.(session := TogglePlay(s))
    case PressPrev => m.(session := Skip(s, PrevSeconds))
    case PressNext => m.(session := Skip(s, NextSeconds))
    case LoadEpisode(ep, dateText) => m.(session := LoadPodcast(s, ep, dateText))
    case MetadataLoaded(d) => m.(session := OnMetadata(s, d))
    case TimeUpdate(t) => m.(session := OnTimeUpdate(s, t))
    case SnapshotTick => m.(store := Tick(s, m.store))
  }

  /** Only the play button and a `loadedmetadata` handler (both through
      `playPodcast`/`pausePodcast`) change `isPlaying`; only a tick while
      playing writes the store; and the button always shows the flag. */
  lemma StepFrame(m: Machine, a: Action)
    requires ButtonMatches(m.session)
    ensures var r := Step(m, a);
      && ButtonMatches(r.session)
      && (r.session.isPlaying != m.session.isPlaying ==> a.PressPlay? || a.MetadataLoaded?)
      && (r.store != m.store ==> a.SnapshotTick? && m.session.isPlaying)
  {
  }

  /** A sequence of actions, in order. Only ticks touch the store, and a run
      of ticks alone leaves the session as it was. */
  function Run(m: Machine, actions: seq<Action>): (r: Machine)
    ensures (forall i :: 0 <= i < |actions| ==> !actions[i].SnapshotTick?) ==> r.store == m.store
    ensures (forall i :: 0 <= i < |actions| ==> actions[i].SnapshotTick?) ==> r.session == m.session
    decreases |actions|
  {
    if |actions| == 0 then m else Run(Step(m, actions[0]), actions[1..])
  }

  /** While nobody presses play and no metadata arrives, a paused session
      never writes a snapshot, however many ticks pass. */
  lemma {:induction false} PausedNeverWrites(m: Machine, actions: seq<Action>)
    requires !m.session.isPlaying
    requires forall i :: 0 <= i < |actions| ==> !actions[i].PressPlay? && !actions[i].MetadataLoaded?
    ensures Run(m, actions).store == m.store
    ensures !Run(m, actions).session.isPlaying
    decreases |actions|
  {
    if |actions| > 0 {
      PausedNeverWrites(Step(m, actions[0]), actions[1..]);
    }
  }

  /** Every step keeps the recorded duration consistent with the media's. */
  lemma {:induction false} RunKeepsDurationConsistent(m: Machine, actions: seq<Action>)
    requires DurationConsistent(m.session)
    ensures DurationConsistent(Run(m, actions).session)
    decreases |actions|
  {
    if |actions| > 0 {
      RunKeepsDurationConsistent(Step(m, actions[0]), actions[1..]);
    }
  }

  /** The button matches the flag along every run from a matching start. */
  lemma {:induction false} RunKeepsButton(m: Machine, actions: seq<Action>)
    requires ButtonMatches(m.session)
    ensures ButtonMatches(Run(m, actions).session)
    decreases |actions|
  {
    if |actions| > 0 {
      StepFrame(m, actions[0]);
      RunKeepsButton(Step(m, actions[0]), actions[1..]);
    }
  }
}
