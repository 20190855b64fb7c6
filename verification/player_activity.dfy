/**
 `PlayerActivity`: a queue of `artist|title|duration|data` strings loaded
 from the store, a current position into it, and the buttons and timer
 that move that position or the playback position within a song.

 ExoPlayer is reduced to what the activity asks of it: which file is
 prepared and whether it should play when ready. Playback positions and
 durations are parameters, as the activity reads them from the player.
 */
module Player {
  import opened JavaInt
  import opened Options
  import opened Text
  import opened Song
  import opened Store

  /**
   ExoPlayer as the activity drives it: stopped, or a file prepared. Either
   way it keeps its `playWhenReady` flag: `stop()` does not clear it, so the
   next `prepare` plays at once if the flag was left set.
   */
  datatype Engine = Stopped(playWhenReady: bool) | Prepared(uri: string, playWhenReady: bool)

  /** A newly built ExoPlayer: nothing prepared, `playWhenReady` false. */
  const NewEngine: Engine := Stopped(false)

  /** The activity's fields: the queue as loaded at start, the current position, and the store. */
  datatype PlayerState = PlayerState(queue: seq<string>, position: int, engine: Engine, db: Db)

  /** The ten-second skip of the back and forward buttons, in milliseconds. */
  const SkipMillis: int := 10000

  /** Whether the engine will play once it is ready. */
  predicate WillPlay(e: Engine)
  {
    e.Prepared? && e.playWhenReady
  }

  /**
   `playSong(position, autoPlay)`: a position outside the queue changes
   nothing; an item that decodes to `null` changes nothing; otherwise the
   item's file is prepared (and set playing when `autoPlay`; a flag already
   set stays set), and the
   position is taken and saved. A malformed duration throws.
   */
  function PlaySong(s: PlayerState, pos: int, autoPlay: bool): (r: Outcome<PlayerState>)
    ensures !(0 <= pos < |s.queue|) ==> r == Returned(s)
    ensures 0 <= pos < |s.queue| ==>
              match FromQueueString(s.queue[pos])
              case Thrown(e) => r == Thrown(e)
              case Returned(None) => r == Returned(s)
              case Returned(Some(song)) =>
                && r.Returned?
                && r.value.queue == s.queue
                && r.value.position == pos
                && r.value.engine == Prepared(song.data.value, autoPlay || s.engine.playWhenReady)
                && r.value.db == SetQueuePosition(s.db, pos)
  {
    if pos < 0 || pos >= |s.queue| then Returned(s)
    else
      match FromQueueString(s.queue[pos])
      case Thrown(e) => Thrown(e)
      case Returned(None) => Returned(s)
      case Returned(Some(song)) =>
        var engine := Prepared(song.data.value, autoPlay || s.engine.playWhenReady);
        Returned(s.(position := pos, engine := engine, db := SetQueuePosition(s.db, pos)))
  }

  /**
   `playNext(autoPlay)`: step the position forward; play it if it is in the
   queue, otherwise stop and save position -1.
   */
  function PlayNext(s: PlayerState, autoPlay: bool): (r: Outcome<PlayerState>)
    ensures s.position + 1 >= |s.queue| ==>
              r == Returned(s.(position := NoPosition, engine := Stopped(s.engine.playWhenReady), db := SetQueuePosition(s.db, NoPosition)))
    ensures 0 <= s.position + 1 < |s.queue| ==> r == PlaySong(s.(position := s.position + 1), s.position + 1, autoPlay)
  {
    var pos := s.position + 1;
    if pos < |s.queue| then PlaySong(s.(position := pos), pos, autoPlay)
    else Returned(s.(position := NoPosition, engine := Stopped(s.engine.playWhenReady), db := SetQueuePosition(s.db, NoPosition)))
  }

  /** The previous-song button: only from a position above 0, step back and prepare without autoplay. */
  function Prev(s: PlayerState): (r: Outcome<PlayerState>)
    ensures s.position <= 0 ==> r == Returned(s)
    ensures s.position > 0 ==> r == PlaySong(s.(position := s.position - 1), s.position - 1, false)
  {
    if s.position > 0 then PlaySong(s.(position := s.position - 1), s.position - 1, false)
    else Returned(s)
  }

  /**
   The play/pause button: `pause()` when the player reports it is playing,
   `play()` otherwise. Both only set `playWhenReady`; whether the player is
   playing is read from ExoPlayer, so it is a parameter.
   */
  function PlayPause(s: PlayerState, isPlaying: bool): (r: PlayerState)
    ensures r.engine.playWhenReady == !isPlaying
    ensures r.queue == s.queue && r.position == s.position && r.db == s.db
    ensures r.engine.Prepared? == s.engine.Prepared?
    ensures r.engine.Prepared? ==> r.engine.uri == s.engine.uri
  {
    s.(engine := s.engine.(playWhenReady := !isPlaying))
  }

  /** The position lies in the queue, or is -1 for nothing selected. */
  predicate InQueueOrNone(s: PlayerState)
  {
    NoPosition <= s.position < |s.queue|
  }

  /**
   However `playSong` ends, a position already taken stays taken: a returned
   state has the same queue and either the requested position or the old one.
   */
  lemma PlaySongPosition(s: PlayerState, pos: int, autoPlay: bool)
    ensures var r := PlaySong(s, pos, autoPlay);
            r.Returned? ==> r.value.queue == s.queue && (r.value.position == pos || r.value == s)
  {
  }

  /**
   From any position of -1 or more, `playNext` lands on a position in the
   queue or on -1, and -1 exactly when it ran off the end.
   */
  lemma PlayNextLandsInQueue(s: PlayerState, autoPlay: bool)
    requires s.position >= NoPosition
    ensures var r := PlayNext(s, autoPlay);
            r.Returned? ==>
              && InQueueOrNone(r.value)
              && (r.value.position == NoPosition <==> s.position + 1 >= |s.queue|)
              && (s.position + 1 < |s.queue| ==> r.value.position == s.position + 1)
  {
    var pos := s.position + 1;
    if pos < |s.queue| {
      PlaySongPosition(s.(position := pos), pos, autoPlay);
    }
  }

  /** `prev` never moves below 0, and from inside the queue it stays inside. */
  lemma PrevStaysInQueue(s: PlayerState)
    requires InQueueOrNone(s)
    ensures var r := Prev(s);
            r.Returned? ==>
              && InQueueOrNone(r.value)
              && (s.position > 0 ==> r.value.position == s.position - 1)
              && (s.position <= 0 ==> r.value == s)
  {
    if s.position > 0 {
      PlaySongPosition(s.(position := s.position - 1), s.position - 1, false);
    }
  }

  /** A song that starts playing has its position saved: reading the store gives it back. */
  lemma PlayedPositionIsSaved(s: PlayerState, pos: int, autoPlay: bool)
    requires Valid(s.db)
    requires PlaySong(s, pos, autoPlay).Returned? && PlaySong(s, pos, autoPlay).value != s
    ensures GetQueuePosition(PlaySong(s, pos, autoPlay).value.db) == pos
    ensures Valid(PlaySong(s, pos, autoPlay).value.db)
  {
  }

  /**
   An item with fewer than four fields is stepped onto but not played: the
   position moves, the engine and the saved position do not.
   */
  lemma PlayNextOverMalformedItem(s: PlayerState, autoPlay: bool)
    requires 0 <= s.position + 1 < |s.queue|
    requires Count(s.queue[s.position + 1], Separator) < 3
    ensures PlayNext(s, autoPlay) == Returned(s.(position := s.position + 1))
  {
  }

  /**
   The play/pause button decides whether the next song played without
   autoplay (the prev and next buttons) starts: after a pause it is only
   prepared, after a play it plays.
   */
  lemma PlayPauseCarriesToNextSong(s: PlayerState, isPlaying: bool, pos: int)
    requires 0 <= pos < |s.queue|
    requires FromQueueString(s.queue[pos]).Returned? && FromQueueString(s.queue[pos]).value.Some?
    ensures PlaySong(PlayPause(s, isPlaying), pos, false).Returned?
    ensures WillPlay(PlaySong(PlayPause(s, isPlaying), pos, false).value.engine) <==> !isPlaying
  {
  }

  /** When `playNext` runs off the end, the saved position is -1 again. */
  lemma RunningOffTheEndSavesNone(s: PlayerState, autoPlay: bool)
    requires Valid(s.db) && s.position + 1 >= |s.queue|
    ensures PlayNext(s, autoPlay).Returned?
    ensures GetQueuePosition(PlayNext(s, autoPlay).value.db) == NoPosition
    ensures !WillPlay(PlayNext(s, autoPlay).value.engine)
  {
  }

  /**
   Stopping at the end keeps `playWhenReady`: when the last song ends while
   playing, the next button (`playNext(false)`) still starts the first song
   playing, although it asks for no autoplay.
   */
  lemma NextAfterEndStillPlays(s: PlayerState, autoPlay: bool)
    requires WillPlay(s.engine) && s.position + 1 >= |s.queue|
    requires |s.queue| > 0 && FromQueueString(s.queue[0]).Returned? && FromQueueString(s.queue[0]).value.Some?
    ensures PlayNext(s, autoPlay).Returned?
    ensures var stopped := PlayNext(s, autoPlay).value;
            && !WillPlay(stopped.engine)
            && PlayNext(stopped, false).Returned?
            && PlayNext(stopped, false).value.position == 0
            && WillPlay(PlayNext(stopped, false).value.engine)
  {
  }

  // ---------------------------------------------------------------------------
  // Playback position arithmetic
  // ---------------------------------------------------------------------------

  /** The back-ten-seconds target, never before the start. */
  function Back10Target(current: int): (t: int)
    ensures t >= 0
    ensures current >= SkipMillis ==> t == current - SkipMillis
    ensures current < SkipMillis ==> t == 0
  {
    Max(0, current - SkipMillis)
  }

  /** The forward-ten-seconds target, never past the duration. */
  function Forward10Target(current: int, duration: int): (t: int)
    ensures t <= duration && t <= current + SkipMillis
    ensures t == duration || t == current + SkipMillis
  {
    Min(duration, current + SkipMillis)
  }

  /** Dragging the seek bar to `progress` percent seeks to that share of the duration, truncated. */
  function SeekTarget(progress: int, duration: int): (t: int)
    ensures progress * duration >= 0 ==> t * 100 <= progress * duration < t * 100 + 100
    ensures progress * duration <= 0 ==> t * 100 >= progress * duration > t * 100 - 100
  {
    JDivBracket(progress * duration, 100);
    JDiv(progress * duration, 100)
  }

  /** The seek bar's percentage for a playback position, when the duration is known. */
  function Progress(current: int, duration: int): (p: int)
    requires duration > 0
    ensures current >= 0 ==> p * duration <= current * 100 < p * duration + duration
    ensures current <= 0 ==> p * duration >= current * 100 > p * duration - duration
  {
    JDivBracket(current * 100, duration);
    JDiv(current * 100, duration)
  }

  /** A seek bar at 0..100 of a known duration seeks within the song, from its start to its end. */
  lemma SeekTargetInSong(progress: int, duration: int)
    requires 0 <= progress <= 100 && duration >= 0
    ensures 0 <= SeekTarget(progress, duration) <= duration
    ensures SeekTarget(0, duration) == 0 && SeekTarget(100, duration) == duration
  {
    MulLeft(duration, progress, 100);
    DivAtMost(progress * duration, 100, duration);
  }

  /** A playback position within the song shows a percentage from 0 to 100. */
  lemma ProgressInRange(current: int, duration: int)
    requires duration > 0 && 0 <= current <= duration
    ensures 0 <= Progress(current, duration) <= 100
  {
    MulLeft(100, current, duration);
    DivAtMost(current * 100, duration, 100);
  }

  /**
   Seeking to the percentage shown for a position lands at or before that
   position, by less than a hundredth of the duration plus a millisecond.
   */
  lemma SeekToShownProgress(current: int, duration: int)
    requires duration > 0 && 0 <= current <= duration
    ensures var t := SeekTarget(Progress(current, duration), duration);
            t <= current && 100 * (current - t) < duration + 100
  {
    var p := Progress(current, duration);
    ProgressInRange(current, duration);
    DivBracket(current * 100, duration);
    var t := SeekTarget(p, duration);
    DivBracket(p * duration, 100);
    assert p * duration <= current * 100 < p * duration + duration;
    assert t * 100 <= p * duration < t * 100 + 100;
  }

  /** The percentage shown after seeking to `progress` percent is at most `progress`. */
  lemma ProgressOfSeek(progress: int, duration: int)
    requires duration > 0 && 0 <= progress <= 100
    ensures Progress(SeekTarget(progress, duration), duration) <= progress
  {
    var t := SeekTarget(progress, duration);
    DivBracket(progress * duration, 100);
    assert t * 100 <= progress * duration;
    DivAtMost(t * 100, duration, progress);
  }

  // ---------------------------------------------------------------------------
  // Time text
  // ---------------------------------------------------------------------------

  /** `formatTime`: whole minutes and the seconds within the minute, both truncated toward zero. */
  function FormatTime(millis: int): (s: string)
    ensures millis >= 0 ==> s == MinutesSeconds(millis / 60000, (millis % 60000) / 1000)
  {
    SecondsAgree(Max(0, millis));
    MinutesSeconds(JDiv(millis, 60000), JMod(JDiv(millis, 1000), 60))
  }

  /** For a non-negative time the two ways of getting the seconds agree. */
  lemma SecondsAgree(n: nat)
    ensures (n % 60000) / 1000 == (n / 1000) % 60
  {
    var a, b := n / 60000, n % 60000;
    assert n == 60000 * a + b;
    var c := b / 1000;
    assert b == 1000 * c + b % 1000;
    assert n == 1000 * (60 * a + c) + b % 1000;
    assert n / 1000 == 60 * a + c;
    assert c < 60;
  }

  /** The player's `formatTime` and `SongInfo.getFormattedDuration` print every time the same way. */
  lemma FormatTimeIsFormattedDuration(millis: int)
    ensures FormatTime(millis) == FormattedDuration(millis)
  {
    assert JMod(JDiv(millis, 1000), 60) == JDiv(JMod(millis, 60000), 1000) by {
      if millis >= 0 {
        SecondsAgree(millis);
      } else {
        var n := -millis;
        SecondsAgree(n);
        JDivOdd(n, 1000);
        JDivOdd(n / 1000, 60);
        JDivOdd(n, 60000);
        JDivOdd(n % 60000, 1000);
      }
    }
  }

  /**
   `updateProgress`: when the duration is known, the percentage for the seek
   bar and the `"MM:SS / MM:SS"` line; otherwise nothing is updated.
   */
  function UpdateProgress(current: int, duration: int): (r: Option<(int, string)>)
    ensures r.Some? <==> duration > 0
    ensures r.Some? ==> r.value.0 == Progress(current, duration)
    ensures r.Some? ==> r.value.1 == FormattedDuration(current) + " / " + FormattedDuration(duration)
  {
    FormatTimeIsFormattedDuration(current);
    FormatTimeIsFormattedDuration(duration);
    if duration > 0 then Some((Progress(current, duration), FormatTime(current) + " / " + FormatTime(duration)))
    else None
  }

  // ---------------------------------------------------------------------------
  // Start-up
  // ---------------------------------------------------------------------------

  /**
   `onCreate`: load the queue from the store, take the position passed in,
   and play it. A position outside the queue is kept as it is, with nothing
   prepared.
   */
  function Start(db: Db, requested: int): (r: Outcome<PlayerState>)
    ensures !(0 <= requested < |GetQueueItems(db)|) ==>
              r == Returned(PlayerState(GetQueueItems(db), requested, NewEngine, db))
  {
    PlaySong(PlayerState(GetQueueItems(db), requested, NewEngine, db), requested, true)
  }

  /**
   Started on a queue item made from a store row whose text has no
   separator, the player prepares that row's file and plays it.
   */
  lemma StartPlaysRequestedSong(db: Db, requested: nat)
    requires Valid(db) && requested < |QueueSongs(db)|
    requires SeparatorFree(QueueSongs(db)[requested])
    ensures Start(db, requested).Returned?
    ensures var s := Start(db, requested).value;
            s.position == requested && s.engine == Prepared(QueueSongs(db)[requested].data, true)
            && GetQueuePosition(s.db) == requested
  {
    QueueItemsDecode(db, requested);
  }
}
