/**
 `MediaListActivity`: a list of `artist|title|duration|data` strings, the
 row each one is shown as, and an Android `MediaPlayer` that plays a tapped
 row and moves on to the next when a song completes.

 Whether `MediaPlayer` can open and start a file is outside the model: it
 is the `opens` parameter.
 */
module MediaList {
  import opened Options
  import opened Text
  import opened Song
  import opened Player

  /**
   The `MediaPlayer` as the activity drives it: idle after a reset, or with a
   file loaded and started. `Playing` means only that the source was loaded
   and started: a player whose song has completed stays `Playing` until the
   activity resets it.
   */
  datatype MediaEngine = Idle | Playing(source: string)

  /** The activity's fields: the list passed in, the current position (-1 for none), the player. */
  datatype ListState = ListState(files: seq<string>, position: int, player: MediaEngine)

  /** A fresh list screen: nothing selected, nothing playing. */
  function Open(files: seq<string>): (s: ListState)
    ensures InListOrNone(s) && s.player == Idle
  {
    ListState(files, -1, Idle)
  }

  /** The position lies in the list, or is -1. */
  predicate InListOrNone(s: ListState)
  {
    -1 <= s.position < |s.files|
  }

  /**
   `playSong(position)`: an index outside the list or an item with fewer than
   four fields throws before anything happens and the exception is caught.
   Otherwise the player is reset and given the file; if it opens, it plays
   and the position is taken; if not, the player is left reset and the
   position stays as it was.
   */
  function PlaySong(s: ListState, pos: int, opens: bool): (r: ListState)
    ensures r.files == s.files
    ensures !(0 <= pos < |s.files|) ==> r == s
    ensures 0 <= pos < |s.files| && |Split(s.files[pos], Separator)| < 4 ==> r == s
    ensures 0 <= pos < |s.files| && |Split(s.files[pos], Separator)| >= 4 ==>
              && (opens ==> r.position == pos && r.player == Playing(Split(s.files[pos], Separator)[3]))
              && (!opens ==> r.position == s.position && r.player == Idle)
  {
    if pos < 0 || pos >= |s.files| then s
    else
      var parts := Split(s.files[pos], Separator);
      if |parts| < 4 then s
      else if opens then s.(position := pos, player := Playing(parts[3]))
      else s.(player := Idle)
  }

  /**
   `playNextSong`, run when a song completes: step the position forward; play
   it if it is in the list, otherwise stop and take position -1.
   */
  function PlayNextSong(s: ListState, opens: bool): (r: ListState)
    ensures s.position + 1 >= |s.files| ==> r == s.(position := -1, player := Idle)
    ensures 0 <= s.position + 1 < |s.files| ==> r == PlaySong(s.(position := s.position + 1), s.position + 1, opens)
  {
    var pos := s.position + 1;
    if pos < |s.files| then PlaySong(s.(position := pos), pos, opens)
    else s.(position := -1, player := Idle)
  }

  /** Playing a tapped row keeps the position in the list or at -1. */
  lemma PlaySongKeepsInList(s: ListState, pos: int, opens: bool)
    requires InListOrNone(s)
    ensures InListOrNone(PlaySong(s, pos, opens))
  {
  }

  /**
   From any position of -1 or more, `playNextSong` lands in the list or on -1,
   and on -1 exactly when it ran off the end. The position advances even when
   the next item cannot be played.
   */
  lemma PlayNextSongLandsInList(s: ListState, opens: bool)
    requires s.position >= -1
    ensures var r := PlayNextSong(s, opens);
            && InListOrNone(r)
            && (r.position == -1 <==> s.position + 1 >= |s.files|)
            && (s.position + 1 < |s.files| ==> r.position == s.position + 1)
  {
  }

  /**
   After `playNextSong` a well-formed next item plays its path exactly when
   it opens, and leaves the player reset when it does not; a malformed one
   leaves the player as it was; past the end nothing plays.
   */
  lemma PlayNextSongPlays(s: ListState, opens: bool)
    requires s.position >= -1
    ensures var r := PlayNextSong(s, opens);
            var next := s.position + 1;
            r.player.Playing? <==>
              next < |s.files| && (if |Split(s.files[next], Separator)| >= 4 then opens else s.player.Playing?)
    ensures var r := PlayNextSong(s, opens);
            var next := s.position + 1;
            && (next >= |s.files| ==> r.player == Idle)
            && (next < |s.files| && |Split(s.files[next], Separator)| >= 4 ==>
                  r.player == if opens then Playing(Split(s.files[next], Separator)[3]) else Idle)
            && (next < |s.files| && |Split(s.files[next], Separator)| < 4 ==> r.player == s.player)
  {
  }

  // ---------------------------------------------------------------------------
  // Rows
  // ---------------------------------------------------------------------------

  /** What a row shows: title, artist and the duration text. */
  datatype Row = Row(title: string, artist: string, durationText: string)

  /** The duration column: `MM:SS` for a positive duration, empty otherwise. */
  function DurationText(duration: int): (t: string)
    ensures duration <= 0 <==> t == ""
    ensures duration > 0 ==> t == FormattedDuration(duration)
  {
    FormatTimeIsFormattedDuration(duration);
    if duration > 0 then FormatTime(duration) else ""
  }

  /**
   `getView`: read the fields of the item in the order the code does, so a
   short item throws `IndexOutOfBoundsException` at the first missing field
   and a bad duration throws `NumberFormatException` first if it is reached;
   then apply the unknown-artist split.
   */
  function RowView(item: string): (r: Outcome<Row>)
    ensures |Split(item, Separator)| < 3 ==> r == Thrown(IndexOutOfBoundsException)
    ensures |Split(item, Separator)| >= 3 ==>
              var durationField := Split(item, Separator)[2];
              && (ParseLong(durationField).None? ==> r == Thrown(NumberFormatException))
              && (ParseLong(durationField).Some? && |Split(item, Separator)| == 3 ==> r == Thrown(IndexOutOfBoundsException))
    ensures r.Returned? <==> |Split(item, Separator)| >= 4 && ParseLong(Split(item, Separator)[2]).Some?
  {
    var parts := Split(item, Separator);
    if |parts| < 3 then Thrown(IndexOutOfBoundsException)  // no title or no duration field
    else
      match ParseLong(parts[2])
      case None => Thrown(NumberFormatException)
      case Some(duration) =>
        if |parts| < 4 then Thrown(IndexOutOfBoundsException)
        else
          var (artist, title) := SplitUnknownArtist(parts[0], parts[1]);
          Returned(Row(title, artist, DurationText(duration)))
  }

  /**
   The list row and the codec agree: a row is shown exactly when the item
   decodes to a song, and the row shows that song's artist and title (after
   the unknown-artist split) and its duration. An item the codec throws on
   also fails to render.
   */
  lemma RowViewShowsDecodedSong(item: string)
    ensures RowView(item).Returned? <==> FromQueueString(item).Returned? && FromQueueString(item).value.Some?
    ensures FromQueueString(item).Thrown? ==> RowView(item) == Thrown(NumberFormatException)
    ensures RowView(item).Returned? ==>
              var song := FromQueueString(item).value.value;
              var (artist, title) := SplitUnknownArtist(song.artist, song.title);
              RowView(item).value == Row(title, artist, DurationText(song.duration))
  {
  }

  /** An encoded item with a positive duration shows that duration as `FormattedDuration` prints it. */
  lemma RowViewOfEncodedItem(artist: string, title: string, duration: int, data: string)
    requires Separator !in artist && Separator !in title && Separator !in data
    requires 0 < duration <= LongMax
    ensures var item := EncodeQueueItem(artist, title, duration, data);
            var (a, t) := SplitUnknownArtist(artist, title);
            RowView(item) == Returned(Row(t, a, FormattedDuration(duration)))
  {
    QueueRoundTrip(artist, title, duration, data);
    RowViewShowsDecodedSong(EncodeQueueItem(artist, title, duration, data));
    FormatTimeIsFormattedDuration(duration);
  }
}
