/**
 `SongInfo`: a song as the player passes it around, the `artist|title|duration|data`
 strings the queue lists are made of, and the small formatters the screens use.
 The rule that splits `"Artist - Title"` out of a title when the artist is
 unknown appears in both `DatabaseHelper` and `MediaListActivity`; it is
 defined once here.
 */
module Song {
  import opened JavaInt
  import opened Options
  import opened Text

  /** The field separator of a queue string. */
  const Separator: char := '|'

  /** What the media store reports for a song without an artist tag. */
  const UnknownArtist: string := "<unknown>"

  /** What separates artist from title in such a song's title. */
  const TitleSeparator: string := " - "

  /** A song decoded from a queue string has no database id and the default volume and likes. */
  const UnsavedId: int := -1
  const DefaultVolume: int := 128
  const DefaultLikes: int := 0

  /** A `SongInfo`; `data`, the file path, may be `null`. */
  datatype SongInfo = SongInfo(id: int, artist: string, title: string, duration: int,
                               data: Option<string>, volume: int, likes: int)

  // ---------------------------------------------------------------------------
  // The queue string codec
  // ---------------------------------------------------------------------------

  /**
   `artist + "|" + title + "|" + duration + "|" + data`, as `getQueueItems`
   and the main screen build it: the four fields joined by the separator.
   */
  function EncodeQueueItem(artist: string, title: string, duration: int, data: string): (s: string)
    ensures s == Join([artist, title, LongToString(duration), data], Separator)
  {
    var d := LongToString(duration);
    var fields := [artist, title, d, data];
    assert Join([data], Separator) == data;
    assert Join([d, data], Separator) == d + [Separator] + data by {
      assert [d, data][1..] == [data];
    }
    assert Join([title, d, data], Separator) == title + [Separator] + (d + [Separator] + data) by {
      assert [title, d, data][1..] == [d, data];
    }
    assert Join(fields, Separator) == artist + [Separator] + (title + [Separator] + (d + [Separator] + data)) by {
      assert fields[1..] == [title, d, data];
    }
    artist + [Separator] + title + [Separator] + d + [Separator] + data
  }

  /**
   `SongInfo.fromQueueString`: split on every separator, keeping empty
   fields; fewer than four fields is `null`; otherwise the first four fields
   are artist, title, duration and path, and a duration that is not a `long`
   throws `NumberFormatException`.
   */
  function FromQueueString(s: string): (r: Outcome<Option<SongInfo>>)
    ensures r == Returned(None) <==> Count(s, Separator) < 3
    ensures r.Thrown? <==> |Split(s, Separator)| >= 4 && ParseLong(Split(s, Separator)[2]).None?
    ensures r.Thrown? ==> r.error == NumberFormatException
    ensures r.Returned? && r.value.Some? ==>
              var song := r.value.value;
              song.id == UnsavedId && song.volume == DefaultVolume && song.likes == DefaultLikes
              && song.data.Some? && Separator !in song.artist + song.title + song.data.value
    ensures r.Returned? && r.value.Some? ==>
              var p := Split(s, Separator);
              var song := r.value.value;
              && |p| >= 4
              && song.artist == p[0] && song.title == p[1] && song.data == Some(p[3])
              && ParseLong(p[2]) == Some(song.duration)
  {
    var parts := Split(s, Separator);
    SplitCount(s, Separator);
    if |parts| >= 4 then
      match ParseLong(parts[2])
      case None => Thrown(NumberFormatException)
      case Some(duration) =>
        assert Separator !in parts[0] && Separator !in parts[1] && Separator !in parts[3];
        Returned(Some(SongInfo(UnsavedId, parts[0], parts[1], duration, Some(parts[3]), DefaultVolume, DefaultLikes)))
    else Returned(None)
  }

  /** A `long` printed in decimal never contains the separator. */
  lemma SeparatorNotInLong(v: int)
    ensures Separator !in LongToString(v)
  {
    var d := LongToString(v);
    forall k | 0 <= k < |d|
      ensures d[k] != Separator
    {
    }
  }

  /**
   Decoding undoes encoding: for an artist, title and path without the
   separator and any `long` duration, the four values come back.
   */
  lemma QueueRoundTrip(artist: string, title: string, duration: int, data: string)
    requires Separator !in artist && Separator !in title && Separator !in data
    requires LongMin <= duration <= LongMax
    ensures FromQueueString(EncodeQueueItem(artist, title, duration, data))
            == Returned(Some(SongInfo(UnsavedId, artist, title, duration, Some(data), DefaultVolume, DefaultLikes)))
  {
    var fields := [artist, title, LongToString(duration), data];
    SeparatorNotInLong(duration);
    SplitJoin(fields, Separator);
    ParseLongToString(duration);
  }

  /**
   Fields after the fourth are ignored: appending a separator and any text
   to a string of four or more fields decodes to the same result.
   */
  lemma ExtraFieldsIgnored(s: string, rest: string)
    requires Count(s, Separator) >= 3
    ensures FromQueueString(s + [Separator] + rest) == FromQueueString(s)
  {
    var parts := Split(s, Separator);
    SplitCount(s, Separator);
    SplitJoinThen(parts, Separator, rest);
    var longer := Split(s + [Separator] + rest, Separator);
    assert longer[..4] == parts[..4];
    SplitCount(s + [Separator] + rest, Separator);
  }

  /** A duration field that is not a number makes decoding throw rather than return `null`. */
  lemma BadDurationThrows(artist: string, title: string, duration: string, data: string)
    requires Separator !in artist && Separator !in title && Separator !in duration && Separator !in data
    requires ParseLong(duration).None?
    ensures FromQueueString(Join([artist, title, duration, data], Separator)) == Thrown(NumberFormatException)
  {
    SplitJoin([artist, title, duration, data], Separator);
  }

  // ---------------------------------------------------------------------------
  // Formatters
  // ---------------------------------------------------------------------------

  /**
   `getFilename`: the text after the last `/` of the path, or the path itself
   when it is `null` or has no `/`. The result never contains a `/` and is
   always a suffix of the path.
   */
  function Filename(data: Option<string>): (r: Option<string>)
    ensures r.None? <==> data.None?
    ensures data.Some? ==> '/' !in r.value
    ensures data.Some? ==> |r.value| <= |data.value| && data.value[|data.value| - |r.value|..] == r.value
    ensures data.Some? && '/' in data.value ==> data.value[|data.value| - |r.value| - 1] == '/'
    ensures data.Some? && '/' !in data.value ==> r == data
  {
    match data
    case None => None
    case Some(path) =>
      ContainsChar(path, '/');
      if Contains(path, "/") then
        var i := LastIndexOf(path, '/').value;
        Some(path[i + 1..])
      else data
  }

  /** `SongInfo.getFilename`: the file name of the song's path. */
  function GetFilename(song: SongInfo): (r: Option<string>)
    ensures r.None? <==> song.data.None?
    ensures song.data.Some? ==>
              && '/' !in r.value && |r.value| <= |song.data.value|
              && song.data.value[|song.data.value| - |r.value|..] == r.value
  {
    Filename(song.data)
  }

  /** `String.format("%02d:%02d", minutes, seconds)`. */
  function MinutesSeconds(minutes: int, seconds: int): string
  {
    Format02d(minutes) + ":" + Format02d(seconds)
  }

  /**
   `getFormattedDuration`: whole minutes, then the whole seconds left over,
   each truncated toward zero like Java's `long` division.
   */
  function FormattedDuration(duration: int): (s: string)
    ensures |s| >= 5
    ensures duration >= 0 ==> s == MinutesSeconds(duration / 60000, (duration % 60000) / 1000)
    ensures duration < 0 ==> s == MinutesSeconds(-((-duration) / 60000), -(((-duration) % 60000) / 1000))
  {
    DurationFields(duration);
    MinutesSeconds(JDiv(duration, 60000), JDiv(JMod(duration, 60000), 1000))
  }

  /** Java's truncating minutes and seconds of a duration, in terms of Euclidean division of its magnitude. */
  lemma DurationFields(duration: int)
    ensures duration >= 0 ==>
              JDiv(duration, 60000) == duration / 60000 && JDiv(JMod(duration, 60000), 1000) == (duration % 60000) / 1000
    ensures duration < 0 ==>
              && JDiv(duration, 60000) == -((-duration) / 60000)
              && JDiv(JMod(duration, 60000), 1000) == -(((-duration) % 60000) / 1000)
  {
    if duration < 0 {
      var n := -duration;
      JDivOdd(n, 60000);
      assert JMod(duration, 60000) == -(n % 60000);
      JDivOdd(n % 60000, 1000);
    }
  }

  /** Text of the shape `<minutes>:<two-digit seconds>`, both fields plain decimal digits. */
  predicate IsClock(s: string)
  {
    |s| >= 5 && s[|s| - 3] == ':' && AllDigits(s[..|s| - 3]) && AllDigits(s[|s| - 2..])
  }

  /** The number before the colon of such a text. */
  function ClockMinutes(s: string): nat
    requires IsClock(s)
  {
    DigitsValue(s[..|s| - 3])
  }

  /** The two-digit number after the colon of such a text. */
  function ClockSeconds(s: string): nat
    requires IsClock(s)
  {
    DigitsValue(s[|s| - 2..])
  }

  /**
   For a non-negative duration the text is `<minutes>:<seconds>` with two
   seconds digits below 60, and reading it back as minutes and seconds gives
   the duration in whole seconds, rounded down.
   */
  lemma FormattedDurationReadsBack(duration: int)
    requires duration >= 0
    ensures IsClock(FormattedDuration(duration))
    ensures ClockSeconds(FormattedDuration(duration)) < 60
    ensures ClockMinutes(FormattedDuration(duration)) * 60 + ClockSeconds(FormattedDuration(duration)) == duration / 1000
  {
    var m, sec := duration / 60000, (duration % 60000) / 1000;
    MinutesSecondsReadsBack(m, sec);
    assert m * 60 + sec == duration / 1000;
  }

  /** Non-negative minutes and seconds below 60 can be read back from their text. */
  lemma MinutesSecondsReadsBack(minutes: int, seconds: int)
    requires minutes >= 0 && 0 <= seconds < 60
    ensures var s := MinutesSeconds(minutes, seconds);
            && IsClock(s)
            && s[..|s| - 3] == Format02d(minutes) && s[|s| - 2..] == Format02d(seconds)
            && ClockMinutes(s) == minutes && ClockSeconds(s) == seconds
  {
    var a, b := Format02d(minutes), Format02d(seconds);
    var s := a + ":" + b;
    assert |b| == 2;
    assert s[..|s| - 3] == a;
    assert s[|s| - 2..] == b;
  }

  // ---------------------------------------------------------------------------
  // Unknown artists
  // ---------------------------------------------------------------------------

  /**
   When the artist is `"<unknown>"` and the title contains `" - "`, the title
   is split at its first `" - "` into artist and title (later `" - "` stay in
   the title); otherwise both are kept as they are.
   */
  function SplitUnknownArtist(artist: string, title: string): (r: (string, string))
    ensures artist == UnknownArtist && Contains(title, TitleSeparator) ==>
              r.0 + TitleSeparator + r.1 == title && !Contains(r.0, TitleSeparator)
    ensures !(artist == UnknownArtist && Contains(title, TitleSeparator)) ==> r == (artist, title)
  {
    if artist == UnknownArtist && Contains(title, TitleSeparator) then
      var i := IndexOf(title, TitleSeparator).value;
      NoEarlierOccurrence(title, TitleSeparator, i);
      assert title == title[..i] + TitleSeparator + title[i + |TitleSeparator|..];
      (title[..i], title[i + |TitleSeparator|..])
    else (artist, title)
  }

  /** A prefix that ends before the first occurrence of a pattern does not contain it. */
  lemma NoEarlierOccurrence(s: string, pat: string, i: nat)
    requires i <= |s| && |pat| > 0
    requires forall k :: 0 <= k < i ==> !OccursAt(s, pat, k)
    ensures !Contains(s[..i], pat)
  {
    var r := IndexOf(s[..i], pat);
    if r.Some? {
      var k := r.value;
      assert s[..i][k..k + |pat|] == s[k..k + |pat|];
      assert OccursAt(s, pat, k);
    }
  }

  /**
   Splitting an unknown artist's `"A - T"` title gives back `A` and `T`,
   provided `" - "` first occurs right after `A`: `A` contains no `" - "`
   and does not end in `" -"`.
   */
  lemma SplitUnknownArtistInverse(a: string, t: string)
    requires !Contains(a, TitleSeparator)
    requires !(|a| >= 2 && a[|a| - 2..] == " -")
    ensures SplitUnknownArtist(UnknownArtist, a + TitleSeparator + t) == (a, t)
  {
    var title := a + TitleSeparator + t;
    assert title[|a|..|a| + 3] == TitleSeparator;
    assert OccursAt(title, TitleSeparator, |a|);
    var i := IndexOf(title, TitleSeparator).value;
    if i < |a| {
      NoSeparatorBefore(a, t, i);
    }
    assert i == |a|;
    assert title[..|a|] == a;
    assert title[|a| + 3..] == t;
  }

  /** Under the same conditions, `" - "` does not occur in `"A - T"` before the end of `A`. */
  lemma NoSeparatorBefore(a: string, t: string, k: nat)
    requires !Contains(a, TitleSeparator)
    requires !(|a| >= 2 && a[|a| - 2..] == " -")
    requires k < |a|
    ensures !OccursAt(a + TitleSeparator + t, TitleSeparator, k)
  {
    var title := a + TitleSeparator + t;
    if k + 3 <= |a| {
      forall j | k <= j < k + 3
        ensures title[j] == a[j]
      {
      }
      assert title[k..k + 3] == a[k..k + 3];
      assert !OccursAt(a, TitleSeparator, k);
    } else if k == |a| - 1 {
      assert title[k..k + 3] == [a[k], ' ', '-'];
    } else {
      assert k == |a| - 2;
      assert a[|a| - 2..] == [a[k], a[k + 1]];
      assert title[k..k + 3] == [a[k], a[k + 1], ' '];
    }
  }
}
