/**
 `DatabaseHelper` as an abstract store: the `media`, `queue` and `state`
 tables as in-memory rows, with the SQL each method issues written out as
 operations on them.

 SQLite behaviour the model fixes explicitly:
 - rows come back in insertion order, and a join lists the queue's rows in
   queue order (SQL does not promise either without ORDER BY);
 - an `AUTOINCREMENT` table never reuses an id, even after its rows are
   deleted, so each table carries the largest id it has handed out;
 - foreign keys are not enforced, so deleting media leaves queue rows that
   no longer join;
 - a negative `OFFSET` behaves like `OFFSET 0`.
 */
module Store {
  import opened JavaInt
  import opened Options
  import opened Text
  import opened Song

  /** One row of the media store query: `ARTIST`, `TITLE`, `DURATION`, `DATA`. */
  datatype StoreEntry = StoreEntry(artist: string, title: string, duration: int, data: string)

  datatype MediaRow = MediaRow(id: int, artist: string, title: string, duration: int, data: string, volume: int, likes: int)

  datatype QueueRow = QueueRow(id: int, mediaId: int)

  datatype StateRow = StateRow(position: int, shuffle: int, loop: int)

  /** The three tables, and for each `AUTOINCREMENT` table the largest id it has handed out. */
  datatype Db = Db(media: seq<MediaRow>, queue: seq<QueueRow>, state: Option<StateRow>, mediaSeq: nat, queueSeq: nat)

  /** The state row `onCreate` and `clearAllData` insert: no position, shuffle on, loop on. */
  const DefaultState: StateRow := StateRow(-1, 1, 1)

  /** What the getters return when the state row is missing. */
  const NoPosition: int := -1
  const DefaultShuffle: int := 1
  const DefaultLoop: int := 1

  // ---------------------------------------------------------------------------
  // Invariant
  // ---------------------------------------------------------------------------

  predicate MediaIdsIssued(db: Db)
  {
    && (forall i, j :: 0 <= i < j < |db.media| ==> db.media[i].id < db.media[j].id)
    && (forall k :: 0 <= k < |db.media| ==> 1 <= db.media[k].id <= db.mediaSeq)
  }

  predicate QueueIdsIssued(db: Db)
  {
    && (forall i, j :: 0 <= i < j < |db.queue| ==> db.queue[i].id < db.queue[j].id)
    && (forall k :: 0 <= k < |db.queue| ==> 1 <= db.queue[k].id <= db.queueSeq)
  }

  /** Every queue row points at a media id that has been handed out (the row may be gone). */
  predicate QueueRefsIssued(db: Db)
  {
    forall k :: 0 <= k < |db.queue| ==> db.queue[k].mediaId <= db.mediaSeq
  }

  /** A media row's duration came from `Cursor.getLong`. */
  predicate DurationsAreLongs(db: Db)
  {
    forall k :: 0 <= k < |db.media| ==> LongMin <= db.media[k].duration <= LongMax
  }

  /** What every method of the helper keeps true of the database. */
  predicate Valid(db: Db)
  {
    && db.state.Some?
    && MediaIdsIssued(db)
    && QueueIdsIssued(db)
    && QueueRefsIssued(db)
    && DurationsAreLongs(db)
  }

  /** `onCreate`: empty tables and the default state row. */
  function OnCreate(): (db: Db)
    ensures Valid(db)
    ensures db.media == [] && db.queue == [] && db.state == Some(DefaultState)
  {
    Db([], [], Some(DefaultState), 0, 0)
  }

  // ---------------------------------------------------------------------------
  // Loading media
  // ---------------------------------------------------------------------------

  /** The row inserted for one media store entry: the unknown-artist split, volume 128, likes 0. */
  function MediaRowOf(e: StoreEntry, id: int): MediaRow
  {
    var (artist, title) := SplitUnknownArtist(e.artist, e.title);
    MediaRow(id, artist, title, e.duration, e.data, DefaultVolume, DefaultLikes)
  }

  /**
   `loadMediaFromMediaStore`: delete every media row, then insert one row per
   entry, in order, under fresh ids. The queue and state are left alone.
   */
  function LoadMedia(db: Db, entries: seq<StoreEntry>): (db': Db)
    ensures |db'.media| == |entries|
    ensures forall k :: 0 <= k < |entries| ==>
              && db'.media[k].id == db.mediaSeq + 1 + k
              && (db'.media[k].artist, db'.media[k].title) == SplitUnknownArtist(entries[k].artist, entries[k].title)
              && db'.media[k].duration == entries[k].duration && db'.media[k].data == entries[k].data
              && db'.media[k].volume == DefaultVolume && db'.media[k].likes == DefaultLikes
    ensures db'.queue == db.queue && db'.state == db.state && db'.queueSeq == db.queueSeq
    ensures db'.mediaSeq == db.mediaSeq + |entries|
  {
    var media := seq(|entries|, k requires 0 <= k < |entries| => MediaRowOf(entries[k], db.mediaSeq + 1 + k));
    db.(media := media, mediaSeq := db.mediaSeq + |entries|)
  }

  /** Loading keeps the invariant, given that every duration is a `long`. */
  lemma LoadMediaValid(db: Db, entries: seq<StoreEntry>)
    requires Valid(db)
    requires forall k :: 0 <= k < |entries| ==> LongMin <= entries[k].duration <= LongMax
    ensures Valid(LoadMedia(db, entries))
  {
  }

  // ---------------------------------------------------------------------------
  // Reading the queue
  // ---------------------------------------------------------------------------

  /** The media rows with a given id. */
  function RowsWithId(media: seq<MediaRow>, id: int): (r: seq<MediaRow>)
    ensures forall k :: 0 <= k < |r| ==> r[k].id == id && r[k] in media
    ensures forall k :: 0 <= k < |media| && media[k].id == id ==> media[k] in r
    ensures |r| <= |media|
  {
    if |media| == 0 then []
    else (if media[0].id == id then [media[0]] else []) + RowsWithId(media[1..], id)
  }

  /** `queue q INNER JOIN media m ON q.media_id = m.id`: the media rows the queue rows find, in queue order. */
  function Joined(queue: seq<QueueRow>, media: seq<MediaRow>): (r: seq<MediaRow>)
    ensures forall k :: 0 <= k < |r| ==> r[k] in media && exists q :: 0 <= q < |queue| && queue[q].mediaId == r[k].id
  {
    if |queue| == 0 then []
    else
      var rest := Joined(queue[1..], media);
      assert forall k :: 0 <= k < |rest| ==> exists q :: 1 <= q < |queue| && queue[q].mediaId == rest[k].id by {
        forall k | 0 <= k < |rest|
          ensures exists q :: 1 <= q < |queue| && queue[q].mediaId == rest[k].id
        {
          var q :| 0 <= q < |queue| - 1 && queue[1..][q].mediaId == rest[k].id;
          assert queue[q + 1].mediaId == rest[k].id;
        }
      }
      RowsWithId(media, queue[0].mediaId) + rest
  }

  /** Some media row carries the id. */
  predicate HasId(media: seq<MediaRow>, id: int)
  {
    exists j :: 0 <= j < |media| && media[j].id == id
  }

  /** With strictly increasing ids, the row at `j` is the only one carrying its id. */
  lemma {:induction false} RowsWithIdUnique(media: seq<MediaRow>, j: nat)
    requires forall a, b :: 0 <= a < b < |media| ==> media[a].id < media[b].id
    requires j < |media|
    ensures RowsWithId(media, media[j].id) == [media[j]]
    decreases j
  {
    assert forall k :: 1 <= k < |media| ==> media[1..][k - 1] == media[k];
    if j == 0 {
      NoRowsWithId(media[1..], media[0].id);
    } else {
      RowsWithIdUnique(media[1..], j - 1);
    }
  }

  /**
   With strictly increasing media ids and every queue row pointing at a
   present media row, the join keeps every queue row: entry `k` is the media
   row queue row `k` names.
   */
  lemma {:induction false} JoinComplete(queue: seq<QueueRow>, media: seq<MediaRow>)
    requires forall a, b :: 0 <= a < b < |media| ==> media[a].id < media[b].id
    requires forall k :: 0 <= k < |queue| ==> HasId(media, queue[k].mediaId)
    ensures |Joined(queue, media)| == |queue|
    ensures forall k :: 0 <= k < |queue| ==> Joined(queue, media)[k].id == queue[k].mediaId && Joined(queue, media)[k] in media
    decreases |queue|
  {
    if |queue| > 0 {
      assert HasId(media, queue[0].mediaId);
      var j :| 0 <= j < |media| && media[j].id == queue[0].mediaId;
      RowsWithIdUnique(media, j);
      JoinComplete(queue[1..], media);
      var r := Joined(queue, media);
      var rest := Joined(queue[1..], media);
      assert r == [media[j]] + rest;
      forall k | 0 <= k < |queue|
        ensures r[k].id == queue[k].mediaId && r[k] in media
      {
        if k > 0 {
          assert r[k] == rest[k - 1];
          assert rest[k - 1].id == queue[1..][k - 1].mediaId;
        }
      }
    }
  }

  /** The queue as songs: `Joined` for the database's own tables. */
  function QueueSongs(db: Db): (songs: seq<MediaRow>)
    ensures forall k :: 0 <= k < |songs| ==> songs[k] in db.media && songs[k].id in QueueMediaIds(db)
  {
    Joined(db.queue, db.media)
  }

  /** `getQueueItems`: each joined row as an `artist|title|duration|data` string. */
  function GetQueueItems(db: Db): (items: seq<string>)
    ensures |items| == |QueueSongs(db)|
    ensures forall k :: 0 <= k < |items| ==>
              var m := QueueSongs(db)[k];
              items[k] == EncodeQueueItem(m.artist, m.title, m.duration, m.data)
  {
    var rows := QueueSongs(db);
    seq(|rows|, k requires 0 <= k < |rows| => EncodeQueueItem(rows[k].artist, rows[k].title, rows[k].duration, rows[k].data))
  }

  /** No text field of a row contains the queue separator. */
  predicate SeparatorFree(m: MediaRow)
  {
    Separator !in m.artist && Separator !in m.title && Separator !in m.data
  }

  /** Every queue item decodes back to the artist, title, duration and path of the row it was made from. */
  lemma QueueItemsDecode(db: Db, k: nat)
    requires Valid(db) && k < |QueueSongs(db)|
    requires SeparatorFree(QueueSongs(db)[k])
    ensures var m := QueueSongs(db)[k];
            FromQueueString(GetQueueItems(db)[k])
            == Returned(Some(SongInfo(UnsavedId, m.artist, m.title, m.duration, Some(m.data), DefaultVolume, DefaultLikes)))
  {
    var m := QueueSongs(db)[k];
    assert m in db.media;
    QueueRoundTrip(m.artist, m.title, m.duration, m.data);
  }

  /**
   Reloading media orphans the queue: the new rows get ids never handed out
   before, the queue still points at the old ones, and the join finds nothing.
   */
  lemma LoadMediaOrphansQueue(db: Db, entries: seq<StoreEntry>)
    requires Valid(db)
    ensures GetQueueItems(LoadMedia(db, entries)) == []
  {
    var db' := LoadMedia(db, entries);
    NothingJoins(db'.queue, db'.media, db.mediaSeq);
  }

  lemma {:induction false} NothingJoins(queue: seq<QueueRow>, media: seq<MediaRow>, bound: int)
    requires forall k :: 0 <= k < |queue| ==> queue[k].mediaId <= bound
    requires forall k :: 0 <= k < |media| ==> media[k].id > bound
    ensures Joined(queue, media) == []
  {
    if |queue| > 0 {
      NoRowsWithId(media, queue[0].mediaId);
      NothingJoins(queue[1..], media, bound);
    }
  }

  lemma {:induction false} NoRowsWithId(media: seq<MediaRow>, id: int)
    requires forall k :: 0 <= k < |media| ==> media[k].id != id
    ensures RowsWithId(media, id) == []
  {
    if |media| > 0 {
      NoRowsWithId(media[1..], id);
    }
  }

  // ---------------------------------------------------------------------------
  // Shuffling into the queue
  // ---------------------------------------------------------------------------

  /**
   The values `Random.nextInt(i)` returns while `Collections.shuffle` walks `i`
   down from `n` to 2: the `j`-th draw is below `n - j`.
   */
  predicate ValidDraws(draws: seq<nat>, n: nat)
  {
    |draws| + 1 >= n && forall j :: 0 <= j < |draws| && j + 1 < n ==> draws[j] < n - j
  }

  function Swap(xs: seq<int>, a: nat, b: nat): (r: seq<int>)
    requires a < |xs| && b < |xs|
    ensures |r| == |xs| && multiset(r) == multiset(xs)
    ensures r[a] == xs[b] && r[b] == xs[a]
    ensures forall k :: 0 <= k < |xs| && k != a && k != b ==> r[k] == xs[k]
  {
    xs[a := xs[b]][b := xs[a]]
  }

  /** `Collections.shuffle`: for `i` from the size down to 2, swap position `i - 1` with a drawn position below `i`. */
  function Shuffle(xs: seq<int>, draws: seq<nat>): (r: seq<int>)
    requires ValidDraws(draws, |xs|)
    ensures |r| == |xs| && multiset(r) == multiset(xs)
  {
    ShuffleFrom(xs, draws, |xs|)
  }

  function ShuffleFrom(xs: seq<int>, draws: seq<nat>, i: nat): (r: seq<int>)
    requires i <= |xs| && ValidDraws(draws, |xs|)
    ensures |r| == |xs| && multiset(r) == multiset(xs)
    ensures forall k :: i <= k < |xs| ==> r[k] == xs[k]
    decreases i
  {
    if i <= 1 then xs
    else ShuffleFrom(Swap(xs, i - 1, draws[|xs| - i]), draws, i - 1)
  }

  /** Drawing `i - 1` at every step swaps each element with itself, leaving the order as it was. */
  lemma {:induction false} ShuffleIdentity(xs: seq<int>, draws: seq<nat>, i: nat)
    requires i <= |xs| && ValidDraws(draws, |xs|)
    requires forall j :: 0 <= j < |draws| && j + 1 < |xs| ==> draws[j] == |xs| - 1 - j
    ensures ShuffleFrom(xs, draws, i) == xs
    decreases i
  {
    if i > 1 {
      assert Swap(xs, i - 1, draws[|xs| - i]) == xs;
      ShuffleIdentity(xs, draws, i - 1);
    }
  }

  function MediaIds(db: Db): (ids: seq<int>)
    ensures |ids| == |db.media| && forall k :: 0 <= k < |ids| ==> ids[k] == db.media[k].id
  {
    seq(|db.media|, k requires 0 <= k < |db.media| => db.media[k].id)
  }

  function QueueMediaIds(db: Db): (ids: seq<int>)
    ensures |ids| == |db.queue| && forall k :: 0 <= k < |ids| ==> ids[k] == db.queue[k].mediaId
  {
    seq(|db.queue|, k requires 0 <= k < |db.queue| => db.queue[k].mediaId)
  }

  /**
   `fillQueueWithShuffledMedia`: empty the queue, read the media ids, shuffle
   them, and insert one queue row per id under fresh queue ids. The queue's
   media ids are a permutation of the media ids.
   */
  function FillQueueWithShuffledMedia(db: Db, draws: seq<nat>): (db': Db)
    requires ValidDraws(draws, |db.media|)
    ensures multiset(QueueMediaIds(db')) == multiset(MediaIds(db))
    ensures |db'.queue| == |db.media|
    ensures forall k :: 0 <= k < |db'.queue| ==> db'.queue[k].id == db.queueSeq + 1 + k
    ensures db'.media == db.media && db'.state == db.state && db'.mediaSeq == db.mediaSeq
    ensures db'.queueSeq == db.queueSeq + |db.media|
  {
    var ids := Shuffle(MediaIds(db), draws);
    var queue := seq(|ids|, k requires 0 <= k < |ids| => QueueRow(db.queueSeq + 1 + k, ids[k]));
    var db' := db.(queue := queue, queueSeq := db.queueSeq + |ids|);
    assert QueueMediaIds(db') == ids;
    db'
  }

  /** Filling the queue keeps the invariant. */
  lemma FillQueueValid(db: Db, draws: seq<nat>)
    requires Valid(db) && ValidDraws(draws, |db.media|)
    ensures Valid(FillQueueWithShuffledMedia(db, draws))
  {
    var db' := FillQueueWithShuffledMedia(db, draws);
    forall k | 0 <= k < |db'.queue|
      ensures db'.queue[k].mediaId <= db'.mediaSeq
    {
      var id := QueueMediaIds(db')[k];
      assert id in multiset(MediaIds(db));
      var j :| 0 <= j < |db.media| && MediaIds(db)[j] == id;
    }
  }

  /**
   After filling, the join drops no queue row: there is one queue item per
   song, and song `k` of the queue is the media row queue row `k` names.
   */
  lemma FilledQueueJoinsEverySong(db: Db, draws: seq<nat>)
    requires Valid(db) && ValidDraws(draws, |db.media|)
    ensures var db' := FillQueueWithShuffledMedia(db, draws);
            && |GetQueueItems(db')| == |db.media|
            && forall k :: 0 <= k < |db'.queue| ==> QueueSongs(db')[k].id == db'.queue[k].mediaId && QueueSongs(db')[k] in db.media
  {
    var db' := FillQueueWithShuffledMedia(db, draws);
    forall k | 0 <= k < |db'.queue|
      ensures HasId(db'.media, db'.queue[k].mediaId)
    {
      var id := QueueMediaIds(db')[k];
      assert id in multiset(MediaIds(db));
      var j :| 0 <= j < |db.media| && MediaIds(db)[j] == id;
      assert db'.media[j].id == db'.queue[k].mediaId;
    }
    JoinComplete(db'.queue, db'.media);
  }

  /** Media ids are distinct: a strictly increasing sequence has each value at most once. */
  lemma {:induction false} IncreasingCountsOnce(ids: seq<int>, x: int)
    requires forall i, j :: 0 <= i < j < |ids| ==> ids[i] < ids[j]
    ensures multiset(ids)[x] <= 1
    ensures x in ids ==> multiset(ids)[x] == 1
  {
    if |ids| > 0 {
      IncreasingCountsOnce(ids[1..], x);
      assert ids == [ids[0]] + ids[1..];
      if ids[0] == x {
        assert x !in ids[1..];
      }
    }
  }

  /** After filling, the queue names every song exactly once and nothing else. */
  lemma FilledQueueHasEverySongOnce(db: Db, draws: seq<nat>, id: int)
    requires Valid(db) && ValidDraws(draws, |db.media|)
    ensures var q := QueueMediaIds(FillQueueWithShuffledMedia(db, draws));
            multiset(q)[id] == (if id in MediaIds(db) then 1 else 0)
  {
    IncreasingCountsOnce(MediaIds(db), id);
  }

  // ---------------------------------------------------------------------------
  // The state row
  // ---------------------------------------------------------------------------

  /** `getQueuePosition`: the stored position, or -1 without a state row. */
  function GetQueuePosition(db: Db): (p: int)
    ensures db.state.None? ==> p == NoPosition
  {
    match db.state
    case None => NoPosition
    case Some(st) => st.position
  }

  /** `getShuffle`: the stored flag, or 1 without a state row. */
  function GetShuffle(db: Db): (s: int)
    ensures db.state.None? ==> s == DefaultShuffle
  {
    match db.state
    case None => DefaultShuffle
    case Some(st) => st.shuffle
  }

  /** `getLoop`: the stored flag, or 1 without a state row. */
  function GetLoop(db: Db): (l: int)
    ensures db.state.None? ==> l == DefaultLoop
  {
    match db.state
    case None => DefaultLoop
    case Some(st) => st.loop
  }

  /** `UPDATE state SET position = p WHERE id = 1`: changes nothing when there is no such row. */
  function SetQueuePosition(db: Db, p: int): (db': Db)
    ensures db'.media == db.media && db'.queue == db.queue && db'.mediaSeq == db.mediaSeq && db'.queueSeq == db.queueSeq
    ensures db'.state.Some? <==> db.state.Some?
    ensures GetShuffle(db') == GetShuffle(db) && GetLoop(db') == GetLoop(db)
  {
    match db.state
    case None => db
    case Some(st) => db.(state := Some(st.(position := p)))
  }

  /** `UPDATE state SET shuffle = s WHERE id = 1`. */
  function SetShuffle(db: Db, s: int): (db': Db)
    ensures db'.media == db.media && db'.queue == db.queue && db'.mediaSeq == db.mediaSeq && db'.queueSeq == db.queueSeq
    ensures db'.state.Some? <==> db.state.Some?
    ensures GetQueuePosition(db') == GetQueuePosition(db) && GetLoop(db') == GetLoop(db)
  {
    match db.state
    case None => db
    case Some(st) => db.(state := Some(st.(shuffle := s)))
  }

  /** With the state row present, a position or shuffle flag that is set is what is read back. */
  lemma SetThenGet(db: Db, p: int, s: int)
    requires Valid(db)
    ensures GetQueuePosition(SetQueuePosition(db, p)) == p
    ensures GetShuffle(SetShuffle(db, s)) == s
    ensures Valid(SetQueuePosition(db, p)) && Valid(SetShuffle(db, s))
  {
  }

  /** Without the state row, setting is lost: the getters keep returning their fallbacks. */
  lemma SetWithoutStateRow(db: Db, p: int, s: int)
    requires db.state.None?
    ensures GetQueuePosition(SetQueuePosition(db, p)) == NoPosition
    ensures GetShuffle(SetShuffle(db, s)) == DefaultShuffle
  {
  }

  // ---------------------------------------------------------------------------
  // Current song and reset
  // ---------------------------------------------------------------------------

  /**
   `getCurrentSongInfo(p)`: `"title - artist"` of the joined row at offset `p`
   (a negative offset counts as 0), or `null` when there is no such row.
   */
  function GetCurrentSongInfo(db: Db, p: int): (info: Option<string>)
    ensures info.Some? <==> Max(0, p) < |QueueSongs(db)|
    ensures info.Some? ==>
              var m := QueueSongs(db)[Max(0, p)];
              info.value == m.title + TitleSeparator + m.artist
  {
    var rows := QueueSongs(db);
    var offset := if p < 0 then 0 else p;
    if offset < |rows| then Some(rows[offset].title + " - " + rows[offset].artist) else None
  }

  /** The current-song line and the queue item at the same position describe the same song. */
  lemma CurrentSongMatchesQueueItem(db: Db, p: nat)
    requires Valid(db) && p < |QueueSongs(db)|
    requires SeparatorFree(QueueSongs(db)[p])
    ensures FromQueueString(GetQueueItems(db)[p]).Returned?
    ensures FromQueueString(GetQueueItems(db)[p]).value.Some?
    ensures var song := FromQueueString(GetQueueItems(db)[p]).value.value;
            GetCurrentSongInfo(db, p) == Some(song.title + TitleSeparator + song.artist)
  {
    QueueItemsDecode(db, p);
  }

  /** `clearAllData`: empty all three tables and insert the default state row again; ids are not reused. */
  function ClearAllData(db: Db): (db': Db)
    ensures Valid(db')
    ensures db'.media == [] && db'.queue == [] && db'.state == Some(DefaultState)
    ensures GetQueueItems(db') == []
    ensures GetQueuePosition(db') == NoPosition && GetShuffle(db') == DefaultShuffle && GetLoop(db') == DefaultLoop
    ensures db'.mediaSeq == db.mediaSeq && db'.queueSeq == db.queueSeq
  {
    Db([], [], Some(DefaultState), db.mediaSeq, db.queueSeq)
  }

  /** A cleared database reads exactly like a freshly created one. */
  lemma ClearedLooksNew(db: Db)
    ensures var c := ClearAllData(db);
            && c.media == OnCreate().media && c.queue == OnCreate().queue && c.state == OnCreate().state
            && GetQueueItems(c) == GetQueueItems(OnCreate())
            && GetQueuePosition(c) == GetQueuePosition(OnCreate())
            && GetShuffle(c) == GetShuffle(OnCreate()) && GetLoop(c) == GetLoop(OnCreate())
  {
  }
}
