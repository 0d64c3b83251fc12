/** The summary statistics and the four grouped tables of the analysis. */
module Stats {
  import opened Wrappers
  import opened Seqs
  import opened Cleaning
  import opened Grouping

  /** A song is identified by its (track name, artist name) pair. */
  datatype SongKey = SongKey(track: string, artist: string)

  /** The per-song group key; null when either column is null. */
  function SongOf(r: Row): Option<SongKey> {
    if r.track.Some? && r.artist.Some? then Some(SongKey(r.track.value, r.artist.value)) else None
  }

  /** The per-artist group key. */
  function ArtistOf(r: Row): Option<string> {
    r.artist
  }

  predicate HasUri(r: Row) { r.uri.Some? }

  predicate HasArtist(r: Row) { r.artist.Some? }

  /** The milliseconds played over all rows. */
  function TotalMs(rows: seq<Row>): nat
    decreases |rows|
  {
    if rows == [] then 0 else TotalMs(rows[..|rows| - 1]) + rows[|rows| - 1].msPlayed
  }

  /** When every row's minutes agree with its milliseconds, the minutes add up to
      exactly the total milliseconds divided by 60000. */
  lemma {:induction false} MinutesExact(rows: seq<Row>)
    ensures (forall i :: 0 <= i < |rows| ==> MinutesAgree(rows[i])) ==>
      SumBy(rows, MinutesOf) == TotalMs(rows) as real / 60000.0
    decreases |rows|
  {
    if rows != [] {
      var init := rows[..|rows| - 1];
      assert forall i :: 0 <= i < |init| ==> init[i] == rows[i];
      MinutesExact(init);
    }
  }

  /** The positions of the rows whose track URI is not null. */
  function UriRows(rows: seq<Row>): set<nat> {
    set i: nat | i < |rows| && rows[i].uri.Some?
  }

  /** The streams are the rows whose track URI is not null. */
  lemma {:induction false} UriCount(rows: seq<Row>)
    ensures |Filter(rows, HasUri)| == |UriRows(rows)|
    decreases |rows|
  {
    if rows != [] {
      var init, last := rows[..|rows| - 1], rows[|rows| - 1];
      UriCount(init);
      var before, after := UriRows(init), UriRows(rows);
      assert Filter(rows, HasUri) == Filter(init, HasUri) + (if HasUri(last) then [last] else []);
      if last.uri.Some? {
        assert after == before + {|rows| - 1};
      } else {
        assert after == before;
      }
    }
  }

  datatype Summary = Summary(minutesPlayed: real, songsPlayed: nat, uniqueSongsPlayed: nat, artistsPlayed: nat)

  /** `get_summary_stats`: the total minutes, the number of rows with a track URI,
      the number of distinct non-null (track, artist) pairs and of distinct non-null artists. */
  function SummaryStats(rows: seq<Row>): (s: Summary)
    ensures (forall i :: 0 <= i < |rows| ==> MinutesAgree(rows[i])) ==>
      s.minutesPlayed == TotalMs(rows) as real / 60000.0 && s.minutesPlayed >= 0.0
    ensures s.songsPlayed == |UriRows(rows)| <= |rows|
    ensures s.songsPlayed == |rows| <==> forall r :: r in rows ==> r.uri.Some?
    ensures s.uniqueSongsPlayed == |KeySet(rows, SongOf)| <= |rows|
    ensures s.artistsPlayed == |KeySet(rows, ArtistOf)| <= |rows|
    ensures rows == [] ==> s == Summary(0.0, 0, 0, 0)
  {
    var minutes := SumBy(rows, MinutesOf);
    var streams := |Filter(rows, HasUri)|;
    var songs := |GroupKeys(rows, SongOf)|;
    var artists := |GroupKeys(rows, ArtistOf)|;
    assert (forall i :: 0 <= i < |rows| ==> MinutesAgree(rows[i])) ==> minutes == TotalMs(rows) as real / 60000.0 by {
      MinutesExact(rows);
    }
    assert streams == |rows| <==> forall r :: r in rows ==> r.uri.Some? by {
      FilterKeepsAll(rows, HasUri);
    }
    UriCount(rows);
    assert songs == |KeySet(rows, SongOf)| by {
      GroupKeysCount(rows, SongOf);
    }
    assert artists == |KeySet(rows, ArtistOf)| by {
      GroupKeysCount(rows, ArtistOf);
    }
    Summary(minutes, streams, songs, artists)
  }

  /** When every row with a (track, artist) pair has a URI, there are no more distinct
      songs than streams. */
  lemma UniqueSongsWithinStreams(rows: seq<Row>)
    requires forall i :: 0 <= i < |rows| && SongOf(rows[i]).Some? ==> rows[i].uri.Some?
    ensures SummaryStats(rows).uniqueSongsPlayed <= SummaryStats(rows).songsPlayed
  {
    var withUri := Filter(rows, HasUri);
    assert KeySet(rows, SongOf) == KeySet(withUri, SongOf);
    GroupKeysCount(withUri, SongOf);
  }

  // ----- The four tables -----

  /** Every song group has at least one play: its key carries a track name. */
  lemma SongPlaysPositive(rows: seq<Row>)
    ensures forall i :: 0 <= i < |PlaysTable(rows, SongOf)| ==> PlaysTable(rows, SongOf)[i].plays > 0
  {
    var t := PlaysTable(rows, SongOf);
    forall i | 0 <= i < |t| ensures t[i].plays > 0 {
      var k := t[i].key;
      assert k in KeySet(rows, SongOf);
      GroupPlaysPositive(rows, SongOf, k);
    }
  }

  /** `get_most_played_songs`: one entry per distinct (track, artist) pair with its
      number of plays, largest first. */
  function MostPlayedSongs(rows: seq<Row>): (t: seq<PlayCount<SongKey>>)
    ensures Sorted(t, ByPlays)
    ensures multiset(t) == multiset(PlayCounts(rows, SongOf, GroupKeys(rows, SongOf)))
    ensures forall i :: 0 <= i < |t| ==> t[i].plays == GroupPlays(rows, SongOf, t[i].key) && t[i].plays > 0
    ensures forall i :: 0 <= i < |t| ==> t[i].plays == |Filter(rows, PlayedIn(SongOf, t[i].key))|
    ensures forall k :: k in KeySet(rows, SongOf) <==> exists i :: 0 <= i < |t| && t[i].key == k
    ensures forall i, j :: 0 <= i < j < |t| ==> t[i].key != t[j].key
    ensures |t| == SummaryStats(rows).uniqueSongsPlayed
  {
    var t := PlaysTable(rows, SongOf);
    SongPlaysPositive(rows);
    PlaysTableCounts(rows, SongOf);
    assert |t| == SummaryStats(rows).uniqueSongsPlayed;
    t
  }

  /** `get_longest_played_songs`: one entry per distinct (track, artist) pair with the
      minutes played over its rows, largest first. */
  function LongestPlayedSongs(rows: seq<Row>): (t: seq<MinuteTotal<SongKey>>)
    ensures Sorted(t, ByMinutes)
    ensures multiset(t) == multiset(MinuteTotals(rows, SongOf, GroupKeys(rows, SongOf)))
    ensures forall i :: 0 <= i < |t| ==> t[i].minutes == SumBy(Filter(rows, InGroup(SongOf, t[i].key)), MinutesOf)
    ensures forall k :: k in KeySet(rows, SongOf) <==> exists i :: 0 <= i < |t| && t[i].key == k
    ensures forall i, j :: 0 <= i < j < |t| ==> t[i].key != t[j].key
    ensures |t| == SummaryStats(rows).uniqueSongsPlayed
  {
    var t := MinutesTable(rows, SongOf);
    forall i | 0 <= i < |t| ensures t[i].minutes == SumBy(Filter(rows, InGroup(SongOf, t[i].key)), MinutesOf) {
      GroupMinutesIsSum(rows, SongOf, t[i].key);
    }
    t
  }

  /** `get_most_played_artists`: one entry per distinct non-null artist with the number
      of its rows that have a track name, largest first. */
  function MostPlayedArtists(rows: seq<Row>): (t: seq<PlayCount<string>>)
    ensures Sorted(t, ByPlays)
    ensures multiset(t) == multiset(PlayCounts(rows, ArtistOf, GroupKeys(rows, ArtistOf)))
    ensures forall i :: 0 <= i < |t| ==> t[i].plays == GroupPlays(rows, ArtistOf, t[i].key)
    ensures forall i :: 0 <= i < |t| ==> t[i].plays == |Filter(rows, PlayedIn(ArtistOf, t[i].key))|
    ensures forall k :: k in KeySet(rows, ArtistOf) <==> exists i :: 0 <= i < |t| && t[i].key == k
    ensures forall i, j :: 0 <= i < j < |t| ==> t[i].key != t[j].key
    ensures |t| == SummaryStats(rows).artistsPlayed
  {
    PlaysTableCounts(rows, ArtistOf);
    PlaysTable(rows, ArtistOf)
  }

  /** `get_longest_played_artists`: one entry per distinct non-null artist with the
      minutes played over its rows, largest first. */
  function LongestPlayedArtists(rows: seq<Row>): (t: seq<MinuteTotal<string>>)
    ensures Sorted(t, ByMinutes)
    ensures multiset(t) == multiset(MinuteTotals(rows, ArtistOf, GroupKeys(rows, ArtistOf)))
    ensures forall i :: 0 <= i < |t| ==> t[i].minutes == SumBy(Filter(rows, InGroup(ArtistOf, t[i].key)), MinutesOf)
    ensures forall k :: k in KeySet(rows, ArtistOf) <==> exists i :: 0 <= i < |t| && t[i].key == k
    ensures forall i, j :: 0 <= i < j < |t| ==> t[i].key != t[j].key
    ensures |t| == SummaryStats(rows).artistsPlayed
  {
    var t := MinutesTable(rows, ArtistOf);
    forall i | 0 <= i < |t| ensures t[i].minutes == SumBy(Filter(rows, InGroup(ArtistOf, t[i].key)), MinutesOf) {
      GroupMinutesIsSum(rows, ArtistOf, t[i].key);
    }
    t
  }

  // ----- How the tables add up -----

  /** When every row has a track name (as every loaded row does), each artist has at
      least one play. */
  lemma ArtistPlaysPositive(rows: seq<Row>)
    requires forall i :: 0 <= i < |rows| ==> rows[i].track.Some?
    ensures forall i :: 0 <= i < |MostPlayedArtists(rows)| ==> MostPlayedArtists(rows)[i].plays > 0
  {
    var t := MostPlayedArtists(rows);
    forall i | 0 <= i < |t| ensures t[i].plays > 0 {
      var k := t[i].key;
      assert k in KeySet(rows, ArtistOf);
      GroupPlaysPositive(rows, ArtistOf, k);
    }
  }

  /** The song tables add up over the rows that have both a track and an artist name. */
  lemma SongTablesAddUp(rows: seq<Row>)
    ensures SumBy(MostPlayedSongs(rows), PlaysOf) == |Filter(rows, Keyed(SongOf))| as real
    ensures SumBy(LongestPlayedSongs(rows), MinutesOfEntry) == SumBy(Filter(rows, Keyed(SongOf)), MinutesOf)
  {
    PlaysTableSum(rows, SongOf);
    FilterSame(rows, Counted(SongOf), Keyed(SongOf));
    MinutesTableSum(rows, SongOf);
  }

  /** The artist tables add up over the rows that have an artist name; the plays count
      only those rows that also have a track name. */
  lemma ArtistTablesAddUp(rows: seq<Row>)
    ensures SumBy(MostPlayedArtists(rows), PlaysOf) == |Filter(rows, Counted(ArtistOf))| as real
    ensures SumBy(LongestPlayedArtists(rows), MinutesOfEntry) == SumBy(Filter(rows, HasArtist), MinutesOf)
  {
    PlaysTableSum(rows, ArtistOf);
    MinutesTableSum(rows, ArtistOf);
    FilterSame(rows, Keyed(ArtistOf), HasArtist);
  }

  /** On rows that all have a track name, every table adds up over the rows with an
      artist name: the plays to their number, the minutes to their minutes. */
  lemma TablesAddUpOverArtistRows(rows: seq<Row>)
    requires forall i :: 0 <= i < |rows| ==> rows[i].track.Some?
    ensures SumBy(MostPlayedSongs(rows), PlaysOf) == |Filter(rows, HasArtist)| as real
    ensures SumBy(MostPlayedArtists(rows), PlaysOf) == |Filter(rows, HasArtist)| as real
    ensures SumBy(LongestPlayedSongs(rows), MinutesOfEntry) == SumBy(Filter(rows, HasArtist), MinutesOf)
    ensures SumBy(LongestPlayedArtists(rows), MinutesOfEntry) == SumBy(Filter(rows, HasArtist), MinutesOf)
  {
    SongTablesAddUp(rows);
    ArtistTablesAddUp(rows);
    FilterSame(rows, Keyed(SongOf), HasArtist);
    FilterSame(rows, Counted(ArtistOf), HasArtist);
  }
}
