/** The analysis run end to end: load, clean, then summarise and tabulate. */
module Pipeline {
  import opened Wrappers
  import opened Seqs
  import opened Paths
  import opened Records
  import opened Loader
  import opened Cleaning
  import opened Grouping
  import opened Stats

  /** Every cleaned row of a load has a track name, a date inside the bounds and
      minutes that agree with its milliseconds. */
  lemma LoadedRowsAreValid(files: map<Path, seq<Record>>, paths: seq<Path>, minDate: Option<Date>, maxDate: Option<Date>, loaded: seq<Record>)
    requires Load(files, paths, minDate, maxDate) == Success(loaded)
    ensures forall i :: 0 <= i < |Clean(loaded)| ==> Clean(loaded)[i].track.Some?
    ensures forall i :: 0 <= i < |Clean(loaded)| ==> WithinBounds(Clean(loaded)[i].streamDate, minDate, maxDate)
    ensures forall i :: 0 <= i < |Clean(loaded)| ==> MinutesAgree(Clean(loaded)[i]) && Clean(loaded)[i].minutes >= 0.0
  {
    LoadSelects(files, paths, minDate, maxDate);
    assert forall i :: 0 <= i < |loaded| ==> loaded[i] in loaded;
  }

  /** On loaded rows every artist has a play, and every table adds up over the rows
      that have an artist name. */
  lemma LoadedTablesAddUp(files: map<Path, seq<Record>>, paths: seq<Path>, minDate: Option<Date>, maxDate: Option<Date>, loaded: seq<Record>)
    requires Load(files, paths, minDate, maxDate) == Success(loaded)
    ensures forall i :: 0 <= i < |MostPlayedArtists(Clean(loaded))| ==> MostPlayedArtists(Clean(loaded))[i].plays > 0
    ensures SumBy(MostPlayedSongs(Clean(loaded)), PlaysOf) == |Filter(Clean(loaded), HasArtist)| as real
    ensures SumBy(MostPlayedArtists(Clean(loaded)), PlaysOf) == |Filter(Clean(loaded), HasArtist)| as real
    ensures SumBy(LongestPlayedSongs(Clean(loaded)), MinutesOfEntry) == SumBy(Filter(Clean(loaded), HasArtist), MinutesOf)
    ensures SumBy(LongestPlayedArtists(Clean(loaded)), MinutesOfEntry) == SumBy(Filter(Clean(loaded), HasArtist), MinutesOf)
  {
    LoadedRowsAreValid(files, paths, minDate, maxDate, loaded);
    ArtistPlaysPositive(Clean(loaded));
    TablesAddUpOverArtistRows(Clean(loaded));
  }

  /** With no path, every statistic is zero and every table is empty. */
  lemma NoPathsGiveZeroes(files: map<Path, seq<Record>>, minDate: Option<Date>, maxDate: Option<Date>)
    ensures Load(files, [], minDate, maxDate) == Success([])
    ensures SummaryStats(Clean([])) == Summary(0.0, 0, 0, 0)
    ensures MostPlayedSongs(Clean([])) == [] && LongestPlayedSongs(Clean([])) == []
    ensures MostPlayedArtists(Clean([])) == [] && LongestPlayedArtists(Clean([])) == []
  {
    LoadNoPaths(files, minDate, maxDate);
  }

  function Play(ms: nat): Record {
    Record(0, 0, "ios", ms, Some("A"), Some("X"), Some("Album"), Some("spotify:track:a"),
           "clickrow", "trackdone", Some(false), map[])
  }

  function ExampleRecords(): seq<Record> {
    [Play(60000), Play(120000), Play(30000)]
  }

  /** The cleaned example rows, written out. */
  function ExampleRows(): seq<Row> {
    [Project(Play(60000)), Project(Play(120000)), Project(Play(30000))]
  }

  lemma ExampleClean()
    ensures Clean(ExampleRecords()) == ExampleRows()
  {
    var rs := ExampleRecords();
    assert rs[..2] == [Play(60000), Play(120000)] && rs[..2][..1] == [Play(60000)] && rs[..2][..1][..0] == [];
  }

  lemma ExampleRowsFacts()
    ensures forall r :: r in ExampleRows() ==> SongOf(r) == Some(SongKey("A", "X"))
    ensures forall r :: r in ExampleRows() ==> r.uri.Some?
    ensures forall r :: r in ExampleRows() ==> MinutesAgree(r)
  {
  }

  lemma ExampleTotal()
    ensures TotalMs(ExampleRows()) == 210000
  {
    var rows := ExampleRows();
    assert rows[..2][..1][..0] == [];
    assert TotalMs(rows[..2][..1]) == 60000;
    assert TotalMs(rows[..2]) == 180000;
  }

  lemma OneSongKeys(rows: seq<Row>, k: SongKey)
    requires rows != []
    requires forall r :: r in rows ==> SongOf(r) == Some(k)
    ensures KeySet(rows, SongOf) == {k}
  {
    assert rows[0] in rows;
  }

  lemma OneArtistKeys(rows: seq<Row>, k: SongKey)
    requires rows != []
    requires forall r :: r in rows ==> SongOf(r) == Some(k)
    ensures KeySet(rows, ArtistOf) == {k.artist}
  {
    assert rows[0] in rows;
  }

  lemma AllMinutesAgree(rows: seq<Row>)
    requires forall r :: r in rows ==> MinutesAgree(r)
    ensures forall i :: 0 <= i < |rows| ==> MinutesAgree(rows[i])
  {
    assert forall i :: 0 <= i < |rows| ==> rows[i] in rows;
  }

  lemma OneSongUnique(rows: seq<Row>, k: SongKey)
    requires rows != []
    requires forall r :: r in rows ==> SongOf(r) == Some(k)
    ensures SummaryStats(rows).uniqueSongsPlayed == 1
  {
    OneSongKeys(rows, k);
  }

  lemma OneSongArtists(rows: seq<Row>, k: SongKey)
    requires rows != []
    requires forall r :: r in rows ==> SongOf(r) == Some(k)
    ensures SummaryStats(rows).artistsPlayed == 1
  {
    OneArtistKeys(rows, k);
  }

  lemma AllMinutesCounted(rows: seq<Row>)
    requires forall r :: r in rows ==> MinutesAgree(r)
    ensures SummaryStats(rows).minutesPlayed == TotalMs(rows) as real / 60000.0
  {
    AllMinutesAgree(rows);
  }

  lemma AllStreamsCounted(rows: seq<Row>)
    requires forall r :: r in rows ==> r.uri.Some?
    ensures SummaryStats(rows).songsPlayed == |rows|
  {
  }

  /** Rows that are all plays of one song give one song, one artist and one stream per row. */
  lemma OneSongSummary(rows: seq<Row>, k: SongKey)
    requires rows != []
    requires forall r :: r in rows ==> SongOf(r) == Some(k)
    requires forall r :: r in rows ==> r.uri.Some?
    requires forall r :: r in rows ==> MinutesAgree(r)
    ensures SummaryStats(rows).minutesPlayed == TotalMs(rows) as real / 60000.0
    ensures SummaryStats(rows).songsPlayed == |rows|
    ensures SummaryStats(rows).uniqueSongsPlayed == 1 && SummaryStats(rows).artistsPlayed == 1
  {
    OneSongUnique(rows, k);
    OneSongArtists(rows, k);
    AllMinutesCounted(rows);
    AllStreamsCounted(rows);
  }

  lemma OneSongEntry(rows: seq<Row>, k: SongKey)
    requires rows != []
    requires forall r :: r in rows ==> SongOf(r) == Some(k)
    ensures |LongestPlayedSongs(rows)| == 1 && LongestPlayedSongs(rows)[0].key == k
  {
    OneSongUnique(rows, k);
    OneSongKeys(rows, k);
    var t := LongestPlayedSongs(rows);
    assert t[0].key in KeySet(rows, SongOf);
  }

  /** Rows that are all plays of one song give a single per-song entry holding all their minutes. */
  lemma OneSongTable(rows: seq<Row>, k: SongKey)
    requires rows != []
    requires forall r :: r in rows ==> SongOf(r) == Some(k)
    requires forall r :: r in rows ==> MinutesAgree(r)
    ensures |LongestPlayedSongs(rows)| == 1 && LongestPlayedSongs(rows)[0].key == k
    ensures LongestPlayedSongs(rows)[0].minutes == TotalMs(rows) as real / 60000.0
  {
    OneSongEntry(rows, k);
    assert Filter(rows, InGroup(SongOf, k)) == rows by {
      FilterAll(rows, InGroup(SongOf, k));
    }
    AllMinutesAgree(rows);
    MinutesExact(rows);
  }

  /** Three plays of the same song, for 60000, 120000 and 30000 ms: 3.5 minutes,
      three streams, one song, one artist, and a single per-song entry of 3.5 minutes. */
  lemma ThreePlaysOfOneSong()
    ensures SummaryStats(Clean(ExampleRecords())) == Summary(3.5, 3, 1, 1)
    ensures |LongestPlayedSongs(Clean(ExampleRecords()))| == 1
    ensures LongestPlayedSongs(Clean(ExampleRecords()))[0].key == SongKey("A", "X")
    ensures LongestPlayedSongs(Clean(ExampleRecords()))[0].minutes == 3.5
  {
    ExampleClean();
    ExampleRowsFacts();
    ExampleTotal();
    OneSongSummary(ExampleRows(), SongKey("A", "X"));
    OneSongTable(ExampleRows(), SongKey("A", "X"));
  }
}
