/** Cleaning: keep the eleven columns the analysis needs (none of the personal
    ones) and derive the played seconds and minutes from the milliseconds. */
module Cleaning {
  import opened Wrappers
  import opened Records

  /** A cleaned row: exactly the eleven kept columns, then the two derived ones. */
  datatype Row = Row(
    platform: string,
    msPlayed: nat,
    track: Option<string>,
    artist: Option<string>,
    album: Option<string>,
    uri: Option<string>,
    reasonStart: string,
    reasonEnd: string,
    skipped: Option<bool>,
    streamDate: Date,
    ts: Instant,
    seconds: real,
    minutes: real)

  /** `row` holds the kept columns of `r` unchanged, and its durations are those of `r`. */
  ghost predicate Carries(row: Row, r: Record) {
    && row.platform == r.platform && row.msPlayed == r.msPlayed
    && row.track == r.track && row.artist == r.artist && row.album == r.album && row.uri == r.uri
    && row.reasonStart == r.reasonStart && row.reasonEnd == r.reasonEnd && row.skipped == r.skipped
    && row.streamDate == r.streamDate && row.ts == r.ts
    && row.seconds * 1000.0 == r.msPlayed as real
    && row.minutes * 60000.0 == r.msPlayed as real
  }

  /** The minutes column of a row agrees with its milliseconds. */
  ghost predicate MinutesAgree(row: Row) {
    row.minutes == row.msPlayed as real / 60000.0
  }

  function Project(r: Record): (row: Row)
    ensures Carries(row, r)
    ensures MinutesAgree(row) && row.minutes >= 0.0
  {
    var seconds := r.msPlayed as real / 1000.0;
    Row(r.platform, r.msPlayed, r.track, r.artist, r.album, r.uri,
        r.reasonStart, r.reasonEnd, r.skipped, r.streamDate, r.ts,
        seconds, seconds / 60.0)
  }

  /** `clean_streaming_data`: one cleaned row per record, in the same order. */
  function Clean(rs: seq<Record>): (rows: seq<Row>)
    ensures |rows| == |rs|
    ensures forall i :: 0 <= i < |rs| ==> Carries(rows[i], rs[i])
    ensures forall i :: 0 <= i < |rs| ==> MinutesAgree(rows[i]) && rows[i].minutes >= 0.0
    decreases |rs|
  {
    if rs == [] then []
    else Clean(rs[..|rs| - 1]) + [Project(rs[|rs| - 1])]
  }

  /** Cleaning works row by row, so it commutes with concatenation. */
  lemma {:induction false} CleanAppend(a: seq<Record>, b: seq<Record>)
    ensures Clean(a + b) == Clean(a) + Clean(b)
    decreases |b|
  {
    if b == [] {
      assert a + b == a;
    } else {
      var init := b[..|b| - 1];
      assert (a + b)[..|a + b| - 1] == a + init;
      assert (a + b)[|a + b| - 1] == b[|b| - 1];
      CleanAppend(a, init);
    }
  }
}
