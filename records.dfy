/** One playback event of a listening-history export, as parsed from its JSON file. */
module Records {
  import opened Wrappers

  /** A calendar day, as a day number (days compare in calendar order). */
  type Date = int

  /** The instant the stream was recorded (the `ts` column), as a number of seconds. */
  type Instant = int

  /** A parsed export record. `streamDate` is the calendar date of `ts`, added by the
      loader right after parsing. `other` holds the export's remaining columns
      (for example the IP address and the country of connection). */
  datatype Record = Record(
    ts: Instant,
    streamDate: Date,
    platform: string,
    msPlayed: nat,
    track: Option<string>,
    artist: Option<string>,
    album: Option<string>,
    uri: Option<string>,
    reasonStart: string,
    reasonEnd: string,
    skipped: Option<bool>,
    other: map<string, string>)
}
