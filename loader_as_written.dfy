/** The loader exactly as the code is written, where a frame without columns makes
    a column lookup raise. A file holding no records parses to such a frame, and so
    does the initial empty frame when no path is given at all. `Loader.Load` is the
    intended behaviour, under which both cases load no records. */
module LoaderAsWritten {
  import opened Wrappers
  import opened Seqs
  import opened Paths
  import opened Records
  import opened Loader

  /** Reading as written: the `ts` lookup on an empty file's frame raises. */
  function ReadAllAsWritten(files: map<Path, seq<Record>>, ps: seq<Path>): (r: Result<seq<Record>, LoadError>)
    ensures r.Success? <==> forall p :: p in ps ==> p in files && files[p] != []
    ensures r.Failure? && r.error.ParseError? ==> r.error.path in ps && r.error.path !in files
    ensures r.Failure? && !r.error.ParseError? ==>
      r.error == MissingColumn("ts") && exists p :: p in ps && p in files && files[p] == []
    decreases |ps|
  {
    if ps == [] then Success([])
    else
      var init, last := ps[..|ps| - 1], ps[|ps| - 1];
      assert ps == init + [last];
      match ReadAllAsWritten(files, init)
      case Failure(e) => Failure(e)
      case Success(rs) =>
        if last !in files then Failure(ParseError(last))
        else if files[last] == [] then Failure(MissingColumn("ts"))
        else Success(rs + files[last])
  }

  /** Loading as written: with no path, the frame has no columns, so the date filter
      (when a bound is given) or else the track-name filter raises. */
  function LoadAsWritten(files: map<Path, seq<Record>>, paths: seq<Path>, minDate: Option<Date>, maxDate: Option<Date>)
    : (r: Result<seq<Record>, LoadError>)
    ensures r.Success? ==> paths != []
    ensures r.Success? ==> forall x {:trigger x in r.value} :: x in r.value ==>
      WithinBounds(x.streamDate, minDate, maxDate) && x.track.Some?
  {
    var sorted := SortPaths(paths);
    assert |sorted| == |multiset(sorted)| == |multiset(paths)| == |paths|;
    match ReadAllAsWritten(files, sorted)
    case Failure(e) => Failure(e)
    case Success(rs) =>
      if sorted == [] then
        Failure(MissingColumn(if minDate.Some? || maxDate.Some? then "stream_date" else "master_metadata_track_name"))
      else Success(Filter(rs, Keep(minDate, maxDate)))
  }

  /** As written, an empty path list raises; the intended load returns no records. */
  lemma AsWrittenRejectsNoPaths(files: map<Path, seq<Record>>, minDate: Option<Date>, maxDate: Option<Date>)
    ensures LoadAsWritten(files, [], minDate, maxDate).Failure?
    ensures LoadAsWritten(files, [], minDate, maxDate).error.MissingColumn?
    ensures Load(files, [], minDate, maxDate) == Success([])
  {
    assert |SortPaths([])| == |multiset(SortPaths([]))| == 0;
  }

  /** As written, a file holding no records raises; the intended load returns no records. */
  lemma AsWrittenRejectsEmptyFile()
    ensures LoadAsWritten(map["Streaming_History_Audio_2025.json" := []], ["Streaming_History_Audio_2025.json"], None, None)
      == Failure(MissingColumn("ts"))
    ensures Load(map["Streaming_History_Audio_2025.json" := []], ["Streaming_History_Audio_2025.json"], None, None)
      == Success([])
  {
    var p := "Streaming_History_Audio_2025.json";
    var ps := [p];
    assert SortPaths(ps) == ps by {
      assert |SortPaths(ps)| == |multiset(SortPaths(ps))| == 1;
      assert SortPaths(ps)[0] in multiset(ps);
    }
    assert ps[..0] == [];
  }

  /** Reading as written agrees with the intended reading when no file is empty. */
  lemma {:induction false} ReadAllAgrees(files: map<Path, seq<Record>>, ps: seq<Path>)
    requires forall p :: p in ps && p in files ==> files[p] != []
    ensures ReadAllAsWritten(files, ps) == ReadAll(files, ps)
    decreases |ps|
  {
    if ps != [] {
      var init := ps[..|ps| - 1];
      assert forall p :: p in init ==> p in ps;
      ReadAllAgrees(files, init);
    }
  }

  /** On a nonempty path list whose files all hold records, the code as written
      loads what the intended loader loads. */
  lemma AsWrittenAgreesOtherwise(files: map<Path, seq<Record>>, paths: seq<Path>, minDate: Option<Date>, maxDate: Option<Date>)
    requires paths != []
    requires forall p :: p in paths && p in files ==> files[p] != []
    ensures LoadAsWritten(files, paths, minDate, maxDate) == Load(files, paths, minDate, maxDate)
  {
    var sorted := SortPaths(paths);
    assert forall p :: p in sorted ==> p in paths by {
      assert forall p :: p in sorted ==> p in multiset(paths);
    }
    assert sorted != [] by {
      assert |sorted| == |multiset(sorted)| == |multiset(paths)| == |paths|;
    }
    ReadAllAgrees(files, sorted);
  }
}
