/** Loading: concatenate the parsed files in ascending path order, keep the records
    inside the optional date bounds, drop the records without a track name. */
module Loader {
  import opened Wrappers
  import opened Seqs
  import opened Paths
  import opened Records

  datatype LoadError =
    | ParseError(path: Path)       // the file could not be read or parsed
    | MissingColumn(column: string) // a column lookup on a frame without that column

  /** The records of the files `ps`, read one after another and concatenated;
      the first path that cannot be read aborts the whole load. */
  function ReadAll(files: map<Path, seq<Record>>, ps: seq<Path>): (r: Result<seq<Record>, LoadError>)
    ensures r.Success? <==> forall p :: p in ps ==> p in files
    ensures r.Failure? ==> r.error.ParseError? && r.error.path in ps && r.error.path !in files
    decreases |ps|
  {
    if ps == [] then Success([])
    else
      var init, last := ps[..|ps| - 1], ps[|ps| - 1];
      assert ps == init + [last];
      match ReadAll(files, init)
      case Failure(e) => Failure(e)
      case Success(rs) => if last in files then Success(rs + files[last]) else Failure(ParseError(last))
  }

  /** Reading one more path appends its records, or fails on it when it cannot be read. */
  lemma ReadAllStep(files: map<Path, seq<Record>>, ps: seq<Path>, i: nat, rs: seq<Record>)
    requires i < |ps| && ReadAll(files, ps[..i]) == Success(rs)
    ensures ReadAll(files, ps[..i + 1]) ==
      if ps[i] in files then Success(rs + files[ps[i]]) else Failure(ParseError(ps[i]))
  {
    assert ps[..i + 1][..i] == ps[..i];
  }

  /** A failure while reading a prefix of the paths is the failure of the whole read. */
  lemma {:induction false} ReadAllPrefixFailure(files: map<Path, seq<Record>>, ps: seq<Path>, k: nat)
    requires k <= |ps| && ReadAll(files, ps[..k]).Failure?
    ensures ReadAll(files, ps) == ReadAll(files, ps[..k])
    decreases |ps| - k
  {
    if k < |ps| {
      assert ps[..k + 1][..k] == ps[..k];
      ReadAllPrefixFailure(files, ps, k + 1);
    } else {
      assert ps[..k] == ps;
    }
  }

  lemma {:induction false} ReadAllAppend(files: map<Path, seq<Record>>, a: seq<Path>, b: seq<Path>)
    requires ReadAll(files, a).Success? && ReadAll(files, b).Success?
    ensures ReadAll(files, a + b) == Success(ReadAll(files, a).value + ReadAll(files, b).value)
    decreases |b|
  {
    if b == [] {
      assert a + b == a;
      assert ReadAll(files, a).value + [] == ReadAll(files, a).value;
    } else {
      var init, last := b[..|b| - 1], b[|b| - 1];
      assert (a + b)[..|a + b| - 1] == a + init;
      assert (a + b)[|a + b| - 1] == last;
      ReadAllAppend(files, a, init);
      assert ReadAll(files, a + init).value == ReadAll(files, a).value + ReadAll(files, init).value;
      assert ReadAll(files, b).value == ReadAll(files, init).value + files[last];
      assert ReadAll(files, a + b) == Success(ReadAll(files, a + init).value + files[last]);
      var ra, ri := ReadAll(files, a).value, ReadAll(files, init).value;
      assert (ra + ri) + files[last] == ra + (ri + files[last]);
    }
  }

  /** Inclusive optional bounds on the stream date; an omitted bound admits every date. */
  predicate WithinBounds(d: Date, minDate: Option<Date>, maxDate: Option<Date>) {
    (minDate.None? || minDate.value <= d) && (maxDate.None? || d <= maxDate.value)
  }

  function OnOrAfter(d: Date): Record -> bool {
    (r: Record) => d <= r.streamDate
  }

  function OnOrBefore(d: Date): Record -> bool {
    (r: Record) => r.streamDate <= d
  }

  function SinceBound(minDate: Option<Date>): Record -> bool {
    (r: Record) => WithinBounds(r.streamDate, minDate, None)
  }

  function InBounds(minDate: Option<Date>, maxDate: Option<Date>): Record -> bool {
    (r: Record) => WithinBounds(r.streamDate, minDate, maxDate)
  }

  predicate HasTrackName(r: Record) {
    r.track.Some?
  }

  /** Whether a record survives the loader's filters. */
  function Keep(minDate: Option<Date>, maxDate: Option<Date>): Record -> bool {
    (r: Record) => WithinBounds(r.streamDate, minDate, maxDate) && HasTrackName(r)
  }

  /** The loader's result, as one function of its inputs. */
  function Load(files: map<Path, seq<Record>>, paths: seq<Path>, minDate: Option<Date>, maxDate: Option<Date>)
    : (r: Result<seq<Record>, LoadError>)
    ensures r.Success? ==> forall x {:trigger x in r.value} :: x in r.value ==>
      WithinBounds(x.streamDate, minDate, maxDate) && x.track.Some?
    ensures r.Failure? ==> r.error.ParseError? && r.error.path !in files
  {
    match ReadAll(files, SortPaths(paths))
    case Failure(e) => Failure(e)
    case Success(rs) => Success(Filter(rs, Keep(minDate, maxDate)))
  }

  /** The read loop of `load_streaming_files`: append each file's records to the frame,
      in the given order; the first path that cannot be read raises. */
  method ReadFiles(files: map<Path, seq<Record>>, ps: seq<Path>) returns (res: Result<seq<Record>, LoadError>)
    ensures res == ReadAll(files, ps)
  {
    var data: seq<Record> := [];
    for i := 0 to |ps|
      invariant ReadAll(files, ps[..i]) == Success(data)
    {
      var p := ps[i];
      ReadAllStep(files, ps, i, data);
      if p !in files {
        ReadAllPrefixFailure(files, ps, i + 1);
        return Failure(ParseError(p));
      }
      data := data + files[p];
    }
    assert ps[..|ps|] == ps;
    return Success(data);
  }

  /** `load_streaming_files`: read the files in sorted path order, appending each to
      the frame, then apply the minimum-date, maximum-date and track-name filters. */
  method LoadStreamingFiles(files: map<Path, seq<Record>>, paths: seq<Path>, minDate: Option<Date>, maxDate: Option<Date>)
    returns (res: Result<seq<Record>, LoadError>)
    ensures res == Load(files, paths, minDate, maxDate)
  {
    var sorted := SortPaths(paths);
    var read := ReadFiles(files, sorted);
    LoadOfRead(files, paths, minDate, maxDate);
    if read.Failure? {
      return Failure(read.error);
    }
    var data := read.value;
    ghost var all := data;
    if minDate.Some? {
      data := Filter(data, OnOrAfter(minDate.value));
    }
    ghost var sinceMin := data;
    if maxDate.Some? {
      data := Filter(data, OnOrBefore(maxDate.value));
    }
    ghost var inBounds := data;
    data := Filter(data, HasTrackName);
    FilterSteps(all, minDate, maxDate, sinceMin, inBounds);
    res := Success(data);
  }

  /** The load as a function of the read of the sorted paths. */
  lemma LoadOfRead(files: map<Path, seq<Record>>, paths: seq<Path>, minDate: Option<Date>, maxDate: Option<Date>)
    ensures var read := ReadAll(files, SortPaths(paths));
      Load(files, paths, minDate, maxDate) ==
        if read.Success? then Success(Filter(read.value, Keep(minDate, maxDate))) else Failure(read.error)
  {
  }

  // The three filtering steps of the loader, each against a single filter of the read records.

  /** Filtering by the minimum date when one is given, then by the maximum date when one is
      given, then by the track name, keeps exactly what `Keep` keeps. */
  lemma FilterSteps(all: seq<Record>, minDate: Option<Date>, maxDate: Option<Date>, sinceMin: seq<Record>, inBounds: seq<Record>)
    requires sinceMin == if minDate.Some? then Filter(all, OnOrAfter(minDate.value)) else all
    requires inBounds == if maxDate.Some? then Filter(sinceMin, OnOrBefore(maxDate.value)) else sinceMin
    ensures Filter(inBounds, HasTrackName) == Filter(all, Keep(minDate, maxDate))
  {
    MinDateStep(all, minDate);
    MaxDateStep(all, minDate, maxDate);
    TrackNameStep(all, minDate, maxDate);
  }

  lemma MinDateStep(all: seq<Record>, minDate: Option<Date>)
    ensures Filter(all, SinceBound(minDate)) == if minDate.Some? then Filter(all, OnOrAfter(minDate.value)) else all
  {
    if minDate.Some? {
      FilterSame(all, OnOrAfter(minDate.value), SinceBound(minDate));
    } else {
      FilterAll(all, SinceBound(minDate));
    }
  }

  lemma MaxDateStep(all: seq<Record>, minDate: Option<Date>, maxDate: Option<Date>)
    ensures Filter(all, InBounds(minDate, maxDate)) ==
      if maxDate.Some? then Filter(Filter(all, SinceBound(minDate)), OnOrBefore(maxDate.value))
      else Filter(all, SinceBound(minDate))
  {
    if maxDate.Some? {
      FilterCompose(all, SinceBound(minDate), OnOrBefore(maxDate.value), InBounds(minDate, maxDate));
    } else {
      FilterSame(all, SinceBound(minDate), InBounds(minDate, maxDate));
    }
  }

  lemma TrackNameStep(all: seq<Record>, minDate: Option<Date>, maxDate: Option<Date>)
    ensures Filter(Filter(all, InBounds(minDate, maxDate)), HasTrackName) == Filter(all, Keep(minDate, maxDate))
  {
    FilterCompose(all, InBounds(minDate, maxDate), HasTrackName, Keep(minDate, maxDate));
  }

  // ----- Properties of the loaded record set -----

  /** Every loaded record lies within the bounds and has a track name; a record that was
      read is loaded exactly when it lies within the bounds and has a track name, so a
      record dated on either bound is kept. */
  lemma LoadSelects(files: map<Path, seq<Record>>, paths: seq<Path>, minDate: Option<Date>, maxDate: Option<Date>)
    requires Load(files, paths, minDate, maxDate).Success?
    ensures var read := ReadAll(files, SortPaths(paths)).value;
      forall r :: r in Load(files, paths, minDate, maxDate).value <==>
        r in read && WithinBounds(r.streamDate, minDate, maxDate) && r.track.Some?
  {
  }

  /** Loading keeps every occurrence of a record that passes and none of one that fails:
      when no bounds are given, exactly the records without a track name are dropped. */
  lemma LoadDropsExactly(files: map<Path, seq<Record>>, paths: seq<Path>, minDate: Option<Date>, maxDate: Option<Date>)
    requires Load(files, paths, minDate, maxDate).Success?
    ensures var read := ReadAll(files, SortPaths(paths)).value;
      forall r :: multiset(Load(files, paths, minDate, maxDate).value)[r] ==
        if WithinBounds(r.streamDate, minDate, maxDate) && r.track.Some? then multiset(read)[r] else 0
  {
    FilterMultiset(ReadAll(files, SortPaths(paths)).value, Keep(minDate, maxDate));
  }

  /** The load fails exactly when some given path cannot be read, and then it names one. */
  lemma LoadFailsOnUnreadable(files: map<Path, seq<Record>>, paths: seq<Path>, minDate: Option<Date>, maxDate: Option<Date>)
    ensures var r := Load(files, paths, minDate, maxDate);
      && (r.Success? <==> forall p :: p in paths ==> p in files)
      && (r.Failure? ==> r.error.ParseError? && r.error.path in paths && r.error.path !in files)
  {
    assert forall p :: p in paths <==> p in SortPaths(paths) by {
      assert forall p :: p in paths <==> p in multiset(SortPaths(paths));
    }
  }

  /** Omitted bounds filter nothing: only the track-name filter applies. */
  lemma LoadWithoutBounds(files: map<Path, seq<Record>>, paths: seq<Path>)
    requires ReadAll(files, SortPaths(paths)).Success?
    ensures Load(files, paths, None, None) == Success(Filter(ReadAll(files, SortPaths(paths)).value, HasTrackName))
  {
    FilterSame(ReadAll(files, SortPaths(paths)).value, Keep(None, None), HasTrackName);
  }

  /** The loaded records keep the relative order they had in the concatenation. */
  lemma LoadKeepsOrder(files: map<Path, seq<Record>>, paths: seq<Path>, minDate: Option<Date>, maxDate: Option<Date>)
    requires Load(files, paths, minDate, maxDate).Success?
    ensures SubsequenceOf(Load(files, paths, minDate, maxDate).value, ReadAll(files, SortPaths(paths)).value)
  {
    FilterIsSubsequence(ReadAll(files, SortPaths(paths)).value, Keep(minDate, maxDate));
  }

  /** Files are read in ascending path order: how the paths were given does not matter. */
  lemma LoadIgnoresGivenOrder(files: map<Path, seq<Record>>, p1: seq<Path>, p2: seq<Path>,
                              minDate: Option<Date>, maxDate: Option<Date>)
    requires multiset(p1) == multiset(p2)
    ensures Load(files, p1, minDate, maxDate) == Load(files, p2, minDate, maxDate)
  {
    SortPathsIgnoresGivenOrder(p1, p2);
  }

  /** The records of an earlier file come before those of a later one: loading the
      concatenation of two path lists, already in order, loads each and concatenates. */
  lemma LoadFileByFile(files: map<Path, seq<Record>>, a: seq<Path>, b: seq<Path>,
                       minDate: Option<Date>, maxDate: Option<Date>)
    requires Sorted(a + b, LexLe)
    requires Load(files, a, minDate, maxDate).Success? && Load(files, b, minDate, maxDate).Success?
    ensures Load(files, a + b, minDate, maxDate) ==
      Success(Load(files, a, minDate, maxDate).value + Load(files, b, minDate, maxDate).value)
  {
    LexLeIsTotalOrder();
    assert Sorted(a, LexLe) && Sorted(b, LexLe) by {
      forall i, j | 0 <= i < j < |a| ensures LexLe(a[i], a[j]) {
        assert a[i] == (a + b)[i] && a[j] == (a + b)[j];
      }
      forall i, j | 0 <= i < j < |b| ensures LexLe(b[i], b[j]) {
        assert b[i] == (a + b)[|a| + i] && b[j] == (a + b)[|a| + j];
      }
    }
    SortedUnique(SortPaths(a), a, LexLe);
    SortedUnique(SortPaths(b), b, LexLe);
    SortedUnique(SortPaths(a + b), a + b, LexLe);
    ReadAllAppend(files, a, b);
    FilterAppend(ReadAll(files, a).value, ReadAll(files, b).value, Keep(minDate, maxDate));
  }

  /** An empty path list loads an empty record set. */
  lemma LoadNoPaths(files: map<Path, seq<Record>>, minDate: Option<Date>, maxDate: Option<Date>)
    ensures Load(files, [], minDate, maxDate) == Success([])
  {
    assert |SortPaths([])| == |multiset(SortPaths([]))| == 0;
  }

  /** Files that hold no records contribute no records. */
  lemma {:induction false} ReadAllEmptyFiles(files: map<Path, seq<Record>>, ps: seq<Path>)
    requires forall p :: p in ps ==> p in files && files[p] == []
    ensures ReadAll(files, ps) == Success([])
    decreases |ps|
  {
    if ps != [] {
      var init, last := ps[..|ps| - 1], ps[|ps| - 1];
      assert forall p :: p in init ==> p in ps;
      assert last in ps;
      ReadAllEmptyFiles(files, init);
      assert [] + files[last] == [];
    }
  }

  /** Loading only files that hold no records loads no records and does not fail. */
  lemma LoadEmptyFiles(files: map<Path, seq<Record>>, paths: seq<Path>, minDate: Option<Date>, maxDate: Option<Date>)
    requires forall p :: p in paths ==> p in files && files[p] == []
    ensures Load(files, paths, minDate, maxDate) == Success([])
  {
    var sorted := SortPaths(paths);
    assert forall p :: p in sorted ==> p in paths by {
      assert forall p :: p in sorted ==> p in multiset(paths);
    }
    ReadAllEmptyFiles(files, sorted);
  }
}
