/** `groupby` over cleaned rows: rows whose key is null belong to no group; each group
    yields one table entry, and the table is sorted by its metric, largest first. */
module Grouping {
  import opened Wrappers
  import opened Seqs
  import opened Cleaning

  /** The keys of the groups: every non-null key of some row. */
  function KeySet<K(==,!new)>(rows: seq<Row>, key: Row -> Option<K>): set<K> {
    set r | r in rows && key(r).Some? :: key(r).value
  }

  lemma KeySetSnoc<K(!new)>(init: seq<Row>, last: Row, key: Row -> Option<K>)
    ensures KeySet(init + [last], key) == KeySet(init, key) + (if key(last).Some? then {key(last).value} else {})
  {
    assert forall r :: r in init + [last] <==> r in init || r == last;
  }

  /** The distinct non-null keys, in order of first appearance. */
  function GroupKeys<K(==,!new)>(rows: seq<Row>, key: Row -> Option<K>): (ks: seq<K>)
    ensures Distinct(ks)
    ensures |ks| <= |rows|
    ensures forall k :: k in ks <==> k in KeySet(rows, key)
    decreases |rows|
  {
    if rows == [] then []
    else
      var init, last := rows[..|rows| - 1], rows[|rows| - 1];
      assert rows == init + [last];
      KeySetSnoc(init, last, key);
      var ks := GroupKeys(init, key);
      if key(last).Some? && key(last).value !in ks then ks + [key(last).value] else ks
  }

  /** There are as many groups as distinct non-null keys. */
  lemma GroupKeysCount<K(!new)>(rows: seq<Row>, key: Row -> Option<K>)
    ensures |GroupKeys(rows, key)| == |KeySet(rows, key)| <= |rows|
  {
    var ks := GroupKeys(rows, key);
    DistinctCard(ks);
    assert (set x | x in ks) == KeySet(rows, key);
  }

  /** Whether a row is counted by `count()` on the track-name column: it has a key and a track name. */
  function Counted<K>(key: Row -> Option<K>): Row -> bool {
    (r: Row) => key(r).Some? && r.track.Some?
  }

  /** Whether a row belongs to some group. */
  function Keyed<K>(key: Row -> Option<K>): Row -> bool {
    (r: Row) => key(r).Some?
  }

  /** Whether a row is one of the plays of group `k`: it carries `k` and a track name. */
  function PlayedIn<K(==)>(key: Row -> Option<K>, k: K): Row -> bool {
    (r: Row) => key(r) == Some(k) && r.track.Some?
  }

  /** Whether a row belongs to the group of `k`. */
  function InGroup<K(==)>(key: Row -> Option<K>, k: K): Row -> bool {
    (r: Row) => key(r) == Some(k)
  }

  function MinutesOf(r: Row): real {
    r.minutes
  }

  /** The plays of group `k`: its rows that have a track name. */
  function GroupPlays<K(==)>(rows: seq<Row>, key: Row -> Option<K>, k: K): (n: nat)
    ensures n <= |rows|
    decreases |rows|
  {
    if rows == [] then 0
    else
      var last := rows[|rows| - 1];
      GroupPlays(rows[..|rows| - 1], key, k) + (if key(last) == Some(k) && last.track.Some? then 1 else 0)
  }

  /** The minutes of group `k`, summed over its rows. */
  function GroupMinutes<K(==)>(rows: seq<Row>, key: Row -> Option<K>, k: K): (m: real)
    ensures (forall i :: 0 <= i < |rows| ==> rows[i].minutes >= 0.0) ==> m >= 0.0
    decreases |rows|
  {
    if rows == [] then 0.0
    else
      var last := rows[|rows| - 1];
      GroupMinutes(rows[..|rows| - 1], key, k) + (if key(last) == Some(k) then last.minutes else 0.0)
  }

  /** A group has a positive play count exactly when one of its rows has a track name. */
  lemma {:induction false} GroupPlaysPositive<K(!new)>(rows: seq<Row>, key: Row -> Option<K>, k: K)
    ensures GroupPlays(rows, key, k) > 0 <==> exists r :: r in rows && key(r) == Some(k) && r.track.Some?
    decreases |rows|
  {
    if rows != [] {
      var init, last := rows[..|rows| - 1], rows[|rows| - 1];
      assert rows == init + [last];
      GroupPlaysPositive(init, key, k);
      assert forall r :: r in rows <==> r in init || r == last;
    }
  }

  /** A group's plays are the number of its rows that have a track name. */
  lemma {:induction false} GroupPlaysIsCount<K(!new)>(rows: seq<Row>, key: Row -> Option<K>, k: K)
    ensures GroupPlays(rows, key, k) == |Filter(rows, PlayedIn(key, k))|
    decreases |rows|
  {
    if rows != [] {
      var init, last := rows[..|rows| - 1], rows[|rows| - 1];
      var g := PlayedIn(key, k);
      GroupPlaysIsCount(init, key, k);
      assert g(last) == (key(last) == Some(k) && last.track.Some?);
      assert Filter(rows, g) == Filter(init, g) + (if g(last) then [last] else []);
    }
  }

  /** A group's minutes are the sum of the minutes of the rows carrying its key. */
  lemma {:induction false} GroupMinutesIsSum<K(!new)>(rows: seq<Row>, key: Row -> Option<K>, k: K)
    ensures GroupMinutes(rows, key, k) == SumBy(Filter(rows, InGroup(key, k)), MinutesOf)
    decreases |rows|
  {
    if rows != [] {
      var init, last := rows[..|rows| - 1], rows[|rows| - 1];
      var g := InGroup(key, k);
      GroupMinutesIsSum(init, key, k);
      var f := Filter(init, g);
      assert g(last) == (key(last) == Some(k));
      if g(last) {
        assert Filter(rows, g) == f + [last];
        assert (f + [last])[..|f|] == f;
        assert SumBy(f + [last], MinutesOf) == SumBy(f, MinutesOf) + last.minutes;
      } else {
        assert Filter(rows, g) == f + [];
        assert f + [] == f;
      }
    }
  }

  // ----- Table entries -----

  datatype PlayCount<K> = PlayCount(key: K, plays: nat)
  datatype MinuteTotal<K> = MinuteTotal(key: K, minutes: real)

  function PlaysOf<K>(e: PlayCount<K>): real { e.plays as real }
  function MinutesOfEntry<K>(e: MinuteTotal<K>): real { e.minutes }

  /** The descending orders of `sort_values(..., ascending=False)`. */
  predicate ByPlays<K>(a: PlayCount<K>, b: PlayCount<K>) { a.plays >= b.plays }
  predicate ByMinutes<K>(a: MinuteTotal<K>, b: MinuteTotal<K>) { a.minutes >= b.minutes }

  /** One play-count entry per key of `ks`, in that order. */
  function PlayCounts<K(==)>(rows: seq<Row>, key: Row -> Option<K>, ks: seq<K>): (es: seq<PlayCount<K>>)
    ensures |es| == |ks|
    ensures forall i :: 0 <= i < |ks| ==> es[i] == PlayCount(ks[i], GroupPlays(rows, key, ks[i]))
    decreases |ks|
  {
    if ks == [] then []
    else
      var k := ks[|ks| - 1];
      PlayCounts(rows, key, ks[..|ks| - 1]) + [PlayCount(k, GroupPlays(rows, key, k))]
  }

  /** One minutes entry per key of `ks`, in that order. */
  function MinuteTotals<K(==)>(rows: seq<Row>, key: Row -> Option<K>, ks: seq<K>): (es: seq<MinuteTotal<K>>)
    ensures |es| == |ks|
    ensures forall i :: 0 <= i < |ks| ==> es[i] == MinuteTotal(ks[i], GroupMinutes(rows, key, ks[i]))
    decreases |ks|
  {
    if ks == [] then []
    else
      var k := ks[|ks| - 1];
      MinuteTotals(rows, key, ks[..|ks| - 1]) + [MinuteTotal(k, GroupMinutes(rows, key, k))]
  }

  lemma GroupMinutesOutside<K(!new)>(rows: seq<Row>, key: Row -> Option<K>, k: K)
    requires k !in KeySet(rows, key)
    ensures GroupMinutes(rows, key, k) == 0.0
    decreases |rows|
  {
    if rows != [] {
      var init, last := rows[..|rows| - 1], rows[|rows| - 1];
      KeySetSnoc(init, last, key);
      assert rows == init + [last];
      GroupMinutesOutside(init, key, k);
    }
  }

  // ----- Sorted tables -----

  lemma PlaysOrder<K(!new)>()
    ensures Total(ByPlays<K>) && Transitive(ByPlays<K>)
  {
  }

  lemma MinutesOrder<K(!new)>()
    ensures Total(ByMinutes<K>) && Transitive(ByMinutes<K>)
  {
  }

  /** The play-count table of a `groupby(...)[track].count()` sorted by plays, descending. */
  function PlaysTable<K(==,!new)>(rows: seq<Row>, key: Row -> Option<K>): (t: seq<PlayCount<K>>)
    ensures multiset(t) == multiset(PlayCounts(rows, key, GroupKeys(rows, key)))
    ensures Sorted(t, ByPlays)
    ensures forall i :: 0 <= i < |t| ==> t[i].plays == GroupPlays(rows, key, t[i].key)
    ensures forall k :: k in KeySet(rows, key) <==> exists i :: 0 <= i < |t| && t[i].key == k
    ensures forall i, j :: 0 <= i < j < |t| ==> t[i].key != t[j].key
    ensures |t| == |KeySet(rows, key)|
  {
    var ks := GroupKeys(rows, key);
    var es := PlayCounts(rows, key, ks);
    PlaysOrder<K>();
    assert Distinct(es) by {
      forall i, j | 0 <= i < j < |es| ensures es[i] != es[j] {
        assert es[i].key == ks[i] && es[j].key == ks[j];
      }
    }
    var t := Sort(es, ByPlays);
    PlaysTableFacts(rows, key, ks, es, t);
    t
  }

  lemma PlaysTableFacts<K(!new)>(rows: seq<Row>, key: Row -> Option<K>, ks: seq<K>, es: seq<PlayCount<K>>, t: seq<PlayCount<K>>)
    requires ks == GroupKeys(rows, key) && es == PlayCounts(rows, key, ks)
    requires multiset(t) == multiset(es) && Distinct(t)
    ensures forall i :: 0 <= i < |t| ==> t[i].plays == GroupPlays(rows, key, t[i].key)
    ensures forall k :: k in KeySet(rows, key) <==> exists i :: 0 <= i < |t| && t[i].key == k
    ensures forall i, j :: 0 <= i < j < |t| ==> t[i].key != t[j].key
    ensures |t| == |KeySet(rows, key)|
  {
    forall i | 0 <= i < |t| ensures t[i] in es {
      assert t[i] in multiset(es);
    }
    forall k | k in KeySet(rows, key) ensures exists i :: 0 <= i < |t| && t[i].key == k {
      var j :| 0 <= j < |ks| && ks[j] == k;
      assert es[j] in multiset(t);
      var i :| 0 <= i < |t| && t[i] == es[j];
    }
    assert |t| == |multiset(t)| == |multiset(es)| == |es|;
    GroupKeysCount(rows, key);
  }

  /** Every play count in the table is the number of its group's rows with a track name. */
  lemma PlaysTableCounts<K(!new)>(rows: seq<Row>, key: Row -> Option<K>)
    ensures var t := PlaysTable(rows, key);
      forall i :: 0 <= i < |t| ==> t[i].plays == |Filter(rows, PlayedIn(key, t[i].key))|
  {
    var t := PlaysTable(rows, key);
    forall i | 0 <= i < |t| ensures t[i].plays == |Filter(rows, PlayedIn(key, t[i].key))| {
      GroupPlaysIsCount(rows, key, t[i].key);
    }
  }

  /** The minutes table of a `groupby(...)["minutes"].sum()` sorted by minutes, descending. */
  function MinutesTable<K(==,!new)>(rows: seq<Row>, key: Row -> Option<K>): (t: seq<MinuteTotal<K>>)
    ensures multiset(t) == multiset(MinuteTotals(rows, key, GroupKeys(rows, key)))
    ensures Sorted(t, ByMinutes)
    ensures forall i :: 0 <= i < |t| ==> t[i].minutes == GroupMinutes(rows, key, t[i].key)
    ensures forall k :: k in KeySet(rows, key) <==> exists i :: 0 <= i < |t| && t[i].key == k
    ensures forall i, j :: 0 <= i < j < |t| ==> t[i].key != t[j].key
    ensures |t| == |KeySet(rows, key)|
  {
    var ks := GroupKeys(rows, key);
    var es := MinuteTotals(rows, key, ks);
    MinutesOrder<K>();
    assert Distinct(es) by {
      forall i, j | 0 <= i < j < |es| ensures es[i] != es[j] {
        assert es[i].key == ks[i] && es[j].key == ks[j];
      }
    }
    var t := Sort(es, ByMinutes);
    MinutesTableFacts(rows, key, ks, es, t);
    t
  }

  lemma MinutesTableFacts<K(!new)>(rows: seq<Row>, key: Row -> Option<K>, ks: seq<K>, es: seq<MinuteTotal<K>>, t: seq<MinuteTotal<K>>)
    requires ks == GroupKeys(rows, key) && es == MinuteTotals(rows, key, ks)
    requires multiset(t) == multiset(es) && Distinct(t)
    ensures forall i :: 0 <= i < |t| ==> t[i].minutes == GroupMinutes(rows, key, t[i].key)
    ensures forall k :: k in KeySet(rows, key) <==> exists i :: 0 <= i < |t| && t[i].key == k
    ensures forall i, j :: 0 <= i < j < |t| ==> t[i].key != t[j].key
    ensures |t| == |KeySet(rows, key)|
  {
    forall i | 0 <= i < |t| ensures t[i] in es {
      assert t[i] in multiset(es);
    }
    forall k | k in KeySet(rows, key) ensures exists i :: 0 <= i < |t| && t[i].key == k {
      var j :| 0 <= j < |ks| && ks[j] == k;
      assert es[j] in multiset(t);
      var i :| 0 <= i < |t| && t[i] == es[j];
    }
    assert |t| == |multiset(t)| == |multiset(es)| == |es|;
    GroupKeysCount(rows, key);
  }

  // ----- The groups partition the keyed rows -----

  lemma GroupPlaysSnoc<K(!new)>(rows: seq<Row>, x: Row, key: Row -> Option<K>, k: K)
    ensures GroupPlays(rows + [x], key, k) ==
      GroupPlays(rows, key, k) + (if key(x) == Some(k) && x.track.Some? then 1 else 0)
  {
    assert (rows + [x])[..|rows|] == rows;
  }

  lemma {:induction false} PlaysSnoc<K(!new)>(rows: seq<Row>, x: Row, key: Row -> Option<K>, ks: seq<K>)
    requires Distinct(ks)
    ensures SumBy(PlayCounts(rows + [x], key, ks), PlaysOf) ==
      SumBy(PlayCounts(rows, key, ks), PlaysOf) + (if Counted(key)(x) && key(x).value in ks then 1.0 else 0.0)
    decreases |ks|
  {
    if ks != [] {
      var ks0, k := ks[..|ks| - 1], ks[|ks| - 1];
      assert ks == ks0 + [k];
      assert Distinct(ks0) && k !in ks0;
      PlaysSnoc(rows, x, key, ks0);
      GroupPlaysSnoc(rows, x, key, k);
      var a, b := PlayCounts(rows + [x], key, ks0), PlayCounts(rows, key, ks0);
      var ea, eb := PlayCount(k, GroupPlays(rows + [x], key, k)), PlayCount(k, GroupPlays(rows, key, k));
      assert PlayCounts(rows + [x], key, ks) == a + [ea];
      assert PlayCounts(rows, key, ks) == b + [eb];
      SumBySnoc(a, ea, PlaysOf);
      SumBySnoc(b, eb, PlaysOf);
      var inOld := Counted(key)(x) && key(x).value in ks0;
      var inNew := key(x) == Some(k) && x.track.Some?;
      assert (Counted(key)(x) && key(x).value in ks) == (inOld || inNew);
      assert !(inOld && inNew);
    }
  }

  /** The play counts of all groups add up to the number of counted rows. */
  lemma {:induction false} PlaysPartition<K(!new)>(rows: seq<Row>, key: Row -> Option<K>)
    ensures SumBy(PlayCounts(rows, key, GroupKeys(rows, key)), PlaysOf) == |Filter(rows, Counted(key))| as real
    decreases |rows|
  {
    if rows != [] {
      var init, x := rows[..|rows| - 1], rows[|rows| - 1];
      assert rows == init + [x];
      PlaysPartition(init, key);
      var ks := GroupKeys(init, key);
      PlaysSnoc(init, x, key, ks);
      CountedSnoc(init, x, key);
      var total := |Filter(init, Counted(key))| as real;
      if key(x).Some? && key(x).value !in ks {
        PlaysNewKey(init, x, key, ks);
        assert SumBy(PlayCounts(rows, key, ks), PlaysOf) == total;
      } else {
        assert GroupKeys(rows, key) == ks;
        assert SumBy(PlayCounts(rows, key, ks), PlaysOf) ==
          total + (if Counted(key)(x) then 1.0 else 0.0);
      }
    }
  }

  lemma CountedSnoc<K(!new)>(init: seq<Row>, x: Row, key: Row -> Option<K>)
    ensures |Filter(init + [x], Counted(key))| == |Filter(init, Counted(key))| + (if Counted(key)(x) then 1 else 0)
  {
    var rows := init + [x];
    assert rows[..|rows| - 1] == init;
  }

  lemma PlaysNewKey<K(!new)>(init: seq<Row>, x: Row, key: Row -> Option<K>, ks: seq<K>)
    requires ks == GroupKeys(init, key) && key(x).Some? && key(x).value !in ks
    ensures GroupKeys(init + [x], key) == ks + [key(x).value]
    ensures SumBy(PlayCounts(init + [x], key, ks + [key(x).value]), PlaysOf) ==
      SumBy(PlayCounts(init + [x], key, ks), PlaysOf) + (if x.track.Some? then 1.0 else 0.0)
  {
    var rows, k := init + [x], key(x).value;
    assert rows[..|rows| - 1] == init;
    var es := PlayCounts(rows, key, ks);
    var e := PlayCount(k, GroupPlays(rows, key, k));
    assert (ks + [k])[..|ks|] == ks;
    assert PlayCounts(rows, key, ks + [k]) == es + [e];
    SumBySnoc(es, e, PlaysOf);
    GroupPlaysPositive(init, key, k);
    GroupPlaysSnoc(init, x, key, k);
  }

  lemma GroupMinutesSnoc<K(!new)>(rows: seq<Row>, x: Row, key: Row -> Option<K>, k: K)
    ensures GroupMinutes(rows + [x], key, k) ==
      GroupMinutes(rows, key, k) + (if key(x) == Some(k) then x.minutes else 0.0)
  {
    assert (rows + [x])[..|rows|] == rows;
  }

  lemma {:induction false} MinutesSnoc<K(!new)>(rows: seq<Row>, x: Row, key: Row -> Option<K>, ks: seq<K>)
    requires Distinct(ks)
    ensures SumBy(MinuteTotals(rows + [x], key, ks), MinutesOfEntry) ==
      SumBy(MinuteTotals(rows, key, ks), MinutesOfEntry) + (if key(x).Some? && key(x).value in ks then x.minutes else 0.0)
    decreases |ks|
  {
    if ks != [] {
      var ks0, k := ks[..|ks| - 1], ks[|ks| - 1];
      assert ks == ks0 + [k];
      assert Distinct(ks0) && k !in ks0;
      MinutesSnoc(rows, x, key, ks0);
      GroupMinutesSnoc(rows, x, key, k);
      var a, b := MinuteTotals(rows + [x], key, ks0), MinuteTotals(rows, key, ks0);
      var ea, eb := MinuteTotal(k, GroupMinutes(rows + [x], key, k)), MinuteTotal(k, GroupMinutes(rows, key, k));
      assert MinuteTotals(rows + [x], key, ks) == a + [ea];
      assert MinuteTotals(rows, key, ks) == b + [eb];
      SumBySnoc(a, ea, MinutesOfEntry);
      SumBySnoc(b, eb, MinutesOfEntry);
      var inOld := key(x).Some? && key(x).value in ks0;
      var inNew := key(x) == Some(k);
      assert (key(x).Some? && key(x).value in ks) == (inOld || inNew);
      assert !(inOld && inNew);
    }
  }

  /** The minutes of all groups add up to the minutes of the keyed rows. */
  lemma {:induction false} MinutesPartition<K(!new)>(rows: seq<Row>, key: Row -> Option<K>)
    ensures SumBy(MinuteTotals(rows, key, GroupKeys(rows, key)), MinutesOfEntry) == SumBy(Filter(rows, Keyed(key)), MinutesOf)
    decreases |rows|
  {
    if rows != [] {
      var init, x := rows[..|rows| - 1], rows[|rows| - 1];
      assert rows == init + [x];
      MinutesPartition(init, key);
      var ks := GroupKeys(init, key);
      MinutesSnoc(init, x, key, ks);
      KeyedMinutesSnoc(init, x, key);
      var total := SumBy(Filter(init, Keyed(key)), MinutesOf);
      if key(x).Some? && key(x).value !in ks {
        MinutesNewKey(init, x, key, ks);
        assert SumBy(MinuteTotals(rows, key, ks), MinutesOfEntry) == total;
      } else {
        assert GroupKeys(rows, key) == ks;
        assert SumBy(MinuteTotals(rows, key, ks), MinutesOfEntry) ==
          total + (if key(x).Some? then x.minutes else 0.0);
      }
    }
  }

  lemma KeyedMinutesSnoc<K(!new)>(init: seq<Row>, x: Row, key: Row -> Option<K>)
    ensures SumBy(Filter(init + [x], Keyed(key)), MinutesOf) ==
      SumBy(Filter(init, Keyed(key)), MinutesOf) + (if key(x).Some? then x.minutes else 0.0)
  {
    var rows := init + [x];
    assert rows[..|rows| - 1] == init;
    var f := Filter(init, Keyed(key));
    if Keyed(key)(x) {
      assert Filter(rows, Keyed(key)) == f + [x];
      assert (f + [x])[..|f|] == f;
      assert SumBy(f + [x], MinutesOf) == SumBy(f, MinutesOf) + x.minutes;
    } else {
      assert Filter(rows, Keyed(key)) == f + [];
      assert f + [] == f;
    }
  }

  lemma MinutesNewKey<K(!new)>(init: seq<Row>, x: Row, key: Row -> Option<K>, ks: seq<K>)
    requires ks == GroupKeys(init, key) && key(x).Some? && key(x).value !in ks
    ensures GroupKeys(init + [x], key) == ks + [key(x).value]
    ensures SumBy(MinuteTotals(init + [x], key, ks + [key(x).value]), MinutesOfEntry) ==
      SumBy(MinuteTotals(init + [x], key, ks), MinutesOfEntry) + x.minutes
  {
    var rows, k := init + [x], key(x).value;
    assert rows[..|rows| - 1] == init;
    var es := MinuteTotals(rows, key, ks);
    var e := MinuteTotal(k, GroupMinutes(rows, key, k));
    assert (ks + [k])[..|ks|] == ks;
    assert MinuteTotals(rows, key, ks + [k]) == es + [e];
    assert (es + [e])[..|es|] == es;
    GroupMinutesOutside(init, key, k);
    assert GroupMinutes(rows, key, k) == x.minutes;
  }

  /** The plays of a sorted play-count table add up to the number of counted rows. */
  lemma PlaysTableSum<K(!new)>(rows: seq<Row>, key: Row -> Option<K>)
    ensures SumBy(PlaysTable(rows, key), PlaysOf) == |Filter(rows, Counted(key))| as real
  {
    SumByPermutation(PlaysTable(rows, key), PlayCounts(rows, key, GroupKeys(rows, key)), PlaysOf);
    PlaysPartition(rows, key);
  }

  /** The minutes of a sorted minutes table add up to the minutes of the keyed rows. */
  lemma MinutesTableSum<K(!new)>(rows: seq<Row>, key: Row -> Option<K>)
    ensures SumBy(MinutesTable(rows, key), MinutesOfEntry) == SumBy(Filter(rows, Keyed(key)), MinutesOf)
  {
    SumByPermutation(MinutesTable(rows, key), MinuteTotals(rows, key, GroupKeys(rows, key)), MinutesOfEntry);
    MinutesPartition(rows, key);
  }
}
