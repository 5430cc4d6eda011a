/**
 * Loading the recent predictions from the batch store: the newest batches
 * are read and concatenated, repeated ids are dropped keeping the first
 * occurrence, and the newest `n` rows by publication time are returned.
 */
module Load {
  import opened Records

  /** One stored batch file, as the reader finds it. */
  datatype Batch = Unreadable | Readable(rows: seq<Prediction>)

  /** At most this many of the newest batch files are consulted. */
  const MaxBatches: nat := 50

  /** The number of rows the dashboard loads when it renders. */
  const DefaultLimit: nat := 200

  /** The batches consulted, given all batches newest first. */
  function Consulted(batches: seq<Batch>): (c: seq<Batch>)
    ensures |c| == if |batches| <= MaxBatches then |batches| else MaxBatches
    ensures c <= batches
  {
    if |batches| <= MaxBatches then batches else batches[..MaxBatches]
  }

  /** The row lists of the readable batches, in batch order. */
  function Frames(batches: seq<Batch>): seq<seq<Prediction>>
    decreases |batches|
  {
    if batches == [] then []
    else
      var i := |batches| - 1;
      Frames(batches[..i]) + (if batches[i].Readable? then [batches[i].rows] else [])
  }

  /** The row lists joined end to end. */
  function Concat(frames: seq<seq<Prediction>>): seq<Prediction>
    decreases |frames|
  {
    if frames == [] then []
    else
      var i := |frames| - 1;
      Concat(frames[..i]) + frames[i]
  }

  /** All rows the loader sees, newest batch first and in row order within a batch. */
  function Loaded(batches: seq<Batch>): seq<Prediction>
  {
    Concat(Frames(Consulted(batches)))
  }

  /** The ids occurring in a list of rows. */
  function Ids(rows: seq<Prediction>): set<Id>
    decreases |rows|
  {
    if rows == [] then {} else {rows[0].id} + Ids(rows[1..])
  }

  /** No id occurs twice. */
  predicate DistinctIds(rows: seq<Prediction>)
    decreases |rows|
  {
    rows == [] || (rows[0].id !in Ids(rows[1..]) && DistinctIds(rows[1..]))
  }

  /** The position of the first row carrying an id. */
  function FirstIndex(rows: seq<Prediction>, id: Id): (i: nat)
    requires id in Ids(rows)
    ensures i < |rows| && rows[i].id == id
    ensures forall j :: 0 <= j < i ==> rows[j].id != id
    decreases |rows|
  {
    if rows[0].id == id then 0 else 1 + FirstIndex(rows[1..], id)
  }

  /** The rows whose id is neither in `seen` nor on an earlier row. */
  function DedupFrom(rows: seq<Prediction>, seen: set<Id>): seq<Prediction>
    decreases |rows|
  {
    if rows == [] then []
    else if rows[0].id in seen then DedupFrom(rows[1..], seen)
    else [rows[0]] + DedupFrom(rows[1..], seen + {rows[0].id})
  }

  /** Drops every row whose id occurred on an earlier row. */
  function DropDuplicateIds(rows: seq<Prediction>): seq<Prediction>
  {
    DedupFrom(rows, {})
  }

  /** Descending publication order, with NaT after every real time. */
  predicate NoEarlier(a: Stamp, b: Stamp)
  {
    b.NaT? || (a.At? && a.instant >= b.instant)
  }

  predicate SortedNewestFirst(rows: seq<Prediction>)
  {
    forall i, j :: 0 <= i < j < |rows| ==> NoEarlier(rows[i].publishedAt, rows[j].publishedAt)
  }

  /** Places a row into a list sorted newest first. */
  function Insert(x: Prediction, s: seq<Prediction>): seq<Prediction>
    decreases |s|
  {
    if s == [] then [x]
    else if NoEarlier(x.publishedAt, s[0].publishedAt) then [x] + s
    else [s[0]] + Insert(x, s[1..])
  }

  /**
   * Sorts by publication time, newest first. The order among rows with equal
   * times is this definition's own; nothing below depends on it.
   */
  function SortNewestFirst(rows: seq<Prediction>): seq<Prediction>
    decreases |rows|
  {
    if rows == [] then [] else Insert(rows[0], SortNewestFirst(rows[1..]))
  }

  /** The first `n` rows. */
  function Head(rows: seq<Prediction>, n: nat): (h: seq<Prediction>)
    ensures |h| == if |rows| <= n then |rows| else n
    ensures h <= rows
  {
    if |rows| <= n then rows else rows[..n]
  }

  /** The result of loading `n` recent rows from batches listed newest first. */
  function Recent(batches: seq<Batch>, n: nat): seq<Prediction>
  {
    Head(SortNewestFirst(DropDuplicateIds(Loaded(batches))), n)
  }

  // ---------------------------------------------------------------------
  // Ids and distinctness

  lemma {:induction false} IdsAre(rows: seq<Prediction>)
    ensures forall i :: 0 <= i < |rows| ==> rows[i].id in Ids(rows)
    ensures forall id :: id in Ids(rows) ==> exists i :: 0 <= i < |rows| && rows[i].id == id
    decreases |rows|
  {
    if rows != [] {
      IdsAre(rows[1..]);
      forall i | 1 <= i < |rows| ensures rows[i].id in Ids(rows) {
        assert rows[1..][i - 1] == rows[i];
      }
      forall id | id in Ids(rows) ensures exists i :: 0 <= i < |rows| && rows[i].id == id {
        if id != rows[0].id {
          var j :| 0 <= j < |rows[1..]| && rows[1..][j].id == id;
          assert rows[j + 1].id == id;
        }
      }
    }
  }

  /** Distinct ids, stated recursively, is the same as pairwise distinct ids. */
  lemma {:induction false} DistinctIffPairwise(rows: seq<Prediction>)
    ensures DistinctIds(rows) <==> forall i, j :: 0 <= i < j < |rows| ==> rows[i].id != rows[j].id
    decreases |rows|
  {
    if rows != [] {
      var tail := rows[1..];
      DistinctIffPairwise(tail);
      IdsAre(tail);
      if DistinctIds(rows) {
        forall i, j | 0 <= i < j < |rows| ensures rows[i].id != rows[j].id {
          assert rows[j] == tail[j - 1];
          if i > 0 { assert rows[i] == tail[i - 1]; }
        }
      }
      if forall i, j :: 0 <= i < j < |rows| ==> rows[i].id != rows[j].id {
        forall i, j | 0 <= i < j < |tail| ensures tail[i].id != tail[j].id {
          assert tail[i] == rows[i + 1] && tail[j] == rows[j + 1];
        }
      }
    }
  }

  /** With distinct ids there are as many ids as rows. */
  lemma {:induction false} DistinctCount(rows: seq<Prediction>)
    requires DistinctIds(rows)
    ensures |Ids(rows)| == |rows|
    decreases |rows|
  {
    if rows != [] {
      DistinctCount(rows[1..]);
    }
  }

  // ---------------------------------------------------------------------
  // Dropping duplicate ids

  /**
   * Deduplication keeps one row per id not already seen, and each kept row
   * is the first row carrying its id.
   */
  lemma {:induction false} DedupFromSpec(rows: seq<Prediction>, seen: set<Id>)
    ensures DistinctIds(DedupFrom(rows, seen))
    ensures Ids(DedupFrom(rows, seen)) == Ids(rows) - seen
    ensures forall k :: 0 <= k < |DedupFrom(rows, seen)| ==>
              DedupFrom(rows, seen)[k].id in Ids(rows) &&
              DedupFrom(rows, seen)[k] == rows[FirstIndex(rows, DedupFrom(rows, seen)[k].id)]
    decreases |rows|
  {
    if rows != [] {
      var x, tail := rows[0], rows[1..];
      if x.id in seen {
        DedupFromSpec(tail, seen);
        var r := DedupFrom(tail, seen);
        IdsAre(r);
        forall k | 0 <= k < |r|
          ensures r[k].id in Ids(rows) && r[k] == rows[FirstIndex(rows, r[k].id)]
        {
          assert r[k].id != x.id;
        }
      } else {
        DedupFromSpec(tail, seen + {x.id});
        var r := DedupFrom(tail, seen + {x.id});
        IdsAre(r);
        var res := [x] + r;
        assert res[1..] == r;
        forall k | 0 <= k < |res|
          ensures res[k].id in Ids(rows) && res[k] == rows[FirstIndex(rows, res[k].id)]
        {
          if k > 0 {
            assert res[k] == r[k - 1];
            assert r[k - 1].id in Ids(r);
          }
        }
      }
    }
  }

  // ---------------------------------------------------------------------
  // Sorting

  /** Inserting adds exactly the one row. */
  lemma {:induction false} InsertPerm(x: Prediction, s: seq<Prediction>)
    ensures multiset(Insert(x, s)) == multiset(s) + multiset{x}
    decreases |s|
  {
    if s != [] && !NoEarlier(x.publishedAt, s[0].publishedAt) {
      InsertPerm(x, s[1..]);
      assert s == [s[0]] + s[1..];
    }
  }

  lemma {:induction false} InsertIds(x: Prediction, s: seq<Prediction>)
    ensures Ids(Insert(x, s)) == Ids(s) + {x.id}
    ensures DistinctIds(s) && x.id !in Ids(s) ==> DistinctIds(Insert(x, s))
    decreases |s|
  {
    if s == [] {
      assert [x][1..] == [];
    } else if NoEarlier(x.publishedAt, s[0].publishedAt) {
      assert ([x] + s)[1..] == s;
    } else {
      var t := Insert(x, s[1..]);
      InsertIds(x, s[1..]);
      assert ([s[0]] + t)[1..] == t;
    }
  }

  lemma {:induction false} InsertSorted(x: Prediction, s: seq<Prediction>)
    requires SortedNewestFirst(s)
    ensures SortedNewestFirst(Insert(x, s))
    decreases |s|
  {
    if s != [] && !NoEarlier(x.publishedAt, s[0].publishedAt) {
      var tail := s[1..];
      var t := Insert(x, tail);
      InsertSorted(x, tail);
      InsertPerm(x, tail);
      forall j | 0 <= j < |t| ensures NoEarlier(s[0].publishedAt, t[j].publishedAt) {
        assert t[j] in multiset(t);
        if t[j] != x {
          assert t[j] in multiset(tail);
          var m :| 0 <= m < |tail| && tail[m] == t[j];
          assert s[m + 1] == t[j];
        }
      }
      var r := [s[0]] + t;
      forall i, j | 0 <= i < j < |r| ensures NoEarlier(r[i].publishedAt, r[j].publishedAt) {
        assert r[j] == t[j - 1];
        if i > 0 { assert r[i] == t[i - 1]; }
      }
    }
  }

  /** Sorting orders newest first and keeps exactly the same rows. */
  lemma {:induction false} SortSpec(rows: seq<Prediction>)
    ensures SortedNewestFirst(SortNewestFirst(rows))
    ensures multiset(SortNewestFirst(rows)) == multiset(rows)
    ensures Ids(SortNewestFirst(rows)) == Ids(rows)
    ensures DistinctIds(rows) ==> DistinctIds(SortNewestFirst(rows))
    decreases |rows|
  {
    if rows != [] {
      var t := SortNewestFirst(rows[1..]);
      assert SortNewestFirst(rows) == Insert(rows[0], t);
      SortSpec(rows[1..]);
      InsertPerm(rows[0], t);
      InsertIds(rows[0], t);
      InsertSorted(rows[0], t);
      assert rows == [rows[0]] + rows[1..];
    }
  }

  // ---------------------------------------------------------------------
  // The loaded result

  /** The sorted, deduplicated rows, from which the result is the head. */
  function Ranked(batches: seq<Batch>): seq<Prediction>
  {
    SortNewestFirst(DropDuplicateIds(Loaded(batches)))
  }

  lemma RankedSpec(batches: seq<Batch>)
    ensures SortedNewestFirst(Ranked(batches))
    ensures DistinctIds(Ranked(batches))
    ensures Ids(Ranked(batches)) == Ids(Loaded(batches))
    ensures |Ranked(batches)| == |Ids(Loaded(batches))|
    ensures forall k :: 0 <= k < |Ranked(batches)| ==>
              Ranked(batches)[k].id in Ids(Loaded(batches)) &&
              Ranked(batches)[k] == Loaded(batches)[FirstIndex(Loaded(batches), Ranked(batches)[k].id)]
  {
    var all := Loaded(batches);
    var d := DropDuplicateIds(all);
    DedupFromSpec(all, {});
    SortSpec(d);
    var s := SortNewestFirst(d);
    DistinctCount(s);
    forall k | 0 <= k < |s|
      ensures s[k].id in Ids(all) && s[k] == all[FirstIndex(all, s[k].id)]
    {
      assert s[k] in multiset(d);
      var q :| 0 <= q < |d| && d[q] == s[k];
    }
  }

  /** The result has pairwise distinct ids and is sorted newest first. */
  lemma RecentDistinctAndSorted(batches: seq<Batch>, n: nat)
    ensures forall i, j :: 0 <= i < j < |Recent(batches, n)| ==>
              Recent(batches, n)[i].id != Recent(batches, n)[j].id
    ensures SortedNewestFirst(Recent(batches, n))
  {
    RankedSpec(batches);
    DistinctIffPairwise(Ranked(batches));
  }

  /** The result holds `n` rows, or every distinct id when there are fewer. */
  lemma RecentLength(batches: seq<Batch>, n: nat)
    ensures |Recent(batches, n)| == if |Ids(Loaded(batches))| <= n then |Ids(Loaded(batches))| else n
  {
    RankedSpec(batches);
  }

  /** Each returned row is the first loaded row carrying its id. */
  lemma RecentKeepsFirstOccurrence(batches: seq<Batch>, n: nat)
    ensures forall k :: 0 <= k < |Recent(batches, n)| ==>
              Recent(batches, n)[k].id in Ids(Loaded(batches)) &&
              Recent(batches, n)[k] == Loaded(batches)[FirstIndex(Loaded(batches), Recent(batches, n)[k].id)]
  {
    RankedSpec(batches);
  }

  /**
   * No id left out of the result has a first row newer than any returned
   * row: the result is a newest-`n` selection.
   */
  lemma RecentIsNewest(batches: seq<Batch>, n: nat, id: Id)
    requires id in Ids(Loaded(batches)) && id !in Ids(Recent(batches, n))
    ensures forall k :: 0 <= k < |Recent(batches, n)| ==>
              NoEarlier(Recent(batches, n)[k].publishedAt,
                        Loaded(batches)[FirstIndex(Loaded(batches), id)].publishedAt)
  {
    RankedSpec(batches);
    var s := Ranked(batches);
    var res := Recent(batches, n);
    var m := FirstIndex(s, id);
    IdsAre(res);
    if m < |res| {
      assert false;
    }
  }

  /** When `n` covers every id, each loaded id appears in the result exactly once. */
  lemma RecentComplete(batches: seq<Batch>, n: nat)
    requires |Ids(Loaded(batches))| <= n
    ensures Ids(Recent(batches, n)) == Ids(Loaded(batches))
    ensures DistinctIds(Recent(batches, n))
  {
    RankedSpec(batches);
  }

  // ---------------------------------------------------------------------
  // Which batches contribute

  lemma {:induction false} FramesAppend(xs: seq<Batch>, ys: seq<Batch>)
    ensures Frames(xs + ys) == Frames(xs) + Frames(ys)
    decreases |ys|
  {
    if ys == [] {
      assert xs + ys == xs;
    } else {
      var i := |ys| - 1;
      FramesAppend(xs, ys[..i]);
      assert (xs + ys)[..|xs| + i] == xs + ys[..i];
    }
  }

  /** An unreadable batch contributes nothing, wherever it stands. */
  lemma UnreadableSkipped(xs: seq<Batch>, ys: seq<Batch>)
    ensures Frames(xs + [Unreadable] + ys) == Frames(xs + ys)
  {
    FramesAppend(xs + [Unreadable], ys);
    FramesAppend(xs, [Unreadable]);
    FramesAppend(xs, ys);
    assert [Unreadable][..0] == [];
  }

  /** The concatenation keeps the earlier frames' rows before the later ones'. */
  lemma {:induction false} ConcatAppend(f: seq<seq<Prediction>>, g: seq<seq<Prediction>>)
    ensures Concat(f + g) == Concat(f) + Concat(g)
    decreases |g|
  {
    if g == [] {
      assert f + g == f;
    } else {
      var i := |g| - 1;
      ConcatAppend(f, g[..i]);
      assert (f + g)[..|f| + i] == f + g[..i];
    }
  }

  /** Batches beyond the newest fifty are never read. */
  lemma OlderBatchesIgnored(batches: seq<Batch>, older: seq<Batch>, n: nat)
    requires |batches| >= MaxBatches
    ensures Recent(batches + older, n) == Recent(batches, n)
  {
    assert Consulted(batches + older) == Consulted(batches);
  }

  /** With no readable batch among those consulted the result is empty. */
  lemma {:induction false} NothingReadableNothingLoaded(batches: seq<Batch>, n: nat)
    requires forall i :: 0 <= i < |Consulted(batches)| ==> Consulted(batches)[i].Unreadable?
    ensures Recent(batches, n) == []
  {
    NoFrames(Consulted(batches));
  }

  lemma {:induction false} NoFrames(batches: seq<Batch>)
    requires forall i :: 0 <= i < |batches| ==> batches[i].Unreadable?
    ensures Frames(batches) == []
    decreases |batches|
  {
    if batches != [] {
      NoFrames(batches[..|batches| - 1]);
    }
  }

  lemma {:induction false} ConcatMember(frames: seq<seq<Prediction>>, x: Prediction)
    requires x in Concat(frames)
    ensures exists j :: 0 <= j < |frames| && x in frames[j]
    decreases |frames|
  {
    var i := |frames| - 1;
    var pre := frames[..i];
    if x in Concat(pre) {
      ConcatMember(pre, x);
      var j :| 0 <= j < |pre| && x in pre[j];
      assert frames[j] == pre[j];
    } else {
      assert x in frames[i];
    }
  }

  lemma {:induction false} FramesMember(batches: seq<Batch>, j: nat)
    requires j < |Frames(batches)|
    ensures exists i :: 0 <= i < |batches| && batches[i] == Readable(Frames(batches)[j])
    decreases |batches|
  {
    var i := |batches| - 1;
    var pre := batches[..i];
    if j < |Frames(pre)| {
      FramesMember(pre, j);
      var h :| 0 <= h < |pre| && pre[h] == Readable(Frames(pre)[j]);
      assert batches[h] == pre[h];
    } else {
      assert batches[i] == Readable(Frames(batches)[j]);
    }
  }

  /** Every returned row is a row of a readable batch among the newest fifty. */
  lemma RecentRowsFromBatches(batches: seq<Batch>, n: nat, k: nat)
    requires k < |Recent(batches, n)|
    ensures exists i :: 0 <= i < |batches| && i < MaxBatches && batches[i].Readable? &&
              Recent(batches, n)[k] in batches[i].rows
  {
    RecentKeepsFirstOccurrence(batches, n);
    var x := Recent(batches, n)[k];
    var c := Consulted(batches);
    ConcatMember(Frames(c), x);
    var j :| 0 <= j < |Frames(c)| && x in Frames(c)[j];
    FramesMember(c, j);
    var i :| 0 <= i < |c| && c[i] == Readable(Frames(c)[j]);
    assert batches[i] == c[i];
  }

  lemma {:induction false} FirstIndexInPrefix(a: seq<Prediction>, b: seq<Prediction>, id: Id)
    requires id in Ids(a)
    ensures id in Ids(a + b) && FirstIndex(a + b, id) == FirstIndex(a, id)
    decreases |a|
  {
    assert (a + b)[0] == a[0];
    if a[0].id != id {
      assert (a + b)[1..] == a[1..] + b;
      FirstIndexInPrefix(a[1..], b, id);
    }
  }

  /**
   * A row id found in the newest batch is served from that batch: its first
   * row there wins over any older row with the same id.
   */
  lemma NewestBatchWins(newest: seq<Prediction>, older: seq<Batch>, n: nat, k: nat)
    requires k < |Recent([Readable(newest)] + older, n)|
    requires Recent([Readable(newest)] + older, n)[k].id in Ids(newest)
    ensures Recent([Readable(newest)] + older, n)[k] == newest[FirstIndex(newest, Recent([Readable(newest)] + older, n)[k].id)]
  {
    var batches := [Readable(newest)] + older;
    var c := Consulted(batches);
    assert c == [Readable(newest)] + c[1..];
    FramesAppend([Readable(newest)], c[1..]);
    assert [Readable(newest)][..0] == [];
    assert Frames([Readable(newest)]) == [newest];
    ConcatAppend([newest], Frames(c[1..]));
    assert [newest][..0] == [];
    assert Concat([newest]) == newest;
    assert Loaded(batches) == newest + Concat(Frames(c[1..]));
    RecentKeepsFirstOccurrence(batches, n);
    var id := Recent(batches, n)[k].id;
    FirstIndexInPrefix(newest, Concat(Frames(c[1..])), id);
  }

  // ---------------------------------------------------------------------
  // The loader

  /**
   * Reads the newest fifty batches, skipping unreadable ones, and returns the
   * newest `n` rows of their concatenation with repeated ids dropped.
   */
  method LoadRecent(batches: seq<Batch>, n: nat) returns (result: seq<Prediction>)
    ensures result == Recent(batches, n)
  {
    var files := if |batches| <= MaxBatches then batches else batches[..MaxBatches];
    if files == [] {
      return [];
    }
    var dfs: seq<seq<Prediction>> := [];
    for i := 0 to |files|
      invariant dfs == Frames(files[..i])
    {
      assert files[..i + 1][..i] == files[..i];
      match files[i] {
        case Readable(rows) => dfs := dfs + [rows];
        case Unreadable =>
      }
    }
    assert files[..|files|] == files;
    if dfs == [] {
      return [];
    }
    var df := Concat(dfs);
    df := DropDuplicateIds(df);
    result := Head(SortNewestFirst(df), n);
  }
}
