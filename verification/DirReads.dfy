/**
 The entries that each walk reads, one after the other, and the counters said of them: a counter is the
 number of places in that sequence that hold an entry of its type.
 */
module DirReads {
  import opened DirTree

  /** In the order of the recursive walk: below a subdirectory that opens, right after it. */
  function ReadByRecursion(d: Dir): seq<Entry> {
    if d.streamOk then ReadEntries(d.entries) else []
  }

  function ReadEntries(es: seq<Entry>): seq<Entry> {
    if es == [] then [] else [es[0]] + ReadBelow(es[0]) + ReadEntries(es[1..])
  }

  function ReadBelow(e: Entry): seq<Entry> {
    if e.SubDir? && e.d.openOk then ReadByRecursion(e.d) else []
  }

  /** In the order of the list walk: one listing after the other, up to one that cannot be read. */
  function ReadByList(q: seq<Dir>): seq<Entry>
    decreases QueueSize(q)
  {
    if q == [] || !q[0].streamOk then []
    else
      NextQueueIsSmaller(q);
      q[0].entries + ReadByList(NextQueue(q))
  }

  /** In the order of the walk by path. */
  function ReadByPath(d: Dir): seq<Entry> {
    if d.openOk && d.streamOk then ReadPathEntries(d.entries) else []
  }

  function ReadPathEntries(es: seq<Entry>): seq<Entry> {
    if es == [] then [] else [es[0]] + ReadPathBelow(es[0]) + ReadPathEntries(es[1..])
  }

  function ReadPathBelow(e: Entry): seq<Entry> {
    if e.SubDir? then ReadByPath(e.d) else []
  }

  // ---------------------------------------------------------------- counting places

  /** The places in `es` of a kind's entries. */
  ghost function Places(es: seq<Entry>, k: Kind): set<nat> {
    set i: nat | i < |es| && IsKind(es[i], k)
  }

  ghost function DotPlaces(es: seq<Entry>): set<nat> {
    set i: nat | i < |es| && (es[i].Dot? || es[i].DotDot?)
  }

  lemma {:induction false} OwnCountsAppend(es: seq<Entry>, fs: seq<Entry>, k: Kind)
    ensures OwnCounts(es + fs, k) == OwnCounts(es, k) + OwnCounts(fs, k)
    decreases |es|
  {
    if es == [] {
      assert es + fs == fs;
    } else {
      assert (es + fs)[1..] == es[1..] + fs;
      OwnCountsAppend(es[1..], fs, k);
    }
  }

  lemma {:induction false} DotCountAppend(es: seq<Entry>, fs: seq<Entry>)
    ensures DotCount(es + fs) == DotCount(es) + DotCount(fs)
    decreases |es|
  {
    if es == [] {
      assert es + fs == fs;
    } else {
      assert (es + fs)[1..] == es[1..] + fs;
      DotCountAppend(es[1..], fs);
    }
  }

  lemma OfOne(e: Entry, k: Kind)
    ensures OwnCounts([e], k) == OwnCount(e, k) && DotCount([e]) == DotAt(e)
  {
    assert [e][1..] == [];
  }

  lemma PlacesStep(front: seq<Entry>, e: Entry, k: Kind)
    ensures |Places(front + [e], k)| == |Places(front, k)| + OwnCount(e, k)
  {
    hide IsKind;
    var es, n := front + [e], |front|;
    assert n !in Places(front, k);
    if IsKind(e, k) {
      assert Places(es, k) == Places(front, k) + {n};
    } else {
      assert Places(es, k) == Places(front, k);
    }
  }

  lemma DotPlacesStep(front: seq<Entry>, e: Entry)
    ensures |DotPlaces(front + [e])| == |DotPlaces(front)| + DotAt(e)
  {
    var es, n := front + [e], |front|;
    assert n !in DotPlaces(front);
    if e.Dot? || e.DotDot? {
      assert DotPlaces(es) == DotPlaces(front) + {n};
    } else {
      assert DotPlaces(es) == DotPlaces(front);
    }
  }

  lemma {:induction false} CountsArePlaces(es: seq<Entry>, k: Kind)
    ensures OwnCounts(es, k) == |Places(es, k)| && DotCount(es) == |DotPlaces(es)|
    decreases |es|
  {
    if es == [] {
      assert Places(es, k) == {} && DotPlaces(es) == {};
    } else {
      var n := |es| - 1;
      var front, e := es[..n], es[n];
      CountsArePlaces(front, k);
      OfOne(e, k);
      OwnCountsAppend(front, [e], k);
      DotCountAppend(front, [e]);
      PlacesStep(front, e, k);
      DotPlacesStep(front, e);
      assert es == front + [e];
    }
  }

  // ---------------------------------------------------------------- each walk counts what it reads

  lemma {:induction false} RecursionReads(d: Dir, k: Kind)
    ensures CountDir(d, k) == OwnCounts(ReadByRecursion(d), k)
    decreases d
  {
    if d.streamOk {
      EntriesRead(d.entries, k);
    }
  }

  lemma {:induction false} BelowRead(e: Entry, k: Kind)
    ensures CountEntry(e, k) == OwnCount(e, k) + OwnCounts(ReadBelow(e), k)
    decreases e
  {
    if e.SubDir? && e.d.openOk {
      RecursionReads(e.d, k);
    }
  }

  lemma {:induction false} EntriesRead(es: seq<Entry>, k: Kind)
    ensures CountEntries(es, k) == OwnCounts(ReadEntries(es), k)
    decreases es
  {
    if es == [] {
    } else {
      BelowRead(es[0], k);
      EntriesRead(es[1..], k);
      OfOne(es[0], k);
      OwnCountsAppend([es[0]], ReadBelow(es[0]), k);
      OwnCountsAppend([es[0]] + ReadBelow(es[0]), ReadEntries(es[1..]), k);
    }
  }

  lemma {:induction false} ListReads(q: seq<Dir>, k: Kind)
    ensures CountList(q, k) == OwnCounts(ReadByList(q), k)
    decreases QueueSize(q)
  {
    if q != [] && q[0].streamOk {
      NextQueueIsSmaller(q);
      ListReads(NextQueue(q), k);
      OwnCountsAppend(q[0].entries, ReadByList(NextQueue(q)), k);
    }
  }

  /** What the walk by path counts for a sequence of entries. */
  function WithDots(es: seq<Entry>, k: Kind): nat {
    OwnCounts(es, k) + Dirs(DotCount(es), k)
  }

  lemma WithDotsAppend(es: seq<Entry>, fs: seq<Entry>, k: Kind)
    ensures WithDots(es + fs, k) == WithDots(es, k) + WithDots(fs, k)
  {
    OwnCountsAppend(es, fs, k);
    DotCountAppend(es, fs);
  }

  lemma {:induction false} PathReads(d: Dir, k: Kind)
    ensures CountPath(d, k) == WithDots(ReadByPath(d), k)
    decreases d
  {
    if d.openOk && d.streamOk {
      PathEntriesRead(d.entries, k);
    }
  }

  lemma {:induction false} PathBelowRead(e: Entry, k: Kind)
    ensures CountPathEntry(e, k) == OwnCount(e, k) + Dirs(DotAt(e), k) + WithDots(ReadPathBelow(e), k)
    decreases e
  {
    if e.SubDir? {
      PathReads(e.d, k);
    }
  }

  lemma {:induction false} PathEntriesRead(es: seq<Entry>, k: Kind)
    ensures CountPathEntries(es, k) == WithDots(ReadPathEntries(es), k)
    decreases es
  {
    if es == [] {
    } else {
      PathBelowRead(es[0], k);
      PathEntriesRead(es[1..], k);
      OfOne(es[0], k);
      WithDotsAppend([es[0]], ReadPathBelow(es[0]), k);
      WithDotsAppend([es[0]] + ReadPathBelow(es[0]), ReadPathEntries(es[1..]), k);
    }
  }

  // ---------------------------------------------------------------- by name

  lemma KindsByName(es: seq<Entry>)
    ensures OwnCounts(es, Directory) == |set i: nat | i < |es| && es[i].SubDir?|
    ensures OwnCounts(es, RegularFile) == |set i: nat | i < |es| && es[i].Regular?|
    ensures OwnCounts(es, BlockDevice) == |set i: nat | i < |es| && es[i].Block?|
    ensures OwnCounts(es, CharacterDevice) == |set i: nat | i < |es| && es[i].Character?|
    ensures OwnCounts(es, SocketFile) == |set i: nat | i < |es| && es[i].Socket?|
    ensures OwnCounts(es, SymbolicLink) == |set i: nat | i < |es| && es[i].Symlink?|
    ensures OwnCounts(es, NamedPipe) == |set i: nat | i < |es| && es[i].Fifo?|
  {
    forall k ensures OwnCounts(es, k) == |Places(es, k)| {
      CountsArePlaces(es, k);
    }
    assert Places(es, Directory) == set i: nat | i < |es| && es[i].SubDir?;
    assert Places(es, RegularFile) == set i: nat | i < |es| && es[i].Regular?;
    assert Places(es, BlockDevice) == set i: nat | i < |es| && es[i].Block?;
    assert Places(es, CharacterDevice) == set i: nat | i < |es| && es[i].Character?;
    assert Places(es, SocketFile) == set i: nat | i < |es| && es[i].Socket?;
    assert Places(es, SymbolicLink) == set i: nat | i < |es| && es[i].Symlink?;
    assert Places(es, NamedPipe) == set i: nat | i < |es| && es[i].Fifo?;
  }

  lemma DirectoriesWithDots(es: seq<Entry>)
    ensures OwnCounts(es, Directory) + DotCount(es) ==
            |set i: nat | i < |es| && (es[i].SubDir? || es[i].Dot? || es[i].DotDot?)|
  {
    CountsArePlaces(es, Directory);
    assert Places(es, Directory) !! DotPlaces(es);
    assert Places(es, Directory) + DotPlaces(es) ==
           set i: nat | i < |es| && (es[i].SubDir? || es[i].Dot? || es[i].DotDot?);
  }

  /** The counts of the three walks are those of the sequences that they read. */
  lemma RecursionReadsAll(d: Dir)
    ensures forall k :: CountDir(d, k) == OwnCounts(ReadByRecursion(d), k)
  {
    forall k {
      RecursionReads(d, k);
    }
  }

  lemma ListReadsAll(d: Dir)
    ensures forall k :: CountList([d], k) == OwnCounts(ReadByList([d]), k)
  {
    forall k {
      ListReads([d], k);
    }
  }

  lemma PathReadsAll(d: Dir)
    ensures forall k :: CountPath(d, k) == WithDots(ReadByPath(d), k)
  {
    forall k {
      PathReads(d, k);
    }
  }
}
