/**
 Counting the entries of a directory tree by type, in three ways: by recursion on open descriptors, by a
 worklist of descriptors, and by recursion on paths.  A directory is what reading it yields.
 */
module DirTree {

  /** `openOk`: it can be opened; `streamOk`: a directory stream can be made of the descriptor. */
  datatype Dir = Dir(openOk: bool, streamOk: bool, entries: seq<Entry>)

  /** One entry by its type; the two dot entries are the ones every listing repeats. */
  datatype Entry = Dot | DotDot | Fifo | Regular | Block | Socket | Character | Symlink | Unknown | SubDir(d: Dir)

  /** The seven counters. */
  datatype Kind = RegularFile | Directory | BlockDevice | CharacterDevice | SocketFile | SymbolicLink | NamedPipe

  predicate IsKind(e: Entry, k: Kind) {
    match k
    case RegularFile => e.Regular?
    case Directory => e.SubDir?
    case BlockDevice => e.Block?
    case CharacterDevice => e.Character?
    case SocketFile => e.Socket?
    case SymbolicLink => e.Symlink?
    case NamedPipe => e.Fifo?
  }

  // Every count below is the count of one kind `k`, for any `k`.

  /** What an entry adds by itself, without what is below it. */
  function OwnCount(e: Entry, k: Kind): nat {
    if IsKind(e, k) then 1 else 0
  }

  // ---------------------------------------------------------------- recursion on descriptors

  /** The recursive walk of an opened directory. */
  function CountDir(d: Dir, k: Kind): nat {
    if d.streamOk then CountEntries(d.entries, k) else 0
  }

  function CountEntries(es: seq<Entry>, k: Kind): nat {
    if es == [] then 0 else CountEntry(es[0], k) + CountEntries(es[1..], k)
  }

  function CountEntry(e: Entry, k: Kind): nat {
    OwnCount(e, k) + if e.SubDir? && e.d.openOk then CountDir(e.d, k) else 0
  }

  // ---------------------------------------------------------------- the worklist

  function OwnCounts(es: seq<Entry>, k: Kind): nat {
    if es == [] then 0 else OwnCount(es[0], k) + OwnCounts(es[1..], k)
  }

  /** The subdirectories that can be opened, in the order they are read. */
  function Opened(es: seq<Entry>): seq<Dir> {
    if es == [] then [] else OpenedAt(es[0]) + Opened(es[1..])
  }

  function OpenedAt(e: Entry): seq<Dir> {
    if e.SubDir? && e.d.openOk then [e.d] else []
  }

  function SizeOf(e: Entry): nat {
    if e.SubDir? then 1 + SizeOfAll(e.d.entries) else 0
  }

  function SizeOfAll(es: seq<Entry>): nat {
    if es == [] then 0 else SizeOf(es[0]) + SizeOfAll(es[1..])
  }

  function QueueSize(q: seq<Dir>): nat {
    if q == [] then 0 else 1 + SizeOfAll(q[0].entries) + QueueSize(q[1..])
  }

  lemma {:induction false} QueueSizeAppend(q: seq<Dir>, p: seq<Dir>)
    ensures QueueSize(q + p) == QueueSize(q) + QueueSize(p)
    decreases |q|
  {
    if q == [] {
      assert q + p == p;
    } else {
      assert (q + p)[1..] == q[1..] + p;
      QueueSizeAppend(q[1..], p);
    }
  }

  lemma {:induction false} OpenedAreSmaller(es: seq<Entry>)
    ensures QueueSize(Opened(es)) <= SizeOfAll(es)
    decreases |es|
  {
    if es == [] {
    } else {
      OpenedAreSmaller(es[1..]);
      QueueSizeAppend(OpenedAt(es[0]), Opened(es[1..]));
    }
  }

  /** What the list walk has left when it has read the first directory of the list. */
  function NextQueue(q: seq<Dir>): seq<Dir>
    requires q != []
  {
    q[1..] + Opened(q[0].entries)
  }

  lemma NextQueueIsSmaller(q: seq<Dir>)
    requires q != []
    ensures QueueSize(NextQueue(q)) < QueueSize(q)
  {
    QueueSizeAppend(q[1..], Opened(q[0].entries));
    OpenedAreSmaller(q[0].entries);
  }

  /** The worklist walk: a directory that gives no stream ends it, with the rest of the list unread. */
  function CountList(q: seq<Dir>, k: Kind): nat
    decreases QueueSize(q)
  {
    if q == [] || !q[0].streamOk then 0
    else
      NextQueueIsSmaller(q);
      OwnCounts(q[0].entries, k) + CountList(NextQueue(q), k)
  }

  /** The directories the worklist walk leaves unread. */
  function Abandoned(q: seq<Dir>): seq<Dir>
    decreases QueueSize(q)
  {
    if q == [] then []
    else if !q[0].streamOk then q[1..]
    else
      NextQueueIsSmaller(q);
      Abandoned(NextQueue(q))
  }

  // ---------------------------------------------------------------- recursion on paths

  /** The walk by path, which counts the two dot entries as directories. */
  function CountPath(d: Dir, k: Kind): nat {
    if d.openOk && d.streamOk then CountPathEntries(d.entries, k) else 0
  }

  function CountPathEntries(es: seq<Entry>, k: Kind): nat {
    if es == [] then 0 else CountPathEntry(es[0], k) + CountPathEntries(es[1..], k)
  }

  function CountPathEntry(e: Entry, k: Kind): nat {
    OwnCount(e, k) + Dirs(DotAt(e), k) + if e.SubDir? then CountPath(e.d, k) else 0
  }

  function DotAt(e: Entry): nat {
    if e.Dot? || e.DotDot? then 1 else 0
  }

  /** `n` directories and nothing else. */
  function Dirs(n: nat, k: Kind): nat {
    if k == Directory then n else 0
  }

  // ---------------------------------------------------------------- the recursive and the list walk

  function CountAll(q: seq<Dir>, k: Kind): nat {
    if q == [] then 0 else CountDir(q[0], k) + CountAll(q[1..], k)
  }

  lemma {:induction false} CountAllAppend(q: seq<Dir>, p: seq<Dir>, k: Kind)
    ensures CountAll(q + p, k) == CountAll(q, k) + CountAll(p, k)
    decreases |q|
  {
    if q == [] {
      assert q + p == p;
    } else {
      assert (q + p)[1..] == q[1..] + p;
      CountAllAppend(q[1..], p, k);
    }
  }

  /** A directory's count is its entries' own counts and the counts of the subdirectories it opens. */
  lemma {:induction false} OwnAndBelow(es: seq<Entry>, k: Kind)
    ensures CountEntries(es, k) == OwnCounts(es, k) + CountAll(Opened(es), k)
    decreases |es|
  {
    if es == [] {
    } else {
      OwnAndBelow(es[1..], k);
      CountAllAppend(OpenedAt(es[0]), Opened(es[1..]), k);
    }
  }

  /** What the recursive walk finds is what the list walk finds and what it leaves unread. */
  lemma {:induction false} RecursionIsListAndAbandoned(q: seq<Dir>, k: Kind)
    ensures CountAll(q, k) == CountList(q, k) + CountAll(Abandoned(q), k)
    decreases QueueSize(q)
  {
    if q != [] && q[0].streamOk {
      NextQueueIsSmaller(q);
      RecursionIsListAndAbandoned(NextQueue(q), k);
      CountAllAppend(q[1..], Opened(q[0].entries), k);
      OwnAndBelow(q[0].entries, k);
    }
  }

  /** Nothing in the directory would be counted: no stream, or only dot entries and unknown types. */
  predicate Uncounted(d: Dir) {
    !d.streamOk || forall i :: 0 <= i < |d.entries| ==> Uncountable(d.entries[i])
  }

  predicate Uncountable(e: Entry) {
    e.Dot? || e.DotDot? || e.Unknown?
  }

  ghost predicate EntriesCountNothing(es: seq<Entry>) {
    forall k :: CountEntries(es, k) == 0
  }

  ghost predicate DirCountsNothing(d: Dir) {
    forall k :: CountDir(d, k) == 0
  }

  ghost predicate AllCountNothing(q: seq<Dir>) {
    forall k :: CountAll(q, k) == 0
  }

  lemma {:induction false} EntriesZero(es: seq<Entry>)
    ensures EntriesCountNothing(es) <==> forall i :: 0 <= i < |es| ==> Uncountable(es[i])
    decreases |es|
  {
    if es == [] {
    } else {
      var rest := es[1..];
      EntriesZero(rest);
      EntryZero(es[0]);
      hide CountEntry, Uncountable;
      assert forall k :: CountEntries(es, k) == CountEntry(es[0], k) + CountEntries(rest, k);
      assert EntriesCountNothing(es) <==> EntriesCountNothing(rest) && forall k :: CountEntry(es[0], k) == 0;
      assert forall i :: 1 <= i < |es| ==> es[i] == rest[i - 1];
      assert forall i :: 0 <= i < |rest| ==> rest[i] == es[i + 1];
    }
  }

  lemma EntryZero(e: Entry)
    ensures (forall k :: CountEntry(e, k) == 0) <==> Uncountable(e)
  {
    if !Uncountable(e) {
      var k := match e
        case Regular => RegularFile
        case Fifo => NamedPipe
        case Block => BlockDevice
        case Socket => SocketFile
        case Character => CharacterDevice
        case Symlink => SymbolicLink
        case _ => Directory;
      assert CountEntry(e, k) >= 1;
    }
  }

  lemma DirZero(d: Dir)
    ensures DirCountsNothing(d) <==> Uncounted(d)
  {
    EntriesZero(d.entries);
    assert forall k :: CountDir(d, k) == if d.streamOk then CountEntries(d.entries, k) else 0;
    hide CountEntries, CountDir, Uncountable;
    assert d.streamOk ==> (DirCountsNothing(d) <==> EntriesCountNothing(d.entries));
    assert !d.streamOk ==> DirCountsNothing(d);
  }

  lemma {:induction false} CountAllZero(q: seq<Dir>)
    ensures AllCountNothing(q) <==> forall i :: 0 <= i < |q| ==> Uncounted(q[i])
    decreases |q|
  {
    if q == [] {
    } else {
      var rest := q[1..];
      CountAllZero(rest);
      DirZero(q[0]);
      hide CountDir, Uncounted;
      assert forall k :: CountAll(q, k) == CountDir(q[0], k) + CountAll(rest, k);
      assert AllCountNothing(q) <==> DirCountsNothing(q[0]) && AllCountNothing(rest);
      assert forall i :: 1 <= i < |q| ==> q[i] == rest[i - 1];
      assert forall i :: 0 <= i < |rest| ==> rest[i] == q[i + 1];
    }
  }

  lemma CountAllOfOne(d: Dir, k: Kind)
    ensures CountAll([d], k) == CountDir(d, k)
  {
    hide CountDir;
    assert [d][1..] == [];
  }

  lemma SameCountsIffNothingLeft(d: Dir, left: seq<Dir>)
    requires left == Abandoned([d])
    ensures SameCounts(d) <==> AllCountNothing(left)
  {
    forall k ensures CountDir(d, k) == CountList([d], k) + CountAll(left, k) {
      RecursionIsListAndAbandoned([d], k);
      CountAllOfOne(d, k);
    }
    hide CountDir, CountList, CountAll, Abandoned;
  }

  /**
   The two walks give the same seven counts exactly when the list walk abandons nothing that would be
   counted; in particular whenever every directory it reaches gives a stream.
   */
  lemma WalksAgreeIff(d: Dir)
    ensures SameCounts(d) <==> forall i :: 0 <= i < |Abandoned([d])| ==> Uncounted(Abandoned([d])[i])
    ensures AllStreams([d]) ==> SameCounts(d)
  {
    var left := Abandoned([d]);
    SameCountsIffNothingLeft(d, left);
    CountAllZero(left);
    if AllStreams([d]) {
      StreamsAbandonNothing([d]);
    }
    hide *;
    assert SameCounts(d) <==> forall i :: 0 <= i < |left| ==> Uncounted(left[i]);
  }

  /** The list walk and the recursive walk of an opened directory leave the same seven counters. */
  ghost predicate SameCounts(d: Dir) {
    forall k :: CountList([d], k) == CountDir(d, k)
  }

  /** Every directory that is reached gives a stream. */
  predicate AllStreams(q: seq<Dir>)
    decreases QueueSize(q)
  {
    q == [] || (q[0].streamOk && (NextQueueIsSmaller(q); AllStreams(NextQueue(q))))
  }

  lemma {:induction false} StreamsAbandonNothing(q: seq<Dir>)
    requires AllStreams(q)
    ensures Abandoned(q) == []
    decreases QueueSize(q)
  {
    if q == [] {
    } else {
      NextQueueIsSmaller(q);
      StreamsAbandonNothing(NextQueue(q));
    }
  }

  /** They differ when a directory without a stream comes before one that holds a file. */
  lemma WalksMayDiffer() returns (d: Dir)
    ensures CountDir(d, RegularFile) == 1 && CountList([d], RegularFile) == 0
  {
    var bad, good := Dir(true, false, []), Dir(true, true, [Regular]);
    var both, tail, file := [SubDir(bad), SubDir(good)], [SubDir(good)], [Regular];
    d := Dir(true, true, both);
    assert both[1..] == tail && tail[1..] == [] && file[1..] == [];
    assert Opened(tail) == [good] && Opened(both) == [bad, good];
    assert NextQueue([d]) == [bad, good];
    assert CountList([bad, good], RegularFile) == 0;
    assert OwnCounts(tail, RegularFile) == OwnCount(SubDir(good), RegularFile) + OwnCounts([], RegularFile) == 0;
    assert OwnCounts(both, RegularFile) == OwnCount(SubDir(bad), RegularFile) + OwnCounts(tail, RegularFile) == 0;
    assert CountEntries(file, RegularFile) == 1 && CountEntry(SubDir(good), RegularFile) == 1;
    assert CountEntries(tail, RegularFile) == 1 && CountEntry(SubDir(bad), RegularFile) == 0;
    assert CountEntries(both, RegularFile) == 1;
    assert CountList([d], RegularFile) == OwnCounts(both, RegularFile) + CountList(NextQueue([d]), RegularFile);
  }

  // ---------------------------------------------------------------- the path walk

  function DotCount(es: seq<Entry>): nat {
    if es == [] then 0 else DotAt(es[0]) + DotCount(es[1..])
  }

  /** Every listing that can be read has both dot entries once, as a file system gives it. */
  predicate TwoDots(d: Dir) {
    d.openOk && d.streamOk ==> DotCount(d.entries) == 2 && TwoDotsBelow(d.entries)
  }

  predicate TwoDotsBelow(es: seq<Entry>) {
    es == [] || (TwoDotsAt(es[0]) && TwoDotsBelow(es[1..]))
  }

  predicate TwoDotsAt(e: Entry) {
    e.SubDir? ==> TwoDots(e.d)
  }

  /** How many directories are opened in the walk of `d`, itself included. */
  function OpenedIn(d: Dir): nat {
    if d.openOk && d.streamOk then 1 + OpenedBelow(d.entries) else 0
  }

  function OpenedBelow(es: seq<Entry>): nat {
    if es == [] then 0 else OpenedInEntry(es[0]) + OpenedBelow(es[1..])
  }

  function OpenedInEntry(e: Entry): nat {
    if e.SubDir? then OpenedIn(e.d) else 0
  }

  /** The path walk counts two directories too many for each directory it opens, and nothing else differently. */
  lemma {:induction false} PathWalkAddsTwo(d: Dir, k: Kind)
    requires TwoDots(d) && d.openOk
    ensures CountPath(d, k) == CountDir(d, k) + Dirs(2 * OpenedIn(d), k)
    decreases d
  {
    if d.streamOk {
      PathEntriesAddDots(d.entries, k);
    }
  }

  lemma {:induction false} PathEntryAddsDots(e: Entry, k: Kind)
    requires TwoDotsAt(e)
    ensures CountPathEntry(e, k) == CountEntry(e, k) + Dirs(DotAt(e) + 2 * OpenedInEntry(e), k)
    decreases e
  {
    if e.SubDir? && e.d.openOk {
      PathWalkAddsTwo(e.d, k);
    }
  }

  lemma {:induction false} PathEntriesAddDots(es: seq<Entry>, k: Kind)
    requires TwoDotsBelow(es)
    ensures CountPathEntries(es, k) == CountEntries(es, k) + Dirs(DotCount(es) + 2 * OpenedBelow(es), k)
    decreases es
  {
    hide DotCount, DotAt, OpenedBelow, OpenedInEntry, CountEntries, CountEntry, CountPathEntries, CountPathEntry, Dirs;
    FirstAndRest(es, k);
    if es == [] {
      DirsAdd(0, 0, k);
    } else {
      var e, rest := es[0], es[1..];
      PathEntriesAddDots(rest, k);
      PathEntryAddsDots(e, k);
      DirsAdd(DotAt(e) + 2 * OpenedInEntry(e), DotCount(rest) + 2 * OpenedBelow(rest), k);
    }
  }

  lemma DirsAdd(a: nat, b: nat, k: Kind)
    ensures Dirs(a + b, k) == Dirs(a, k) + Dirs(b, k)
  {
  }

  lemma FirstAndRest(es: seq<Entry>, k: Kind)
    ensures es == [] ==> CountPathEntries(es, k) == CountEntries(es, k) == DotCount(es) == OpenedBelow(es) == 0
    ensures es != [] ==>
      && CountPathEntries(es, k) == CountPathEntry(es[0], k) + CountPathEntries(es[1..], k)
      && CountEntries(es, k) == CountEntry(es[0], k) + CountEntries(es[1..], k)
      && DotCount(es) == DotAt(es[0]) + DotCount(es[1..])
      && OpenedBelow(es) == OpenedInEntry(es[0]) + OpenedBelow(es[1..])
  {
  }
}
