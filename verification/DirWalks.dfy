/**
 The three directory counters as the programs run them: loops over a listing that increment counters in
 place, two of them recursive, the third over a linked list of directories that grows while it is read.
 */
module DirWalks {
  import opened DirTree
  import opened DirReads

  /** The global counters. */
  class Counters {
    var regularCount: nat
    var dirCount: nat
    var blockCount: nat
    var characterCount: nat
    var socketCount: nat
    var linkCount: nat
    var fifoCount: nat

    ghost function Get(k: Kind): nat
      reads this
    {
      match k
      case RegularFile => regularCount
      case Directory => dirCount
      case BlockDevice => blockCount
      case CharacterDevice => characterCount
      case SocketFile => socketCount
      case SymbolicLink => linkCount
      case NamedPipe => fifoCount
    }

    /** Each counter has grown by the number of places in `es` that hold an entry of its type. */
    twostate predicate Counted(es: seq<Entry>)
      reads this
    {
      && dirCount == old(dirCount) + |set i: nat | i < |es| && es[i].SubDir?|
      && CountedFiles(es)
    }

    /** The same where a dot entry counts as the directory it is. */
    twostate predicate CountedWithDots(es: seq<Entry>)
      reads this
    {
      && dirCount == old(dirCount) + |set i: nat | i < |es| && (es[i].SubDir? || es[i].Dot? || es[i].DotDot?)|
      && CountedFiles(es)
    }

    twostate predicate CountedFiles(es: seq<Entry>)
      reads this
    {
      && regularCount == old(regularCount) + |set i: nat | i < |es| && es[i].Regular?|
      && blockCount == old(blockCount) + |set i: nat | i < |es| && es[i].Block?|
      && characterCount == old(characterCount) + |set i: nat | i < |es| && es[i].Character?|
      && socketCount == old(socketCount) + |set i: nat | i < |es| && es[i].Socket?|
      && linkCount == old(linkCount) + |set i: nat | i < |es| && es[i].Symlink?|
      && fifoCount == old(fifoCount) + |set i: nat | i < |es| && es[i].Fifo?|
    }

    constructor ()
      ensures forall k :: Get(k) == 0
    {
      regularCount, dirCount, blockCount, characterCount, socketCount, linkCount, fifoCount := 0, 0, 0, 0, 0, 0, 0;
    }

    /** The `switch` on an entry's type. */
    method CountOwn(e: Entry)
      modifies this
      ensures forall k :: Get(k) == old(Get(k)) + OwnCount(e, k)
      ensures regularCount == old(regularCount) + if e.Regular? then 1 else 0
      ensures dirCount == old(dirCount) + if e.SubDir? then 1 else 0
      ensures blockCount == old(blockCount) + if e.Block? then 1 else 0
      ensures characterCount == old(characterCount) + if e.Character? then 1 else 0
      ensures socketCount == old(socketCount) + if e.Socket? then 1 else 0
      ensures linkCount == old(linkCount) + if e.Symlink? then 1 else 0
      ensures fifoCount == old(fifoCount) + if e.Fifo? then 1 else 0
    {
      match e {
        case Fifo => fifoCount := fifoCount + 1;
        case SubDir(_) => dirCount := dirCount + 1;
        case Regular => regularCount := regularCount + 1;
        case Block => blockCount := blockCount + 1;
        case Socket => socketCount := socketCount + 1;
        case Character => characterCount := characterCount + 1;
        case Symlink => linkCount := linkCount + 1;
        case _ =>
      }
    }

    /** The same `switch` where a dot entry counts as the directory it is. */
    method CountOwnOrDot(e: Entry)
      modifies this
      ensures forall k :: Get(k) == old(Get(k)) + OwnCount(e, k) + Dirs(DotAt(e), k)
    {
      if e.Dot? || e.DotDot? {
        dirCount := dirCount + 1;
      } else {
        CountOwn(e);
      }
    }
  }

  lemma {:induction false} CountEntriesStep(es: seq<Entry>, i: nat, k: Kind)
    requires i < |es|
    ensures CountEntries(es[..i + 1], k) == CountEntries(es[..i], k) + CountEntry(es[i], k)
    decreases |es|
  {
    if i == 0 {
      var one := es[..1];
      assert one[1..] == [] && es[..0] == [];
    } else {
      CountEntriesStep(es[1..], i - 1, k);
      assert es[..i + 1][1..] == es[1..][..i] && es[..i][1..] == es[1..][..i - 1];
    }
  }

  lemma {:induction false} CountPathEntriesStep(es: seq<Entry>, i: nat, k: Kind)
    requires i < |es|
    ensures CountPathEntries(es[..i + 1], k) == CountPathEntries(es[..i], k) + CountPathEntry(es[i], k)
    decreases |es|
  {
    if i == 0 {
      var one := es[..1];
      assert one[1..] == [] && es[..0] == [];
    } else {
      CountPathEntriesStep(es[1..], i - 1, k);
      assert es[..i + 1][1..] == es[1..][..i] && es[..i][1..] == es[1..][..i - 1];
    }
  }

  lemma {:induction false} OwnCountsStep(es: seq<Entry>, i: nat, k: Kind)
    requires i < |es|
    ensures OwnCounts(es[..i + 1], k) == OwnCounts(es[..i], k) + OwnCount(es[i], k)
    decreases |es|
  {
    if i == 0 {
      var one := es[..1];
      assert one[1..] == [] && es[..0] == [];
    } else {
      OwnCountsStep(es[1..], i - 1, k);
      assert es[..i + 1][1..] == es[1..][..i] && es[..i][1..] == es[1..][..i - 1];
    }
  }

  lemma {:induction false} OpenedStep(es: seq<Entry>, i: nat)
    requires i < |es|
    ensures Opened(es[..i + 1]) == Opened(es[..i]) + OpenedAt(es[i])
    decreases |es|
  {
    if i == 0 {
      var one := es[..1];
      assert one[1..] == [] && es[..0] == [];
    } else {
      OpenedStep(es[1..], i - 1);
      assert es[..i + 1][1..] == es[1..][..i] && es[..i][1..] == es[1..][..i - 1];
    }
  }

  /** `caculate_dir` on a descriptor, recursively. */
  method WalkDescriptors(c: Counters, d: Dir)
    modifies c
    ensures forall k :: c.Get(k) == old(c.Get(k)) + CountDir(d, k)
    ensures c.Counted(ReadByRecursion(d))
    decreases d
  {
    hide OwnCounts, IsKind;
    if !d.streamOk {
      RecursionReadsAll(d);
      KindsByName(ReadByRecursion(d));
      return;
    }
    var es := d.entries;
    var i := 0;
    assert es[..0] == [];
    while i < |es|
      invariant i <= |es|
      invariant forall k :: c.Get(k) == old(c.Get(k)) + CountEntries(es[..i], k)
    {
      forall k {
        CountEntriesStep(es, i, k);
      }
      c.CountOwn(es[i]);
      if es[i].SubDir? && es[i].d.openOk {
        WalkDescriptors(c, es[i].d);
      }
      i := i + 1;
    }
    assert es[..i] == es;
    RecursionReadsAll(d);
    KindsByName(ReadByRecursion(d));
    assert forall k :: c.Get(k) == old(c.Get(k)) + OwnCounts(ReadByRecursion(d), k);
  }

  /** `caculate_dir` on a path: dot entries are counted, and left alone afterwards. */
  method WalkPaths(c: Counters, d: Dir)
    modifies c
    ensures forall k :: c.Get(k) == old(c.Get(k)) + CountPath(d, k)
    ensures c.CountedWithDots(ReadByPath(d))
    decreases d
  {
    if !(d.openOk && d.streamOk) {
      PathReadsAll(d);
      KindsByName(ReadByPath(d));
      DirectoriesWithDots(ReadByPath(d));
      return;
    }
    var es := d.entries;
    var i := 0;
    assert es[..0] == [];
    while i < |es|
      invariant i <= |es|
      invariant forall k :: c.Get(k) == old(c.Get(k)) + CountPathEntries(es[..i], k)
    {
      forall k {
        CountPathEntriesStep(es, i, k);
      }
      c.CountOwnOrDot(es[i]);
      if es[i].SubDir? {
        WalkPaths(c, es[i].d);
      }
      i := i + 1;
    }
    assert es[..i] == es;
    PathReadsAll(d);
    KindsByName(ReadByPath(d));
    DirectoriesWithDots(ReadByPath(d));
    assert forall k :: c.Get(k) == old(c.Get(k)) + WithDots(ReadByPath(d), k);
    assert WithDots(ReadByPath(d), Directory) == OwnCounts(ReadByPath(d), Directory) + DotCount(ReadByPath(d));
    assert forall k :: k != Directory ==> WithDots(ReadByPath(d), k) == OwnCounts(ReadByPath(d), k);
  }

  /** A node of the list of directories still to be read. */
  class DirLink {
    const dir: Dir
    var next: DirLink?

    constructor (dir: Dir)
      ensures this.dir == dir && next == null
    {
      this.dir, next := dir, null;
    }
  }

  ghost predicate IsList(nodes: seq<DirLink>, q: seq<Dir>)
    reads nodes
  {
    && |nodes| == |q|
    && (forall i :: 0 <= i < |nodes| ==> nodes[i].dir == q[i])
    && (forall i {:trigger nodes[i].next} :: 0 <= i < |nodes| ==>
          nodes[i].next == if i == |nodes| - 1 then null else nodes[i + 1])
    && (forall i, j :: 0 <= i < j < |nodes| ==> nodes[i] != nodes[j])
  }

  /** Appending a directory: a new node becomes the last one. */
  method LinkIn(last: DirLink, dir: Dir, ghost nodes: seq<DirLink>, ghost q: seq<Dir>) returns (node: DirLink)
    requires IsList(nodes, q) && nodes != [] && last == nodes[|nodes| - 1]
    modifies last
    ensures fresh(node) && IsList(nodes + [node], q + [dir])
  {
    node := new DirLink(dir);
    last.next := node;
  }

  method Tally(c: Counters, es: seq<Entry>, i: nat)
    requires i < |es|
    modifies c
    ensures forall k :: c.Get(k) == old(c.Get(k)) + OwnCounts(es[..i + 1], k) - OwnCounts(es[..i], k)
  {
    forall k {
      OwnCountsStep(es, i, k);
    }
    c.CountOwn(es[i]);
  }

  lemma NothingRead()
    ensures Opened([]) == [] && forall k :: OwnCounts([], k) == 0
  {
  }

  lemma ListStep(q: seq<Dir>, k: Kind)
    ensures q == [] || !q[0].streamOk ==> CountList(q, k) == 0
    ensures q != [] && q[0].streamOk ==> CountList(q, k) == OwnCounts(q[0].entries, k) + CountList(NextQueue(q), k)
  {
  }

  /** Reading one listing: its entries are counted and its subdirectories linked in at the end. */
  method ReadListing(c: Counters, es: seq<Entry>, latest: DirLink, ghost nodes: seq<DirLink>, ghost q: seq<Dir>)
    returns (last: DirLink, ghost grown: seq<DirLink>)
    requires IsList(nodes, q) && nodes != [] && latest == nodes[|nodes| - 1]
    modifies c, latest
    ensures forall k :: c.Get(k) == old(c.Get(k)) + OwnCounts(es, k)
    ensures c.Counted(es)
    ensures IsList(grown, q + Opened(es)) && nodes <= grown && last == grown[|grown| - 1]
    ensures forall i :: |nodes| <= i < |grown| ==> fresh(grown[i])
  {
    hide OwnCounts, OwnCount, Opened, IsList;
    last, grown := latest, nodes;
    var i := 0;
    ghost var list := q;
    NothingRead();
    assert es[..0] == [] && q + Opened([]) == q;
    while i < |es|
      invariant i <= |es| && list == q + Opened(es[..i])
      invariant forall k :: c.Get(k) == old(c.Get(k)) + OwnCounts(es[..i], k)
      invariant IsList(grown, list) && nodes <= grown && last == grown[|grown| - 1]
      invariant forall j :: |nodes| <= j < |grown| ==> fresh(grown[j])
      invariant last == latest || fresh(last)
    {
      OpenedStep(es, i);
      Tally(c, es, i);
      if es[i].SubDir? && es[i].d.openOk {
        last := LinkIn(last, es[i].d, grown, list);
        grown := grown + [last];
        list := list + [es[i].d];
      }
      i := i + 1;
    }
    assert es[..i] == es;
    KindsByName(es);
  }

  /** `caculate_dir` on a list: one directory after the other, until the list is used up or one gives no stream. */
  method WalkList(c: Counters, first: DirLink)
    requires first.next == null
    modifies c, first
    ensures forall k :: c.Get(k) == old(c.Get(k)) + CountList([first.dir], k)
    ensures c.Counted(ReadByList([first.dir]))
  {
    hide CountList, OwnCounts, Opened, QueueSize, CountDir, IsKind, ReadByList;
    var dlk: DirLink? := first;
    var latest := first;
    ghost var nodes: seq<DirLink>, q := [first], [first.dir];
    while dlk != null
      invariant IsList(nodes, q) && (dlk == null <==> nodes == [])
      invariant nodes != [] ==> dlk == nodes[0] && latest == nodes[|nodes| - 1]
      invariant forall i :: 0 <= i < |nodes| ==> nodes[i] == first || fresh(nodes[i])
      invariant forall k :: c.Get(k) + CountList(q, k) == old(c.Get(k)) + CountList([first.dir], k)
      decreases QueueSize(q)
    {
      NextQueueIsSmaller(q);
      forall k {
        ListStep(q, k);
      }
      if !dlk.dir.streamOk {
        ListReadsAll(first.dir);
        KindsByName(ReadByList([first.dir]));
        return;
      }
      ghost var es := dlk.dir.entries;
      latest, nodes := ReadListing(c, dlk.dir.entries, latest, nodes, q);
      dlk := dlk.next;
      assert (q + Opened(es))[1..] == NextQueue(q);
      nodes, q := nodes[1..], NextQueue(q);
    }
    forall k {
      ListStep(q, k);
    }
    ListReadsAll(first.dir);
    KindsByName(ReadByList([first.dir]));
  }
}
