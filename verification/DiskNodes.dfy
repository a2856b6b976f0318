/** The device list of diskstats.c: a linked list of nodes with old and new
    counters, updated by every read of the statistics file and pruned by lookups. */
module DiskNodes {

  import opened Common

  /** One counter per field of dev_data, in the order the file lists them. */
  type Counters = s: seq<nat> | |s| == 11 witness seq(11, _ => 0)

  datatype Name = Name(text: string)

  /** A line of the statistics file. */
  datatype Line = Line(major: int, minor: int, name: Name, cur: Counters)

  /** The content of a node. */
  datatype Dev = Dev(name: Name, typ: int, major: int, minor: int, stamped: int, cur: Counters, was: Counters)

  class DevNode {
    var dev: Dev
    var next: DevNode?

    constructor (dev: Dev)
      ensures this.dev == dev && next == null
    {
      this.dev, next := dev, null;
    }
  }

  // ---------------------------------------------------------------------
  // The list as a sequence of devices
  // ---------------------------------------------------------------------

  function RemoveAt<T>(s: seq<T>, i: nat): (r: seq<T>)
    requires i < |s|
    ensures |r| == |s| - 1
    ensures forall j :: 0 <= j < |r| ==> r[j] == s[if j < i then j else j + 1]
  {
    s[..i] + s[i + 1..]
  }

  /** The first device with the given name, or the length of the list. */
  function Find(ds: seq<Dev>, name: Name): (i: nat)
    ensures i <= |ds|
    ensures i < |ds| ==> ds[i].name == name
    ensures forall j :: 0 <= j < i ==> ds[j].name != name
  {
    if ds == [] || ds[0].name == name then 0 else 1 + Find(ds[1..], name)
  }

  ghost predicate UniqueNames(ds: seq<Dev>) {
    forall i, j :: 0 <= i < j < |ds| ==> ds[i].name != ds[j].name
  }

  predicate Stale(d: Dev, oldStamp: int, newStamp: int) {
    d.stamped != oldStamp && d.stamped != newStamp
  }

  /** A lookup loses the device it finds when that is stale. */
  function AfterGet(ds: seq<Dev>, name: Name, oldStamp: int, newStamp: int): seq<Dev> {
    var i := Find(ds, name);
    if i < |ds| && Stale(ds[i], oldStamp, newStamp) then RemoveAt(ds, i) else ds
  }

  function Fresh(src: Line, typ: int, stamp: int): Dev {
    Dev(src.name, typ, src.major, src.minor, stamp, src.cur, src.cur)
  }

  /** An update keeps the place and the type of a device that is not stale; any
      other comes to the end of the list without distorting the deltas. */
  function AfterUpdate(ds: seq<Dev>, src: Line, typ: int, oldStamp: int, newStamp: int): seq<Dev> {
    var es := AfterGet(ds, src.name, oldStamp, newStamp);
    var i := Find(es, src.name);
    if i == |es| then es + [Fresh(src, typ, newStamp)]
    else es[i := Dev(src.name, es[i].typ, src.major, src.minor, newStamp, src.cur, es[i].cur)]
  }

  /** What a line of the file turns out to be; typ is what /sys/block says. */
  datatype Input = Good(line: Line, typ: int) | Malformed

  /** A read stops at the first malformed line. */
  function AfterLines(ds: seq<Dev>, lines: seq<Input>, oldStamp: int, newStamp: int): seq<Dev>
    decreases |lines|
  {
    if lines == [] || lines[0].Malformed? then ds
    else AfterLines(AfterUpdate(ds, lines[0].line, lines[0].typ, oldStamp, newStamp), lines[1..], oldStamp, newStamp)
  }

  datatype State = State(devs: seq<Dev>, oldStamp: int, newStamp: int)

  function AfterRead(s: State, now: int, lines: seq<Input>): State {
    State(AfterLines(s.devs, lines, s.newStamp, now), s.newStamp, now)
  }

  lemma {:induction false} FindIs(ds: seq<Dev>, name: Name, i: nat)
    requires i <= |ds| && (i < |ds| ==> ds[i].name == name)
    requires forall j :: 0 <= j < i ==> ds[j].name != name
    ensures Find(ds, name) == i
  {
    if i > 0 {
      FindIs(ds[1..], name, i - 1);
    }
  }

  lemma {:induction false} NotFound(ds: seq<Dev>, name: Name)
    requires name !in Names(ds)
    ensures Find(ds, name) == |ds|
  {
    assert forall j :: 0 <= j < |ds| ==> Names(ds)[j] == ds[j].name;
    FindIs(ds, name, |ds|);
  }

  // ---------------------------------------------------------------------
  // What lookups and updates do to the list
  // ---------------------------------------------------------------------

  function Names(ds: seq<Dev>): seq<Name> {
    seq(|ds|, i requires 0 <= i < |ds| => ds[i].name)
  }

  lemma RemoveAtUnique(ds: seq<Dev>, i: nat)
    requires UniqueNames(ds) && i < |ds|
    ensures UniqueNames(RemoveAt(ds, i)) && ds[i].name !in Names(RemoveAt(ds, i))
    ensures Names(RemoveAt(ds, i)) == RemoveAt(Names(ds), i)
  {}

  lemma SnocUnique(ds: seq<Dev>, d: Dev)
    requires UniqueNames(ds) && forall i :: 0 <= i < |ds| ==> ds[i].name != d.name
    ensures UniqueNames(ds + [d]) && Names(ds + [d]) == Names(ds) + [d.name]
  {
    var es := ds + [d];
    forall i, j | 0 <= i < j < |es| ensures es[i].name != es[j].name {
      assert es[i] == ds[i];
    }
  }

  lemma ReplaceUnique(ds: seq<Dev>, i: nat, d: Dev)
    requires UniqueNames(ds) && i < |ds| && d.name == ds[i].name
    ensures UniqueNames(ds[i := d]) && Names(ds[i := d]) == Names(ds)
  {}

  /** The devices that are not stale, or have another name, in their order. */
  function Kept(ds: seq<Dev>, name: Name, oldStamp: int, newStamp: int): seq<Dev> {
    if ds == [] then []
    else
      (if ds[0].name == name && Stale(ds[0], oldStamp, newStamp) then [] else [ds[0]])
      + Kept(ds[1..], name, oldStamp, newStamp)
  }

  lemma {:induction false} KeptAll(ds: seq<Dev>, name: Name, oldStamp: int, newStamp: int)
    requires forall i :: 0 <= i < |ds| ==> ds[i].name != name
    ensures Kept(ds, name, oldStamp, newStamp) == ds
  {
    if ds != [] {
      KeptAll(ds[1..], name, oldStamp, newStamp);
    }
  }

  /** A lookup of a name filters out the stale device of that name, and nothing else. */
  lemma {:induction false} GetPrunes(ds: seq<Dev>, name: Name, oldStamp: int, newStamp: int)
    requires UniqueNames(ds)
    ensures UniqueNames(AfterGet(ds, name, oldStamp, newStamp))
    ensures AfterGet(ds, name, oldStamp, newStamp) == Kept(ds, name, oldStamp, newStamp)
  {
    var i := Find(ds, name);
    if i < |ds| {
      RemoveAtUnique(ds, i);
    }
    if ds != [] {
      if i == 0 {
        KeptAll(ds[1..], name, oldStamp, newStamp);
      } else {
        GetPrunes(ds[1..], name, oldStamp, newStamp);
      }
    }
  }

  /** An update keeps the list of names when the device is there and not stale;
      otherwise the name goes to the end, and leaves its old place if it had one. */
  lemma UpdatePlaces(ds: seq<Dev>, src: Line, typ: int, oldStamp: int, newStamp: int)
    requires UniqueNames(ds)
    ensures UniqueNames(AfterUpdate(ds, src, typ, oldStamp, newStamp))
    ensures Find(ds, src.name) == |ds| ==>
              Names(AfterUpdate(ds, src, typ, oldStamp, newStamp)) == Names(ds) + [src.name]
    ensures Find(ds, src.name) < |ds| && Stale(ds[Find(ds, src.name)], oldStamp, newStamp) ==>
              Names(AfterUpdate(ds, src, typ, oldStamp, newStamp))
              == RemoveAt(Names(ds), Find(ds, src.name)) + [src.name]
    ensures Find(ds, src.name) < |ds| && !Stale(ds[Find(ds, src.name)], oldStamp, newStamp) ==>
              Names(AfterUpdate(ds, src, typ, oldStamp, newStamp)) == Names(ds)
  {
    hide UniqueNames, Names, RemoveAt;
    var i := Find(ds, src.name);
    if i < |ds| && !Stale(ds[i], oldStamp, newStamp) {
      ReplaceUnique(ds, i, Dev(src.name, ds[i].typ, src.major, src.minor, newStamp, src.cur, ds[i].cur));
    } else {
      if i < |ds| {
        RemoveAtUnique(ds, i);
        NotFound(RemoveAt(ds, i), src.name);
      }
      SnocUnique(AfterGet(ds, src.name, oldStamp, newStamp), Fresh(src, typ, newStamp));
    }
  }

  // ---------------------------------------------------------------------
  // The list in the heap
  // ---------------------------------------------------------------------

  ghost function DevsOf(s: seq<DevNode>): (ds: seq<Dev>)
    reads s
    ensures |ds| == |s| && forall i :: 0 <= i < |s| ==> ds[i] == s[i].dev
  {
    seq(|s|, i requires 0 <= i < |s| reads s => s[i].dev)
  }

  class DiskstatsInfo {
    var oldStamp: int
    var newStamp: int
    var nodes: DevNode?
    ghost var spine: seq<DevNode>   // the nodes in list order

    ghost function Nodes(): set<DevNode>
      reads this`spine
    {
      set n | n in spine
    }

    ghost function At(i: nat): DevNode?
      reads this`spine
    {
      if i < |spine| then spine[i] else null
    }

    /** The links follow the spine to its end: no cycle, no sharing. */
    ghost predicate Linked()
      reads this`nodes, this`spine, spine
    {
      && nodes == At(0)
      && (forall i, j :: 0 <= i < j < |spine| ==> spine[i] != spine[j])
      && (forall i :: 0 <= i < |spine| ==> spine[i].next == At(i + 1))
    }

    ghost function Devs(): seq<Dev>
      reads this`spine, spine
    {
      DevsOf(spine)
    }

    ghost predicate Valid()
      reads this`nodes, this`spine, spine
    {
      Linked() && UniqueNames(Devs())
    }

    constructor ()
      ensures Valid() && Devs() == [] && oldStamp == newStamp == 0 && fresh(this)
      ensures spine == []
    {
      oldStamp, newStamp, nodes, spine := 0, 0, null, [];
    }

    /** node_add: to the tail. */
    method NodeAdd(node: DevNode)
      requires Linked() && node !in spine && node.next == null
      modifies this`nodes, this`spine, Nodes()
      ensures Linked() && spine == old(spine) + [node]
      ensures Devs() == old(Devs()) + [node.dev] && node.dev == old(node.dev)
    {
      if nodes == null {
        nodes := node;
      } else {
        var prev := nodes;
        var walk := prev.next;
        ghost var i := 0;
        while walk != null
          invariant 0 <= i < |spine| && prev == spine[i] && walk == At(i + 1)
          decreases |spine| - i
        {
          prev := walk;
          walk := walk.next;
          i := i + 1;
        }
        prev.next := node;
      }
      spine := spine + [node];
    }

    /** The successor of a node leaves the list. */
    method Unlink(prev: DevNode, ghost i: nat)
      requires Linked() && i + 1 < |spine| && prev == spine[i]
      modifies this`spine, prev
      ensures Linked() && spine == RemoveAt(old(spine), i + 1)
      ensures Devs() == RemoveAt(old(Devs()), i + 1)
    {
      hide RemoveAt, DevsOf;
      prev.next := prev.next.next;
      spine := RemoveAt(spine, i + 1);
    }

    /** node_cut: unlinks the node if the list holds it. */
    method NodeCut(node: DevNode) returns (found: bool, ghost i: nat)
      requires Linked() && spine != []
      modifies this`nodes, this`spine, Nodes()
      ensures Linked() && found == (node in old(spine))
      ensures !found ==> spine == old(spine) && Devs() == old(Devs())
      ensures found ==> 0 <= i < |old(spine)| && old(spine)[i] == node
      ensures found ==> spine == RemoveAt(old(spine), i) && Devs() == RemoveAt(old(Devs()), i)
    {
      hide RemoveAt;
      i := 0;
      if node == nodes {
        assert node == spine[0];
        nodes := node.next;
        spine := RemoveAt(spine, 0);
        return true, 0;
      }
      var walk: DevNode? := nodes;
      while walk != null
        invariant 0 <= i <= |spine| && walk == At(i)
        invariant forall j :: 0 <= j <= i && j < |spine| ==> spine[j] != node
        decreases |spine| - i
      {
        if node == walk.next {
          assert node == spine[i + 1];
          Unlink(walk, i);
          return true, i + 1;
        }
        walk := walk.next;
        i := i + 1;
      }
      found := false;
    }

    ghost function Abs(): State
      reads this`spine, this`oldStamp, this`newStamp, spine
    {
      State(Devs(), oldStamp, newStamp)
    }

    method FindNode(name: Name) returns (node: DevNode?, ghost i: nat)
      requires Linked()
      ensures i == Find(Devs(), name) && node == At(i)
    {
      hide Find;
      node, i := nodes, 0;
      while node != null && node.dev.name != name
        invariant 0 <= i <= |spine| && node == At(i)
        invariant forall j :: 0 <= j < i ==> spine[j].dev.name != name
        decreases |spine| - i
      {
        node := node.next;
        i := i + 1;
      }
      FindIs(Devs(), name, i);
    }

    /** node_get: a stale device is freed and never found. */
    method NodeGet(name: Name) returns (node: DevNode?)
      requires Valid()
      modifies this`nodes, this`spine, Nodes()
      ensures Valid() && Devs() == AfterGet(old(Devs()), name, oldStamp, newStamp)
      ensures node == At(Find(Devs(), name))
      ensures Nodes() <= old(Nodes())
    {
      hide RemoveAt;
      ghost var i;
      node, i := FindNode(name);
      if node != null && Stale(node.dev, oldStamp, newStamp) {
        RemoveAtUnique(Devs(), i);
        var found, k := NodeCut(node);
        node := null;
        NotFound(Devs(), name);
      }
    }

    method Overwrite(node: DevNode, d: Dev, ghost i: nat)
      requires Valid() && i < |spine| && node == spine[i] && d.name == node.dev.name
      modifies node`dev
      ensures Valid() && Devs() == old(Devs())[i := d]
    {
      node.dev := d;
    }

    /** node_update: memcpy of the parsed line over the node, or a new node. */
    method NodeUpdate(src: Line, typ: int)
      requires Valid()
      modifies this`nodes, this`spine, Nodes()
      ensures Valid() && Devs() == AfterUpdate(old(Devs()), src, typ, oldStamp, newStamp)
      ensures fresh(Nodes() - old(Nodes()))
    {
      hide Find, AfterGet, Linked, UniqueNames, RemoveAt;
      var target := NodeGet(src.name);
      UpdatePlaces(old(Devs()), src, typ, oldStamp, newStamp);
      if target == null {
        var node := new DevNode(Fresh(src, typ, newStamp));
        IsLinked();
        NodeAdd(node);
      } else {
        var d := Dev(src.name, target.dev.typ, src.major, src.minor, newStamp, src.cur, target.dev.cur);
        Overwrite(target, d, Find(Devs(), src.name));
      }
    }

    lemma IsLinked()
      requires Valid()
      ensures Linked()
    {}

    /** diskstats_read_failed: false is success. */
    method ReadFailed(now: int, lines: seq<Input>) returns (failed: bool)
      requires Valid()
      modifies this, Nodes()
      ensures Valid() && failed == (Malformed in lines)
      ensures Abs() == AfterRead(old(Abs()), now, lines)
      ensures fresh(Nodes() - old(Nodes()))
    {
      hide Linked, UniqueNames, AfterUpdate;
      oldStamp := newStamp;
      newStamp := now;
      for k := 0 to |lines|
        invariant Valid() && (Malformed in lines <==> Malformed in lines[k..])
        invariant oldStamp == old(newStamp) && newStamp == now
        invariant AfterLines(Devs(), lines[k..], oldStamp, newStamp)
                  == AfterLines(old(Devs()), lines, old(newStamp), now)
        invariant fresh(Nodes() - old(Nodes()))
      {
        assert lines[k..][0] == lines[k] && lines[k..][1..] == lines[k + 1..];
        if lines[k].Malformed? {
          return true;
        }
        NodeUpdate(lines[k].line, lines[k].typ);
      }
      failed := false;
    }

    /** procps_diskstats_get: reads again when at least a second went by. */
    method Get(now: int, lines: seq<Input>, name: Name) returns (d: Option<Dev>)
      requires Valid()
      modifies this, Nodes()
      ensures Valid() && fresh(Nodes() - old(Nodes()))
      ensures var s := if 1 <= now - old(newStamp) then AfterRead(old(Abs()), now, lines) else old(Abs());
        if 1 <= now - old(newStamp) && Malformed in lines then Abs() == s && d == None
        else Abs() == s.(devs := AfterGet(s.devs, name, s.oldStamp, s.newStamp))
             && d == Found(s.devs, name, s.oldStamp, s.newStamp)
      ensures forall k :: 0 <= k < |lines| && DistinctLines(lines) && 1 <= now - old(newStamp) ==>
                lines[k].line.name == name ==>
                  && d.Some? && d.value.name == name && d.value.cur == lines[k].line.cur && d.value.stamped == now
                  && Devs() == AfterRead(old(Abs()), now, lines).devs
    {
      hide Linked, UniqueNames, AfterLines;
      if 1 <= now - newStamp {
        var failed := ReadFailed(now, lines);
        if failed {
          return None;
        }
      }
      AreUnique();
      LookupAfterGet(Devs(), name, name, oldStamp, newStamp);
      ghost var ds := Devs();
      var node := NodeGet(name);
      d := if node == null then None else Some(node.dev);
      if DistinctLines(lines) && 1 <= now - old(newStamp) {
        forall k | 0 <= k < |lines| && lines[k].line.name == name
          ensures d.Some? && d.value.cur == lines[k].line.cur && d.value.stamped == now && Devs() == ds
          ensures d.value.name == name
        {
          ListedIsFound(old(Devs()), lines, k, old(newStamp), now);
        }
      }
    }

    lemma AreUnique()
      requires Valid()
      ensures UniqueNames(Devs())
    {}
  }

  // ---------------------------------------------------------------------
  // The list as a map, and whole runs
  // ---------------------------------------------------------------------

  function Lookup(ds: seq<Dev>, name: Name): Option<Dev> {
    var i := Find(ds, name);
    if i < |ds| then Some(ds[i]) else None
  }

  /** What a lookup against these stamps would find. */
  function Found(ds: seq<Dev>, name: Name, oldStamp: int, newStamp: int): Option<Dev> {
    match Lookup(ds, name)
    case None => None
    case Some(d) => if Stale(d, oldStamp, newStamp) then None else Some(d)
  }

  lemma {:induction false} FindAppend(ds: seq<Dev>, es: seq<Dev>, name: Name)
    ensures Find(ds + es, name) == if Find(ds, name) < |ds| then Find(ds, name) else |ds| + Find(es, name)
  {
    if ds == [] {
      assert ds + es == es;
    } else {
      assert (ds + es)[1..] == ds[1..] + es;
      FindAppend(ds[1..], es, name);
    }
  }

  lemma LookupAfterGet(ds: seq<Dev>, name: Name, other: Name, oldStamp: int, newStamp: int)
    requires UniqueNames(ds)
    ensures Lookup(AfterGet(ds, name, oldStamp, newStamp), other)
            == if other == name then Found(ds, name, oldStamp, newStamp) else Lookup(ds, other)
  {
    var i := Find(ds, name);
    if i < |ds| && Stale(ds[i], oldStamp, newStamp) {
      if other == name {
        RemoveAtUnique(ds, i);
        NotFound(RemoveAt(ds, i), name);
      } else {
        LookupRemoveAt(ds, i, other);
      }
    }
  }

  lemma LookupRemoveAt(ds: seq<Dev>, i: nat, name: Name)
    requires i < |ds| && ds[i].name != name
    ensures Lookup(RemoveAt(ds, i), name) == Lookup(ds, name)
  {
    hide RemoveAt;
    var k := Find(ds, name);
    FindIs(RemoveAt(ds, i), name, if k < i then k else k - 1);
  }

  lemma LookupAfterUpdate(ds: seq<Dev>, src: Line, typ: int, other: Name, oldStamp: int, newStamp: int)
    requires UniqueNames(ds)
    ensures Lookup(AfterUpdate(ds, src, typ, oldStamp, newStamp), other)
            == if other != src.name then Lookup(ds, other)
               else match Found(ds, src.name, oldStamp, newStamp)
                    case None => Some(Fresh(src, typ, newStamp))
                    case Some(d) => Some(Dev(src.name, d.typ, src.major, src.minor, newStamp, src.cur, d.cur))
  {
    LookupAfterGet(ds, src.name, other, oldStamp, newStamp);
    LookupAfterGet(ds, src.name, src.name, oldStamp, newStamp);
    var es := AfterGet(ds, src.name, oldStamp, newStamp);
    var i := Find(es, src.name);
    if i == |es| {
      FindAppend(es, [Fresh(src, typ, newStamp)], other);
    } else {
      var d := Dev(src.name, es[i].typ, src.major, src.minor, newStamp, src.cur, es[i].cur);
      FindSame(es, es[i := d], other);
    }
  }

  lemma {:induction false} FindSame(ds: seq<Dev>, es: seq<Dev>, name: Name)
    requires |ds| == |es| && forall i :: 0 <= i < |ds| ==> ds[i].name == es[i].name
    ensures Find(ds, name) == Find(es, name)
  {
    FindIs(es, name, Find(ds, name));
  }

  /** The device a good line leaves behind, given what the lookup found. */
  function Merged(found: Option<Dev>, src: Line, typ: int, stamp: int): Dev {
    match found
    case None => Fresh(src, typ, stamp)
    case Some(d) => Dev(src.name, d.typ, src.major, src.minor, stamp, src.cur, d.cur)
  }

  predicate AllGood(lines: seq<Input>) { forall i :: 0 <= i < |lines| ==> lines[i].Good? }

  predicate Lists(lines: seq<Input>, name: Name) {
    exists i :: 0 <= i < |lines| && lines[i].Good? && lines[i].line.name == name
  }

  ghost predicate DistinctLines(lines: seq<Input>) {
    && AllGood(lines)
    && forall i, j :: 0 <= i < j < |lines| ==> lines[i].line.name != lines[j].line.name
  }

  lemma {:induction false} UnlistedStays(ds: seq<Dev>, lines: seq<Input>, name: Name, oldStamp: int, newStamp: int)
    requires UniqueNames(ds) && AllGood(lines) && !Lists(lines, name)
    ensures UniqueNames(AfterLines(ds, lines, oldStamp, newStamp))
    ensures Lookup(AfterLines(ds, lines, oldStamp, newStamp), name) == Lookup(ds, name)
    decreases |lines|
  {
    if lines != [] {
      hide AfterUpdate, Lookup, UniqueNames;
      UpdatePlaces(ds, lines[0].line, lines[0].typ, oldStamp, newStamp);
      LookupAfterUpdate(ds, lines[0].line, lines[0].typ, name, oldStamp, newStamp);
      var es := AfterUpdate(ds, lines[0].line, lines[0].typ, oldStamp, newStamp);
      UnlistedStays(es, lines[1..], name, oldStamp, newStamp);
    }
  }

  /** After a successful read with one line per name, a listed device carries the new
      stamp and its line's counters; its old counters are its previous new ones if it
      had been seen at either stamp, and the new ones if not. */
  lemma {:induction false} ListedIsMerged(ds: seq<Dev>, lines: seq<Input>, k: nat, oldStamp: int, newStamp: int)
    requires UniqueNames(ds) && DistinctLines(lines) && k < |lines|
    ensures UniqueNames(AfterLines(ds, lines, oldStamp, newStamp))
    ensures Lookup(AfterLines(ds, lines, oldStamp, newStamp), lines[k].line.name)
            == Some(Merged(Found(ds, lines[k].line.name, oldStamp, newStamp), lines[k].line, lines[k].typ, newStamp))
    decreases |lines|
  {
    hide AfterUpdate, Lookup, UniqueNames;
    var es := AfterUpdate(ds, lines[0].line, lines[0].typ, oldStamp, newStamp);
    var name := lines[k].line.name;
    UpdatePlaces(ds, lines[0].line, lines[0].typ, oldStamp, newStamp);
    LookupAfterUpdate(ds, lines[0].line, lines[0].typ, name, oldStamp, newStamp);
    if k == 0 {
      assert !Lists(lines[1..], name);
      UnlistedStays(es, lines[1..], name, oldStamp, newStamp);
    } else {
      ListedIsMerged(es, lines[1..], k - 1, oldStamp, newStamp);
    }
  }

  /** The good lines in front of the first malformed one, where a read stops. */
  function GoodPart(lines: seq<Input>): (r: seq<Input>)
    ensures AllGood(r)
  {
    if lines == [] || lines[0].Malformed? then [] else [lines[0]] + GoodPart(lines[1..])
  }

  /** Nothing behind a malformed line is read, and all in front of it is. */
  lemma {:induction false} MalformedStops(ds: seq<Dev>, front: seq<Input>, rest: seq<Input>, oldStamp: int,
                                          newStamp: int)
    requires AllGood(front)
    ensures AfterLines(ds, front + [Malformed] + rest, oldStamp, newStamp) == AfterLines(ds, front, oldStamp, newStamp)
    ensures GoodPart(front + [Malformed] + rest) == GoodPart(front) == front
    decreases |front|
  {
    hide AfterUpdate;
    var all := front + [Malformed] + rest;
    if front != [] {
      assert all[1..] == front[1..] + [Malformed] + rest && all[0] == front[0];
      var es := AfterUpdate(ds, front[0].line, front[0].typ, oldStamp, newStamp);
      MalformedStops(es, front[1..], rest, oldStamp, newStamp);
    }
  }

  lemma {:induction false} AfterGoodPart(ds: seq<Dev>, lines: seq<Input>, oldStamp: int, newStamp: int)
    ensures AfterLines(ds, lines, oldStamp, newStamp) == AfterLines(ds, GoodPart(lines), oldStamp, newStamp)
    decreases |lines|
  {
    if lines != [] && lines[0].Good? {
      hide AfterUpdate;
      AfterGoodPart(AfterUpdate(ds, lines[0].line, lines[0].typ, oldStamp, newStamp), lines[1..], oldStamp, newStamp);
      assert GoodPart(lines)[1..] == GoodPart(lines[1..]);
    }
  }

  /** What the library is asked to do: reap reads and then reports every device, get and
      select look a device up, after a read of their own or without. */
  datatype Op = Read(now: int, lines: seq<Input>, reap: bool) | Look(name: Name)

  function Step(s: State, op: Op): State {
    match op
    case Read(now, lines, _) => AfterRead(s, now, lines)
    case Look(name) => s.(devs := AfterGet(s.devs, name, s.oldStamp, s.newStamp))
  }

  function Run(ops: seq<Op>): State {
    if ops == [] then State([], 0, 0) else Step(Run(ops[..|ops| - 1]), ops[|ops| - 1])
  }

  /** Whatever the files hold, no name is ever in the list twice. */
  lemma {:induction false} RunUnique(ops: seq<Op>)
    ensures UniqueNames(Run(ops).devs)
  {
    if ops != [] {
      hide UniqueNames, AfterLines, AfterGet;
      var s := Run(ops[..|ops| - 1]);
      RunUnique(ops[..|ops| - 1]);
      match ops[|ops| - 1]
      case Read(now, lines, _) => LinesUnique(s.devs, lines, s.newStamp, now);
      case Look(name) => GetPrunes(s.devs, name, s.oldStamp, s.newStamp);
    } else {
      assert Run(ops).devs == [];
    }
  }

  lemma {:induction false} LinesUnique(ds: seq<Dev>, lines: seq<Input>, oldStamp: int, newStamp: int)
    requires UniqueNames(ds)
    ensures UniqueNames(AfterLines(ds, lines, oldStamp, newStamp))
    decreases |lines|
  {
    if lines != [] && lines[0].Good? {
      hide AfterUpdate, UniqueNames;
      UpdatePlaces(ds, lines[0].line, lines[0].typ, oldStamp, newStamp);
      LinesUnique(AfterUpdate(ds, lines[0].line, lines[0].typ, oldStamp, newStamp), lines[1..], oldStamp, newStamp);
    }
  }

  // ---------------------------------------------------------------------
  // The deltas a caller is given
  // ---------------------------------------------------------------------

  /** No read sees a name twice. */
  ghost predicate OneLinePerName(ops: seq<Op>) {
    forall i :: 0 <= i < |ops| && ops[i].Read? ==> DistinctLines(GoodPart(ops[i].lines))
  }

  function Delta(d: Dev, f: nat): int
    requires f < 11
  {
    var cur: int := d.cur[f];
    cur - d.was[f]
  }

  predicate Listed(op: Op, name: Name) { op.Read? && Lists(GoodPart(op.lines), name) }

  /** The caller is given the device's delta: by a reap whose read succeeded, listed or
      not, and by a lookup of the device. */
  predicate Shown(op: Op, name: Name) { (op.Read? && op.reap && AllGood(op.lines)) || op == Look(name) }

  /** The counter with which a device last entered the list, and what its caller was given
      since: all deltas; of these the ones given by an operation that did not read the
      device; and the deltas of reads after which it was not given. */
  datatype Account = Account(entry: int, given: int, repeated: int, missed: int)

  ghost function Since(ops: seq<Op>, name: Name, f: nat): Account
    requires f < 11
  {
    if ops == [] then Account(0, 0, 0, 0)
    else
      var prev, op := ops[..|ops| - 1], ops[|ops| - 1];
      Next(Since(prev, name, f), Run(prev), op, Lookup(Run(ops).devs, name), name, f)
  }

  /** One operation, which turns the state s into one that has the device as after. */
  ghost function Next(a: Account, s: State, op: Op, after: Option<Dev>, name: Name, f: nat): Account
    requires f < 11
  {
    if after.None? then a
    else if Listed(op, name) && Found(s.devs, name, s.newStamp, op.now).None? then Account(after.value.cur[f], 0, 0, 0)
    else
      var delta := Delta(after.value, f);
      Account(a.entry,
              a.given + (if Shown(op, name) then delta else 0),
              a.repeated + (if Shown(op, name) && !Listed(op, name) then delta else 0),
              a.missed + (if Listed(op, name) && !Shown(op, name) then delta else 0))
  }

  /** What one operation does to a device that stays in the list. */
  lemma StepDevice(s: State, op: Op, name: Name)
    requires UniqueNames(s.devs) && (op.Read? ==> DistinctLines(GoodPart(op.lines)))
    requires Lookup(Step(s, op).devs, name).Some?
    ensures var after := Lookup(Step(s, op).devs, name).value;
      if Listed(op, name) then
        match Found(s.devs, name, s.newStamp, op.now)
        case None => after.was == after.cur
        case Some(d) => after.was == d.cur && Lookup(s.devs, name) == Some(d)
      else Lookup(s.devs, name) == Some(after)
  {
    hide AfterLines, AfterGet, Lookup, UniqueNames;
    match op {
      case Look(n) => LookupAfterGet(s.devs, n, name, s.oldStamp, s.newStamp);
      case Read(now, lines, _) =>
        AfterGoodPart(s.devs, lines, s.newStamp, now);
        var good := GoodPart(lines);
        if Lists(good, name) {
          var k :| 0 <= k < |good| && good[k].Good? && good[k].line.name == name;
          ListedIsMerged(s.devs, good, k, s.newStamp, now);
        } else {
          UnlistedStays(s.devs, good, name, s.newStamp, now);
        }
    }
  }

  /** Over every run, for every device in the list and every counter: the counter on entry,
      the deltas given and those missed, less those repeated, make up what it is now.  So
      what a caller was given telescopes exactly when as much was repeated as was missed. */
  lemma {:induction false} DeltasTelescope(ops: seq<Op>, name: Name, f: nat)
    requires OneLinePerName(ops) && f < 11
    requires Lookup(Run(ops).devs, name).Some?
    ensures var a, cur := Since(ops, name, f), Lookup(Run(ops).devs, name).value.cur[f];
      && cur == a.entry + a.given + a.missed - a.repeated
      && (cur - a.entry == a.given <==> a.repeated == a.missed)
  {
    if ops == [] {
      assert false;
    } else {
      hide AfterLines, AfterGet, Lookup, UniqueNames, DistinctLines, Listed, Shown;
      var prev, op := ops[..|ops| - 1], ops[|ops| - 1];
      RunUnique(prev);
      StepDevice(Run(prev), op, name);
      if Lookup(Run(prev).devs, name).Some? {
        DeltasTelescope(prev, name, f);
      }
    }
  }

  /** Nothing is repeated or missed when the operations that give the caller the device are
      those that read it, as successful reaps of files that list it are. */
  lemma {:induction false} ReapsTelescope(ops: seq<Op>, name: Name, f: nat)
    requires OneLinePerName(ops) && f < 11
    requires forall i :: 0 <= i < |ops| ==> (Listed(ops[i], name) <==> Shown(ops[i], name))
    ensures Since(ops, name, f).repeated == Since(ops, name, f).missed == 0
    ensures Lookup(Run(ops).devs, name).Some? ==>
              Lookup(Run(ops).devs, name).value.cur[f] - Since(ops, name, f).entry == Since(ops, name, f).given
  {
    hide Listed, Shown, Lookup, Run;
    if ops != [] {
      ReapsTelescope(ops[..|ops| - 1], name, f);
    }
    if Lookup(Run(ops).devs, name).Some? {
      DeltasTelescope(ops, name, f);
    }
  }

  /** Reads of a device and its showings take turns: Level when it was shown once since the
      last read that listed it, Due when it was not shown yet, Broken when it was shown again
      or not shown at all before the next such read. */
  datatype Turn = Level | Due | Broken

  /** What one operation makes of the turn; a device that is not in the list, or enters it,
      starts over. */
  function NextTurn(turn: Turn, op: Op, name: Name, absent: bool, enters: bool): Turn {
    if absent then Level
    else if enters then (if Shown(op, name) then Level else Due)
    else if turn == Broken then Broken
    else if Listed(op, name) then (if turn == Due then Broken else if Shown(op, name) then Level else Due)
    else if Shown(op, name) then (if turn == Due then Level else Broken)
    else turn
  }

  ghost function Turns(ops: seq<Op>, name: Name): Turn {
    if ops == [] then Level
    else
      var prev, op := ops[..|ops| - 1], ops[|ops| - 1];
      var s := Run(prev);
      NextTurn(Turns(prev, name), op, name, Lookup(Run(ops).devs, name).None?,
               Listed(op, name) && Found(s.devs, name, s.newStamp, op.now).None?)
  }

  lemma TurnBalance(a: Account, turn: Turn, s: State, op: Op, name: Name, f: nat)
    requires f < 11 && UniqueNames(s.devs) && (op.Read? ==> DistinctLines(GoodPart(op.lines)))
    requires Lookup(Step(s, op).devs, name).Some?
    requires Lookup(s.devs, name).Some? && turn != Broken ==>
               a.missed - a.repeated == if turn == Due then Delta(Lookup(s.devs, name).value, f) else 0
    requires Lookup(s.devs, name).None? ==> turn == Level
    ensures var after := Lookup(Step(s, op).devs, name);
      var enters := Listed(op, name) && Found(s.devs, name, s.newStamp, op.now).None?;
      var b, next := Next(a, s, op, after, name, f), NextTurn(turn, op, name, false, enters);
      next != Broken ==> b.missed - b.repeated == if next == Due then Delta(after.value, f) else 0
  {
    hide Step, Lookup, UniqueNames, Listed, Shown, DistinctLines;
    StepDevice(s, op, name);
  }

  /** While reads of a device and its showings take turns, the deltas given telescope; after
      a read that was not shown yet, its delta is missing.  So it is with reaps of files that
      list the device, and with a get or select, which reads and then looks it up. */
  lemma {:induction false} TurnsTelescope(ops: seq<Op>, name: Name, f: nat)
    requires OneLinePerName(ops) && f < 11
    ensures Lookup(Run(ops).devs, name).None? ==> Turns(ops, name) == Level
    ensures Lookup(Run(ops).devs, name).Some? && Turns(ops, name) != Broken ==>
              var d, a := Lookup(Run(ops).devs, name).value, Since(ops, name, f);
              && a.missed - a.repeated == (if Turns(ops, name) == Due then Delta(d, f) else 0)
              && d.cur[f] == a.entry + a.given + (if Turns(ops, name) == Due then Delta(d, f) else 0)
  {
    hide Step, Lookup, UniqueNames, Listed, Shown, DistinctLines, Next, NextTurn, Delta;
    if ops == [] {
      EmptyRun(name, f);
    } else {
      var prev, op := ops[..|ops| - 1], ops[|ops| - 1];
      TurnsTelescope(prev, name, f);
      RunUnique(prev);
      AbsentIsLevel(Turns(prev, name), op, name);
      if Lookup(Run(ops).devs, name).Some? {
        TurnBalance(Since(prev, name, f), Turns(prev, name), Run(prev), op, name, f);
        DeltasTelescope(ops, name, f);
      }
    }
  }

  lemma AbsentIsLevel(turn: Turn, op: Op, name: Name)
    ensures forall enters :: NextTurn(turn, op, name, true, enters) == Level
  {}

  /** A get or select with a read of its own is a turn, as is a reap of a file with the device. */
  lemma GetIsATurn(read: Op, name: Name)
    requires read.Read? && Listed(read, name)
    ensures !read.reap ==>
              var due := NextTurn(Level, read, name, false, false);
              due == Due && NextTurn(due, Look(name), name, false, false) == Level
    ensures read.reap && AllGood(read.lines) ==> NextTurn(Level, read, name, false, false) == Level
  {
    hide Lists, GoodPart, AllGood;
  }

  lemma RunSnoc(ops: seq<Op>, op: Op)
    ensures Run(ops + [op]) == Step(Run(ops), op)
    ensures forall name, f: nat :: f < 11 ==>
              Since(ops + [op], name, f)
              == Next(Since(ops, name, f), Run(ops), op, Lookup(Run(ops + [op]).devs, name), name, f)
  {
    assert (ops + [op])[..|ops|] == ops;
  }

  /** Whatever three files hold of a device that the first two list and the third does
      not: reaps give the second delta twice. */
  lemma UnlistedRepeats(a: Line, b: Line, typ: int, t1: int, t2: int, t3: int, f: nat)
    requires a.name == b.name && f < 11
    ensures var ops := [Read(t1, [Good(a, typ)], true), Read(t2, [Good(b, typ)], true), Read(t3, [], true)];
      var d := Lookup(Run(ops).devs, a.name);
      && OneLinePerName(ops) && d.Some?
      && var delta: int := b.cur[f] as int - a.cur[f] as int;
      d.value.cur[f] as int - Since(ops, a.name, f).entry == delta && Since(ops, a.name, f).given == 2 * delta
  {
    hide Run, Since, AfterLines, AfterGet, Lookup, UniqueNames;
    var o1, o2, o3 := Read(t1, [Good(a, typ)], true), Read(t2, [Good(b, typ)], true), Read(t3, [], true);
    EmptyRun(a.name, f);
    RunSnoc([], o1);
    RunSnoc([o1], o2);
    RunSnoc([o1, o2], o3);
    assert [] + [o1] == [o1] && [o1] + [o2] == [o1, o2] && [o1, o2] + [o3] == [o1, o2, o3];
    ReadOne(Run([]), a, typ, t1);
    ReadOne(Run([o1]), b, typ, t2);
    ReadNone(Run([o1, o2]), t3);
  }

  lemma EmptyRun(name: Name, f: nat)
    requires f < 11
    ensures Run([]) == State([], 0, 0) && Lookup(Run([]).devs, name) == None
    ensures Since([], name, f) == Account(0, 0, 0, 0) && UniqueNames(Run([]).devs)
  {}

  /** A reap of a file with a single line. */
  lemma ReadOne(s: State, l: Line, typ: int, t: int)
    requires UniqueNames(s.devs)
    ensures var op := Read(t, [Good(l, typ)], true); var s' := Step(s, op);
      && DistinctLines(GoodPart(op.lines)) && Listed(op, l.name) && Shown(op, l.name)
      && UniqueNames(s'.devs) && s'.newStamp == t && s'.oldStamp == s.newStamp
      && Lookup(s'.devs, l.name) == Some(Merged(Found(s.devs, l.name, s.newStamp, t), l, typ, t))
  {
    hide AfterLines, AfterGet, Lookup, UniqueNames, Found;
    var lines := [Good(l, typ)];
    assert GoodPart(lines) == lines;
    assert lines[0].Good? && lines[0].line.name == l.name;
    LinesUnique(s.devs, lines, s.newStamp, t);
    ListedIsMerged(s.devs, lines, 0, s.newStamp, t);
  }

  lemma ReadNone(s: State, t: int)
    ensures var op := Read(t, [], true);
      && DistinctLines(GoodPart(op.lines)) && Step(s, op).devs == s.devs
      && forall name :: !Listed(op, name) && Shown(op, name)
  {}

  // ---------------------------------------------------------------------
  // Which devices a lookup finds
  // ---------------------------------------------------------------------

  /** Every read has a later stamp than the one before, and the first a positive one. */
  ghost predicate Growing(ops: seq<Op>) {
    if ops == [] then true
    else
      var front, op := ops[..|ops| - 1], ops[|ops| - 1];
      Growing(front) && (op.Read? ==> op.now > Run(front).newStamp)
  }

  /** One of the last n reads listed the device. */
  function ListedLately(ops: seq<Op>, name: Name, n: nat): bool {
    if ops == [] || n == 0 then false
    else
      var front, op := ops[..|ops| - 1], ops[|ops| - 1];
      match op
      case Look(_) => ListedLately(front, name, n)
      case Read(_, lines, _) => Lists(GoodPart(lines), name) || ListedLately(front, name, n - 1)
  }

  lemma LatelyOne(ops: seq<Op>, name: Name)
    ensures ListedLately(ops, name, 0) == false
    ensures ops != [] ==>
              var front, op := ops[..|ops| - 1], ops[|ops| - 1];
              && ListedLately(ops, name, 1)
                 == (if op.Look? then ListedLately(front, name, 1) else Lists(GoodPart(op.lines), name))
              && ListedLately(ops, name, 2)
                 == (if op.Look? then ListedLately(front, name, 2)
                     else Lists(GoodPart(op.lines), name) || ListedLately(front, name, 1))
  {}

  /** The stamp of a device tells how long ago a read listed it. */
  predicate Stamped(d: Option<Dev>, s: State, lately: bool, before: bool) {
    && 0 <= s.oldStamp && (s.oldStamp < s.newStamp || (s.oldStamp == s.newStamp == 0 && d.None? && !lately && !before))
    && (lately ==> d.Some? && d.value.stamped == s.newStamp && before)
    && (before && !lately ==> d.Some? && d.value.stamped == s.oldStamp)
    && (!before && d.Some? ==> d.value.stamped < s.oldStamp)
  }

  lemma ReadStamps(s: State, op: Op, name: Name)
    requires UniqueNames(s.devs) && op.Read? && DistinctLines(GoodPart(op.lines))
    ensures var after, t := Lookup(Step(s, op).devs, name), Step(s, op);
      && t.oldStamp == s.newStamp && t.newStamp == op.now
      && if Lists(GoodPart(op.lines), name) then after.Some? && after.value.stamped == op.now
         else after == Lookup(s.devs, name)
  {
    hide AfterLines, Lookup, UniqueNames;
    AfterGoodPart(s.devs, op.lines, s.newStamp, op.now);
    var good := GoodPart(op.lines);
    if Lists(good, name) {
      var k :| 0 <= k < |good| && good[k].Good? && good[k].line.name == name;
      ListedIsMerged(s.devs, good, k, s.newStamp, op.now);
    } else {
      UnlistedStays(s.devs, good, name, s.newStamp, op.now);
    }
  }

  /** A lookup by the stamps alone: it finds and keeps a device stamped by one of the last two
      reads, and evicts any other. */
  lemma LookStamps(s: State, look: Name, name: Name)
    requires UniqueNames(s.devs)
    ensures var before, after := Lookup(s.devs, name), Lookup(Step(s, Look(look)).devs, name);
      if look == name && before.Some? && before.value.stamped != s.oldStamp && before.value.stamped != s.newStamp
      then after.None? else after == before
    ensures Lookup(s.devs, look).Some? && Lookup(s.devs, look).value.stamped in {s.oldStamp, s.newStamp} ==>
              Step(s, Look(look)) == s
  {
    LookupAfterGet(s.devs, look, name, s.oldStamp, s.newStamp);
    hide UniqueNames;
  }

  lemma {:induction false} RunStamps(ops: seq<Op>, name: Name)
    requires OneLinePerName(ops) && Growing(ops)
    ensures Stamped(Lookup(Run(ops).devs, name), Run(ops), ListedLately(ops, name, 1), ListedLately(ops, name, 2))
  {
    hide Lookup, UniqueNames, Step, ListedLately, Lists, DistinctLines;
    LatelyOne(ops, name);
    if ops == [] {
      EmptyRun(name, 0);
      NothingLately(name);
    } else {
      var front, op := ops[..|ops| - 1], ops[|ops| - 1];
      RunUnique(front);
      RunStamps(front, name);
      match op
      case Read(_, _, _) => ReadStamps(Run(front), op, name);
      case Look(look) =>
        LookStamps(Run(front), look, name);
        LookKeepsStamps(Run(front), look);
    }
  }

  lemma NothingLately(name: Name)
    ensures !ListedLately([], name, 1) && !ListedLately([], name, 2)
  {}

  lemma LookKeepsStamps(s: State, look: Name)
    ensures Step(s, Look(look)).oldStamp == s.oldStamp && Step(s, Look(look)).newStamp == s.newStamp
  {}

  /** Over every run whose reads have growing stamps: a lookup finds a device if and only if
      one of the last two reads listed it; then the list stays as it is, otherwise the name
      is no longer in it. */
  lemma LookupFindsRecent(ops: seq<Op>, name: Name)
    requires OneLinePerName(ops) && Growing(ops)
    ensures Lookup(Step(Run(ops), Look(name)).devs, name).Some? <==> ListedLately(ops, name, 2)
    ensures ListedLately(ops, name, 2) ==> Step(Run(ops), Look(name)) == Run(ops)
    ensures !ListedLately(ops, name, 2) ==> name !in Names(Step(Run(ops), Look(name)).devs)
  {
    RunUnique(ops);
    RunStamps(ops, name);
    LookStamps(Run(ops), name, name);
    hide UniqueNames, Step, ListedLately, Lists, DistinctLines, Run;
    NotListed(Step(Run(ops), Look(name)).devs, name);
  }

  lemma NotListed(ds: seq<Dev>, name: Name)
    ensures Lookup(ds, name).None? ==> name !in Names(ds)
  {}

  /** After a successful read a lookup finds every device listed, with its line's counters,
      and changes nothing; old counters are kept of a device that had one of the last two
      stamps. */
  lemma ListedIsFound(ds: seq<Dev>, lines: seq<Input>, k: nat, oldStamp: int, now: int)
    requires UniqueNames(ds) && DistinctLines(lines) && k < |lines|
    ensures var es, l := AfterLines(ds, lines, oldStamp, now), lines[k].line;
      && UniqueNames(es) && AfterGet(es, l.name, oldStamp, now) == es && Found(es, l.name, oldStamp, now).Some?
      && var d := Found(es, l.name, oldStamp, now).value;
      && d.name == l.name && d.cur == l.cur && d.stamped == now && d.major == l.major && d.minor == l.minor
      && match Lookup(ds, l.name)
         case None => d.was == l.cur && d.typ == lines[k].typ
         case Some(b) =>
           if b.stamped == oldStamp || b.stamped == now then d.was == b.cur && d.typ == b.typ
           else d.was == l.cur && d.typ == lines[k].typ
  {
    ListedIsMerged(ds, lines, k, oldStamp, now);
    hide UniqueNames, AfterLines;
  }
}
