/** The stack pools of stat.c.  The cpu summary, the cpus and the nodes share one
    item list; stacks are itemized once, when they are allocated, so all three pools
    have to be given up together when the list changes.  select has a pool and a list
    of its own.  The pool of diskstats.c grows in the same way. */
module StatPools {

  import opened Common

  const STACKS_INCR := 64

  /** An item; negative numbers and the logical end are not accepted. */
  type Item = int
  const LOGICAL_END: Item := 46

  class Stack {
    const items: seq<Item>
    /** Which record the values were last assigned from: a cpu or node slot, or -1. */
    var shown: int

    constructor (items: seq<Item>)
      ensures this.items == items
    {
      this.items, shown := items, -2;
    }
  }

  type Extents = seq<seq<Stack>>

  ghost function Live(extents: Extents): set<Stack> {
    set e, s | e in extents && s in e :: s
  }

  ghost predicate Itemized(extents: Extents, items: seq<Item>) {
    forall s :: s in Live(extents) ==> s.items == items
  }

  predicate ItemsCheckFailed(items: seq<Item>) {
    items == [] || exists i :: 0 <= i < |items| && (items[i] < 0 || items[i] >= LOGICAL_END)
  }

  lemma ItemsAccepted(items: seq<Item>)
    ensures !ItemsCheckFailed(items) <==> items != [] && forall i :: 0 <= i < |items| ==> 0 <= items[i] <= 45
  {}

  /** stat_stacks_alloc: an extent of new stacks, primed with the items. */
  method StacksAlloc(items: seq<Item>, n: nat) returns (ext: seq<Stack>)
    ensures |ext| == n && NoDuplicates(ext)
    ensures forall s :: s in ext ==> fresh(s) && s.items == items
  {
    ext := [];
    for i := 0 to n
      invariant |ext| == i && NoDuplicates(ext)
      invariant forall s :: s in ext ==> fresh(s) && s.items == items
    {
      var s := new Stack(items);
      ext := ext + [s];
    }
  }

  lemma LivePush(ext: seq<Stack>, extents: Extents)
    ensures Live([ext] + extents) == Live(extents) + set s | s in ext
  {
    assert forall e :: e in [ext] + extents <==> e == ext || e in extents;
  }

  /** The pool behind the cpus, and the one behind the nodes. */
  class ReapSupport {
    var extents: Extents
    var haveAnchor: bool
    var anchor: seq<Stack>
    var nAlloc: nat
    var inuse: nat           // records of history to show
    var result: seq<Stack>   // what the caller gets, without the NULL delimiter

    /** As long as there are extents, the anchor consolidates stacks of theirs; once
        they are freed it dangles, but only until the next fetch. */
    ghost predicate Valid(items: seq<Item>)
      reads this
    {
      && Itemized(extents, items)
      && (haveAnchor ==> nAlloc > 0)
      && (extents != [] ==> haveAnchor && |anchor| == nAlloc && NoDuplicates(anchor)
                            && forall s :: s in anchor ==> s in Live(extents))
    }

    ghost predicate ResultLive()
      reads this
    {
      NoDuplicates(result) && forall s :: s in result ==> s in Live(extents)
    }

    constructor ()
      ensures extents == [] && !haveAnchor && result == [] && inuse == 0
    {
      extents, haveAnchor, anchor, nAlloc, inuse, result := [], false, [], 0, 0, [];
    }

    /** The part of stat_stacks_fetch in front of its loop. */
    method Prepare(items: seq<Item>)
      requires Valid(items)
      modifies this`haveAnchor, this`anchor, this`nAlloc, this`extents
      ensures Valid(items) && extents != []
      ensures forall s :: s in Live(extents) ==> s in old(Live(extents)) || fresh(s)
      ensures old(extents) != [] ==> extents == old(extents) && anchor == old(anchor)
    {
      if !haveAnchor {
        haveAnchor, nAlloc := true, STACKS_INCR;
      }
      if extents == [] {
        var ext := StacksAlloc(items, nAlloc);
        LivePush(ext, extents);
        extents := [ext] + extents;
        anchor := ext;
      }
    }

    method Grow(items: seq<Item>)
      requires Valid(items) && extents != []
      modifies this`anchor, this`nAlloc, this`extents
      ensures Valid(items) && extents != [] && old(anchor) <= anchor && nAlloc == old(nAlloc) + STACKS_INCR
      ensures forall s :: s in Live(extents) ==> s in old(Live(extents)) || fresh(s)
      ensures old(Live(extents)) <= Live(extents)
    {
      nAlloc := nAlloc + STACKS_INCR;
      var ext := StacksAlloc(items, STACKS_INCR);
      LivePush(ext, extents);
      extents := [ext] + extents;
      NoDuplicatesConcat(anchor, ext);
      anchor := anchor + ext;
    }

    /** stat_stacks_fetch: one stack per record, in the order of the records.  As long as there
        are extents their stacks are used again. */
    method Fetch(items: seq<Item>)
      requires Valid(items)
      modifies this, Live(extents)
      ensures Valid(items) && ResultLive() && inuse == old(inuse) == |result|
      ensures forall i :: 0 <= i < |result| ==> result[i].shown == i
      ensures forall s :: s in Live(extents) ==> s in old(Live(extents)) || fresh(s)
      ensures old(Live(extents)) <= Live(extents) && result <= anchor && (old(extents) != [] ==> old(anchor) <= anchor)
    {
      Prepare(items);
      var i := 0;
      while i < inuse
        invariant Valid(items) && extents != [] && inuse == old(inuse) && i <= inuse && i <= nAlloc
        invariant forall k :: 0 <= k < i ==> anchor[k].shown == k
        invariant forall s :: s in Live(extents) ==> s in old(Live(extents)) || fresh(s)
        invariant old(Live(extents)) <= Live(extents) && (old(extents) != [] ==> old(anchor) <= anchor)
      {
        if i == nAlloc {
          Grow(items);
        }
        assert anchor[i] in Live(extents);
        anchor[i].shown := i;
        i := i + 1;
      }
      result := anchor[..i];
    }
  }

  class StatInfo {
    var reapItems: seq<Item>      // one list for the summary, the cpus and the nodes
    var selectItems: seq<Item>
    var summaryExt: Extents
    var selectExt: Extents
    const cpus: ReapSupport
    const nodes: ReapSupport
    var summary: Stack?

    ghost function ReapStacks(): set<Stack>
      reads this, cpus, nodes
    {
      Live(summaryExt) + Live(cpus.extents) + Live(nodes.extents)
    }

    ghost predicate Valid()
      reads this, cpus, nodes
    {
      && cpus != nodes
      && Itemized(summaryExt, reapItems) && cpus.Valid(reapItems) && nodes.Valid(reapItems)
      && Itemized(selectExt, selectItems)
      && Live(summaryExt) !! Live(cpus.extents) !! Live(nodes.extents) !! Live(selectExt)
      && (summaryExt != [] ==> |summaryExt[0]| > 0) && (selectExt != [] ==> |selectExt[0]| > 0)
    }

    /** Every stack reachable from what reap returned is in a live extent and
        itemized with the latest items of reap. */
    ghost predicate ReapedLive()
      reads this, cpus, nodes
    {
      && summary != null && summary in Live(summaryExt) && cpus.ResultLive() && nodes.ResultLive()
      && summary.items == reapItems
      && (forall s :: s in cpus.result + nodes.result ==> s.items == reapItems)
    }

    constructor ()
      ensures Valid() && fresh(cpus) && fresh(nodes) && ReapStacks() == {} && Live(selectExt) == {}
    {
      reapItems, selectItems, summaryExt, selectExt, summary := [], [], [], [], null;
      cpus := new ReapSupport();
      nodes := new ReapSupport();
    }

    /** stat_update_single_stack for the summary. */
    method UpdateSummary()
      requires Valid()
      modifies this`summaryExt, this`summary, Live(summaryExt)
      ensures Valid() && summary != null && summary in Live(summaryExt)
      ensures summary.items == reapItems && summary.shown == -1
      ensures forall s :: s in Live(summaryExt) ==> s in old(Live(summaryExt)) || fresh(s)
      ensures old(Live(summaryExt)) <= Live(summaryExt) && (old(summaryExt) != [] ==> summaryExt == old(summaryExt))
    {
      if summaryExt == [] {
        var ext := StacksAlloc(reapItems, 1);
        LivePush(ext, summaryExt);
        summaryExt := [ext] + summaryExt;
      }
      summary := summaryExt[0][0];
      assert summaryExt[0] in summaryExt && summary in summaryExt[0];
      summary.shown := -1;
    }

    /** The items part of procps_stat_reap: all three pools go when the list changes. */
    method ReconfigReap(items: seq<Item>) returns (rc: int)
      requires Valid()
      modifies this`reapItems, this`summaryExt, cpus`extents, nodes`extents
      ensures Valid() && (rc < 0 <==> ItemsCheckFailed(items))
      ensures rc < 0 ==> reapItems == old(reapItems) && ReapStacks() == old(ReapStacks())
      ensures rc >= 0 ==> reapItems == items + [LOGICAL_END]
      ensures rc >= 0 && reapItems == old(reapItems) ==> rc == 0 && ReapStacks() == old(ReapStacks())
      ensures rc >= 0 && reapItems != old(reapItems) ==> rc == 1 && ReapStacks() == {}
    {
      if ItemsCheckFailed(items) {
        return -1;
      }
      rc := 0;
      if reapItems != items + [LOGICAL_END] {
        reapItems := items + [LOGICAL_END];
        summaryExt := [];
        rc := 1;
      }
      if rc != 0 {
        cpus.extents := [];
        nodes.extents := [];
      }
    }

    /** Fetching into one pool leaves the others alone. */
    method FetchInto(p: ReapSupport)
      requires Valid() && (p == cpus || p == nodes)
      modifies p, Live(p.extents)
      ensures Valid() && p.ResultLive() && p.inuse == old(p.inuse) == |p.result|
      ensures forall s :: s in p.result ==> s.items == reapItems
      ensures forall i :: 0 <= i < |p.result| ==> p.result[i].shown == i
      ensures forall s :: s in Live(p.extents) ==> s in old(Live(p.extents)) || fresh(s)
      ensures old(Live(p.extents)) <= Live(p.extents)
    {
      hide Itemized, NoDuplicates;
      p.Fetch(reapItems);
      PoolItemized(p);
    }

    lemma EmptyResult()
      requires nodes.result == []
      ensures nodes.ResultLive()
    {}

    lemma PoolItemized(p: ReapSupport)
      requires p.Valid(reapItems) && p.ResultLive()
      ensures forall s :: s in p.result ==> s.items == reapItems
    {}

    /** procps_stat_reap behind the reading of the file: the summary, then the nodes
        if wanted, then the cpus. */
    method Harvest(nodesToo: bool, ncpus: nat, nnodes: nat)
      requires Valid()
      modifies this`summaryExt, this`summary, cpus, nodes, ReapStacks()
      ensures Valid() && ReapedLive() && summary.shown == -1
      ensures |cpus.result| == ncpus && forall i :: 0 <= i < ncpus ==> cpus.result[i].shown == i
      ensures |nodes.result| == if !nodesToo then 0 else if nnodes > 0 then nnodes else old(nodes.inuse)
      ensures forall i :: 0 <= i < |nodes.result| ==> nodes.result[i].shown == i
      ensures forall s :: s in ReapStacks() ==> s in old(ReapStacks()) || fresh(s)
      ensures old(ReapStacks()) <= ReapStacks()
    {
      hide Itemized, NoDuplicates;
      cpus.inuse := ncpus;
      UpdateSummary();
      HarvestNodes(nodesToo, nnodes);
      FetchInto(cpus);
    }

    /** The optional result is emptied first, so that it never dangles. */
    method HarvestNodes(nodesToo: bool, nnodes: nat)
      requires Valid()
      modifies nodes, Live(nodes.extents)
      ensures Valid() && nodes.ResultLive()
      ensures forall s :: s in nodes.result ==> s.items == reapItems
      ensures |nodes.result| == if !nodesToo then 0 else if nnodes > 0 then nnodes else old(nodes.inuse)
      ensures forall i :: 0 <= i < |nodes.result| ==> nodes.result[i].shown == i
      ensures forall s :: s in Live(nodes.extents) ==> s in old(Live(nodes.extents)) || fresh(s)
      ensures old(Live(nodes.extents)) <= Live(nodes.extents)
    {
      hide Itemized, NoDuplicates;
      nodes.result := [];
      EmptyResult();
      if nodesToo {
        if nnodes > 0 {
          nodes.inuse := nnodes;
        }
        FetchInto(nodes);
      }
    }

    /** procps_stat_reap.  readOk and the counts say what the statistics file and
        libnuma deliver; without nodes libnuma leaves the previous count alone. */
    method Reap(nodesToo: bool, items: seq<Item>, readOk: bool, ncpus: nat, nnodes: nat) returns (ok: bool)
      requires Valid()
      modifies this`reapItems, this`summaryExt, this`summary, cpus, nodes, ReapStacks()
      ensures Valid() && ok == (!ItemsCheckFailed(items) && readOk)
      ensures ok ==> ReapedLive() && reapItems == items + [LOGICAL_END] && summary.shown == -1
      ensures ok ==> |cpus.result| == ncpus && forall i :: 0 <= i < ncpus ==> cpus.result[i].shown == i
      ensures ok ==> |nodes.result| == if !nodesToo then 0 else if nnodes > 0 then nnodes else old(nodes.inuse)
      ensures ok ==> forall i :: 0 <= i < |nodes.result| ==> nodes.result[i].shown == i
      ensures forall s :: s in ReapStacks() ==> s in old(ReapStacks()) || fresh(s)
      ensures ok && items + [LOGICAL_END] == old(reapItems) ==> old(ReapStacks()) <= ReapStacks()
      ensures ok && items + [LOGICAL_END] != old(reapItems) ==> old(ReapStacks()) !! ReapStacks()
      ensures forall s :: s in Live(selectExt) ==> s.shown == old(s.shown)
    {
      hide Itemized, NoDuplicates, ItemsCheckFailed;
      var rc := ReconfigReap(items);
      if rc < 0 || !readOk {
        return false;
      }
      Harvest(nodesToo, ncpus, nnodes);
      ok := true;
    }

    /** procps_stat_select: its own list, its own stack; what reap returned before
        stays live, itemized and filled in as it was. */
    method Select(items: seq<Item>, readOk: bool) returns (s: Stack?)
      requires Valid()
      modifies this`selectItems, this`selectExt, Live(selectExt)
      ensures Valid() && (s != null <==> !ItemsCheckFailed(items) && readOk)
      ensures s != null ==> s in Live(selectExt) && s.items == selectItems == items + [LOGICAL_END] && s.shown == -1
      ensures forall t :: t in Live(selectExt) ==> t in old(Live(selectExt)) || fresh(t)
      ensures s != null && selectItems == old(selectItems) && old(selectExt) != [] ==> selectExt == old(selectExt)
      ensures old(ReapedLive()) ==> ReapedLive()
      ensures forall t :: t in ReapStacks() ==> t.shown == old(t.shown)
    {
      hide NoDuplicates;
      if ItemsCheckFailed(items) {
        return null;
      }
      hide ItemsCheckFailed;
      if selectItems != items + [LOGICAL_END] {
        selectItems := items + [LOGICAL_END];
        selectExt := [];
      }
      if !readOk {
        return null;
      }
      if selectExt == [] {
        var ext := StacksAlloc(selectItems, 1);
        LivePush(ext, selectExt);
        selectExt := [ext] + selectExt;
      }
      s := selectExt[0][0];
      assert selectExt[0] in selectExt && s in selectExt[0];
      s.shown := -1;
    }
  }

  datatype Op = DoReap(nodesToo: bool, items: seq<Item>, readOk: bool, ncpus: nat, nnodes: nat)
              | DoSelect(items: seq<Item>, readOk: bool)

  /** Over any sequence of calls: whatever the last successful reap returned is still
      good after any selects that follow it. */
  method Session(ops: seq<Op>) returns (info: StatInfo, good: bool)
    ensures info.Valid() && (good ==> info.ReapedLive())
    ensures good <==> exists k :: 0 <= k < |ops| && ops[k].DoReap? && ops[k].readOk && !ItemsCheckFailed(ops[k].items)
                        && forall j :: k < j < |ops| ==> ops[j].DoSelect?
  {
    hide ItemsCheckFailed;
    info := new StatInfo();
    good := false;
    ghost var last := -1;
    for i := 0 to |ops|
      invariant info.Valid() && fresh(info) && fresh(info.cpus) && fresh(info.nodes)
      invariant fresh(info.ReapStacks()) && fresh(Live(info.selectExt))
      invariant good ==> info.ReapedLive()
      invariant -1 <= last < i && (last >= 0 ==> ops[last].DoReap?)
      invariant forall j :: last < j < i ==> ops[j].DoSelect?
      invariant good <==> last >= 0 && ops[last].readOk && !ItemsCheckFailed(ops[last].items)
    {
      match ops[i] {
        case DoReap(nodesToo, items, readOk, ncpus, nnodes) =>
          good := info.Reap(nodesToo, items, readOk, ncpus, nnodes);
          last := i;
        case DoSelect(items, readOk) =>
          var _ := info.Select(items, readOk);
      }
    }
  }
}
