/** The tick history of stat.c: counters read per cpu, sums derived from them and
    kept from running backwards, and the cpus folded into NUMA nodes. */
module StatTicks {

  import opened Common

  const NEWOLD_INCR := 64

  datatype Jifs = Jifs(user: nat, nice: nat, system: nat, idle: nat, iowait: nat, irq: nat, sirq: nat,
                       stolen: nat, guest: nat, gnice: nat,
                       xusr: nat, xsys: nat, xidl: nat, xbsy: nat, xtot: nat)

  /** node is the NUMA node, None when it is marked invalid. */
  datatype HistTic = HistTic(id: int, node: Option<nat>, count: nat, cur: Jifs, was: Jifs)

  /** A cpu line of the file; the kernel may leave out the last two counters. */
  datatype CpuLine = CpuLine(id: int, user: nat, nice: nat, system: nat, idle: nat, iowait: nat, irq: nat,
                             sirq: nat, stolen: nat, guest: Option<nat>, gnice: Option<nat>)

  const ZERO := Jifs(0, 0, 0, 0, 0, 0, 0, 0, 0, 0, 0, 0, 0, 0, 0)

  function Add(a: Jifs, b: Jifs): Jifs {
    Jifs(a.user + b.user, a.nice + b.nice, a.system + b.system, a.idle + b.idle, a.iowait + b.iowait,
         a.irq + b.irq, a.sirq + b.sirq, a.stolen + b.stolen, a.guest + b.guest, a.gnice + b.gnice,
         a.xusr + b.xusr, a.xsys + b.xsys, a.xidl + b.xidl, a.xbsy + b.xbsy, a.xtot + b.xtot)
  }

  // ---------------------------------------------------------------------
  // Derived sums
  // ---------------------------------------------------------------------

  /** The five derived sums say what they are meant to say. */
  predicate Consistent(j: Jifs) {
    && j.xusr == j.user + j.nice
    && j.xsys == j.system + j.irq + j.sirq
    && j.xidl == j.idle + j.iowait
    && j.xtot == j.xusr + j.xsys + j.xidl + j.stolen + j.guest + j.gnice
    && j.xbsy + j.xidl == j.xtot
  }

  /** None of the five derived sums ran backwards. */
  predicate Ahead(was: Jifs, cur: Jifs) {
    && was.xusr <= cur.xusr && was.xsys <= cur.xsys && was.xidl <= cur.xidl
    && was.xbsy <= cur.xbsy && was.xtot <= cur.xtot
  }

  predicate Forward(t: HistTic) { Ahead(t.was, t.cur) }

  function WithSums(j: Jifs): Jifs {
    var xusr := j.user + j.nice;
    var xsys := j.system + j.irq + j.sirq;
    var xidl := j.idle + j.iowait;
    var xtot := xusr + xsys + xidl + j.stolen + j.guest + j.gnice;
    j.(xusr := xusr, xsys := xsys, xidl := xidl, xtot := xtot, xbsy := xtot - xidl)
  }

  /** stat_derive_unique, on one element in place. */
  method DeriveUnique(tics: array<HistTic>, i: nat)
    requires i < tics.Length
    modifies tics
    ensures forall k :: 0 <= k < tics.Length && k != i ==> tics[k] == old(tics[k])
    ensures Consistent(tics[i].cur) && Forward(tics[i])
    ensures tics[i].cur == WithSums(old(tics[i].cur))
    ensures tics[i].was ==
              if Forward(old(tics[i]).(cur := tics[i].cur)) then old(tics[i].was) else tics[i].cur
    ensures tics[i] == old(tics[i]).(cur := tics[i].cur, was := tics[i].was)
  {
    tics[i] := tics[i].(cur := WithSums(tics[i].cur));
    var t := tics[i];
    if t.cur.xusr < t.was.xusr || t.cur.xsys < t.was.xsys || t.cur.xidl < t.was.xidl
       || t.cur.xbsy < t.was.xbsy || t.cur.xtot < t.was.xtot {
      tics[i] := t.(was := t.cur);
    }
  }

  /** The setters of delta items: a difference, but never a negative one. */
  function Clamp(cur: nat, was: nat): nat { if cur < was then 0 else cur - was }

  lemma ClampIs(cur: nat, was: nat)
    ensures cur >= was ==> was + Clamp(cur, was) == cur
    ensures cur <= was ==> Clamp(cur, was) == 0
  {}

  /** Derived deltas are never clamped, and busy and idle make up the total. */
  lemma DerivedDeltasAddUp(t: HistTic)
    requires Forward(t) && t.cur.xbsy + t.cur.xidl == t.cur.xtot && t.was.xbsy + t.was.xidl == t.was.xtot
    ensures t.was.xusr + Clamp(t.cur.xusr, t.was.xusr) == t.cur.xusr
    ensures t.was.xsys + Clamp(t.cur.xsys, t.was.xsys) == t.cur.xsys
    ensures t.was.xidl + Clamp(t.cur.xidl, t.was.xidl) == t.cur.xidl
    ensures t.was.xbsy + Clamp(t.cur.xbsy, t.was.xbsy) == t.cur.xbsy
    ensures Clamp(t.cur.xbsy, t.was.xbsy) + Clamp(t.cur.xidl, t.was.xidl) == Clamp(t.cur.xtot, t.was.xtot)
  {}

  /** The plain counters carry no such promise: the reported user and nice ticks add up
      to the reported sum exactly when neither ran backwards. */
  lemma PlainDeltasAddUp(t: HistTic)
    requires Forward(t) && Consistent(t.cur) && Consistent(t.was)
    ensures Clamp(t.cur.user, t.was.user) + Clamp(t.cur.nice, t.was.nice) == Clamp(t.cur.xusr, t.was.xusr)
            <==> t.was.user <= t.cur.user && t.was.nice <= t.cur.nice
  {}

  // ---------------------------------------------------------------------
  // Reading the cpu lines
  // ---------------------------------------------------------------------

  function Parsed(before: Jifs, l: CpuLine): Jifs {
    before.(user := l.user, nice := l.nice, system := l.system, idle := l.idle, iowait := l.iowait, irq := l.irq,
            sirq := l.sirq, stolen := l.stolen,
            guest := if l.guest.Some? then l.guest.value else before.guest,
            gnice := if l.gnice.Some? then l.gnice.value else before.gnice)
  }

  /** A slot after its line was read: history is what the slot held last time, unless
      that would make a derived sum run backwards. */
  ghost predicate ReadFrom(t: HistTic, before: Jifs, l: CpuLine) {
    && t.id == l.id && t.node == None && t.count == 1
    && t.cur == WithSums(Parsed(before, l)) && Consistent(t.cur) && Forward(t)
    && (t.was == before || t.was == t.cur)
    && (t.was != before ==> !Forward(t.(was := before)))
  }

  class CpuHist {
    var tics: array<HistTic>
    var inuse: nat

    constructor ()
      ensures fresh(tics) && tics.Length == NEWOLD_INCR && inuse == 0
    {
      tics := new HistTic[NEWOLD_INCR](_ => HistTic(0, Some(0), 0, ZERO, ZERO));
      inuse := 0;
    }

    /** The loop over the cpu lines.  The array grows when it is full; what realloc
        adds holds arbitrary counters, garbage says which. */
    method ReadCpus(lines: seq<CpuLine>, garbage: nat -> HistTic)
      modifies this, tics
      ensures tics == old(tics) || fresh(tics)
      ensures inuse == |lines| <= tics.Length
      ensures forall i :: 0 <= i < inuse ==>
                ReadFrom(tics[i], if i < old(tics.Length) then old(tics[i].cur) else garbage(i).cur, lines[i])
    {
      var i := 0;
      while i < |lines|
        invariant 0 <= i <= |lines| && i <= tics.Length && old(tics.Length) <= tics.Length
        invariant tics == old(tics) || fresh(tics)
        invariant forall k :: i <= k < tics.Length ==>
                    tics[k] == if k < old(tics.Length) then old(tics[k]) else garbage(k)
        invariant forall k :: 0 <= k < i ==>
                    ReadFrom(tics[k], if k < old(tics.Length) then old(tics[k].cur) else garbage(k).cur, lines[k])
      {
        if i == tics.Length {
          Grow(garbage);
        }
        ReadOne(i, lines[i]);
        i := i + 1;
      }
      inuse := i;
    }

    method Grow(garbage: nat -> HistTic)
      modifies this`tics
      ensures fresh(tics) && tics.Length == old(tics.Length) + NEWOLD_INCR
      ensures forall k :: 0 <= k < tics.Length ==>
                tics[k] == if k < old(tics.Length) then old(tics[k]) else garbage(k)
    {
      var src := tics;
      tics := new HistTic[src.Length + NEWOLD_INCR](k requires 0 <= k reads src =>
        if k < src.Length then src[k] else garbage(k));
    }

    method ReadOne(i: nat, l: CpuLine)
      requires i < tics.Length
      modifies tics
      ensures forall k :: 0 <= k < tics.Length && k != i ==> tics[k] == old(tics[k])
      ensures ReadFrom(tics[i], old(tics[i].cur), l)
    {
      var before := tics[i].cur;
      tics[i] := HistTic(l.id, None, 1, Parsed(before, l), before);
      DeriveUnique(tics, i);
    }
  }

  // ---------------------------------------------------------------------
  // Folding cpus into nodes
  // ---------------------------------------------------------------------

  /** New and old counters together with the number of contributing cpus. */
  datatype Tot = Tot(cur: Jifs, was: Jifs, count: nat)

  const NOTHING := Tot(ZERO, ZERO, 0)

  function Plus(a: Tot, b: Tot): Tot { Tot(Add(a.cur, b.cur), Add(a.was, b.was), a.count + b.count) }

  function OfCpu(t: HistTic): Tot { Tot(t.cur, t.was, 1) }

  function OfNode(t: HistTic): Tot { Tot(t.cur, t.was, t.count) }

  /** The cpus of one node. */
  function SumOfNode(cpus: seq<HistTic>, nodeOf: int -> int, node: int): Tot {
    if cpus == [] then NOTHING
    else
      var t := cpus[|cpus| - 1];
      var rest := SumOfNode(cpus[..|cpus| - 1], nodeOf, node);
      if nodeOf(t.id) == node then Plus(rest, OfCpu(t)) else rest
  }

  /** All cpus that belong to some node. */
  function SumPlaced(cpus: seq<HistTic>, nodeOf: int -> int): Tot {
    if cpus == [] then NOTHING
    else
      var t := cpus[|cpus| - 1];
      var rest := SumPlaced(cpus[..|cpus| - 1], nodeOf);
      if nodeOf(t.id) > -1 then Plus(rest, OfCpu(t)) else rest
  }

  function SumNodes(nodes: seq<HistTic>): Tot {
    if nodes == [] then NOTHING
    else Plus(SumNodes(nodes[..|nodes| - 1]), OfNode(nodes[|nodes| - 1]))
  }

  /** The sum over the nodes below n, taken from the cpus. */
  function SumBelow(cpus: seq<HistTic>, nodeOf: int -> int, n: nat): Tot {
    if n == 0 then NOTHING else Plus(SumBelow(cpus, nodeOf, n - 1), SumOfNode(cpus, nodeOf, n - 1))
  }

  /** The fold itself: every node holds what its cpus hold together. */
  ghost predicate Folded(nodes: seq<HistTic>, cpus: seq<HistTic>, nodeOf: int -> int) {
    forall k :: 0 <= k < |nodes| ==>
      && OfNode(nodes[k]) == SumOfNode(cpus, nodeOf, k)
      && nodes[k].id == k
      && nodes[k].node == if nodes[k].count > 0 then Some(k) else None
  }

  lemma FoldStart(nodes: seq<HistTic>, nodeOf: int -> int)
    requires forall k :: 0 <= k < |nodes| ==> nodes[k] == HistTic(k, None, 0, ZERO, ZERO)
    ensures Folded(nodes, [], nodeOf)
  {}

  /** One more cpu, and what it does to its node if it has one. */
  lemma FoldStep(nodes: seq<HistTic>, nodes': seq<HistTic>, cpus: seq<HistTic>, t: HistTic, nodeOf: int -> int)
    requires Folded(nodes, cpus, nodeOf) && |nodes| == |nodes'|
    requires forall k :: 0 <= k < |nodes| ==>
               if k == nodeOf(t.id)
               then OfNode(nodes'[k]) == Plus(OfNode(nodes[k]), OfCpu(t)) && nodes'[k].id == k
                    && nodes'[k].node == Some(k)
               else nodes'[k] == nodes[k]
    ensures Folded(nodes', cpus + [t], nodeOf)
  {
    hide Plus;
    assert (cpus + [t])[..|cpus|] == cpus;
    assert forall k :: 0 <= k < |nodes| && k == nodeOf(t.id) ==>
                    OfNode(nodes'[k]).count == OfNode(nodes[k]).count + 1 by {
      PlusCounts();
    }
  }

  lemma PlusCounts()
    ensures forall a, b :: Plus(a, b).count == a.count + b.count
  {}

  class NodeHist {
    var total: nat
    var inuse: nat
    var nAlloc: nat
    var tics: array<HistTic>

    constructor ()
      ensures fresh(tics) && tics.Length == 0 && nAlloc == 0 && total == inuse == 0
    {
      total, inuse, nAlloc := 0, 0, 0;
      tics := new HistTic[0];
    }

    /** Forgets the prior node statistics. */
    method Clear(n: nat)
      requires tics.Length == nAlloc
      modifies this`total, this`nAlloc, this`tics, tics
      ensures tics.Length == nAlloc > n && total == n && (tics == old(tics) || fresh(tics))
      ensures forall k :: 0 <= k < n ==> tics[k] == HistTic(k, None, 0, ZERO, ZERO)
    {
      total := n;
      if nAlloc == 0 || total >= nAlloc {
        nAlloc := total + NEWOLD_INCR;
        tics := new HistTic[nAlloc];
      }
      forall k | 0 <= k < tics.Length {
        tics[k] := HistTic(k, None, 0, ZERO, ZERO);
      }
    }

    /** One turn of the loop over the cpus. */
    method AddCpu(cpus: array<HistTic>, i: nat, node: nat)
      requires i < cpus.Length && node < tics.Length && cpus != tics
      modifies tics, cpus
      ensures forall k :: 0 <= k < tics.Length && k != node ==> tics[k] == old(tics[k])
      ensures OfNode(tics[node]) == Plus(old(OfNode(tics[node])), OfCpu(old(cpus[i])))
      ensures tics[node].id == old(tics[node].id) && tics[node].node == Some(node)
      ensures forall j :: 0 <= j < cpus.Length ==>
                cpus[j] == if j == i then old(cpus[j]).(node := Some(node)) else old(cpus[j])
    {
      var n, c := tics[node], cpus[i];
      cpus[i] := c.(node := Some(node));
      tics[node] := HistTic(n.id, Some(node), n.count + 1, Add(n.cur, c.cur), Add(n.was, c.was));
    }

    /** stat_make_numa_hist.  libnuma gives no cpu a node beyond the highest. */
    method MakeNumaHist(cpus: array<HistTic>, n: nat, maxNode: int, nodeOf: int -> int) returns (rc: nat)
      requires n <= cpus.Length && cpus != tics && maxNode >= -1 && tics.Length == nAlloc
      requires forall i :: 0 <= i < n ==> nodeOf(cpus[i].id) <= maxNode
      modifies this, tics, cpus
      ensures rc == total == maxNode + 1 && tics.Length == nAlloc
      ensures tics == old(tics) || fresh(tics)
      ensures rc > 0 ==> rc == inuse <= tics.Length && Folded(tics[..rc], old(cpus[..n]), nodeOf)
      ensures forall i :: 0 <= i < cpus.Length ==>
                cpus[i] == if i < n && rc > 0 && nodeOf(old(cpus[i].id)) > -1
                           then old(cpus[i]).(node := Some(nodeOf(old(cpus[i].id)))) else old(cpus[i])
    {
      if maxNode + 1 == 0 {
        total := 0;
        return 0;
      }
      hide Plus, Folded, SumOfNode;
      ghost var before := cpus[..n];
      Clear(maxNode + 1);
      FoldStart(tics[..total], nodeOf);
      assert before[..0] == [];
      for i := 0 to n
        invariant total == maxNode + 1 < nAlloc == tics.Length && cpus != tics
        invariant tics == old(tics) || fresh(tics)
        invariant Folded(tics[..total], before[..i], nodeOf)
        invariant forall j :: 0 <= j < cpus.Length ==>
                    cpus[j] == if j < i && nodeOf(old(cpus[j].id)) > -1
                               then old(cpus[j]).(node := Some(nodeOf(old(cpus[j].id)))) else old(cpus[j])
      {
        var node := nodeOf(cpus[i].id);
        ghost var nodes, t := tics[..total], cpus[i];
        if -1 < node {
          AddCpu(cpus, i, node);
        }
        FoldStep(nodes, tics[..total], before[..i], t, nodeOf);
        assert before[..i + 1] == before[..i] + [t];
      }
      assert before[..n] == before;
      inuse := total;
      rc := total;
    }
  }

  // ---------------------------------------------------------------------
  // Conservation
  // ---------------------------------------------------------------------

  lemma {:induction false} NodesAreBelow(nodes: seq<HistTic>, cpus: seq<HistTic>, nodeOf: int -> int, n: nat)
    requires Folded(nodes, cpus, nodeOf) && n <= |nodes|
    ensures SumNodes(nodes[..n]) == SumBelow(cpus, nodeOf, n)
  {
    if n > 0 {
      NodesAreBelow(nodes, cpus, nodeOf, n - 1);
      assert nodes[..n][..n - 1] == nodes[..n - 1];
    }
  }

  lemma {:induction false} BelowStep(cpus: seq<HistTic>, nodeOf: int -> int, n: nat)
    requires cpus != []
    ensures var t, rest := cpus[|cpus| - 1], SumBelow(cpus[..|cpus| - 1], nodeOf, n);
      SumBelow(cpus, nodeOf, n) == if 0 <= nodeOf(t.id) < n then Plus(rest, OfCpu(t)) else rest
  {
    if n > 0 {
      BelowStep(cpus, nodeOf, n - 1);
    }
  }

  lemma AddZero(a: Jifs)
    ensures Add(a, ZERO) == a
  {}

  lemma PlusNothing(a: Tot)
    ensures Plus(a, NOTHING) == a
  {
    AddZero(a.cur);
    AddZero(a.was);
  }

  lemma {:induction false} NoCpusBelow(cpus: seq<HistTic>, nodeOf: int -> int, n: nat)
    requires |cpus| == 0
    ensures SumBelow(cpus, nodeOf, n) == NOTHING
  {
    hide Plus;
    if n > 0 {
      NoCpusBelow(cpus, nodeOf, n - 1);
      PlusNothing(SumBelow(cpus, nodeOf, n - 1));
    }
  }

  lemma {:induction false} BelowIsPlaced(cpus: seq<HistTic>, nodeOf: int -> int, n: nat)
    requires forall i :: 0 <= i < |cpus| ==> nodeOf(cpus[i].id) < n
    ensures SumBelow(cpus, nodeOf, n) == SumPlaced(cpus, nodeOf)
  {
    if cpus == [] {
      NoCpusBelow(cpus, nodeOf, n);
    } else {
      BelowIsPlaced(cpus[..|cpus| - 1], nodeOf, n);
      BelowStep(cpus, nodeOf, n);
    }
  }

  /** No tick is lost or counted twice: for all 15 fields, new and old, and for the
      number of contributors, the nodes together hold what the placed cpus hold. */
  lemma FoldConserves(nodes: seq<HistTic>, cpus: seq<HistTic>, nodeOf: int -> int)
    requires Folded(nodes, cpus, nodeOf)
    requires forall i :: 0 <= i < |cpus| ==> nodeOf(cpus[i].id) < |nodes|
    ensures SumNodes(nodes) == SumPlaced(cpus, nodeOf)
  {
    NodesAreBelow(nodes, cpus, nodeOf, |nodes|);
    assert nodes[..|nodes|] == nodes;
    BelowIsPlaced(cpus, nodeOf, |nodes|);
  }

  /** What holds of every cpu after a read holds of every node. */
  lemma {:induction false} NodesInherit(cpus: seq<HistTic>, nodeOf: int -> int, node: int)
    requires forall i :: 0 <= i < |cpus| ==> Consistent(cpus[i].cur) && Forward(cpus[i])
    ensures var s := SumOfNode(cpus, nodeOf, node);
      Consistent(s.cur) && Ahead(s.was, s.cur)
  {
    if cpus != [] {
      NodesInherit(cpus[..|cpus| - 1], nodeOf, node);
    }
  }

  /** After reading and folding: in every node the sums are consistent and none of the
      five derived deltas is negative. */
  lemma NodesAreSound(nodes: seq<HistTic>, cpus: seq<HistTic>, nodeOf: int -> int, k: nat)
    requires Folded(nodes, cpus, nodeOf) && k < |nodes|
    requires forall i :: 0 <= i < |cpus| ==> Consistent(cpus[i].cur) && Forward(cpus[i])
    ensures Consistent(nodes[k].cur) && Forward(nodes[k])
  {
    NodesInherit(cpus, nodeOf, k);
  }

  lemma {:induction false} PlacedSame(a: seq<HistTic>, b: seq<HistTic>, nodeOf: int -> int)
    requires |a| == |b| && forall i :: 0 <= i < |a| ==> a[i].id == b[i].id && OfCpu(a[i]) == OfCpu(b[i])
    ensures SumPlaced(a, nodeOf) == SumPlaced(b, nodeOf)
  {
    if a != [] {
      PlacedSame(a[..|a| - 1], b[..|b| - 1], nodeOf);
    }
  }

  // ---------------------------------------------------------------------
  // Counter by counter
  // ---------------------------------------------------------------------

  datatype Counter =
    | User | Nice | System | Idle | Iowait | Irq | Sirq | Stolen | Guest | Gnice | Xusr | Xsys | Xidl | Xbsy | Xtot

  function Get(j: Jifs, c: Counter): nat {
    match c
    case User => j.user case Nice => j.nice case System => j.system case Idle => j.idle case Iowait => j.iowait
    case Irq => j.irq case Sirq => j.sirq case Stolen => j.stolen case Guest => j.guest case Gnice => j.gnice
    case Xusr => j.xusr case Xsys => j.xsys case Xidl => j.xidl case Xbsy => j.xbsy case Xtot => j.xtot
  }

  /** The sum of one counter over some of the elements, by plain addition. */
  function Sum(ts: seq<HistTic>, of: HistTic -> nat): nat {
    if ts == [] then 0 else Sum(ts[..|ts| - 1], of) + of(ts[|ts| - 1])
  }

  function NewOf(c: Counter): HistTic -> nat { (t: HistTic) => Get(t.cur, c) }
  function OldOf(c: Counter): HistTic -> nat { (t: HistTic) => Get(t.was, c) }
  function CountOf(): HistTic -> nat { (t: HistTic) => t.count }
  function One(): HistTic -> nat { (t: HistTic) => 1 }

  /** Counted for a cpu that has a node, or has the given node. */
  function Placed(of: HistTic -> nat, nodeOf: int -> int): HistTic -> nat {
    (t: HistTic) => if nodeOf(t.id) > -1 then of(t) else 0
  }

  function PlacedOn(of: HistTic -> nat, nodeOf: int -> int, node: int): HistTic -> nat {
    (t: HistTic) => if nodeOf(t.id) == node then of(t) else 0
  }

  lemma GetPlus(c: Counter)
    ensures forall a, b :: Get(Add(a, b), c) == Get(a, c) + Get(b, c)
    ensures Get(ZERO, c) == 0
  {}

  lemma {:induction false} NodesSum(nodes: seq<HistTic>, c: Counter)
    ensures Get(SumNodes(nodes).cur, c) == Sum(nodes, NewOf(c)) && Get(SumNodes(nodes).was, c) == Sum(nodes, OldOf(c))
    ensures SumNodes(nodes).count == Sum(nodes, CountOf())
  {
    hide Get, Add;
    GetPlus(c);
    if nodes != [] {
      NodesSum(nodes[..|nodes| - 1], c);
    }
  }

  lemma {:induction false} PlacedSum(cpus: seq<HistTic>, nodeOf: int -> int, c: Counter)
    ensures Get(SumPlaced(cpus, nodeOf).cur, c) == Sum(cpus, Placed(NewOf(c), nodeOf))
    ensures Get(SumPlaced(cpus, nodeOf).was, c) == Sum(cpus, Placed(OldOf(c), nodeOf))
    ensures SumPlaced(cpus, nodeOf).count == Sum(cpus, Placed(One(), nodeOf))
  {
    hide Get, Add;
    GetPlus(c);
    if cpus != [] {
      PlacedSum(cpus[..|cpus| - 1], nodeOf, c);
    }
  }

  lemma {:induction false} NodeSum(cpus: seq<HistTic>, nodeOf: int -> int, node: int, c: Counter)
    ensures Get(SumOfNode(cpus, nodeOf, node).cur, c) == Sum(cpus, PlacedOn(NewOf(c), nodeOf, node))
    ensures Get(SumOfNode(cpus, nodeOf, node).was, c) == Sum(cpus, PlacedOn(OldOf(c), nodeOf, node))
    ensures SumOfNode(cpus, nodeOf, node).count == Sum(cpus, PlacedOn(One(), nodeOf, node))
  {
    hide Get, Add;
    GetPlus(c);
    if cpus != [] {
      NodeSum(cpus[..|cpus| - 1], nodeOf, node, c);
    }
  }

  /** Conservation by plain addition: in new and in old, each of the 15 counters sums to the
      same over the nodes as over the cpus that have a node, and the counts add up to the
      number of these cpus. */
  ghost predicate Conserved(nodes: seq<HistTic>, cpus: seq<HistTic>, nodeOf: int -> int) {
    && (forall c :: Sum(nodes, NewOf(c)) == Sum(cpus, Placed(NewOf(c), nodeOf)))
    && (forall c :: Sum(nodes, OldOf(c)) == Sum(cpus, Placed(OldOf(c), nodeOf)))
    && Sum(nodes, CountOf()) == Sum(cpus, Placed(One(), nodeOf))
  }

  lemma CountersConserved(nodes: seq<HistTic>, cpus: seq<HistTic>, nodeOf: int -> int)
    requires SumNodes(nodes) == SumPlaced(cpus, nodeOf)
    ensures Conserved(nodes, cpus, nodeOf)
  {
    hide Get, SumNodes, SumPlaced, Sum;
    forall c
      ensures Sum(nodes, NewOf(c)) == Sum(cpus, Placed(NewOf(c), nodeOf))
      ensures Sum(nodes, OldOf(c)) == Sum(cpus, Placed(OldOf(c), nodeOf))
      ensures Sum(nodes, CountOf()) == Sum(cpus, Placed(One(), nodeOf))
    {
      NodesSum(nodes, c);
      PlacedSum(cpus, nodeOf, c);
    }
    NodesSum(nodes, User);
    PlacedSum(cpus, nodeOf, User);
  }

  /** And node by node: each counter of a node is the sum over the cpus on that node. */
  lemma NodeIsItsCpus(nodes: seq<HistTic>, cpus: seq<HistTic>, nodeOf: int -> int, k: nat, c: Counter)
    requires Folded(nodes, cpus, nodeOf) && k < |nodes|
    ensures Get(nodes[k].cur, c) == Sum(cpus, PlacedOn(NewOf(c), nodeOf, k))
    ensures Get(nodes[k].was, c) == Sum(cpus, PlacedOn(OldOf(c), nodeOf, k))
    ensures nodes[k].count == Sum(cpus, PlacedOn(One(), nodeOf, k))
  {
    hide Get, Sum, SumOfNode;
    NodeSum(cpus, nodeOf, k, c);
  }

  /** A slot after its line was read, counter by counter. */
  lemma LineIsRead(t: HistTic, before: Jifs, l: CpuLine)
    requires ReadFrom(t, before, l)
    ensures t.cur.user == l.user && t.cur.nice == l.nice && t.cur.system == l.system && t.cur.idle == l.idle
    ensures t.cur.iowait == l.iowait && t.cur.irq == l.irq && t.cur.sirq == l.sirq && t.cur.stolen == l.stolen
    ensures t.cur.guest == if l.guest.Some? then l.guest.value else before.guest
    ensures t.cur.gnice == if l.gnice.Some? then l.gnice.value else before.gnice
    ensures t.cur.xusr == l.user + l.nice && t.cur.xsys == l.system + l.irq + l.sirq
    ensures t.cur.xidl == l.idle + l.iowait
    ensures t.cur.xbsy == l.user + l.nice + l.system + l.irq + l.sirq + l.stolen + t.cur.guest + t.cur.gnice
    ensures t.cur.xtot == t.cur.xbsy + l.idle + l.iowait
    ensures t.was == (if before.xusr <= t.cur.xusr && before.xsys <= t.cur.xsys && before.xidl <= t.cur.xidl
                         && before.xbsy <= t.cur.xbsy && before.xtot <= t.cur.xtot
                      then before else t.cur)
  {}

  /** Both steps of a reap that asks for nodes: whatever the counters did, the nodes
      hold exactly the ticks of the placed cpus, and every node is sound. */
  method ReadAndFold(h: CpuHist, nodes: NodeHist, lines: seq<CpuLine>, garbage: nat -> HistTic,
                     maxNode: int, nodeOf: int -> int)
    returns (rc: nat)
    requires h.tics != nodes.tics && nodes.tics.Length == nodes.nAlloc && maxNode >= -1
    requires forall i :: 0 <= i < |lines| ==> nodeOf(lines[i].id) <= maxNode
    modifies h, h.tics, nodes, nodes.tics
    ensures rc == maxNode + 1 <= nodes.tics.Length || rc == 0
    ensures h.inuse == |lines| <= h.tics.Length
    ensures rc > 0 ==> rc <= nodes.tics.Length
                       && SumNodes(nodes.tics[..rc]) == SumPlaced(h.tics[..h.inuse], nodeOf)
                       && Conserved(nodes.tics[..rc], h.tics[..h.inuse], nodeOf)
                       && forall k :: 0 <= k < rc ==> Consistent(nodes.tics[k].cur) && Forward(nodes.tics[k])
  {
    hide Folded, SumNodes, SumPlaced, Conserved, WithSums, Parsed;
    h.ReadCpus(lines, garbage);
    ghost var cpus := h.tics[..h.inuse];
    assert forall i :: 0 <= i < |cpus| ==> Consistent(cpus[i].cur) && Forward(cpus[i]) && cpus[i].id == lines[i].id;
    rc := nodes.MakeNumaHist(h.tics, h.inuse, maxNode, nodeOf);
    if rc > 0 {
      AfterFold(nodes.tics[..rc], cpus, h.tics[..h.inuse], nodeOf);
    }
  }

  lemma AfterFold(nodes: seq<HistTic>, cpus: seq<HistTic>, marked: seq<HistTic>, nodeOf: int -> int)
    requires Folded(nodes, cpus, nodeOf) && |cpus| == |marked|
    requires forall i :: 0 <= i < |cpus| ==> marked[i].id == cpus[i].id && OfCpu(marked[i]) == OfCpu(cpus[i])
    requires forall i :: 0 <= i < |cpus| ==>
               nodeOf(cpus[i].id) < |nodes| && Consistent(cpus[i].cur) && Forward(cpus[i])
    ensures SumNodes(nodes) == SumPlaced(marked, nodeOf) && Conserved(nodes, marked, nodeOf)
    ensures forall k :: 0 <= k < |nodes| ==> Consistent(nodes[k].cur) && Forward(nodes[k])
  {
    hide Folded, Consistent, Forward, SumNodes, SumPlaced, Conserved;
    FoldConserves(nodes, cpus, nodeOf);
    PlacedSame(cpus, marked, nodeOf);
    CountersConserved(nodes, marked, nodeOf);
    forall k | 0 <= k < |nodes| ensures Consistent(nodes[k].cur) && Forward(nodes[k]) {
      NodesAreSound(nodes, cpus, nodeOf, k);
    }
  }
}
