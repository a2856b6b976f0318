/** The slab table of slabinfo.c: one node per cache in an array that grows, and the
    totals accumulated while the table is parsed. */
module Slabs {

  const INT_MAX := 0x7fff_ffff

  /** A cache as its line describes it. */
  datatype Cache = Cache(name: string, nrActiveObjs: nat, nrObjs: nat, objSize: nat, objsPerSlab: nat,
                         pagesPerSlab: nat, nrActiveSlabs: nat, nrSlabs: nat)

  datatype Node = Node(cache: Cache, cacheSize: nat)

  datatype Line = Comment | Good(cache: Cache) | Malformed

  datatype Summ = Summ(nrObjs: nat, nrActiveObjs: nat, nrPages: nat, nrSlabs: nat, nrActiveSlabs: nat,
                       nrCaches: nat, nrActiveCaches: nat, avgObjSize: nat, minObjSize: nat, maxObjSize: nat,
                       activeSize: nat, totalSize: nat)

  const EMPTY := Summ(0, 0, 0, 0, 0, 0, 0, 0, 0, 0, 0, 0)

  // ---------------------------------------------------------------------
  // Totals
  // ---------------------------------------------------------------------

  datatype Field = Objs | ActiveObjs | Pages | AllSlabs | ActiveSlabs | Caches | ActiveCaches | ActiveSize | TotalSize

  /** What one cache contributes to a total. */
  function Val(c: Cache, f: Field): nat {
    match f
    case Objs => c.nrObjs
    case ActiveObjs => c.nrActiveObjs
    case Pages => c.nrSlabs * c.pagesPerSlab
    case AllSlabs => c.nrSlabs
    case ActiveSlabs => c.nrActiveSlabs
    case Caches => 1
    case ActiveCaches => if c.nrObjs != 0 then 1 else 0
    case ActiveSize => c.nrActiveObjs * c.objSize
    case TotalSize => c.nrObjs * c.objSize
  }

  function Total(s: Summ, f: Field): nat {
    match f
    case Objs => s.nrObjs
    case ActiveObjs => s.nrActiveObjs
    case Pages => s.nrPages
    case AllSlabs => s.nrSlabs
    case ActiveSlabs => s.nrActiveSlabs
    case Caches => s.nrCaches
    case ActiveCaches => s.nrActiveCaches
    case ActiveSize => s.activeSize
    case TotalSize => s.totalSize
  }

  function Sum(ns: seq<Node>, f: Field): nat {
    if ns == [] then 0 else Sum(ns[..|ns| - 1], f) + Val(ns[|ns| - 1].cache, f)
  }

  /** The extremes are those of the stored sizes; the smallest starts out at the largest int. */
  ghost predicate Extremes(s: Summ, ns: seq<Node>) {
    && s.minObjSize <= INT_MAX
    && (forall i :: 0 <= i < |ns| ==> s.minObjSize <= ns[i].cache.objSize <= s.maxObjSize)
    && (s.minObjSize == INT_MAX || exists i :: 0 <= i < |ns| && ns[i].cache.objSize == s.minObjSize)
    && (s.maxObjSize == 0 || exists i :: 0 <= i < |ns| && ns[i].cache.objSize == s.maxObjSize)
  }

  /** Every total is the sum over the stored nodes, and the extremes are theirs. */
  ghost predicate Summarizes(s: Summ, ns: seq<Node>) {
    (forall f :: Total(s, f) == Sum(ns, f)) && Extremes(s, ns)
  }

  /** A cache is added to the totals. */
  method AddTo(before: Summ, c: Cache) returns (s: Summ)
    ensures forall f :: Total(s, f) == Total(before, f) + Val(c, f)
    ensures s.minObjSize == if c.objSize < before.minObjSize then c.objSize else before.minObjSize
    ensures s.maxObjSize == if c.objSize > before.maxObjSize then c.objSize else before.maxObjSize
    ensures s.avgObjSize == before.avgObjSize
  {
    s := before;
    if c.objSize < s.minObjSize {
      s := s.(minObjSize := c.objSize);
    }
    if c.objSize > s.maxObjSize {
      s := s.(maxObjSize := c.objSize);
    }
    if c.nrObjs != 0 {
      s := s.(nrActiveCaches := s.nrActiveCaches + 1);
    }
    s := s.(nrObjs := s.nrObjs + c.nrObjs, nrActiveObjs := s.nrActiveObjs + c.nrActiveObjs,
            totalSize := s.totalSize + c.nrObjs * c.objSize,
            activeSize := s.activeSize + c.nrActiveObjs * c.objSize,
            nrPages := s.nrPages + c.nrSlabs * c.pagesPerSlab, nrSlabs := s.nrSlabs + c.nrSlabs,
            nrActiveSlabs := s.nrActiveSlabs + c.nrActiveSlabs, nrCaches := s.nrCaches + 1);
  }

  class SlabInfo {
    var nodesAlloc: nat
    var nodesUsed: nat
    var nodes: array<Node>
    var cur: Summ
    var was: Summ

    ghost predicate Valid()
      reads this
    {
      nodes.Length == nodesAlloc && nodesUsed <= nodesAlloc
    }

    constructor ()
      ensures Valid() && nodesUsed == nodesAlloc == 0 && cur == was == EMPTY && fresh(nodes)
    {
      nodesAlloc, nodesUsed, cur, was := 0, 0, EMPTY, EMPTY;
      nodes := new Node[0];
    }

    /** alloc_slabnodes: grows a full array by a quarter and 30, keeping its content. */
    method AllocSlabNodes()
      requires Valid()
      modifies this`nodes, this`nodesAlloc
      ensures Valid() && nodesUsed < nodesAlloc
      ensures nodesAlloc == if nodesUsed < old(nodesAlloc) then old(nodesAlloc) else old(nodesAlloc) * 5 / 4 + 30
      ensures nodes == old(nodes) || fresh(nodes)
      ensures nodes[..nodesUsed] == old(nodes[..nodesUsed])
    {
      if nodesUsed < nodesAlloc {
        return;
      }
      var src, n := nodes, nodesAlloc * 5 / 4 + 30;
      nodes := new Node[n](i requires 0 <= i reads src =>
        if i < src.Length then src[i] else Node(Cache("", 0, 0, 0, 0, 0, 0, 0), 0));
      nodesAlloc := n;
    }

    /** get_slabnode: the slot of the next node. */
    method GetSlabNode() returns (slot: nat)
      requires Valid()
      modifies this`nodes, this`nodesAlloc, this`nodesUsed
      ensures Valid() && slot == old(nodesUsed) && nodesUsed == slot + 1
      ensures nodes == old(nodes) || fresh(nodes)
      ensures nodes[..slot] == old(nodes[..nodesUsed])
    {
      if nodesUsed == nodesAlloc {
        AllocSlabNodes();
      }
      slot := nodesUsed;
      nodesUsed := nodesUsed + 1;
    }

    /** One good line: the node is stored and added to the totals. */
    method Account(slot: nat, c: Cache, pageSize: nat)
      requires Valid() && slot + 1 == nodesUsed && Summarizes(cur, nodes[..slot])
      modifies this`cur, nodes
      ensures Valid() && Summarizes(cur, nodes[..nodesUsed])
      ensures CachesOf(nodes[..nodesUsed]) == CachesOf(old(nodes[..slot])) + [Named(c)]
      ensures nodes[slot].cacheSize == c.nrSlabs * c.pagesPerSlab * pageSize
      ensures nodes[..slot] == old(nodes[..slot]) && nodes[slot].cache == Named(c)
      ensures cur.avgObjSize == old(cur.avgObjSize)
    {
      hide Summarizes, Total, Val, Named, CachesOf;
      ghost var before := nodes[..slot];
      var node := Node(Named(c), c.nrSlabs * c.pagesPerSlab * pageSize);
      nodes[slot] := node;
      cur := AddTo(cur, node.cache);
      SummarizesStep(old(cur), cur, before, node);
      CachesSnoc(before, node);
      assert nodes[..nodesUsed] == before + [node];
    }

    /** parse_slabinfo20: comments are skipped; a malformed line ends the parse with its
        node already taken. */
    method Parse(lines: seq<Line>, pageSize: nat) returns (failed: bool)
      requires Valid() && nodesUsed == 0 && cur == EMPTY
      modifies this`nodes, this`nodesAlloc, this`nodesUsed, this`cur, nodes
      ensures Valid() && (nodes == old(nodes) || fresh(nodes))
      ensures failed <==> Malformed in lines
      ensures failed ==> nodesUsed > 0 && Summarizes(cur, nodes[..nodesUsed - 1])
      ensures !failed ==> Summarizes(cur, nodes[..nodesUsed])
      ensures !failed ==> Listed(lines) == CachesOf(nodes[..nodesUsed]) && Sized(nodes[..nodesUsed], pageSize)
      ensures !failed ==> cur.avgObjSize == if cur.nrObjs > 0 then cur.totalSize / cur.nrObjs else 0
    {
      hide Summarizes, Listed, CachesOf, Named, Sized;
      cur := cur.(minObjSize := INT_MAX, maxObjSize := 0);
      NothingTaken(cur, nodes[..0], lines, pageSize);
      for k := 0 to |lines|
        invariant Valid() && (nodes == old(nodes) || fresh(nodes))
        invariant Malformed !in lines[..k] && Taken(lines[..k], cur, nodes[..nodesUsed], pageSize)
      {
        if lines[k].Malformed? {
          var _ := GetSlabNode();
          return true;
        }
        ParseLine(lines, k, pageSize);
      }
      assert lines[..|lines|] == lines;
      if cur.nrObjs > 0 {
        AverageApart(cur, cur.totalSize / cur.nrObjs, nodes[..nodesUsed]);
        cur := cur.(avgObjSize := cur.totalSize / cur.nrObjs);
      }
      failed := false;
    }

    /** A comment, or a good line. */
    method ParseLine(lines: seq<Line>, k: nat, pageSize: nat)
      requires Valid() && k < |lines| && !lines[k].Malformed?
      requires Taken(lines[..k], cur, nodes[..nodesUsed], pageSize)
      modifies this`nodes, this`nodesAlloc, this`nodesUsed, this`cur, nodes
      ensures Valid() && (nodes == old(nodes) || fresh(nodes))
      ensures Taken(lines[..k + 1], cur, nodes[..nodesUsed], pageSize)
    {
      hide Summarizes, Listed, CachesOf, Named, Sized;
      ListedStep(lines, k);
      if lines[k].Good? {
        ghost var before := nodes[..nodesUsed];
        var slot := GetSlabNode();
        Account(slot, lines[k].cache, pageSize);
        SizedSnoc(before, nodes[slot], lines[k].cache, pageSize);
        assert nodes[..nodesUsed] == before + [nodes[slot]];
      }
    }

    /** slabinfo_read_failed: the summary becomes history, all nodes are given back. */
    method ReadFailed(versionOk: bool, lines: seq<Line>, pageSize: nat) returns (failed: bool)
      requires Valid()
      modifies this, nodes
      ensures Valid() && (nodes == old(nodes) || fresh(nodes))
      ensures failed <==> !versionOk || Malformed in lines
      ensures was == old(cur)
      ensures !failed ==> Summarizes(cur, nodes[..nodesUsed]) && Listed(lines) == CachesOf(nodes[..nodesUsed])
      ensures !failed ==> TotalsOf(lines, cur) && Sized(nodes[..nodesUsed], pageSize)
      ensures !failed && cur.nrObjs == 0 ==> cur.avgObjSize == 0
      ensures !failed && cur.nrObjs > 0 ==>
                cur.avgObjSize == cur.totalSize / cur.nrObjs && cur.minObjSize <= cur.avgObjSize <= cur.maxObjSize
    {
      hide Summarizes, Listed, CachesOf, TotalsOf, Sized;
      was, cur := cur, EMPTY;
      AllocSlabNodes();
      forall i | 0 <= i < nodes.Length {
        nodes[i] := Node(Cache("", 0, 0, 0, 0, 0, 0, 0), 0);
      }
      nodesUsed := 0;
      if !versionOk {
        return true;
      }
      failed := Parse(lines, pageSize);
      if !failed {
        TotalsFromLines(lines, cur, nodes[..nodesUsed]);
      }
      if !failed && cur.nrObjs > 0 {
        AverageBetween(cur, nodes[..nodesUsed]);
      }
    }
  }

  function Named(c: Cache): Cache { if c.name == "" then c.(name := "unknown") else c }

  /** The caches the table lists, in order; one without a name is called unknown. */
  function Listed(lines: seq<Line>): seq<Cache> {
    if lines == [] then []
    else
      var l := lines[|lines| - 1];
      Listed(lines[..|lines| - 1])
      + if l.Good? then [Named(l.cache)] else []
  }

  function CachesOf(ns: seq<Node>): seq<Cache> {
    seq(|ns|, i requires 0 <= i < |ns| => ns[i].cache)
  }

  /** The nodes carry the sizes of their caches. */
  predicate Sized(ns: seq<Node>, pageSize: nat) {
    forall i :: 0 <= i < |ns| ==> ns[i].cacheSize == ns[i].cache.nrSlabs * ns[i].cache.pagesPerSlab * pageSize
  }

  lemma SizedSnoc(ns: seq<Node>, n: Node, c: Cache, pageSize: nat)
    requires Sized(ns, pageSize) && n.cache == Named(c) && n.cacheSize == c.nrSlabs * c.pagesPerSlab * pageSize
    ensures Sized(ns + [n], pageSize)
  {}

  lemma CachesSnoc(ns: seq<Node>, n: Node)
    ensures CachesOf(ns + [n]) == CachesOf(ns) + [n.cache]
  {}

  lemma ListedStep(lines: seq<Line>, k: nat)
    requires k < |lines|
    ensures Listed(lines[..k + 1]) == Listed(lines[..k])
              + if lines[k].Good? then [Named(lines[k].cache)] else []
  {
    assert lines[..k + 1][..k] == lines[..k];
  }

  lemma NothingSummarized(s: Summ, ns: seq<Node>)
    requires s == EMPTY.(minObjSize := INT_MAX) && ns == []
    ensures Summarizes(s, ns)
  {}

  /** What is stored when some lines have been parsed. */
  ghost predicate Taken(lines: seq<Line>, s: Summ, ns: seq<Node>, pageSize: nat) {
    Summarizes(s, ns) && Listed(lines) == CachesOf(ns) && Sized(ns, pageSize) && s.avgObjSize == 0
  }

  lemma NothingTaken(s: Summ, ns: seq<Node>, lines: seq<Line>, pageSize: nat)
    requires s == EMPTY.(minObjSize := INT_MAX) && ns == []
    ensures Taken(lines[..0], s, ns, pageSize)
  {
    NothingSummarized(s, ns);
    NothingListed(lines[..0], ns);
  }

  lemma NothingListed(lines: seq<Line>, ns: seq<Node>)
    requires lines == [] && ns == []
    ensures Listed(lines) == CachesOf(ns)
  {}

  lemma AverageApart(s: Summ, avg: nat, ns: seq<Node>)
    requires Summarizes(s, ns)
    ensures Summarizes(s.(avgObjSize := avg), ns)
  {
    assert forall f :: Total(s.(avgObjSize := avg), f) == Total(s, f);
  }

  lemma SumSnoc(ns: seq<Node>, n: Node, f: Field)
    ensures Sum(ns + [n], f) == Sum(ns, f) + Val(n.cache, f)
  {
    hide Val;
    assert (ns + [n])[..|ns|] == ns;
  }

  lemma ExtremesStep(s: Summ, s': Summ, ns: seq<Node>, n: Node)
    requires Extremes(s, ns)
    requires s'.minObjSize == if n.cache.objSize < s.minObjSize then n.cache.objSize else s.minObjSize
    requires s'.maxObjSize == if n.cache.objSize > s.maxObjSize then n.cache.objSize else s.maxObjSize
    ensures Extremes(s', ns + [n])
  {
    var ms := ns + [n];
    assert ms[|ns|].cache.objSize == n.cache.objSize;
    assert forall i :: 0 <= i < |ns| ==> ms[i] == ns[i];
  }

  lemma SummarizesStep(s: Summ, s': Summ, ns: seq<Node>, n: Node)
    requires Summarizes(s, ns)
    requires forall f :: Total(s', f) == Total(s, f) + Val(n.cache, f)
    requires s'.minObjSize == if n.cache.objSize < s.minObjSize then n.cache.objSize else s.minObjSize
    requires s'.maxObjSize == if n.cache.objSize > s.maxObjSize then n.cache.objSize else s.maxObjSize
    ensures Summarizes(s', ns + [n])
  {
    hide Total, Val, Sum, Extremes;
    ExtremesStep(s, s', ns, n);
    forall f ensures Total(s', f) == Sum(ns + [n], f) {
      SumSnoc(ns, n, f);
    }
  }

  // ---------------------------------------------------------------------
  // The totals of a table, column by column
  // ---------------------------------------------------------------------

  /** The sum over the caches the table lists. */
  function SumOf(lines: seq<Line>, of: Cache -> nat): nat {
    if lines == [] then 0
    else
      var l := lines[|lines| - 1];
      SumOf(lines[..|lines| - 1], of) + if l.Good? then of(l.cache) else 0
  }

  function ObjsOf(): Cache -> nat { (c: Cache) => c.nrObjs }
  function ActiveObjsOf(): Cache -> nat { (c: Cache) => c.nrActiveObjs }
  function PagesOf(): Cache -> nat { (c: Cache) => c.nrSlabs * c.pagesPerSlab }
  function SlabsOf(): Cache -> nat { (c: Cache) => c.nrSlabs }
  function ActiveSlabsOf(): Cache -> nat { (c: Cache) => c.nrActiveSlabs }
  function OneOf(): Cache -> nat { (c: Cache) => 1 }
  function InUseOf(): Cache -> nat { (c: Cache) => if c.nrObjs > 0 then 1 else 0 }
  function ActiveSizeOf(): Cache -> nat { (c: Cache) => c.nrActiveObjs * c.objSize }
  function SizeOf(): Cache -> nat { (c: Cache) => c.nrObjs * c.objSize }

  ghost predicate TotalsOf(lines: seq<Line>, s: Summ) {
    && s.nrObjs == SumOf(lines, ObjsOf()) && s.nrActiveObjs == SumOf(lines, ActiveObjsOf())
    && s.nrPages == SumOf(lines, PagesOf())
    && s.nrSlabs == SumOf(lines, SlabsOf()) && s.nrActiveSlabs == SumOf(lines, ActiveSlabsOf())
    && s.nrCaches == SumOf(lines, OneOf()) && s.nrActiveCaches == SumOf(lines, InUseOf())
    && s.activeSize == SumOf(lines, ActiveSizeOf()) && s.totalSize == SumOf(lines, SizeOf())
    && (forall i :: 0 <= i < |lines| && lines[i].Good? ==> s.minObjSize <= lines[i].cache.objSize <= s.maxObjSize)
    && s.minObjSize <= 0x7fff_ffff && (s.minObjSize == 0x7fff_ffff || SizeListed(lines, s.minObjSize))
    && (s.maxObjSize == 0 || SizeListed(lines, s.maxObjSize))
  }

  predicate SizeListed(lines: seq<Line>, size: nat) {
    exists i :: 0 <= i < |lines| && lines[i].Good? && lines[i].cache.objSize == size
  }

  lemma {:induction false} SumsMatch(lines: seq<Line>, ns: seq<Node>, f: Field, of: Cache -> nat)
    requires Listed(lines) == CachesOf(ns) && forall c :: of(c) == Val(c, f) == Val(Named(c), f)
    ensures Sum(ns, f) == SumOf(lines, of)
  {
    hide Val;
    if lines != [] {
      var front := lines[..|lines| - 1];
      if lines[|lines| - 1].Good? {
        var ms := ns[..|ns| - 1];
        assert CachesOf(ms) == CachesOf(ns)[..|ns| - 1] == Listed(front);
        SumsMatch(front, ms, f, of);
        assert CachesOf(ns)[|ns| - 1] == ns[|ns| - 1].cache;
      } else {
        SumsMatch(front, ns, f, of);
      }
    }
  }

  /** The caches stored are those listed, with their numbers as they are. */
  lemma {:induction false} SizesListed(lines: seq<Line>)
    ensures forall i :: 0 <= i < |lines| && lines[i].Good? ==>
              exists j :: 0 <= j < |Listed(lines)| && Listed(lines)[j].objSize == lines[i].cache.objSize
    ensures forall j :: 0 <= j < |Listed(lines)| ==> SizeListed(lines, Listed(lines)[j].objSize)
  {
    if lines != [] {
      var n := |lines| - 1;
      var front, most := lines[..n], Listed(lines[..n]);
      SizesListed(front);
      forall i | 0 <= i < |lines| && lines[i].Good?
        ensures exists j :: 0 <= j < |Listed(lines)| && Listed(lines)[j].objSize == lines[i].cache.objSize
      {
        if i < n {
          assert front[i] == lines[i];
          var j :| 0 <= j < |most| && most[j].objSize == lines[i].cache.objSize;
          assert Listed(lines)[j] == most[j];
        } else {
          assert Listed(lines)[|most|].objSize == lines[n].cache.objSize;
        }
      }
      forall j | 0 <= j < |Listed(lines)|
        ensures SizeListed(lines, Listed(lines)[j].objSize)
      {
        if j < |most| {
          assert Listed(lines)[j] == most[j];
          var i :| 0 <= i < |front| && front[i].Good? && front[i].cache.objSize == most[j].objSize;
          assert lines[i] == front[i];
        } else {
          assert lines[n].Good?;
        }
      }
    }
  }

  lemma ExtremesListed(lines: seq<Line>, s: Summ, ns: seq<Node>)
    requires Extremes(s, ns) && Listed(lines) == CachesOf(ns)
    ensures forall i :: 0 <= i < |lines| && lines[i].Good? ==>
              s.minObjSize <= lines[i].cache.objSize <= s.maxObjSize
    ensures s.minObjSize <= 0x7fff_ffff && (s.minObjSize == 0x7fff_ffff || SizeListed(lines, s.minObjSize))
    ensures s.maxObjSize == 0 || SizeListed(lines, s.maxObjSize)
  {
    SizesListed(lines);
    hide Listed, SizeListed;
    assert forall j :: 0 <= j < |ns| ==> CachesOf(ns)[j] == ns[j].cache;
  }

  lemma ValuesPlain()
    ensures forall c :: ObjsOf()(c) == Val(c, Objs) == Val(Named(c), Objs)
    ensures forall c :: ActiveObjsOf()(c) == Val(c, ActiveObjs) == Val(Named(c), ActiveObjs)
    ensures forall c :: PagesOf()(c) == Val(c, Pages) == Val(Named(c), Pages)
    ensures forall c :: SlabsOf()(c) == Val(c, AllSlabs) == Val(Named(c), AllSlabs)
    ensures forall c :: ActiveSlabsOf()(c) == Val(c, ActiveSlabs) == Val(Named(c), ActiveSlabs)
    ensures forall c :: OneOf()(c) == Val(c, Caches) == Val(Named(c), Caches)
    ensures forall c :: InUseOf()(c) == Val(c, ActiveCaches) == Val(Named(c), ActiveCaches)
    ensures forall c :: ActiveSizeOf()(c) == Val(c, ActiveSize) == Val(Named(c), ActiveSize)
    ensures forall c :: SizeOf()(c) == Val(c, TotalSize) == Val(Named(c), TotalSize)
  {}

  lemma SumsFromLines(lines: seq<Line>, ns: seq<Node>)
    requires Listed(lines) == CachesOf(ns)
    ensures Sum(ns, Objs) == SumOf(lines, ObjsOf()) && Sum(ns, ActiveObjs) == SumOf(lines, ActiveObjsOf())
    ensures Sum(ns, Pages) == SumOf(lines, PagesOf())
    ensures Sum(ns, AllSlabs) == SumOf(lines, SlabsOf()) && Sum(ns, ActiveSlabs) == SumOf(lines, ActiveSlabsOf())
    ensures Sum(ns, Caches) == SumOf(lines, OneOf()) && Sum(ns, ActiveCaches) == SumOf(lines, InUseOf())
    ensures Sum(ns, ActiveSize) == SumOf(lines, ActiveSizeOf()) && Sum(ns, TotalSize) == SumOf(lines, SizeOf())
  {
    hide Val, Named, Listed, CachesOf, Sum, SumOf;
    hide ObjsOf, ActiveObjsOf, PagesOf, SlabsOf, ActiveSlabsOf, OneOf, InUseOf, ActiveSizeOf, SizeOf;
    ValuesPlain();
    SumsMatch(lines, ns, Objs, ObjsOf());
    SumsMatch(lines, ns, ActiveObjs, ActiveObjsOf());
    SumsMatch(lines, ns, Pages, PagesOf());
    SumsMatch(lines, ns, AllSlabs, SlabsOf());
    SumsMatch(lines, ns, ActiveSlabs, ActiveSlabsOf());
    SumsMatch(lines, ns, Caches, OneOf());
    SumsMatch(lines, ns, ActiveCaches, InUseOf());
    SumsMatch(lines, ns, ActiveSize, ActiveSizeOf());
    SumsMatch(lines, ns, TotalSize, SizeOf());
  }

  /** Every total of the summary is the sum of its column over the lines of the table, the
      extremes are those of the sizes listed. */
  lemma TotalsFromLines(lines: seq<Line>, s: Summ, ns: seq<Node>)
    requires Summarizes(s, ns) && Listed(lines) == CachesOf(ns)
    ensures TotalsOf(lines, s)
  {
    hide Sum, SumOf, Listed, CachesOf, SizeListed, Extremes;
    SumsFromLines(lines, ns);
    ExtremesListed(lines, s, ns);
    assert forall f :: Total(s, f) == Sum(ns, f);
    assert Total(s, Objs) == s.nrObjs && Total(s, ActiveObjs) == s.nrActiveObjs && Total(s, Pages) == s.nrPages;
    assert Total(s, AllSlabs) == s.nrSlabs && Total(s, ActiveSlabs) == s.nrActiveSlabs;
    assert Total(s, Caches) == s.nrCaches && Total(s, ActiveCaches) == s.nrActiveCaches;
    assert Total(s, ActiveSize) == s.activeSize;
    assert Total(s, TotalSize) == s.totalSize;
  }

  /** Of a table of good lines alone, cache i is that of line i, by its name unless it has
      none. */
  lemma {:induction false} ListedAt(lines: seq<Line>, i: nat)
    requires (forall k :: 0 <= k < |lines| ==> lines[k].Good?) && i < |lines|
    ensures |Listed(lines)| == |lines|
    ensures Listed(lines)[i] == if lines[i].cache.name == "" then lines[i].cache.(name := "unknown") else lines[i].cache
  {
    var n := |lines| - 1;
    if n > 0 {
      ListedAt(lines[..n], if i < n then i else 0);
    }
  }

  // ---------------------------------------------------------------------
  // Bounds
  // ---------------------------------------------------------------------

  lemma MulAtMost(a: nat, b: nat, n: nat)
    requires a <= b
    ensures a * n <= b * n
  {}

  lemma {:induction false} SizesBound(ns: seq<Node>, lo: nat, hi: nat)
    requires forall i :: 0 <= i < |ns| ==> lo <= ns[i].cache.objSize <= hi
    ensures lo * Sum(ns, Objs) <= Sum(ns, TotalSize) <= hi * Sum(ns, Objs)
  {
    if ns != [] {
      var rest, c := ns[..|ns| - 1], ns[|ns| - 1].cache;
      SizesBound(rest, lo, hi);
      BoundStep(lo, hi, Sum(rest, Objs), Sum(rest, TotalSize), c.nrObjs, c.objSize);
    }
  }

  lemma BoundStep(lo: nat, hi: nat, objs: nat, size: nat, n: nat, each: nat)
    requires lo * objs <= size <= hi * objs && lo <= each <= hi
    ensures lo * (objs + n) <= size + n * each <= hi * (objs + n)
  {
    MulAtMost(lo, each, n);
    MulAtMost(each, hi, n);
    assert lo * (objs + n) == lo * objs + lo * n && hi * (objs + n) == hi * objs + hi * n;
  }

  /** The average is weighted by objects and rounded down, and lies between the
      extremes as soon as there is an object. */
  lemma AverageBetween(s: Summ, ns: seq<Node>)
    requires Summarizes(s, ns) && s.nrObjs > 0 && s.avgObjSize == s.totalSize / s.nrObjs
    ensures s.minObjSize <= s.avgObjSize <= s.maxObjSize
  {
    SizesBound(ns, s.minObjSize, s.maxObjSize);
    assert Total(s, Objs) == Sum(ns, Objs) && Total(s, TotalSize) == Sum(ns, TotalSize);
    QuotientBetween(s.totalSize, s.nrObjs, s.minObjSize, s.maxObjSize);
  }

  lemma QuotientBetween(a: nat, n: nat, lo: nat, hi: nat)
    requires n > 0 && lo * n <= a <= hi * n
    ensures lo <= a / n <= hi
  {
    var q := a / n;
    assert a == q * n + a % n;
    if q < lo {
      assert (q + 1) * n == q * n + n;
      MulAtMost(q + 1, lo, n);
    }
  }

  lemma {:induction false} ActiveWithinTotal(ns: seq<Node>)
    requires forall i :: 0 <= i < |ns| ==> ns[i].cache.nrActiveObjs <= ns[i].cache.nrObjs
    ensures Sum(ns, ActiveSize) <= Sum(ns, TotalSize) && Sum(ns, ActiveObjs) <= Sum(ns, Objs)
  {
    if ns != [] {
      ActiveWithinTotal(ns[..|ns| - 1]);
      var c := ns[|ns| - 1].cache;
      assert c.nrActiveObjs * c.objSize <= c.nrObjs * c.objSize;
    }
  }

  /** When no cache claims more active objects than it has, neither do the totals. */
  lemma ActiveTotals(s: Summ, ns: seq<Node>)
    requires Summarizes(s, ns)
    requires forall i :: 0 <= i < |ns| ==> ns[i].cache.nrActiveObjs <= ns[i].cache.nrObjs
    ensures s.activeSize <= s.totalSize && s.nrActiveObjs <= s.nrObjs
  {
    ActiveWithinTotal(ns);
    assert Total(s, ActiveSize) == Sum(ns, ActiveSize) && Total(s, TotalSize) == Sum(ns, TotalSize);
    assert Total(s, ActiveObjs) == Sum(ns, ActiveObjs) && Total(s, Objs) == Sum(ns, Objs);
  }
}
