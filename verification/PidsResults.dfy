/** The result stacks of pids.c: which strings a slot owns, when it is freed, and
    which stacks a fetch hands out.  A stack is an array of slots; extents are
    lists of stacks; the anchor consolidates the stacks of all extents. */
module PidsResults {

  import opened Common

  const STACKS_INIT := 1024
  const STACKS_GROW := 128
  /** free_acquired knows the first of the string fields only. */
  const ACQUIRED_FIELDS := 11
  const EINVAL := 22

  /** An item by the way its setter works; f is the proc_t field it copies.
      Str, Vec and Dup items are the ones with a freefunc. */
  datatype Item = Noop | Extra | Reg(f: nat) | Str(f: nat) | Vec(f: nat) | Dup(f: nat) | LogicalEnd

  predicate HasFree(i: Item) { i.Str? || i.Vec? || i.Dup? }

  /** The result union: plain bits (0 is also NULL) or the address of a heap string. */
  datatype Value = Bits(n: int) | Owned(id: nat)

  datatype Slot = Slot(item: Item, value: Value)

  type Stack = array<Slot>

  /** What a successful read leaves in the proc_t: its state, its string fields, of which
      some may be NULL, its character arrays, and its numeric fields. */
  datatype Read = Read(state: char, strs: seq<Option<string>>, chars: map<nat, string>, nums: map<nat, int>)

  predicate Filled(r: Read, f: nat) { f < |r.strs| && r.strs[f].Some? }

  function CharsOf(r: Read, f: nat): string { if f in r.chars then r.chars[f] else "" }

  /** What a heap string says: what was read, or the hint that field f was asked for
      more than once. */
  datatype Text = Content(s: string) | Duplicate(f: nat)

  datatype Counts = Counts(total: nat, running: nat, sleeping: nat, stopped: nat, zombied: nat, other: nat)

  /** A slot with a freefunc never holds plain bits other than NULL; one without
      never holds a heap string. */
  predicate SlotOk(x: Slot) {
    if HasFree(x.item) then x.value == Bits(0) || x.value.Owned? else x.value.Bits?
  }

  predicate WellFormed(items: seq<Item>) {
    |items| > 0 && items[|items| - 1].LogicalEnd?
    && forall i :: 0 <= i < |items| - 1 ==> !items[i].LogicalEnd?
  }

  /** The slots in front of the logical end. */
  function Depth(items: seq<Item>): nat { if items == [] then 0 else |items| - 1 }

  /** A stack of the given capacity, itemized, whose values beyond the logical end
      were never set. */
  predicate StackOk(x: seq<Slot>, items: seq<Item>, capacity: nat) {
    && |items| <= |x| == capacity
    && (forall i :: 0 <= i < |items| ==> x[i].item == items[i])
    && (forall i :: Depth(items) <= i < |x| ==> x[i].value == Bits(0))
    && (forall i :: 0 <= i < |x| ==> SlotOk(x[i]))
  }

  predicate AllZero(x: seq<Slot>) { forall i :: 0 <= i < |x| ==> x[i].value == Bits(0) }

  predicate TakesString(i: Item) { i.Str? || i.Vec? }

  /** Slot k is the first to ask for its string field. */
  predicate First(x: seq<Slot>, k: nat)
    requires k < |x| && TakesString(x[k].item)
  {
    forall j :: 0 <= j < k && TakesString(x[j].item) ==> x[j].item.f != x[k].item.f
  }

  predicate Says(v: Value, text: Text, heap: map<nat, Text>) { v.Owned? && v.id in heap && heap[v.id] == text }

  /** Slot k shows what one read delivered: the first slot of a string field the read's own
      string, if there was one, and any other slot of that field the hint. */
  predicate SlotShows(x: seq<Slot>, k: nat, r: Read, heap: map<nat, Text>)
    requires k < |x|
  {
    match x[k].item
    case Extra => x[k].value == Bits(0)
    case Reg(f) => f in r.nums ==> x[k].value == Bits(r.nums[f])
    case Noop => true
    case LogicalEnd => true
    case Dup(f) => Says(x[k].value, Content(CharsOf(r, f)), heap)
    case _ =>
      var f := x[k].item.f;
      Says(x[k].value, if Filled(r, f) && First(x, k) then Content(r.strs[f].value) else Duplicate(f), heap)
  }

  /** The stack shows what one read delivered, slot by slot. */
  predicate Shows(x: seq<Slot>, items: seq<Item>, r: Read, heap: map<nat, Text>) {
    |items| <= |x| && forall k :: 0 <= k < Depth(items) ==> x[k].item == items[k] && SlotShows(x, k, r, heap)
  }

  /** What a caller reads off a stack: the number of a numeric item, the text of a string item
      that no item in front of it took, the hint of one that was taken or not read, and the
      characters of an array. */
  lemma ShowsMeans(x: seq<Slot>, items: seq<Item>, r: Read, heap: map<nat, Text>, k: nat, f: nat)
    requires Shows(x, items, r, heap) && k < |items| - 1
    ensures items[k] == Reg(f) && f in r.nums ==> x[k].value == Bits(r.nums[f])
    ensures items[k] == Extra ==> x[k].value == Bits(0)
    ensures items[k] == Dup(f) && f in r.chars ==>
              x[k].value.Owned? && x[k].value.id in heap && heap[x[k].value.id] == Content(r.chars[f])
    ensures items[k] == Str(f) || items[k] == Vec(f) ==>
              && x[k].value.Owned? && x[k].value.id in heap
              && heap[x[k].value.id] ==
                   if f < |r.strs| && r.strs[f].Some?
                      && forall j :: 0 <= j < k ==> items[j] != Str(f) && items[j] != Vec(f)
                   then Content(r.strs[f].value) else Duplicate(f)
  {
    assert forall j :: 0 <= j <= k ==> x[j].item == items[j];
  }

  predicate Grows(h: map<nat, Text>, h': map<nat, Text>) { forall id :: id in h ==> id in h' && h'[id] == h[id] }

  lemma GrowsOn(a: map<nat, Text>, b: map<nat, Text>, c: map<nat, Text>)
    requires Grows(a, b) && Grows(b, c)
    ensures Grows(a, c)
  {}

  lemma ShowsGrows(x: seq<Slot>, items: seq<Item>, r: Read, h: map<nat, Text>, h': map<nat, Text>)
    requires Shows(x, items, r, h) && Grows(h, h')
    ensures Shows(x, items, r, h')
  {
    hide First, Filled;
  }

  // ---------------------------------------------------------------------
  // Tallies
  // ---------------------------------------------------------------------

  function Tally(c: Counts, state: char): Counts {
    var d := c.(total := c.total + 1);
    if state == 'R' then d.(running := c.running + 1)
    else if state == 'D' || state == 'S' then d.(sleeping := c.sleeping + 1)
    else if state == 't' || state == 'T' then d.(stopped := c.stopped + 1)
    else if state == 'Z' then d.(zombied := c.zombied + 1)
    else d.(other := c.other + 1)
  }

  function TallyAll(rs: seq<Read>): Counts {
    if rs == [] then Counts(0, 0, 0, 0, 0, 0)
    else Tally(TallyAll(rs[..|rs| - 1]), rs[|rs| - 1].state)
  }

  function CountOf(rs: seq<Read>, states: set<char>): nat {
    if rs == [] then 0
    else CountOf(rs[..|rs| - 1], states) + if rs[|rs| - 1].state in states then 1 else 0
  }

  /** Every task is tallied once, in the class of its state. */
  lemma {:induction false} TallyPartitions(rs: seq<Read>)
    ensures var c := TallyAll(rs);
      && c.running == CountOf(rs, {'R'}) && c.sleeping == CountOf(rs, {'D', 'S'})
      && c.stopped == CountOf(rs, {'t', 'T'}) && c.zombied == CountOf(rs, {'Z'})
      && c.total == |rs| == c.running + c.sleeping + c.stopped + c.zombied + c.other
  {
    if rs != [] {
      TallyPartitions(rs[..|rs| - 1]);
    }
  }

  // ---------------------------------------------------------------------
  // Setters
  // ---------------------------------------------------------------------

  /** The string fields still in the proc_t, the next address, and what the strings say. */
  datatype Mem = Mem(strs: map<nat, nat>, next: nat, heap: map<nat, Text>)

  function Alloc(m: Mem, text: Text): Mem { m.(next := m.next + 1, heap := m.heap[m.next := text]) }

  /** One setter: the slot it leaves, and the memory. */
  function SetSlot(x: Slot, m: Mem, r: Read): (Slot, Mem) {
    match x.item
    case Noop => (x, m)
    case Extra => (Slot(Extra, Bits(0)), m)
    case Reg(f) => if f in r.nums then (Slot(x.item, Bits(r.nums[f])), m) else (x, m)
    case Dup(f) => (Slot(x.item, Owned(m.next)), Alloc(m, Content(CharsOf(r, f))))
    case LogicalEnd => (x, m)
    case _ =>
      var f := x.item.f;
      if f in m.strs then (Slot(x.item, Owned(m.strs[f])), m.(strs := m.strs - {f}))
      else (Slot(x.item, Owned(m.next)), Alloc(m, Duplicate(f)))
  }

  /** What pids_assign_results leaves after its first k slots. */
  function SetSlots(x: seq<Slot>, k: nat, m: Mem, r: Read): (y: (seq<Slot>, Mem))
    requires k <= |x|
    ensures |y.0| == |x|
  {
    if k == 0 then (x, m)
    else
      var (y, n) := SetSlots(x, k - 1, m, r);
      var (slot, n') := SetSlot(x[k - 1], n, r);
      (y[k - 1 := slot], n')
  }

  /** The memory right after a read. */
  ghost predicate JustRead(m: Mem, r: Read) {
    && (forall id :: id in m.heap ==> id < m.next)
    && (forall f :: f in m.strs <==> Filled(r, f))
    && (forall f :: f in m.strs ==> m.strs[f] in m.heap && m.heap[m.strs[f]] == Content(r.strs[f].value))
  }

  /** Assigning keeps the items, leaves the slots behind the k-th alone, and changes no
      string. */
  lemma {:induction false} SetSlotsKeep(x: seq<Slot>, k: nat, m: Mem, r: Read)
    requires k <= |x| && forall id :: id in m.heap ==> id < m.next
    ensures var (y, n) := SetSlots(x, k, m, r);
      && (forall i :: 0 <= i < |x| ==> y[i].item == x[i].item) && (forall i :: k <= i < |x| ==> y[i] == x[i])
      && Grows(m.heap, n.heap) && (forall id :: id in n.heap ==> id < n.next)
  {
    if k > 0 {
      SetSlotsKeep(x, k - 1, m, r);
    }
  }

  /** The first slot asking for a string field takes the proc_t's own string; every
      later one gets a string of its own, allocated by the assignment. */
  lemma {:induction false} FirstSlotTakes(x: seq<Slot>, k: nat, i: nat, m: Mem, r: Read)
    requires i < k <= |x| && TakesString(x[i].item)
    ensures var f, y := x[i].item.f, SetSlots(x, k, m, r).0;
      y[i].value == if f in m.strs && First(x, i) then Owned(m.strs[f]) else Owned(SetSlots(x, i, m, r).1.next)
  {
    if i < k - 1 {
      FirstSlotTakes(x, k - 1, i, m, r);
    } else {
      StillThere(x, i, x[i].item.f, m, r);
    }
  }

  lemma {:induction false} StillThere(x: seq<Slot>, k: nat, f: nat, m: Mem, r: Read)
    requires k <= |x|
    ensures var n := SetSlots(x, k, m, r).1;
      && (f in n.strs <==> f in m.strs && forall j :: 0 <= j < k && TakesString(x[j].item) ==> x[j].item.f != f)
      && (f in n.strs ==> n.strs[f] == m.strs[f])
  {
    if k > 0 {
      StillThere(x, k - 1, f, m, r);
    }
  }

  /** Right after a read, every slot assigned shows that read. */
  lemma {:induction false} SetSlotsShow(x: seq<Slot>, k: nat, m: Mem, r: Read)
    requires k <= |x| && JustRead(m, r)
    ensures var (y, n) := SetSlots(x, k, m, r); forall i :: 0 <= i < k ==> SlotShows(y, i, r, n.heap)
  {
    SetSlotsKeep(x, k, m, r);
    if k > 0 {
      SetSlotsKeep(x, k - 1, m, r);
      SetSlotsShow(x, k - 1, m, r);
      var (y, n) := SetSlots(x, k - 1, m, r);
      var (z, o) := SetSlots(x, k, m, r);
      StepGrows(x[k - 1], n, r);
      forall i | 0 <= i < k ensures SlotShows(z, i, r, o.heap) {
        if i < k - 1 {
          StillShows(y, z, i, r, n.heap, o.heap);
        } else {
          LastShows(x, k - 1, m, r);
        }
      }
    }
  }

  lemma StepGrows(x: Slot, m: Mem, r: Read)
    requires forall id :: id in m.heap ==> id < m.next
    ensures Grows(m.heap, SetSlot(x, m, r).1.heap)
  {}

  lemma StillShows(y: seq<Slot>, z: seq<Slot>, i: nat, r: Read, h: map<nat, Text>, h': map<nat, Text>)
    requires i < |y| == |z| && SlotShows(y, i, r, h) && Grows(h, h')
    requires z[i] == y[i] && forall j :: 0 <= j < |y| ==> z[j].item == y[j].item
    ensures SlotShows(z, i, r, h')
  {
    hide Filled;
  }

  lemma LastShows(x: seq<Slot>, k: nat, m: Mem, r: Read)
    requires k < |x| && JustRead(m, r)
    ensures var (z, o) := SetSlots(x, k + 1, m, r); SlotShows(z, k, r, o.heap)
  {
    SetSlotsKeep(x, k, m, r);
    SetSlotsKeep(x, k + 1, m, r);
    if TakesString(x[k].item) {
      StillThere(x, k, x[k].item.f, m, r);
    }
    hide Filled;
  }

  // ---------------------------------------------------------------------
  // The ledger of heap strings
  // ---------------------------------------------------------------------

  datatype Cell = Cell(s: Stack, k: nat)

  /** Where a heap string is.  Freed strings were held by a slot before, Dropped
      ones never left their proc_t. */
  datatype Place = InSlot(c: Cell) | InProc(f: nat) | Freed | Dropped

  /** Every string ever allocated, the cells and proc_t fields that hold one, the
      strings a slot ever took, and every call of free(): bad counts the calls on
      something that is no string. */
  datatype Ledger = Ledger(owner: map<nat, Place>, held: map<Cell, nat>, proc: map<nat, nat>,
                           next: nat, taken: set<nat>, frees: multiset<nat>, bad: nat)
  {
    /** Each string is in exactly one place, and freed exactly once or not at all. */
    ghost predicate Ok() {
      && (forall id :: id in owner <==> 0 <= id < next)
      && (forall c :: c in held ==> held[c] in owner && owner[held[c]] == InSlot(c))
      && (forall f :: f in proc ==> proc[f] in owner && owner[proc[f]] == InProc(f))
      && (forall id :: id in owner ==>
            match owner[id]
            case InSlot(c) => c in held && held[c] == id && id !in frees
            case InProc(f) => f in proc && proc[f] == id && id !in frees
            case Freed => frees[id] == 1
            case Dropped => frees[id] <= 1)
      && (forall id :: id in frees ==> id in owner)
      && (forall id :: id in taken <==> id in owner && (owner[id].InSlot? || owner[id].Freed?))
      && bad == 0
    }

    /** free() on the content of a cell, which then holds v no longer. */
    function Free(c: Cell, v: Value): Ledger {
      match v
      case Bits(n) => if n == 0 then this else this.(bad := bad + 1)
      case Owned(id) => this.(owner := owner[id := Freed], held := held - {c}, frees := frees + multiset{id})
    }

    /** The proc_t's string moves to an empty cell. */
    function Take(c: Cell, f: nat): Ledger
      requires f in proc
    {
      this.(owner := owner[proc[f] := InSlot(c)], held := held[c := proc[f]], proc := proc - {f},
            taken := taken + {proc[f]})
    }

    /** A new string goes to an empty cell. */
    function Dup(c: Cell): Ledger {
      this.(owner := owner[next := InSlot(c)], held := held[c := next], taken := taken + {next}, next := next + 1)
    }

    /** A reader stores a new string in an empty proc_t field. */
    function Fill(f: nat): Ledger {
      this.(owner := owner[next := InProc(f)], proc := proc[f := next], next := next + 1)
    }

    /** A string leaves its proc_t field: freed when free_acquired knows the field. */
    function Drop(f: nat, acquired: bool): Ledger
      requires f in proc
    {
      this.(owner := owner[proc[f] := Dropped], proc := proc - {f},
            frees := if acquired then frees + multiset{proc[f]} else frees)
    }

    lemma FreeOk(c: Cell, v: Value)
      requires Ok()
      requires if v.Owned? then c in held && held[c] == v.id else v == Bits(0) && c !in held
      ensures Free(c, v).Ok() && c !in Free(c, v).held
    {}

    lemma TakeOk(c: Cell, f: nat)
      requires Ok() && f in proc && c !in held
      ensures Take(c, f).Ok()
    {}

    lemma DupOk(c: Cell)
      requires Ok() && c !in held
      ensures Dup(c).Ok()
    {}

    lemma FillOk(f: nat)
      requires Ok() && f !in proc
      ensures Fill(f).Ok()
    {}

    /** A string in its field is not freed, and in no other field. */
    lemma InProcOk(f: nat)
      requires Ok() && f in proc
      ensures proc[f] !in frees && forall g :: g in proc && proc[g] == proc[f] ==> g == f
    {}

    lemma DropOk(f: nat, acquired: bool)
      requires Ok() && f in proc
      ensures Drop(f, acquired).Ok()
    {}
  }

  class PidsInfo {
    var maxitems: nat
    var items: seq<Item>            // includes the logical end; its length is curitems
    var extents: seq<seq<Stack>>    // newest first
    var haveAnchor: bool
    var anchor: seq<Stack>
    var nInuse: nat
    var counts: Counts
    var results: seq<array?<Slot>>
    var procStrs: map<nat, nat>     // the string fields of fetch_proc that are not NULL
    var next: nat                   // the allocator: strings handed out so far
    var heap: map<nat, Text>        // what they say

    ghost var live: set<Stack>      // the stacks of all extents
    ghost var ledger: Ledger

    /** The slots and the ledger agree on who holds what. */
    ghost predicate Owning()
      reads this`ledger, this`procStrs, this`next, this`heap, this`live, live
    {
      && ledger.Ok() && ledger.proc == procStrs && ledger.next == next
      && (forall id :: id in heap <==> 0 <= id < next)
      && (forall c :: c in ledger.held ==> c.s in live && c.k < c.s.Length)
      && (forall s, k: nat :: s in live && k < s.Length ==>
            match s[k].value
            case Bits(_) => Cell(s, k) !in ledger.held
            case Owned(id) => Cell(s, k) in ledger.held && ledger.held[Cell(s, k)] == id)
    }

    ghost function Memory(): Mem
      reads this`procStrs, this`next, this`heap
    {
      Mem(procStrs, next, heap)
    }

    /** The body of pids_cleanup_stack's loop. */
    method ClearSlot(s: Stack, k: nat)
      requires Owning() && s in live && k < s.Length && SlotOk(s[k])
      modifies this`ledger, s
      ensures Owning() && ledger.taken == old(ledger.taken)
      ensures s[..] == old(s[..])[k := Slot(old(s[k].item), Bits(0))]
    {
      hide Ledger.Ok;
      var c := Cell(s, k);
      if HasFree(s[k].item) {
        ledger.FreeOk(c, s[k].value);
        ledger := ledger.Free(c, s[k].value);
      }
      s[k] := s[k].(value := Bits(0));
    }

    /** The setters of items that own nothing. */
    method SetBits(s: Stack, k: nat, n: int)
      requires Owning() && s in live && k < s.Length && s[k].value.Bits?
      modifies s
      ensures Owning()
      ensures s[..] == old(s[..])[k := Slot(old(s[k].item), Bits(n))]
    {
      s[k] := s[k].(value := Bits(n));
    }

    /** The proc_t's string moves into an empty slot. */
    method MoveString(s: Stack, k: nat, f: nat)
      requires Owning() && s in live && k < s.Length && s[k].value == Bits(0) && f in procStrs
      modifies this`ledger, this`procStrs, s
      ensures Owning() && old(ledger.taken) <= ledger.taken
      ensures s[..] == old(s[..])[k := Slot(old(s[k].item), Owned(old(procStrs[f])))]
      ensures procStrs == old(procStrs) - {f}
    {
      hide Ledger.Ok;
      var c := Cell(s, k);
      ledger.TakeOk(c, f);
      ledger := ledger.Take(c, f);
      s[k] := s[k].(value := Owned(procStrs[f]));
      procStrs := procStrs - {f};
    }

    /** strdup into an empty slot. */
    method NewString(s: Stack, k: nat, text: Text)
      requires Owning() && s in live && k < s.Length && s[k].value == Bits(0)
      modifies this`ledger, this`next, this`heap, s
      ensures Owning() && old(ledger.taken) <= ledger.taken
      ensures s[..] == old(s[..])[k := Slot(old(s[k].item), Owned(old(next)))]
      ensures next == old(next) + 1 && heap == old(heap)[old(next) := text]
    {
      hide Ledger.Ok;
      var c := Cell(s, k);
      ledger.DupOk(c);
      ledger := ledger.Dup(c);
      s[k] := s[k].(value := Owned(next));
      heap := heap[next := text];
      next := next + 1;
    }

    /** One setter call.  A setter that owns strings frees what its slot holds. */
    method AssignSlot(s: Stack, k: nat, r: Read)
      requires Owning() && s in live && k < s.Length && SlotOk(s[k])
      modifies this`ledger, this`next, this`heap, this`procStrs, s
      ensures Owning() && old(ledger.taken) <= ledger.taken
      ensures SlotOk(s[k]) && forall i :: 0 <= i < s.Length && i != k ==> s[i] == old(s[i])
      ensures (s[k], Memory()) == SetSlot(old(s[k]), old(Memory()), r)
    {
      hide Owning, CharsOf;
      match s[k].item {
        case Noop =>
        case LogicalEnd =>
        case Extra => SetBits(s, k, 0);
        case Reg(f) => if f in r.nums { SetBits(s, k, r.nums[f]); }
        case Dup(f) => ClearSlot(s, k); NewString(s, k, Content(CharsOf(r, f)));
        case _ =>
          var f := s[k].item.f;
          ClearSlot(s, k);
          if f in procStrs {
            MoveString(s, k, f);
          } else {
            NewString(s, k, Duplicate(f));
          }
      }
    }

    // -----------------------------------------------------------------
    // One stack
    // -----------------------------------------------------------------

    /** Walks to the logical end, freeing what the slots own. */
    method CleanupStack(s: Stack)
      requires Owning() && s in live && WellFormed(items) && StackOk(s[..], items, maxitems)
      modifies this`ledger, s
      ensures Owning() && ledger.taken == old(ledger.taken)
      ensures StackOk(s[..], items, maxitems) && AllZero(s[..])
    {
      hide Owning;
      var k := 0;
      while !s[k].item.LogicalEnd?
        invariant 0 <= k < |items| <= s.Length
        invariant Owning() && ledger.taken == old(ledger.taken)
        invariant StackOk(s[..], items, maxitems)
        invariant forall i :: 0 <= i < k ==> s[i].value == Bits(0)
        decreases |items| - k
      {
        ClearSlot(s, k);
        k := k + 1;
      }
    }

    /** pids_assign_results: one setter call per slot in front of the logical end. */
    method AssignResults(s: Stack, r: Read)
      requires Owning() && s in live && WellFormed(items) && StackOk(s[..], items, maxitems)
      requires JustRead(Memory(), r)
      modifies this`ledger, this`next, this`heap, this`procStrs, s
      ensures Owning() && old(ledger.taken) <= ledger.taken
      ensures (s[..], Memory()) == SetSlots(old(s[..]), Depth(items), old(Memory()), r)
      ensures StackOk(s[..], items, maxitems) && Shows(s[..], items, r, heap) && Grows(old(heap), heap)
    {
      hide Owning, SlotShows, JustRead, Grows;
      ghost var x, m := s[..], Memory();
      HeapBelow(m, r);
      var k := 0;
      while !s[k].item.LogicalEnd?
        invariant 0 <= k < |items| <= s.Length
        invariant Owning() && old(ledger.taken) <= ledger.taken
        invariant StackOk(s[..], items, maxitems)
        invariant (s[..], Memory()) == SetSlots(x, k, m, r)
        decreases |items| - k
      {
        SetSlotsKeep(x, k, m, r);
        ghost var y := s[..];
        AssignSlot(s, k, r);
        assert s[..] == y[k := s[k]];
        k := k + 1;
      }
      SetSlotsKeep(x, k, m, r);
      SetSlotsShow(x, k, m, r);
    }

    lemma HeapBelow(m: Mem, r: Read)
      requires JustRead(m, r)
      ensures forall id :: id in m.heap ==> id < m.next
    {}

    // -----------------------------------------------------------------
    // All stacks
    // -----------------------------------------------------------------

    /** Every live stack is itemized with the current items. */
    ghost predicate StacksOk()
      reads this`items, this`maxitems, this`live, live
    {
      forall s :: s in live ==> StackOk(s[..], items, maxitems)
    }

    ghost predicate StacksZero()
      reads this`live, live
    {
      forall s :: s in live ==> AllZero(s[..])
    }

    ghost predicate PoolOk()
      reads this`live, this`extents, this`haveAnchor, this`anchor
    {
      && live == (set e, s | e in extents && s in e :: s)
      && (haveAnchor ==> NoDuplicates(anchor) && forall s :: s in anchor ==> s in live)
    }

    ghost predicate Valid()
      reads this`maxitems, this`items, this`extents, this`haveAnchor, this`anchor, this`procStrs, this`next,
            this`heap, this`ledger, this`live, live
    {
      && (extents != [] || haveAnchor ==> items != [])
      && (items != [] ==> WellFormed(items)) && |items| <= maxitems
      && Owning() && StacksOk() && PoolOk()
    }

    /** procps_pids_new: without items a later reset is mandatory. */
    constructor (newitems: seq<Item>)
      requires LogicalEnd !in newitems
      ensures Valid() && fresh(this) && live == {} && !haveAnchor
      ensures items == if newitems == [] then [] else newitems + [LogicalEnd]
      ensures ledger == Ledger(map[], map[], map[], 0, {}, multiset{}, 0)
    {
      if newitems == [] {
        maxitems, items := 0, [];
      } else {
        maxitems, items := |newitems| + 1, newitems + [LogicalEnd];
      }
      extents, haveAnchor, anchor, nInuse, results, procStrs := [], false, [], 0, [], map[];
      counts := Counts(0, 0, 0, 0, 0, 0);
      next, heap, live, ledger := 0, map[], {}, Ledger(map[], map[], map[], 0, {}, multiset{}, 0);
    }

    ghost predicate ExtentZero(e: seq<Stack>)
      reads this`live, live
    {
      forall s :: s in e ==> s in live && AllZero(s[..])
    }

    lemma ExtentsCoverLive()
      requires PoolOk() && forall i :: 0 <= i < |extents| ==> ExtentZero(extents[i])
      ensures StacksZero()
    {}

    lemma ZeroHoldsNothing()
      requires Owning() && StacksZero()
      ensures ledger.held == map[]
    {
      assert forall c :: c in ledger.held ==> AllZero(c.s[..]) && c.s[..][c.k].Slot?;
    }

    /** The inner loop of pids_cleanup_stacks_all. */
    method CleanupExtent(e: seq<Stack>)
      requires Owning() && StacksOk() && WellFormed(items)
      requires forall s :: s in e ==> s in live
      modifies this`ledger, live
      ensures Owning() && StacksOk() && ledger.taken == old(ledger.taken)
      ensures ExtentZero(e)
      ensures forall s :: s in live && old(AllZero(s[..])) ==> AllZero(s[..])
    {
      hide Owning, SlotOk;
      for j := 0 to |e|
        invariant Owning() && StacksOk() && ledger.taken == old(ledger.taken)
        invariant ExtentZero(e[..j])
        invariant forall s :: s in live && old(AllZero(s[..])) ==> AllZero(s[..])
      {
        CleanupStack(e[j]);
      }
      assert e[..|e|] == e;
    }

    method CleanupStacksAll()
      requires Valid()
      modifies this`ledger, live
      ensures Valid() && ledger.taken == old(ledger.taken)
      ensures StacksZero() && ledger.held == map[]
    {
      hide Owning, StackOk, AllZero;
      for i := 0 to |extents|
        invariant Owning() && StacksOk() && ledger.taken == old(ledger.taken)
        invariant forall i' :: 0 <= i' < i ==> ExtentZero(extents[i'])
      {
        assert extents[i] in extents;
        CleanupExtent(extents[i]);
      }
      ExtentsCoverLive();
      ZeroHoldsNothing();
    }

    method ItemizeStack(s: Stack)
      requires Owning() && |items| <= s.Length && AllZero(s[..])
      modifies s
      ensures Owning()
      ensures StackOk(s[..], items, s.Length) && AllZero(s[..])
    {
      for i := 0 to |items|
        invariant forall j :: 0 <= j < s.Length ==> s[j].value == Bits(0)
        invariant forall j :: 0 <= j < i ==> s[j].item == items[j]
      {
        s[i] := s[i].(item := items[i]);
      }
    }

    method ItemizeExtent(e: seq<Stack>)
      requires Owning() && StacksZero()
      requires |items| <= maxitems && forall s :: s in live ==> s.Length == maxitems
      requires forall s :: s in e ==> s in live
      modifies live
      ensures Owning() && StacksZero()
      ensures forall s :: s in e ==> StackOk(s[..], items, maxitems)
      ensures forall s :: s in live && old(StackOk(s[..], items, maxitems)) ==> StackOk(s[..], items, maxitems)
    {
      hide Owning, StackOk, AllZero;
      for j := 0 to |e|
        invariant Owning() && StacksZero()
        invariant forall s :: s in e[..j] ==> StackOk(s[..], items, maxitems)
        invariant forall s :: s in live && old(StackOk(s[..], items, maxitems)) ==> StackOk(s[..], items, maxitems)
      {
        ItemizeStack(e[j]);
      }
      assert e[..|e|] == e;
    }

    method ItemizeStacksAll()
      requires Owning() && StacksZero() && PoolOk()
      requires |items| <= maxitems && forall s :: s in live ==> s.Length == maxitems
      modifies live
      ensures Owning() && StacksZero() && StacksOk()
    {
      hide Owning, StackOk, AllZero;
      for i := 0 to |extents|
        invariant Owning() && StacksZero()
        invariant forall i', s :: 0 <= i' < i && s in extents[i'] ==> StackOk(s[..], items, maxitems)
      {
        assert extents[i] in extents;
        ItemizeExtent(extents[i]);
      }
    }

    /** pids_stacks_alloc: a new extent, itemized and zeroed, in front of the others. */
    method StacksAlloc(n: nat) returns (ext: seq<Stack>)
      requires Valid() && items != []
      modifies this`extents, this`live
      ensures Valid() && |ext| == n && NoDuplicates(ext)
      ensures extents == [ext] + old(extents)
      ensures live == old(live) + set s | s in ext
      ensures forall s :: s in ext ==> fresh(s) && s !in old(live)
    {
      hide Ledger.Ok, Owning;
      ext := [];
      for i := 0 to n
        invariant Valid() && |ext| == i && NoDuplicates(ext)
        invariant extents == old(extents) && live == old(live)
        invariant forall s :: s in ext ==> fresh(s) && StackOk(s[..], items, maxitems) && AllZero(s[..])
      {
        var s := new Slot[maxitems](_ => Slot(Noop, Bits(0)));
        ItemizeStack(s);
        ext := ext + [s];
      }
      PushExtent(ext);
    }

    method PushExtent(ext: seq<Stack>)
      requires Valid() && items != []
      requires forall s :: s in ext ==> s !in live && StackOk(s[..], items, maxitems) && AllZero(s[..])
      modifies this`extents, this`live
      ensures Valid()
      ensures extents == [ext] + old(extents) && live == old(live) + set s | s in ext
    {
      hide Ledger.Ok, StackOk;
      extents := [ext] + extents;
      live := live + set s | s in ext;
      assert forall s, k: nat :: s in ext && k < s.Length ==> s[..][k].value == Bits(0);
    }

    // -----------------------------------------------------------------
    // Reset
    // -----------------------------------------------------------------

    /** Empties every stack, then gives all of them the new items; stacks that are
        too short are released first, and the anchor with them. */
    method Reset(newitems: seq<Item>) returns (rc: int)
      requires Valid()
      modifies this, live
      ensures Valid()
      ensures rc == if newitems == [] || LogicalEnd in newitems then -EINVAL else 0
      ensures ledger.taken == old(ledger.taken) && heap == old(heap)
      ensures forall s :: s in live ==> s in old(live)
      ensures rc == 0 ==> items == newitems + [LogicalEnd] && StacksZero() && ledger.held == map[]
      ensures rc == 0 && |newitems| < old(maxitems) ==>
                live == old(live) && haveAnchor == old(haveAnchor) && anchor == old(anchor)
      ensures rc == 0 && |newitems| >= old(maxitems) ==> live == {} && !haveAnchor
      ensures rc != 0 ==> items == old(items) && live == old(live) && ledger == old(ledger)
                          && forall s :: s in live ==> s[..] == old(s[..])
    {
      hide StackOk, AllZero, Ledger.Ok;
      if newitems == [] || LogicalEnd in newitems {
        return -EINVAL;
      }
      CleanupStacksAll();
      if items == newitems + [LogicalEnd] {
        return 0;
      }
      LiveLengths();
      if maxitems < |newitems| + 1 {
        extents, live := [], {};
        haveAnchor, anchor := false, [];
        maxitems := |newitems| + 1;
      }
      items := newitems + [LogicalEnd];
      ItemizeStacksAll();
      rc := 0;
    }

    lemma LiveLengths()
      requires StacksOk()
      ensures forall s :: s in live ==> s.Length == maxitems
    {}

    // -----------------------------------------------------------------
    // Fetch
    // -----------------------------------------------------------------

    /** A string is lost to its field, and freed when free_acquired knows the field. */
    method DropField(f: nat)
      requires Owning() && f in procStrs
      modifies this`ledger, this`procStrs
      ensures Owning() && procStrs == old(procStrs) - {f}
      ensures ledger.taken == old(ledger.taken) && ledger.held == old(ledger.held)
      ensures old(procStrs)[f] !in old(ledger.frees)
      ensures forall g :: g in old(procStrs) && old(procStrs)[g] == old(procStrs)[f] ==> g == f
      ensures ledger.frees == old(ledger.frees) + if f < ACQUIRED_FIELDS then multiset{old(procStrs)[f]} else multiset{}
    {
      hide Ledger.Ok;
      ledger.InProcOk(f);
      ledger.DropOk(f, f < ACQUIRED_FIELDS);
      ledger := ledger.Drop(f, f < ACQUIRED_FIELDS);
      procStrs := procStrs - {f};
    }

    /** free_acquired: of the strings in the proc_t it frees those of the fields it knows,
        and nothing else, least of all what a slot has taken. */
    method FreeAcquired()
      requires Owning()
      modifies this`ledger, this`procStrs
      ensures Owning() && procStrs == map[]
      ensures ledger.taken == old(ledger.taken) && ledger.held == old(ledger.held)
      ensures forall f :: f in old(procStrs) ==> (old(procStrs)[f] in ledger.frees <==> f < 11)
      ensures forall id :: id !in old(procStrs).Values ==> ledger.frees[id] == old(ledger.frees)[id]
    {
      hide Owning;
      ghost var all := procStrs;
      while procStrs != map[]
        invariant Owning()
        invariant ledger.taken == old(ledger.taken) && ledger.held == old(ledger.held)
        invariant forall f :: f in procStrs ==> f in all && procStrs[f] == all[f]
        invariant forall f :: f in all && f !in procStrs ==> (all[f] in ledger.frees <==> f < ACQUIRED_FIELDS)
        invariant forall f, g :: f in procStrs && g in all && all[g] == all[f] ==> g in procStrs
        invariant forall id :: id !in all.Values ==> ledger.frees[id] == old(ledger.frees)[id]
        decreases procStrs.Keys
      {
        var f :| f in procStrs;
        DropField(f);
      }
    }

    /** One read_something call that finds a task. */
    method ReadSomething(r: Read)
      requires Owning()
      modifies this`ledger, this`procStrs, this`next, this`heap
      ensures Owning() && ledger.taken == old(ledger.taken)
      ensures JustRead(Memory(), r) && Grows(old(heap), heap)
    {
      FreeAcquired();
      FillFields(r);
      HeapIsBelow();
    }

    lemma HeapIsBelow()
      requires Owning()
      ensures forall id :: id in heap <==> 0 <= id < next
    {}

    method FillFields(r: Read)
      requires Owning() && procStrs == map[]
      modifies this`ledger, this`procStrs, this`next, this`heap
      ensures Owning() && ledger.taken == old(ledger.taken) && Grows(old(heap), heap)
      ensures forall f :: f in procStrs <==> Filled(r, f)
      ensures forall f :: f in procStrs ==>
                Filled(r, f) && procStrs[f] in heap && heap[procStrs[f]] == Content(r.strs[f].value)
    {
      hide Owning;
      for f := 0 to |r.strs|
        invariant Owning() && ledger.taken == old(ledger.taken) && Grows(old(heap), heap)
        invariant forall g :: g in procStrs <==> 0 <= g < f && r.strs[g].Some?
        invariant forall g :: g in procStrs ==>
                    procStrs[g] in heap && heap[procStrs[g]] == Content(r.strs[g].value)
      {
        if r.strs[f].Some? {
          HeapIsBelow();
          FillField(f, r.strs[f].value);
        }
      }
    }

    method FillField(f: nat, text: string)
      requires Owning() && f !in procStrs
      modifies this`ledger, this`procStrs, this`next, this`heap
      ensures Owning() && ledger.taken == old(ledger.taken)
      ensures procStrs == old(procStrs)[f := old(next)] && next == old(next) + 1
      ensures heap == old(heap)[old(next) := Content(text)]
    {
      hide Ledger.Ok;
      ledger.FillOk(f);
      ledger := ledger.Fill(f);
      procStrs := procStrs[f := next];
      heap := heap[next := Content(text)];
      next := next + 1;
    }

    /** Makes sure the anchor has a stack for the next task. */
    method GrowAnchor(n: nat)
      requires Valid() && items != [] && (haveAnchor ==> n <= |anchor|) && (!haveAnchor ==> n == 0)
      modifies this`extents, this`live, this`anchor, this`haveAnchor
      ensures Valid() && haveAnchor && n < |anchor|
      ensures old(haveAnchor) ==> old(anchor) <= anchor
      ensures old(live) <= live && forall s :: s in live ==> s in old(live) || fresh(s)
    {
      hide Owning, StackOk;
      if !haveAnchor {
        var ext := StacksAlloc(STACKS_INIT);
        haveAnchor, anchor := true, ext;
      } else if n == |anchor| {
        var ext := StacksAlloc(STACKS_GROW);
        NoDuplicatesConcat(anchor, ext);
        anchor := anchor + ext;
      }
    }

    /** The stacks filled so far show what was read for them, in order. */
    ghost predicate FilledUpTo(rs: seq<Read>, n: nat)
      requires n <= |rs|
      reads this`items, this`anchor, this`nInuse, this`counts, this`heap, this`live, live
    {
      && nInuse == n <= |anchor| && counts == TallyAll(rs[..n])
      && (forall i :: 0 <= i < n ==> anchor[i] in live && Shows(anchor[i][..], items, rs[i], heap))
    }

    /** pids_stacks_fetch and the result it leaves: one stack per task, in the order
        the tasks were read, delimited by NULL. */
    method Fetch(rs: seq<Read>)
      requires Valid() && items != []
      modifies this, live
      ensures Valid() && items == old(items) && old(ledger.taken) <= ledger.taken && Grows(old(heap), heap)
      ensures nInuse == |rs| < |results| && results[nInuse] == null
      ensures counts == TallyAll(rs)
      ensures forall i, j :: 0 <= i < j < nInuse ==> results[i] != results[j]
      ensures forall i :: 0 <= i < nInuse ==>
                results[i] != null && results[i] in live && Shows(results[i][..], items, rs[i], heap)
      ensures procStrs == map[]
      ensures haveAnchor && (old(haveAnchor) ==> old(anchor) <= anchor) && old(live) <= live
      ensures forall i :: 0 <= i < nInuse ==> i < |anchor| && results[i] == anchor[i]
      ensures forall s :: s in live ==> s in old(live) || fresh(s)
    {
      hide Owning, StacksOk, TallyAll, Shows, WellFormed;
      FetchTasks(rs);
      FreeAcquired();
      assert rs[..|rs|] == rs;
      Deliver();
    }

    method FetchTasks(rs: seq<Read>)
      requires Valid() && items != []
      modifies this, live
      ensures Valid() && items == old(items) && old(ledger.taken) <= ledger.taken && Grows(old(heap), heap)
      ensures haveAnchor && FilledUpTo(rs, |rs|)
      ensures (old(haveAnchor) ==> old(anchor) <= anchor) && old(live) <= live
      ensures forall s :: s in live ==> s in old(live) || fresh(s)
    {
      hide Owning, StacksOk, TallyAll, Shows, WellFormed, PoolOk;
      GrowAnchor(0);
      counts, nInuse := Counts(0, 0, 0, 0, 0, 0), 0;
      EmptyTally();
      assert rs[..0] == [];
      for n := 0 to |rs|
        invariant Valid() && items == old(items) && old(ledger.taken) <= ledger.taken && Grows(old(heap), heap)
        invariant forall s :: s in live ==> s in old(live) || fresh(s)
        invariant haveAnchor && FilledUpTo(rs, n)
        invariant (old(haveAnchor) ==> old(anchor) <= anchor) && old(live) <= live
      {
        GrowAnchor(n);
        AnchorIsLive();
        FetchOne(rs, n);
      }
    }

    /** One turn of the fetch loop: read, tally, assign. */
    method FetchOne(rs: seq<Read>, n: nat)
      requires Valid() && items != [] && haveAnchor && n < |anchor| && n < |rs| && FilledUpTo(rs, n)
      modifies this`ledger, this`procStrs, this`next, this`heap, this`counts, this`nInuse, anchor[n]
      ensures Valid() && old(ledger.taken) <= ledger.taken && Grows(old(heap), heap) && FilledUpTo(rs, n + 1)
    {
      hide Owning, StackOk, Shows, TallyAll, Tally, JustRead, Grows;
      ghost var h := heap;
      ReadSomething(rs[n]);
      ghost var h' := heap;
      counts := Tally(counts, rs[n].state);
      TallyStep(rs, n);
      StackIsOk(anchor[n]);
      nInuse := n + 1;
      AssignResults(anchor[n], rs[n]);
      forall i | 0 <= i < n ensures Shows(anchor[i][..], items, rs[i], heap) {
        ShowsGrows(anchor[i][..], items, rs[i], h, h');
        ShowsGrows(anchor[i][..], items, rs[i], h', heap);
      }
      GrowsOn(h, h', heap);
    }

    lemma AnchorIsLive()
      requires PoolOk() && haveAnchor
      ensures forall i :: 0 <= i < |anchor| ==> anchor[i] in live
    {}

    /** The array handed to the caller grows to fit and never shrinks. */
    method Deliver()
      requires nInuse <= |anchor|
      modifies this`results
      ensures |results| > nInuse && results[nInuse] == null
      ensures forall i :: 0 <= i < nInuse ==> results[i] == anchor[i]
    {
      var shown: seq<array?<Slot>> := anchor[..nInuse] + [null];
      results := shown + if |results| > nInuse + 1 then results[nInuse + 1..] else [];
    }

    /** procps_pids_reap, which wants at least one task, and procps_pids_select. */
    method Harvest(rs: seq<Read>, select: bool) returns (ok: bool)
      requires Valid()
      modifies this, live
      ensures Valid() && items == old(items) && old(ledger.taken) <= ledger.taken && Grows(old(heap), heap)
      ensures ok <==> items != [] && (select || rs != [])
      ensures ok ==> nInuse == |rs| && counts == TallyAll(rs)
      ensures ok ==> |rs| < |results| && results[|rs|] == null
      ensures ok ==> forall i, j :: 0 <= i < j < |rs| ==> results[i] != results[j]
      ensures ok ==> forall i :: 0 <= i < |rs| ==>
                results[i] != null && results[i] in live && Shows(results[i][..], items, rs[i], heap)
      ensures forall s :: s in live ==> s in old(live) || fresh(s)
    {
      if items == [] {
        return false;
      }
      hide Owning, StacksOk, TallyAll, Shows, WellFormed, PoolOk;
      Fetch(rs);
      ok := select || nInuse > 0;
    }

    /** What the results show, stack by stack. */
    method Snapshot(n: nat) returns (stacks: seq<seq<Slot>>)
      requires n <= |results| && forall i :: 0 <= i < n ==> results[i] != null
      ensures |stacks| == n && forall i :: 0 <= i < n ==> stacks[i] == results[i][..]
    {
      stacks := [];
      for i := 0 to n
        invariant |stacks| == i && forall j :: 0 <= j < i ==> stacks[j] == results[j][..]
      {
        stacks := stacks + [results[i][..]];
      }
    }

    /** procps_pids_unref when the last reference goes. */
    method Unref()
      requires Valid()
      modifies this, live
      ensures Valid() && live == {} && ledger.held == map[] && ledger.taken == old(ledger.taken) && heap == old(heap)
    {
      hide Ledger.Ok, StackOk, AllZero;
      CleanupStacksAll();
      extents, live := [], {};
      haveAnchor, anchor := false, [];
    }

    lemma StackIsOk(s: Stack)
      requires StacksOk() && s in live
      ensures StackOk(s[..], items, maxitems)
    {}
  }

  lemma EmptyTally()
    ensures TallyAll([]) == Counts(0, 0, 0, 0, 0, 0)
  {}

  lemma TallyStep(rs: seq<Read>, n: nat)
    requires n < |rs|
    ensures TallyAll(rs[..n + 1]) == Tally(TallyAll(rs[..n]), rs[n].state)
  {
    assert rs[..n + 1][..n] == rs[..n];
  }

  // ---------------------------------------------------------------------
  // Whole sessions
  // ---------------------------------------------------------------------

  datatype Op = DoReset(items: seq<Item>) | DoHarvest(rs: seq<Read>, select: bool)

  /** No string is ever freed twice, nothing but strings is freed, and a string that
      no slot holds any more was freed exactly once if a slot ever held it. */
  lemma FreedOnce(l: Ledger)
    requires l.Ok()
    ensures forall id :: l.frees[id] <= 1
    ensures forall id :: id in l.taken ==> l.frees[id] == 1 || exists c :: c in l.held && l.held[c] == id
    ensures forall c, c' :: c in l.held && c' in l.held && l.held[c] == l.held[c'] ==> c == c'
  {
    forall id ensures l.frees[id] <= 1 {
      if id in l.frees {
        assert id in l.owner;
      }
    }
    forall id | id in l.taken
      ensures l.frees[id] == 1 || exists c :: c in l.held && l.held[c] == id
    {
      match l.owner[id]
      case InSlot(c) => assert c in l.held && l.held[c] == id;
      case Freed =>
    }
  }

  /** What the library answers, with the stacks as they are then. */
  datatype Answer = ResetTo(rc: int) | Harvested(ok: bool, counts: Counts, stacks: seq<seq<Slot>>)

  /** The items in force after some operations: those of the last reset that was accepted. */
  function ItemsIn(first: seq<Item>, ops: seq<Op>): seq<Item> {
    if ops == [] then (if first == [] then [] else first + [LogicalEnd])
    else
      match ops[|ops| - 1]
      case DoHarvest(_, _) => ItemsIn(first, ops[..|ops| - 1])
      case DoReset(items) =>
        if items == [] || LogicalEnd in items then ItemsIn(first, ops[..|ops| - 1]) else items + [LogicalEnd]
  }

  lemma ItemsStep(first: seq<Item>, ops: seq<Op>, k: nat)
    requires k < |ops|
    ensures ItemsIn(first, ops[..k + 1])
            == match ops[k]
               case DoHarvest(_, _) => ItemsIn(first, ops[..k])
               case DoReset(items) =>
                 if items == [] || LogicalEnd in items then ItemsIn(first, ops[..k]) else items + [LogicalEnd]
  {
    assert ops[..k + 1][..k] == ops[..k];
  }

  /** The answer is that to the operation, under the items in force. */
  predicate Answers(a: Answer, op: Op, items: seq<Item>, heap: map<nat, Text>) {
    match op
    case DoReset(newitems) => a == ResetTo(if newitems == [] || LogicalEnd in newitems then -22 else 0)
    case DoHarvest(rs, select) =>
      && a.Harvested? && (a.ok <==> items != [] && (select || rs != []))
      && (a.ok ==> a.counts == TallyAll(rs) && |a.stacks| == |rs|
                   && forall i :: 0 <= i < |rs| ==> Shows(a.stacks[i], items, rs[i], heap))
  }

  lemma AnswersGrow(a: Answer, op: Op, items: seq<Item>, h: map<nat, Text>, h': map<nat, Text>)
    requires Answers(a, op, items, h) && Grows(h, h')
    ensures Answers(a, op, items, h')
  {
    hide Shows, Grows;
    if op.DoHarvest? && a.ok {
      forall i | 0 <= i < |op.rs| ensures Shows(a.stacks[i], items, op.rs[i], h') {
        ShowsGrows(a.stacks[i], items, op.rs[i], h, h');
      }
    }
  }

  /** Whatever is reset and harvested: every answer is that to its operation, under the items
      of the last reset that was accepted, and every harvest shows its own reads.  At the end
      every string a slot ever took has been freed exactly once, and free() was never called
      on anything else. */
  method Session(first: seq<Item>, ops: seq<Op>) returns (info: PidsInfo, answers: seq<Answer>)
    requires LogicalEnd !in first
    ensures |answers| == |ops|
    ensures forall k :: 0 <= k < |ops| ==> Answers(answers[k], ops[k], ItemsIn(first, ops[..k]), info.heap)
    ensures info.ledger.bad == 0
    ensures forall id :: info.ledger.frees[id] <= 1
    ensures forall id :: id in info.ledger.taken ==> info.ledger.frees[id] == 1
  {
    hide AnswersTo, Answers, Grows, ItemsIn, PidsInfo.Owning, PidsInfo.StacksOk, PidsInfo.PoolOk, WellFormed, Ledger.Ok;
    info := new PidsInfo(first);
    answers := [];
    FirstItems(first, ops, info.heap);
    for k := 0 to |ops|
      invariant info.Valid() && fresh(info) && fresh(info.live) && info.items == ItemsIn(first, ops[..k])
      invariant AnswersTo(answers, first, ops, k, info.heap)
    {
      ItemsStep(first, ops, k);
      ghost var h := info.heap;
      var a := Perform(info, ops[k]);
      AnswersSnoc(answers, a, first, ops, k, h, info.heap);
      answers := answers + [a];
    }
    info.Unref();
    AllAnswered(answers, first, ops, info.heap);
    FreedAll(info);
  }

  lemma FreedAll(info: PidsInfo)
    requires info.Valid() && info.ledger.held == map[]
    ensures info.ledger.bad == 0
    ensures forall id :: info.ledger.frees[id] <= 1
    ensures forall id :: id in info.ledger.taken ==> info.ledger.frees[id] == 1
  {
    hide PidsInfo.StacksOk, PidsInfo.PoolOk, WellFormed;
    FreedOnce(info.ledger);
  }

  /** The first k operations are answered. */
  ghost predicate AnswersTo(answers: seq<Answer>, first: seq<Item>, ops: seq<Op>, k: nat, heap: map<nat, Text>) {
    |answers| == k <= |ops| && forall j :: 0 <= j < k ==> Answers(answers[j], ops[j], ItemsIn(first, ops[..j]), heap)
  }

  lemma AllAnswered(answers: seq<Answer>, first: seq<Item>, ops: seq<Op>, heap: map<nat, Text>)
    requires AnswersTo(answers, first, ops, |ops|, heap)
    ensures |answers| == |ops|
    ensures forall k :: 0 <= k < |ops| ==> Answers(answers[k], ops[k], ItemsIn(first, ops[..k]), heap)
  {}

  lemma AnswersSnoc(answers: seq<Answer>, a: Answer, first: seq<Item>, ops: seq<Op>, k: nat, h: map<nat, Text>,
                    h': map<nat, Text>)
    requires AnswersTo(answers, first, ops, k, h) && k < |ops| && Grows(h, h')
    requires Answers(a, ops[k], ItemsIn(first, ops[..k]), h')
    ensures AnswersTo(answers + [a], first, ops, k + 1, h')
  {
    hide Answers, Grows, ItemsIn;
    forall j | 0 <= j < k ensures Answers(answers[j], ops[j], ItemsIn(first, ops[..j]), h') {
      AnswersGrow(answers[j], ops[j], ItemsIn(first, ops[..j]), h, h');
    }
  }

  lemma FirstItems(first: seq<Item>, ops: seq<Op>, heap: map<nat, Text>)
    ensures AnswersTo([], first, ops, 0, heap)
    ensures ItemsIn(first, ops[..0]) == if first == [] then [] else first + [LogicalEnd]
  {}

  /** One operation of a session. */
  method Perform(info: PidsInfo, op: Op) returns (a: Answer)
    requires info.Valid()
    modifies info, info.live
    ensures info.Valid() && Grows(old(info.heap), info.heap)
    ensures Answers(a, op, old(info.items), info.heap)
    ensures info.items == match op
                          case DoHarvest(_, _) => old(info.items)
                          case DoReset(items) =>
                            if items == [] || LogicalEnd in items then old(info.items) else items + [LogicalEnd]
    ensures forall s :: s in info.live ==> s in old(info.live) || fresh(s)
  {
    hide Shows, TallyAll, PidsInfo.Owning, PidsInfo.StacksOk, PidsInfo.PoolOk, WellFormed;
    match op {
      case DoReset(items) =>
        var rc := info.Reset(items);
        a := ResetTo(rc);
      case DoHarvest(rs, select) =>
        var ok := info.Harvest(rs, select);
        var stacks := [];
        if ok {
          stacks := info.Snapshot(|rs|);
        }
        a := Harvested(ok, info.counts, stacks);
    }
  }
}
