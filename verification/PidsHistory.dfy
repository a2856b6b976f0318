/** The per-task history of pids.c: two record arrays and two hash tables that
    are swapped at every sample.  The tables chain records by array index; what
    they implement is the plain map from a pid to the counters last recorded. */
module PidsHistory {

  import opened Common

  const HHASH_SIZE := 4096
  const NEWOLD_INIT := 1024
  const NEWOLD_GROW := 128

  /** Counters are unsigned 64-bit words; the deltas of a proc_t are 32-bit ints. */
  datatype Hst = Hst(tics: nat, maj: nat, min: nat, pid: int, lnk: int)
  /** What the reader hands over for one task. */
  datatype Task = Task(tid: int, utime: nat, stime: nat, majFlt: nat, minFlt: nat)
  datatype Rec = Rec(tics: nat, maj: nat, min: nat)
  datatype Delta = Delta(pcpu: int, maj: int, min: int)
  /** One fetch: the tasks it reads, and whether an item asked for history. */
  datatype Frame = Frame(tasks: seq<Task>, history: bool)

  /** Masking with 4095 is the Euclidean remainder, also for negative keys. */
  function Hash(pid: int): nat { pid % HHASH_SIZE }

  function Sub64(a: nat, b: nat): nat { (a - b) % WORD64 }

  function Tics(t: Task): nat { (t.utime + t.stime) % WORD64 }

  function RecOf(t: Task): Rec { Rec(Tics(t), t.majFlt, t.minFlt) }

  // ---------------------------------------------------------------------
  // The map a frame stands for, and the deltas the library promises
  // ---------------------------------------------------------------------

  function TasksMap(tasks: seq<Task>): map<int, Rec> {
    if tasks == [] then map[]
    else var t := tasks[|tasks| - 1]; TasksMap(tasks[..|tasks| - 1])[t.tid := RecOf(t)]
  }

  function FrameMap(f: Frame): map<int, Rec> {
    if f.history then TasksMap(f.tasks) else map[]
  }

  /** A task that was not in the previous frame has its whole tics as pcpu. */
  function DeltaOf(prev: map<int, Rec>, t: Task): Delta {
    if t.tid in prev then
      var h := prev[t.tid];
      Delta(Int(Sub64(Tics(t), h.tics)), Int(Sub64(t.majFlt, h.maj)), Int(Sub64(t.minFlt, h.min)))
    else
      Delta(Int(Tics(t)), 0, 0)
  }

  function DeltasOf(prev: map<int, Rec>, tasks: seq<Task>): seq<Delta> {
    seq(|tasks|, i requires 0 <= i < |tasks| => DeltaOf(prev, tasks[i]))
  }

  // ---------------------------------------------------------------------
  // Chains by array index
  // ---------------------------------------------------------------------

  /** The newest record below n whose pid hashes to v, or -1. */
  function LastIn(h: seq<Hst>, n: nat, v: nat): (k: int)
    requires n <= |h|
    ensures -1 <= k < n
  {
    if n == 0 then -1
    else if Hash(h[n - 1].pid) == v then n - 1
    else LastIn(h, n - 1, v)
  }

  /** Every bucket holds its newest record, and every record links to the next
      older one of its bucket: each lnk is smaller than its own index. */
  ghost predicate Chained(h: seq<Hst>, n: nat, table: seq<int>) {
    && n <= |h|
    && |table| == HHASH_SIZE
    && (forall v :: 0 <= v < HHASH_SIZE ==> table[v] == LastIn(h, n, v))
    && (forall i :: 0 <= i < n ==> h[i].lnk == LastIn(h, i, Hash(h[i].pid)))
  }

  lemma {:induction false} LastInIsNewest(h: seq<Hst>, n: nat, v: nat)
    requires n <= |h|
    ensures LastIn(h, n, v) >= 0 ==> Hash(h[LastIn(h, n, v)].pid) == v
    ensures forall i :: LastIn(h, n, v) < i < n ==> Hash(h[i].pid) != v
  {
    if n > 0 && Hash(h[n - 1].pid) != v {
      LastInIsNewest(h, n - 1, v);
    }
  }

  function HistMap(h: seq<Hst>, n: nat): map<int, Rec>
    requires n <= |h|
  {
    if n == 0 then map[]
    else HistMap(h, n - 1)[h[n - 1].pid := Rec(h[n - 1].tics, h[n - 1].maj, h[n - 1].min)]
  }

  ghost predicate SameLookup(a: map<int, Rec>, b: map<int, Rec>, pid: int) {
    (pid in a <==> pid in b) && (pid in a ==> a[pid] == b[pid])
  }

  lemma {:induction false} LookupBelow(h: seq<Hst>, n: nat, k: nat, pid: int)
    requires k <= n <= |h|
    requires forall i :: k <= i < n ==> h[i].pid != pid
    ensures SameLookup(HistMap(h, n), HistMap(h, k), pid)
  {
    if k < n {
      LookupBelow(h, n - 1, k, pid);
    }
  }

  /** Nothing above the newest record of its bucket can hold the pid. */
  lemma LookupAtNewest(h: seq<Hst>, n: nat, pid: int)
    requires n <= |h|
    ensures SameLookup(HistMap(h, n), HistMap(h, LastIn(h, n, Hash(pid)) + 1), pid)
    ensures LastIn(h, n, Hash(pid)) == -1 ==> pid !in HistMap(h, n)
    ensures var k := LastIn(h, n, Hash(pid)); k >= 0 ==>
      Hash(h[k].pid) == Hash(pid) && (h[k].pid == pid ==>
        pid in HistMap(h, k + 1) && HistMap(h, k + 1)[pid] == Rec(h[k].tics, h[k].maj, h[k].min))
      && (h[k].pid != pid ==> SameLookup(HistMap(h, k + 1), HistMap(h, k), pid))
  {
    LastInIsNewest(h, n, Hash(pid));
    LookupBelow(h, n, LastIn(h, n, Hash(pid)) + 1, pid);
  }

  lemma {:induction false} LastInPrefix(h: seq<Hst>, h': seq<Hst>, n: nat, v: nat)
    requires n <= |h| && n <= |h'|
    requires forall i :: 0 <= i < n ==> h[i].pid == h'[i].pid
    ensures LastIn(h, n, v) == LastIn(h', n, v)
  {
    if n > 0 {
      LastInPrefix(h, h', n - 1, v);
    }
  }

  lemma {:induction false} HistMapPrefix(h: seq<Hst>, h': seq<Hst>, n: nat)
    requires n <= |h| && n <= |h'|
    requires forall i :: 0 <= i < n ==> h[i] == h'[i]
    ensures HistMap(h, n) == HistMap(h', n)
  {
    if n > 0 {
      HistMapPrefix(h, h', n - 1);
    }
  }

  /** A longer or otherwise changed tail leaves the chains of the first n alone. */
  lemma ChainedPrefix(h: seq<Hst>, h': seq<Hst>, n: nat, table: seq<int>)
    requires Chained(h, n, table)
    requires n <= |h'|
    requires forall i :: 0 <= i < n ==> h[i] == h'[i]
    ensures Chained(h', n, table) && HistMap(h', n) == HistMap(h, n)
  {
    forall v | 0 <= v < HHASH_SIZE ensures table[v] == LastIn(h', n, v) {
      LastInPrefix(h, h', n, v);
    }
    forall i | 0 <= i < n ensures h'[i].lnk == LastIn(h', i, Hash(h'[i].pid)) {
      LastInPrefix(h, h', i, Hash(h[i].pid));
    }
    HistMapPrefix(h, h', n);
  }

  /** Pushing record n on its bucket keeps the chains and updates the map. */
  lemma ChainedPut(h: seq<Hst>, h': seq<Hst>, n: nat, table: seq<int>, table': seq<int>)
    requires Chained(h, n, table)
    requires n < |h'|
    requires forall i :: 0 <= i < n ==> h[i] == h'[i]
    requires h'[n].lnk == table[Hash(h'[n].pid)]
    requires table' == table[Hash(h'[n].pid) := n]
    ensures Chained(h', n + 1, table')
    ensures HistMap(h', n + 1)
            == HistMap(h, n)[h'[n].pid := Rec(h'[n].tics, h'[n].maj, h'[n].min)]
  {
    ChainedPrefix(h, h', n, table);
  }

  // ---------------------------------------------------------------------
  // The history object
  // ---------------------------------------------------------------------

  class HistoryInfo {
    var numTasks: nat
    var histSize: nat
    var histSav: array<Hst>
    var histNew: array<Hst>
    const hashOne: array<int>
    const hashTwo: array<int>
    const hashNul: array<int>
    var hashSav: array<int>
    var hashNew: array<int>
    /** Records behind the saved table; the source keeps no such count. */
    ghost var numSaved: nat

    ghost function Repr(): set<object>
      reads this
    { {this, histSav, histNew, hashOne, hashTwo, hashNul} }

    ghost predicate Valid()
      reads Repr()
    {
      && histSav != histNew
      && histSav.Length == histNew.Length == histSize
      && hashOne != hashTwo && hashOne != hashNul && hashTwo != hashNul
      && ((hashSav == hashOne && hashNew == hashTwo)
          || (hashSav == hashTwo && hashNew == hashOne))
      && hashOne.Length == hashTwo.Length == hashNul.Length == HHASH_SIZE
      && (forall v :: 0 <= v < HHASH_SIZE ==> hashNul[v] == -1)
      && numSaved <= histSize && numTasks <= histSize
      && Chained(histSav[..], numSaved, hashSav[..])
      && Chained(histNew[..], numTasks, hashNew[..])
    }

    ghost function Saved(): map<int, Rec>
      reads this, histSav
      requires numSaved <= histSav.Length
    { HistMap(histSav[..], numSaved) }

    ghost function Current(): map<int, Rec>
      reads this, histNew
      requires numTasks <= histNew.Length
    { HistMap(histNew[..], numTasks) }

    constructor ()
      ensures Valid() && Saved() == map[] && Current() == map[]
      ensures fresh(Repr())
    {
      numTasks, histSize, numSaved := 0, NEWOLD_INIT, 0;
      histSav := new Hst[NEWOLD_INIT];
      histNew := new Hst[NEWOLD_INIT];
      var one := new int[HHASH_SIZE](_ => -1);
      var two := new int[HHASH_SIZE](_ => -1);
      hashOne, hashTwo := one, two;
      hashNul := new int[HHASH_SIZE](_ => -1);
      hashSav, hashNew := one, two;
    }

    /** The record saved for pid, or -1: exactly what the map says. */
    method HistGet(pid: int) returns (v: int)
      requires Valid()
      ensures -1 <= v < numSaved
      ensures v == -1 <==> pid !in Saved()
      ensures v != -1 ==> Saved()[pid] == Rec(histSav[v].tics, histSav[v].maj, histSav[v].min)
    {
      hide LastIn, HistMap;
      v := hashSav[Hash(pid)];
      ghost var h := histSav[..];
      ghost var k := numSaved;
      while -1 < v
        invariant 0 <= k <= numSaved
        invariant v == LastIn(h, k, Hash(pid))
        invariant SameLookup(HistMap(h, numSaved), HistMap(h, k), pid)
        decreases k
      {
        LookupAtNewest(h, k, pid);
        if histSav[v].pid == pid {
          return;
        }
        k := v;
        v := histSav[v].lnk;
      }
      LookupAtNewest(h, k, pid);
    }

    method HistPut(slot: nat)
      requires Valid()
      requires slot == numTasks < histSize
      modifies histNew, hashNew, this`numTasks
      ensures Valid() && numTasks == old(numTasks) + 1
      ensures Saved() == old(Saved())
      ensures Current() == old(Current())[old(histNew[slot].pid) :=
                Rec(old(histNew[slot].tics), old(histNew[slot].maj), old(histNew[slot].min))]
    {
      hide Chained, HistMap;
      ghost var h, table := histNew[..], hashNew[..];
      var v := Hash(histNew[slot].pid);
      histNew[slot] := histNew[slot].(lnk := hashNew[v]);
      hashNew[v] := slot;
      numTasks := numTasks + 1;
      ChainedPut(h, histNew[..], slot, table, hashNew[..]);
    }

    method Grow()
      requires Valid()
      modifies this`histSize, this`histSav, this`histNew
      ensures Valid() && histSize == old(histSize) + NEWOLD_GROW
      ensures fresh(histSav) && fresh(histNew)
      ensures Saved() == old(Saved()) && Current() == old(Current())
    {
      ghost var hs, hn, ts, tn := histSav[..], histNew[..], hashSav[..], hashNew[..];
      var sav := new Hst[histSize + NEWOLD_GROW];
      var nxt := new Hst[histSize + NEWOLD_GROW];
      forall i | 0 <= i < histSize {
        sav[i] := histSav[i];
      }
      forall i | 0 <= i < histSize {
        nxt[i] := histNew[i];
      }
      ChainedPrefix(hs, sav[..], numSaved, ts);
      ChainedPrefix(hn, nxt[..], numTasks, tn);
      assert hashSav[..] == ts && hashNew[..] == tn;
      histSize, histSav, histNew := histSize + NEWOLD_GROW, sav, nxt;
    }

    /** Records a task for the next frame and answers its deltas against the last. */
    method MakeHist(p: Task) returns (d: Delta)
      requires Valid()
      modifies Repr()
      ensures Valid() && fresh(Repr() - old(Repr()))
      ensures Saved() == old(Saved())
      ensures Current() == old(Current())[p.tid := RecOf(p)]
      ensures d == DeltaOf(old(Saved()), p)
    {
      hide HistMap;
      var slot := numTasks;
      if slot + 1 >= histSize {
        Grow();
      }
      ghost var before := histNew[..];
      histNew[slot] := Hst(Tics(p), p.majFlt, p.minFlt, p.tid, histNew[slot].lnk);
      ChainedPrefix(before, histNew[..], numTasks, hashNew[..]);
      HistPut(slot);
      var h := HistGet(p.tid);
      if h != -1 {
        d := Delta(Int(Sub64(Tics(p), histSav[h].tics)),
                   Int(Sub64(p.majFlt, histSav[h].maj)), Int(Sub64(p.minFlt, histSav[h].min)));
      } else {
        d := Delta(Int(Tics(p)), 0, 0);
      }
    }

    /** What was current is now saved, and the next frame starts empty. */
    method Toggle()
      requires Valid()
      modifies this, hashSav
      ensures Valid() && Repr() == old(Repr())
      ensures Saved() == old(Current()) && Current() == map[]
    {
      ghost var h, table := histNew[..], hashNew[..];
      histSav, histNew := histNew, histSav;
      hashSav, hashNew := hashNew, hashSav;
      forall v | 0 <= v < HHASH_SIZE {
        hashNew[v] := hashNul[v];
      }
      numSaved, numTasks := numTasks, 0;
      assert histSav[..] == h && hashSav[..] == table;
    }

    /** The history part of one fetch: toggle, then tally every task read. */
    method Fetch(f: Frame) returns (ds: seq<Delta>)
      requires Valid()
      modifies Repr()
      ensures Valid() && fresh(Repr() - old(Repr()))
      ensures Saved() == old(Current()) && Current() == FrameMap(f)
      ensures ds == if f.history then DeltasOf(old(Current()), f.tasks) else []
    {
      hide Chained, HistMap, LastIn;
      Toggle();
      ds := [];
      if f.history {
        ghost var prev := Saved();
        for i := 0 to |f.tasks|
          invariant Valid() && fresh(Repr() - old(Repr()))
          invariant Saved() == prev && Current() == TasksMap(f.tasks[..i])
          invariant ds == DeltasOf(prev, f.tasks[..i])
        {
          var d := MakeHist(f.tasks[i]);
          ds := ds + [d];
          assert f.tasks[..i + 1][..i] == f.tasks[..i];
        }
        assert f.tasks[..|f.tasks|] == f.tasks;
      }
    }
  }

  // ---------------------------------------------------------------------
  // Whole runs
  // ---------------------------------------------------------------------

  function Before(frames: seq<Frame>, k: nat): map<int, Rec>
    requires k <= |frames|
  {
    if k == 0 then map[] else FrameMap(frames[k - 1])
  }

  /** Every fetch of a run answers its deltas against the fetch just before it. */
  method Run(frames: seq<Frame>) returns (out: seq<seq<Delta>>)
    ensures |out| == |frames|
    ensures forall k :: 0 <= k < |frames| ==>
              out[k] == if frames[k].history then DeltasOf(Before(frames, k), frames[k].tasks) else []
  {
    hide Chained, HistMap, TasksMap, DeltasOf;
    out := [];
    var info := new HistoryInfo();
    for k := 0 to |frames|
      invariant info.Valid() && fresh(info.Repr())
      invariant info.Current() == Before(frames, k)
      invariant |out| == k
      invariant forall j :: 0 <= j < k ==>
                  out[j] == if frames[j].history then DeltasOf(Before(frames, j), frames[j].tasks) else []
    {
      var ds := info.Fetch(frames[k]);
      out := out + [ds];
    }
  }

  ghost predicate DistinctTids(tasks: seq<Task>) {
    forall i, j :: 0 <= i < j < |tasks| ==> tasks[i].tid != tasks[j].tid
  }

  lemma {:induction false} TasksMapAt(tasks: seq<Task>, i: nat)
    requires DistinctTids(tasks) && i < |tasks|
    ensures tasks[i].tid in TasksMap(tasks) && TasksMap(tasks)[tasks[i].tid] == RecOf(tasks[i])
  {
    if i < |tasks| - 1 {
      TasksMapAt(tasks[..|tasks| - 1], i);
    }
  }

  /** The pcpu a run stores in the proc_t of pid in frame k. */
  function Pcpu(frames: seq<Frame>, k: nat, pid: int): int
    requires k < |frames| && pid in FrameMap(frames[k])
  {
    var tics := FrameMap(frames[k])[pid].tics;
    if pid in Before(frames, k) then Int(Sub64(tics, Before(frames, k)[pid].tics)) else Int(tics)
  }

  /** The tics the task really used since the frame before, all of them if that one
      did not list it. */
  function Used(frames: seq<Frame>, k: nat, pid: int): int
    requires k < |frames| && pid in FrameMap(frames[k])
  {
    FrameMap(frames[k])[pid].tics - if pid in Before(frames, k) then Before(frames, k)[pid].tics else 0
  }

  /** In a duplicate-free frame the delta stored for a task is Pcpu of its tid. */
  lemma PcpuIsReported(frames: seq<Frame>, k: nat, i: nat)
    requires k < |frames| && frames[k].history && DistinctTids(frames[k].tasks)
    requires i < |frames[k].tasks|
    ensures frames[k].tasks[i].tid in FrameMap(frames[k])
    ensures DeltasOf(Before(frames, k), frames[k].tasks)[i].pcpu
            == Pcpu(frames, k, frames[k].tasks[i].tid)
  {
    TasksMapAt(frames[k].tasks, i);
  }

  ghost predicate Throughout(frames: seq<Frame>, a: nat, b: nat, pid: int) {
    a <= b < |frames| && forall k :: a <= k <= b ==> pid in FrameMap(frames[k])
  }

  /** What a caller is given: the result slot is unsigned where the field is not. */
  function Reported(frames: seq<Frame>, k: nat, pid: int): nat
    requires k < |frames| && pid in FrameMap(frames[k])
  {
    Pcpu(frames, k, pid) % WORD32
  }

  function SumReported(frames: seq<Frame>, a: nat, b: nat, pid: int): nat
    requires Throughout(frames, a, b, pid)
    decreases b
  {
    Reported(frames, b, pid) + if a == b then 0 else SumReported(frames, a, b - 1, pid)
  }

  /** The tasks of the frame in front of frame k, if that kept history. */
  function PreviousTasks(frames: seq<Frame>, k: nat): seq<Task>
    requires k < |frames|
  {
    if k > 0 && frames[k - 1].history then frames[k - 1].tasks else []
  }

  /** Task by task, from the counters that were read: in the frame after one with the same task,
      the deltas are those of utime + stime, of the major and of the minor faults; without
      one they are all the tics, and no faults.  The task is known by its id alone. */
  lemma ReportsAre(frames: seq<Frame>, k: nat, i: nat)
    requires k < |frames| && i < |frames[k].tasks|
    ensures var us, t := PreviousTasks(frames, k), frames[k].tasks[i];
      var d := DeltasOf(Before(frames, k), frames[k].tasks)[i];
      && (DistinctTids(us) ==> forall j :: 0 <= j < |us| && us[j].tid == t.tid ==>
            d == Delta(Int((t.utime + t.stime) as int - (us[j].utime + us[j].stime)),
                       Int(t.majFlt as int - us[j].majFlt), Int(t.minFlt as int - us[j].minFlt)))
      && ((forall j :: 0 <= j < |us| ==> us[j].tid != t.tid) ==> d == Delta(Int(t.utime + t.stime), 0, 0))
  {
    var us, t := PreviousTasks(frames, k), frames[k].tasks[i];
    WordOf(t.utime + t.stime);
    assert Before(frames, k) == TasksMap(us);
    if forall j :: 0 <= j < |us| ==> us[j].tid != t.tid {
      OnlyListed(us, t.tid);
    }
    forall j | DistinctTids(us) && 0 <= j < |us| && us[j].tid == t.tid
      ensures DeltaOf(TasksMap(us), t)
              == Delta(Int((t.utime + t.stime) as int - (us[j].utime + us[j].stime)),
                       Int(t.majFlt as int - us[j].majFlt), Int(t.minFlt as int - us[j].minFlt))
    {
      TasksMapAt(us, j);
      TicsDiffer(t, us[j]);
      IntOfWord(t.majFlt, us[j].majFlt);
      IntOfWord(t.minFlt, us[j].minFlt);
    }
  }

  lemma {:induction false} OnlyListed(tasks: seq<Task>, tid: int)
    requires forall j :: 0 <= j < |tasks| ==> tasks[j].tid != tid
    ensures tid !in TasksMap(tasks)
  {
    if tasks != [] {
      OnlyListed(tasks[..|tasks| - 1], tid);
    }
  }

  lemma WordOf(x: int)
    ensures Int(x % WORD64) == Int(x)
  {
    IntShift(x, -(WORD32 * (x / WORD64)));
  }

  lemma TicsDiffer(t: Task, u: Task)
    ensures Int(Sub64(Tics(t), Tics(u))) == Int((t.utime + t.stime) as int - (u.utime + u.stime))
  {
    IntOfWord(Tics(t), Tics(u));
    var a, b: int := t.utime + t.stime, u.utime + u.stime;
    assert a % WORD64 - b % WORD64 == a - b + WORD32 * (WORD32 * (b / WORD64) - WORD32 * (a / WORD64));
    IntShift(a - b, WORD32 * (b / WORD64) - WORD32 * (a / WORD64));
  }

  lemma IntOfWord(a: nat, b: nat)
    ensures Int(Sub64(a, b)) == Int(a - b)
  {
    var d: int := a - b;
    assert d % WORD64 == d - WORD32 * (WORD32 * (d / WORD64));
    IntShift(d, -(WORD32 * (d / WORD64)));
  }

  lemma IntShift(d: int, m: int)
    ensures Int(d + WORD32 * m) == Int(d)
  {}

  /** The field holds the true number of tics exactly when that fits an int. */
  lemma PcpuIsTrue(frames: seq<Frame>, k: nat, pid: int)
    requires k < |frames| && pid in FrameMap(frames[k])
    ensures Pcpu(frames, k, pid) == Int(Used(frames, k, pid))
    ensures Pcpu(frames, k, pid) == Used(frames, k, pid) <==> FitsInt(Used(frames, k, pid))
  {
    if pid in Before(frames, k) {
      IntOfWord(FrameMap(frames[k])[pid].tics, Before(frames, k)[pid].tics);
    }
  }

  /** A caller is given the true number of tics exactly when that is not negative and fits an
      unsigned: 3000000000 tics are right although the field is -1294967296, and a pid that
      is reused by a task with fewer tics has used four billion. */
  lemma ReportedIsTrue(frames: seq<Frame>, k: nat, pid: int)
    requires k < |frames| && pid in FrameMap(frames[k])
    ensures Reported(frames, k, pid) == Used(frames, k, pid) % WORD32
    ensures Reported(frames, k, pid) == Used(frames, k, pid) <==> 0 <= Used(frames, k, pid) < WORD32
  {
    PcpuIsTrue(frames, k, pid);
    hide Pcpu, Used, FrameMap, Int, FitsInt;
    UnsignedInt(Used(frames, k, pid));
  }

  lemma UnsignedInt(x: int)
    ensures Int(x) % WORD32 == x % WORD32
    ensures x % WORD32 == x <==> 0 <= x < WORD32
  {}

  /** The fault deltas stay ints: each is the true difference exactly when that fits one. */
  lemma FaultsAreTrue(frames: seq<Frame>, k: nat, i: nat)
    requires k < |frames| && i < |frames[k].tasks| && frames[k].tasks[i].tid in Before(frames, k)
    ensures var t, d := frames[k].tasks[i], DeltasOf(Before(frames, k), frames[k].tasks)[i];
      var h := Before(frames, k)[t.tid]; var maj: int, min: int := t.majFlt - h.maj, t.minFlt - h.min;
      (d.maj == maj <==> FitsInt(maj)) && (d.min == min <==> FitsInt(min))
  {
    hide Int, FitsInt, Sub64, Before;
    var t := frames[k].tasks[i];
    var h := Before(frames, k)[t.tid];
    IntOfWord(t.majFlt, h.maj);
    IntOfWord(t.minFlt, h.min);
    IntIsTrue(t.majFlt - h.maj);
    IntIsTrue(t.minFlt - h.min);
  }

  lemma IntIsTrue(x: int)
    ensures Int(x) == x <==> FitsInt(x)
  {}

  /** Over any consecutive frames that all list a task first seen in frame a, the values a
      caller is given add up to its latest tics: modulo 2^32 whatever the counter did; and,
      when the counter never ran backwards, exactly if and only if no frame used 2^32 tics
      or more. */
  lemma {:induction false} PcpuTelescopes(frames: seq<Frame>, a: nat, b: nat, pid: int)
    requires Throughout(frames, a, b, pid)
    requires pid !in Before(frames, a)
    ensures SumReported(frames, a, b, pid) % WORD32 == FrameMap(frames[b])[pid].tics % WORD32
    ensures (forall k :: a <= k <= b ==> 0 <= Used(frames, k, pid)) ==>
              && SumReported(frames, a, b, pid) <= FrameMap(frames[b])[pid].tics
              && (SumReported(frames, a, b, pid) == FrameMap(frames[b])[pid].tics
                  <==> forall k :: a <= k <= b ==> Used(frames, k, pid) < WORD32)
    decreases b
  {
    hide FrameMap, Reported, Pcpu;
    ReportedIsTrue(frames, b, pid);
    if a < b {
      PcpuTelescopes(frames, a, b - 1, pid);
      AddMod(SumReported(frames, a, b - 1, pid), FrameMap(frames[b])[pid].tics, FrameMap(frames[b - 1])[pid].tics);
    }
  }

  lemma AddMod(x: int, a: int, b: int)
    requires x % WORD32 == b % WORD32
    ensures (x + (a - b) % WORD32) % WORD32 == a % WORD32
  {}
}
