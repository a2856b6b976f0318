/** The thread iterator of readproc.c: readeither keeps its place in static
    variables between calls, and walks the task directory of every process. */
module ReadEither {

  import opened Common

  /** An entry of a task directory, and whether its files can be read. */
  datatype Ent = Ent(tid: int, ok: bool)

  /** A process the finder comes to: its ids, whether its base directory can be
      read, whether its task directory opens, and what that lists. */
  datatype Proc = Proc(tid: int, tgid: int, baseOk: bool, openOk: bool, tasks: seq<Ent>)

  /** A task as returned, and whether it was read through the base directory. */
  datatype Task = Task(tgid: int, tid: int, viaBase: bool)

  class ProcT {
    var tid: int
    var tgid: int
  }

  // ---------------------------------------------------------------------
  // What a complete scan returns
  // ---------------------------------------------------------------------

  predicate Readable(p: Proc, e: Ent) { if e.tid == p.tid then p.baseOk else e.ok }

  /** The tasks in front of the first that cannot be read. */
  function Tasks(p: Proc, ents: seq<Ent>): seq<Task> {
    if ents == [] || !Readable(p, ents[0]) then []
    else [Task(p.tgid, ents[0].tid, ents[0].tid == p.tid)] + Tasks(p, ents[1..])
  }

  function TasksOf(p: Proc, taskDirMissing: bool): seq<Task> {
    if taskDirMissing then (if p.baseOk then [Task(p.tgid, p.tid, true)] else [])
    else if p.openOk then Tasks(p, p.tasks)
    else []
  }

  function AllTasks(procs: seq<Proc>, taskDirMissing: bool): seq<Task> {
    if procs == [] then []
    else TasksOf(procs[0], taskDirMissing) + AllTasks(procs[1..], taskDirMissing)
  }

  predicate DistinctTgids(procs: seq<Proc>) {
    && (forall i :: 0 <= i < |procs| ==> procs[i].tgid > 0)
    && (forall i, j :: 0 <= i < j < |procs| ==> procs[i].tgid != procs[j].tgid)
  }

  // ---------------------------------------------------------------------
  // The scan
  // ---------------------------------------------------------------------

  class Scanner {
    // the PROCTAB
    const procs: seq<Proc>
    const taskDirMissing: bool
    var pos: nat                 // directory entries the finder has consumed
    var taskdirUser: int
    var taskdir: Option<seq<Ent>>  // the entries readdir has yet to deliver
    // the statics of readeither
    var skelTid: int
    var skelTgid: int
    var newP: ProcT?
    var canary: int
    var leader: int

    ghost predicate Valid()
      reads this
    {
      && DistinctTgids(procs)
      && pos <= |procs|
      && (taskdirUser == -1 || exists i :: 0 <= i < pos && procs[i].tgid == taskdirUser)
      && (pos > 0 ==> skelTid == leader == procs[pos - 1].tid && skelTgid == procs[pos - 1].tgid)
      && (pos > 0 && taskdirUser == skelTgid ==> taskdir.Some?)
      && (newP != null ==> pos > 0 && !taskDirMissing)
    }

    /** What the current process still has to deliver. */
    ghost function Pending(): seq<Task>
      reads this`pos, this`taskdirUser, this`skelTgid, this`taskdir
      requires 0 < pos <= |procs|
    {
      var p := procs[pos - 1];
      if taskdirUser == skelTgid && taskdir.Some? then Tasks(p, taskdir.value)
      else if p.openOk then Tasks(p, p.tasks)
      else []
    }

    /** What is still to come, inside the current process or between two. */
    ghost function Upcoming(inTasks: bool): seq<Task>
      reads this`pos, this`taskdirUser, this`skelTgid, this`taskdir
      requires pos <= |procs| && (inTasks ==> pos > 0)
    {
      (if inTasks then Pending() else []) + AllTasks(procs[pos..], taskDirMissing)
    }

    /** What further calls will return. */
    ghost function Rest(): seq<Task>
      reads this
      requires pos <= |procs| && (newP != null ==> pos > 0)
    {
      Upcoming(newP != null)
    }

    /** openproc; the statics are as after a complete scan. */
    constructor (procs: seq<Proc>, taskDirMissing: bool)
      requires DistinctTgids(procs)
      ensures Valid() && Rest() == AllTasks(procs, taskDirMissing) && newP == null
      ensures this.procs == procs && this.taskDirMissing == taskDirMissing
    {
      this.procs, this.taskDirMissing := procs, taskDirMissing;
      pos, taskdirUser, taskdir := 0, -1, None;
      skelTid, skelTgid, newP, canary, leader := 0, 0, null, 0, 0;
    }

    /** The finder. */
    method NextPid() returns (found: bool)
      requires Valid() && newP == null
      modifies this`pos, this`skelTid, this`skelTgid, this`leader
      ensures Valid()
      ensures found == (old(pos) < |procs|) && pos == old(pos) + if found then 1 else 0
      ensures !found ==> old(Upcoming(false)) == Upcoming(false) == []
      ensures found && !taskDirMissing ==> old(Upcoming(false)) == Upcoming(true)
      ensures found && taskDirMissing ==>
        old(Upcoming(false)) == TasksOf(procs[pos - 1], true) + Upcoming(false)
    {
      if pos == |procs| {
        return false;
      }
      assert procs[pos..][0] == procs[pos] && procs[pos..][1..] == procs[pos + 1..];
      skelTid, skelTgid, leader := procs[pos].tid, procs[pos].tgid, procs[pos].tid;
      pos := pos + 1;
      found := true;
    }

    ghost function Here(e: Ent): seq<Task>
      reads this`pos
      requires 0 < pos <= |procs|
    {
      if Readable(procs[pos - 1], e) then [Task(procs[pos - 1].tgid, e.tid, e.tid == procs[pos - 1].tid)] else []
    }

    /** simple_nexttid: reopens the task directory when the process is another one. */
    method NextTid(x: ProcT) returns (e: Option<Ent>)
      requires Valid() && pos > 0
      modifies this`taskdirUser, this`taskdir, x
      ensures Valid()
      ensures e.None? ==> old(Pending()) == []
      ensures e.Some? ==> x.tid == e.value.tid && x.tgid == skelTgid == taskdirUser && taskdir.Some?
                          && old(Pending())
                             == Here(e.value) + if Readable(procs[pos - 1], e.value) then Pending() else []
    {
      if taskdirUser != skelTgid {
        taskdir := None;
        if !procs[pos - 1].openOk {
          return None;
        }
        taskdir := Some(procs[pos - 1].tasks);
        taskdirUser := skelTgid;
      }
      if taskdir.value == [] {
        return None;
      }
      var ent := taskdir.value[0];
      taskdir := Some(taskdir.value[1..]);
      x.tid, x.tgid := ent.tid, skelTgid;
      e := Some(ent);
    }

    /** From the label next_task to the return, or to the jump back to next_proc:
        the leader is read through the base directory, the others in the task's. */
    method NextTask(x: ProcT) returns (r: Option<Task>)
      requires Valid() && pos > 0 && !taskDirMissing
      modifies this`taskdirUser, this`taskdir, this`newP, this`canary, x
      ensures Valid()
      ensures r.None? ==> old(Upcoming(true)) == Upcoming(false)
      ensures r.Some? ==> newP != null && old(Upcoming(true)) == [r.value] + Upcoming(true)
    {
      hide AllTasks, Tasks, TasksOf, DistinctTgids;
      var e := NextTid(x);
      if e.None? {
        return None;
      }
      var viaBase := x.tid == leader;
      if !(if viaBase then procs[pos - 1].baseOk else e.value.ok) {
        return None;
      }
      if newP == null {
        newP := x;
        canary := newP.tid;
      }
      r := Some(Task(x.tgid, x.tid, viaBase));
    }

    /** readeither: the next task, or None at the end of the scan. */
    method Next(x: ProcT) returns (r: Option<Task>)
      requires Valid()
      modifies this, x
      ensures Valid()
      ensures r.None? ==> old(Rest()) == Rest() == [] && newP == null
      ensures r.Some? ==> old(Rest()) == [r.value] + Rest()
    {
      hide Upcoming, DistinctTgids;
      // free_acquired also wipes the ids that newP sees when x is the same buffer
      x.tid, x.tgid := 0, 0;
      var inTasks := newP != null;
      if newP != null && newP.tid != canary {
        newP := null;
      }
      while true
        invariant Valid() && (inTasks ==> pos > 0 && !taskDirMissing)
        invariant old(Rest()) == Upcoming(inTasks)
        decreases |procs| - pos, inTasks
      {
        if inTasks {
          r := NextTask(x);
          if r.Some? {
            return;
          }
          inTasks := false;
        } else {
          newP := null;
          var found := NextPid();
          if !found {
            return None;
          }
          if !taskDirMissing {
            inTasks := true;
          } else if procs[pos - 1].baseOk {
            return Some(Task(skelTgid, skelTid, true));
          }
        }
      }
    }
  }

  /** A complete scan: process by process in finder order. */
  method Scan(procs: seq<Proc>, taskDirMissing: bool) returns (out: seq<Task>)
    requires DistinctTgids(procs)
    ensures out == AllTasks(procs, taskDirMissing) && InParts(procs, taskDirMissing, out)
  {
    hide AllTasks, Scanner.Upcoming, InParts;
    ScanByProcess(procs, taskDirMissing);
    var pt := new Scanner(procs, taskDirMissing);
    var x := new ProcT;
    out := [];
    var r := pt.Next(x);
    while r.Some?
      invariant pt.Valid() && fresh(pt) && fresh(x)
      invariant AllTasks(procs, taskDirMissing) == out + (if r.Some? then [r.value] + pt.Rest() else [])
      decreases |pt.Rest()|, r.Some?
    {
      out := out + [r.value];
      r := pt.Next(x);
    }
  }

  // ---------------------------------------------------------------------
  // What that means
  // ---------------------------------------------------------------------

  /** Of one listing the longest readable prefix is returned, in order; everything
      behind the first task that cannot be read is lost with it. */
  lemma {:induction false} TasksArePrefix(p: Proc, ents: seq<Ent>)
    ensures var t := Tasks(p, ents);
      && |t| <= |ents|
      && (forall i :: 0 <= i < |t| ==> Readable(p, ents[i]) && t[i].tid == ents[i].tid && t[i].tgid == p.tgid)
      && (|t| < |ents| ==> !Readable(p, ents[|t|]))
      && (forall i :: 0 <= i < |t| ==> (t[i].viaBase <==> t[i].tid == p.tid))
  {
    if ents != [] && Readable(p, ents[0]) {
      TasksArePrefix(p, ents[1..]);
    }
  }

  /** No task directory lists an id twice. */
  ghost predicate DistinctListings(procs: seq<Proc>) {
    forall i :: 0 <= i < |procs| ==> forall a, b :: 0 <= a < b < |procs[i].tasks| ==>
      procs[i].tasks[a].tid != procs[i].tasks[b].tid
  }

  /** No id is listed twice, neither in one process nor in two. */
  ghost predicate DistinctTids(procs: seq<Proc>) {
    && DistinctListings(procs)
    && (forall i, j :: 0 <= i < j < |procs| ==>
          forall a, b :: 0 <= a < |procs[i].tasks| && 0 <= b < |procs[j].tasks| ==>
            procs[i].tasks[a].tid != procs[j].tasks[b].tid)
  }

  lemma {:induction false} AllTasksFrom(procs: seq<Proc>, t: Task)
    requires t in AllTasks(procs, false)
    ensures exists i, a :: 0 <= i < |procs| && 0 <= a < |procs[i].tasks|
              && procs[i].tgid == t.tgid && procs[i].tasks[a].tid == t.tid
              && (t.viaBase <==> t.tid == procs[i].tid)
  {
    var first := TasksOf(procs[0], false);
    if t in first {
      TasksArePrefix(procs[0], procs[0].tasks);
      var a :| 0 <= a < |first| && first[a] == t;
      assert procs[0].tasks[a].tid == t.tid;
    } else {
      AllTasksFrom(procs[1..], t);
      var i, a :| 0 <= i < |procs[1..]| && 0 <= a < |procs[1..][i].tasks|
        && procs[1..][i].tgid == t.tgid && procs[1..][i].tasks[a].tid == t.tid
        && (t.viaBase <==> t.tid == procs[1..][i].tid);
      assert procs[i + 1].tasks[a].tid == t.tid;
    }
  }

  /** Every task returned belongs to a process of the scan. */
  lemma {:induction false} AllTgidsFrom(procs: seq<Proc>, taskDirMissing: bool, t: Task)
    requires t in AllTasks(procs, taskDirMissing)
    ensures exists i :: 0 <= i < |procs| && procs[i].tgid == t.tgid
  {
    var first := TasksOf(procs[0], taskDirMissing);
    if t in first {
      TasksArePrefix(procs[0], procs[0].tasks);
      assert procs[0].tgid == t.tgid;
    } else {
      AllTgidsFrom(procs[1..], taskDirMissing, t);
      var i :| 0 <= i < |procs[1..]| && procs[1..][i].tgid == t.tgid;
      assert procs[i + 1].tgid == t.tgid;
    }
  }

  /** No task of any process is returned twice, whatever ids the processes list. */
  lemma {:induction false} NoTaskTwice(procs: seq<Proc>, taskDirMissing: bool)
    requires DistinctTgids(procs) && DistinctListings(procs)
    ensures var t := AllTasks(procs, taskDirMissing);
      forall a, b :: 0 <= a < b < |t| ==> t[a].tgid != t[b].tgid || t[a].tid != t[b].tid
  {
    if procs != [] {
      var first, rest := TasksOf(procs[0], taskDirMissing), AllTasks(procs[1..], taskDirMissing);
      NoTaskTwice(procs[1..], taskDirMissing);
      TasksArePrefix(procs[0], procs[0].tasks);
      forall a, b | 0 <= a < |first| && 0 <= b < |rest| ensures first[a].tgid != rest[b].tgid {
        AllTgidsFrom(procs[1..], taskDirMissing, rest[b]);
        var i :| 0 <= i < |procs[1..]| && procs[1..][i].tgid == rest[b].tgid;
        assert procs[0].tgid != procs[i + 1].tgid;
      }
    }
  }

  /** No id is returned twice when none is listed twice. */
  lemma {:induction false} NoTidTwice(procs: seq<Proc>)
    requires DistinctTids(procs)
    ensures var t := AllTasks(procs, false); forall a, b :: 0 <= a < b < |t| ==> t[a].tid != t[b].tid
  {
    if procs != [] {
      var first, rest := TasksOf(procs[0], false), AllTasks(procs[1..], false);
      NoTidTwice(procs[1..]);
      TasksArePrefix(procs[0], procs[0].tasks);
      forall a, b | 0 <= a < |first| && 0 <= b < |rest| ensures first[a].tid != rest[b].tid {
        AllTasksFrom(procs[1..], rest[b]);
        var i, c :| 0 <= i < |procs[1..]| && 0 <= c < |procs[1..][i].tasks|
          && procs[1..][i].tgid == rest[b].tgid && procs[1..][i].tasks[c].tid == rest[b].tid
          && (rest[b].viaBase <==> rest[b].tid == procs[1..][i].tid);
        assert procs[0].tasks[a].tid != procs[i + 1].tasks[c].tid;
      }
    }
  }

  // ---------------------------------------------------------------------
  // Process by process
  // ---------------------------------------------------------------------

  /** What a scan returns for one process.  Without task directories it is the process itself;
      otherwise the tasks of its listing in front of the first that cannot be read, where the
      leader is read in its base directory. */
  predicate ScannedAs(p: Proc, taskDirMissing: bool, out: seq<Task>) {
    if taskDirMissing then
      if p.baseOk then |out| == 1 && out[0].tgid == p.tgid && out[0].tid == p.tid && out[0].viaBase else |out| == 0
    else if !p.openOk then |out| == 0
    else
      && |out| <= |p.tasks|
      && (forall i :: 0 <= i < |out| ==>
            && out[i].tgid == p.tgid && out[i].tid == p.tasks[i].tid && (out[i].viaBase <==> p.tasks[i].tid == p.tid)
            && (if p.tasks[i].tid == p.tid then p.baseOk else p.tasks[i].ok))
      && (|out| < |p.tasks| ==>
            var e := p.tasks[|out|]; if e.tid == p.tid then !p.baseOk else !e.ok)
  }

  lemma OneProcess(p: Proc, taskDirMissing: bool)
    ensures ScannedAs(p, taskDirMissing, TasksOf(p, taskDirMissing))
  {
    TasksArePrefix(p, p.tasks);
  }

  /** The tasks returned fall into one part for each process, in the order the finder comes
      to them. */
  ghost predicate InParts(procs: seq<Proc>, taskDirMissing: bool, out: seq<Task>) {
    if procs == [] then out == []
    else exists n :: 0 <= n <= |out| && PartIs(procs, taskDirMissing, out, n)
  }

  ghost predicate PartIs(procs: seq<Proc>, taskDirMissing: bool, out: seq<Task>, n: nat)
    requires procs != [] && n <= |out|
  {
    ScannedAs(procs[0], taskDirMissing, out[..n]) && InParts(procs[1..], taskDirMissing, out[n..])
  }

  lemma {:induction false} ScanByProcess(procs: seq<Proc>, taskDirMissing: bool)
    ensures InParts(procs, taskDirMissing, AllTasks(procs, taskDirMissing))
  {
    hide ScannedAs, TasksOf;
    if procs != [] {
      var first, rest := TasksOf(procs[0], taskDirMissing), AllTasks(procs[1..], taskDirMissing);
      OneProcess(procs[0], taskDirMissing);
      ScanByProcess(procs[1..], taskDirMissing);
      assert (first + rest)[..|first|] == first && (first + rest)[|first|..] == rest;
      assert PartIs(procs, taskDirMissing, first + rest, |first|);
    }
  }
}
