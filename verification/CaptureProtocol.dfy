/** The rendezvous behind FullCapture: every capture runs in a goroutine of its own,
    waits for those of the captures it was told to wait for whose command it sees started,
    and hands its result over on an unbuffered channel; the collector spawns them all and then receives one result
    after the other.  A state holds the program counter of every goroutine; an action
    is one step of one of them. */
module CaptureProtocol {

  import opened Common

  datatype Task =
    | GC | NetStat | Top | VMStat | PS | DMesg | Disk | Ping | Kernel | ThreadDump
    | AppLog | AppLogs | HDSub | ExtendedData

  /** The order of the spawns, the order of the receives, and whom a task waits for. */
  datatype Plan = Plan(spawns: seq<Task>, recvs: seq<Task>, waits: map<Task, seq<Task>>)

  /** Where a task's goroutine is.  k counts the waits that are behind it. */
  datatype Pc =
    | NotSpawned
    | Waiting(k: nat)     // about to look at the Cmd of the next task to wait for
    | Blocked(k: nat)     // saw it set, and waits for that task's wait group
    | Running             // in Run, its own wait group raised
    | Sending             // at the send on its channel
    | Sent                // the collector has the result
    | Closed              // the channel is closed
    | Done                // the wait group is lowered

  /** done is how many spawns and receives are behind the collector, wg and cmd belong
      to the tasks, got are the results received, saw records which waiter saw whose
      Cmd set, looked which waiter looked at whose, closed whose channel is closed. */
  datatype State = State(done: nat, pc: map<Task, Pc>, wg: map<Task, int>, cmd: map<Task, bool>,
                         got: seq<Task>, saw: set<(Task, Task)>,
                         looked: set<(Task, Task)>, closed: set<Task>)

  datatype Action = Collect | Advance(t: Task) | SetCmd(t: Task)

  function WaitsOf(p: Plan, t: Task): seq<Task> { if t in p.waits then p.waits[t] else [] }

  /** Every task is spawned once and received once. */
  ghost predicate WellFormed(p: Plan) {
    && NoDuplicates(p.spawns) && NoDuplicates(p.recvs)
    && (forall t :: t in p.spawns <==> t in p.recvs)
    && (forall t, k :: 0 <= k < |WaitsOf(p, t)| ==> WaitsOf(p, t)[k] in p.spawns)
  }

  /** Nobody waits for a task that is received later. */
  predicate Ordered(p: Plan) {
    forall i, j :: 0 <= i < j < |p.recvs| ==> p.recvs[j] !in WaitsOf(p, p.recvs[i])
  }

  function Init(p: Plan): State {
    var ts := set t | t in p.spawns;
    State(0, map t | t in ts :: NotSpawned, map t | t in ts :: 0, map t | t in ts :: false, [], {}, {}, {})
  }

  function Total(p: Plan): nat { |p.spawns| + |p.recvs| }

  ghost predicate TaskTyped(p: Plan, t: Task, pc: Pc) {
    && (pc.Waiting? ==> pc.k <= |WaitsOf(p, t)|)
    && (pc.Blocked? ==> pc.k < |WaitsOf(p, t)|)
  }

  ghost predicate Typed(p: Plan, s: State) {
    && s.done <= Total(p)
    && (forall t :: t in s.pc <==> t in p.spawns)
    && s.wg.Keys == s.pc.Keys && s.cmd.Keys == s.pc.Keys
    && (forall t :: t in s.pc ==> TaskTyped(p, t, s.pc[t]))
  }

  /** An action that can be taken.  A receive needs its sender, or a channel that was
      closed; waiting for a group needs that group to be down. */
  ghost predicate Enabled(p: Plan, s: State, a: Action)
    requires WellFormed(p) && Typed(p, s)
  {
    match a
    case Collect =>
      s.done < |p.spawns| || (s.done < Total(p) && CanReceive(s.pc[p.recvs[s.done - |p.spawns|]]))
    case SetCmd(t) => t in s.pc && s.pc[t] == Running && !s.cmd[t]
    case Advance(t) =>
      t in s.pc && match s.pc[t]
                   case Blocked(k) => s.wg[WaitsOf(p, t)[k]] == 0
                   case NotSpawned => false
                   case Sending => false
                   case Done => false
                   case _ => true
  }

  predicate CanReceive(pc: Pc) { pc == Sending || pc == Closed || pc == Done }

  /** The next program counter of t. */
  ghost function Next(p: Plan, s: State, t: Task): (pc: Pc)
    requires WellFormed(p) && Typed(p, s) && Enabled(p, s, Advance(t))
    ensures t in s.wg && t in s.pc && (pc.Blocked? ==> pc.k < |WaitsOf(p, t)|)
  {
    match s.pc[t]
    case Waiting(k) =>
      if k == |WaitsOf(p, t)| then Running
      else if s.cmd[WaitsOf(p, t)[k]] then Blocked(k)
      else Waiting(k + 1)
    case Blocked(k) => Waiting(k + 1)
    case Running => Sending
    case Sent => Closed
    case _ => Done
  }

  /** Whom a task looks at in its place. */
  function LooksAt(p: Plan, t: Task, pc: Pc): set<(Task, Task)> {
    if pc.Waiting? && pc.k < |WaitsOf(p, t)| then {(t, WaitsOf(p, t)[pc.k])} else {}
  }

  /** t moves on to pc: it raises its group on the way into Run and lowers it at the end. */
  function Move(p: Plan, s: State, t: Task, pc: Pc): State
    requires t in s.wg && t in s.pc && (pc.Blocked? ==> pc.k < |WaitsOf(p, t)|)
  {
    s.(pc := s.pc[t := pc],
       wg := s.wg[t := s.wg[t] + (if pc == Running then 1 else if pc == Done then -1 else 0)],
       saw := s.saw + (if pc.Blocked? then {(t, WaitsOf(p, t)[pc.k])} else {}),
       looked := s.looked + LooksAt(p, t, s.pc[t]),
       closed := s.closed + if pc == Closed then {t} else {})
  }

  /** The collector spawns the next task. */
  function Spawn(p: Plan, s: State): State
    requires s.done < |p.spawns|
  {
    s.(done := s.done + 1, pc := s.pc[p.spawns[s.done] := Waiting(0)])
  }

  /** The collector receives from t: its result, or the zero value of a closed channel. */
  function Receive(s: State, t: Task): State
    requires t in s.pc
  {
    if s.pc[t] == Sending then s.(done := s.done + 1, pc := s.pc[t := Sent], got := s.got + [t])
    else s.(done := s.done + 1)
  }

  ghost function Step(p: Plan, s: State, a: Action): State
    requires WellFormed(p) && Typed(p, s) && Enabled(p, s, a)
  {
    match a
    case SetCmd(t) => s.(cmd := s.cmd[t := true])
    case Collect => if s.done < |p.spawns| then Spawn(p, s) else Receive(s, p.recvs[s.done - |p.spawns|])
    case Advance(t) => Move(p, s, t, Next(p, s, t))
  }

  // ---------------------------------------------------------------------
  // What every step keeps
  // ---------------------------------------------------------------------

  /** t is among the results received so far. */
  predicate Received(p: Plan, done: nat, t: Task) {
    exists i :: 0 <= i < |p.recvs| && i < done - |p.spawns| && p.recvs[i] == t
  }

  predicate Spawned(p: Plan, done: nat, t: Task) {
    exists i :: 0 <= i < |p.spawns| && i < done && p.spawns[i] == t
  }

  predicate Over(pc: Pc) { pc == Sent || pc == Closed || pc == Done }

  predicate Began(pc: Pc) { pc == Running || pc == Sending || Over(pc) }

  /** The goroutine of t stands where the collector's progress puts it, its group is up
      from Run to the end, and its Cmd is set in Run at the earliest. */
  predicate TaskOk(p: Plan, done: nat, t: Task, pc: Pc, wg: int, cmd: bool) {
    && (pc == NotSpawned <==> !Spawned(p, done, t))
    && (Over(pc) <==> Received(p, done, t))
    && wg == (if Began(pc) && pc != Done then 1 else 0)
    && (cmd ==> Began(pc))
  }

  ghost predicate TasksOk(p: Plan, s: State)
    requires Typed(p, s)
  {
    forall t :: t in s.pc ==> TaskOk(p, s.done, t, s.pc[t], s.wg[t], s.cmd[t])
  }

  /** Whoever saw a Cmd set either still waits for that task or that task is done. */
  ghost predicate SawOk(p: Plan, s: State)
    requires Typed(p, s)
  {
    && (forall e :: e in s.saw ==>
          && e.0 in s.pc && e.1 in s.pc
          && (s.pc[e.1] == Done || (s.pc[e.0].Blocked? && WaitsOf(p, e.0)[s.pc[e.0].k] == e.1)))
    && (forall t :: t in s.pc && s.pc[t].Blocked? ==>
          var w := WaitsOf(p, t)[s.pc[t].k];
          (t, w) in s.saw && w in s.pc && s.cmd[w])
  }

  /** The results received are those of the receives that are over, each once. */
  predicate GotOk(p: Plan, s: State) {
    s.done <= Total(p) && s.got == p.recvs[..if s.done <= |p.spawns| then 0 else s.done - |p.spawns|]
  }

  /** A channel is closed between the receive of its result and the end. */
  ghost predicate ClosedOk(s: State) {
    forall t :: t in s.pc ==> (t in s.closed <==> s.pc[t] == Closed || s.pc[t] == Done)
  }

  /** How many of its waits a task has looked at. */
  function Behind(p: Plan, t: Task, pc: Pc): int {
    match pc
    case NotSpawned => 0
    case Waiting(k) => k
    case Blocked(k) => k + 1
    case _ => |WaitsOf(p, t)|
  }

  ghost predicate LookedOk(p: Plan, s: State) {
    forall t, j :: t in s.pc && 0 <= j < Behind(p, t, s.pc[t]) && j < |WaitsOf(p, t)| ==>
      (t, WaitsOf(p, t)[j]) in s.looked
  }

  ghost predicate Inv(p: Plan, s: State) {
    WellFormed(p) && Typed(p, s) && TasksOk(p, s) && SawOk(p, s) && GotOk(p, s)
    && ClosedOk(s) && LookedOk(p, s)
  }

  lemma InitInv(p: Plan)
    requires WellFormed(p)
    ensures Inv(p, Init(p))
  {}

  /** From s to s', only the goroutine of x moves, and no Cmd is unset. */
  ghost predicate MovesOnly(p: Plan, s: State, s': State, x: Task) {
    && s'.pc.Keys == s.pc.Keys && s'.cmd.Keys == s.cmd.Keys && s'.wg.Keys == s.wg.Keys
    && (forall t :: t in s.pc && t != x ==> s'.pc[t] == s.pc[t])
    && (forall t :: t in s.pc && t != x && t in s.wg ==> s'.wg[t] == s.wg[t])
    && (forall t :: t in s.cmd ==> s.cmd[t] ==> s'.cmd[t])
    && (forall t :: t in s.cmd && t != x ==> s'.cmd[t] == s.cmd[t])
  }

  /** What was seen stays right when x neither comes back from Done, nor blocks, nor
      leaves a block before the task it waits for is done. */
  lemma SawKept(p: Plan, s: State, s': State, x: Task)
    requires Typed(p, s) && Typed(p, s') && SawOk(p, s) && x in s.pc
    requires MovesOnly(p, s, s', x) && s'.saw == s.saw
    requires s.pc[x] == Done ==> s'.pc[x] == Done
    requires s'.pc[x].Blocked? ==> s'.pc[x] == s.pc[x]
    requires s.pc[x].Blocked? ==>
               var w := WaitsOf(p, x)[s.pc[x].k];
               s'.pc[x] == s.pc[x] || (w in s.pc && w != x && s.pc[w] == Done)
    ensures SawOk(p, s')
  {
    hide WaitsOf;
  }

  /** A waiter blocks on the task whose Cmd it just saw. */
  lemma SawGrows(p: Plan, s: State, s': State, x: Task)
    requires Typed(p, s) && Typed(p, s') && SawOk(p, s) && x in s.pc
    requires MovesOnly(p, s, s', x) && s.pc[x].Waiting? && s'.pc[x].Blocked?
    requires var w := WaitsOf(p, x)[s'.pc[x].k]; w in s.pc && s.cmd[w] && s'.saw == s.saw + {(x, w)}
    ensures SawOk(p, s')
  {
    hide WaitsOf;
  }

  lemma TaskAt(p: Plan, s: State, t: Task)
    requires Typed(p, s) && TasksOk(p, s) && t in s.pc
    ensures t in s.wg && t in s.cmd && TaskOk(p, s.done, t, s.pc[t], s.wg[t], s.cmd[t])
  {
    hide Spawned, Received, TaskTyped;
  }

  lemma TypedKeys(p: Plan, s: State)
    requires Typed(p, s)
    ensures forall t :: t in s.pc <==> t in p.spawns
  {
    hide TaskTyped;
  }

  /** The other goroutines stand right if the collector's progress tells them nothing new. */
  lemma TasksKept(p: Plan, s: State, s': State, x: Task)
    requires Typed(p, s) && Typed(p, s') && TasksOk(p, s) && MovesOnly(p, s, s', x) && x in s.pc
    requires forall t :: t in s.pc && t != x ==>
               && (Spawned(p, s'.done, t) <==> Spawned(p, s.done, t))
               && (Received(p, s'.done, t) <==> Received(p, s.done, t))
    requires TaskOk(p, s'.done, x, s'.pc[x], s'.wg[x], s'.cmd[x])
    ensures TasksOk(p, s')
  {
    hide Spawned, Received, WaitsOf, TaskTyped;
  }

  /** The task of the next spawn was not spawned before. */
  lemma SpawnedNext(p: Plan, done: nat)
    requires NoDuplicates(p.spawns) && done < |p.spawns|
    ensures forall t :: Spawned(p, done + 1, t) <==> Spawned(p, done, t) || t == p.spawns[done]
    ensures !Spawned(p, done, p.spawns[done])
    ensures forall t :: !Received(p, done, t) && !Received(p, done + 1, t)
  {
    forall t
      ensures !Received(p, done, t) && !Received(p, done + 1, t)
    {}
    assert Spawned(p, done + 1, p.spawns[done]);
    forall t | Spawned(p, done, t)
      ensures Spawned(p, done + 1, t)
    {
      var i :| 0 <= i < |p.spawns| && i < done && p.spawns[i] == t;
    }
  }

  lemma SpawnTyped(p: Plan, s: State)
    requires Typed(p, s) && s.done < |p.spawns|
    ensures p.spawns[s.done] in s.pc && Typed(p, Spawn(p, s)) && MovesOnly(p, s, Spawn(p, s), p.spawns[s.done])
  {
    assert p.spawns[s.done] in s.pc;
    hide WaitsOf;
  }

  lemma SpawnTasks(p: Plan, s: State)
    requires WellFormed(p) && Typed(p, s) && TasksOk(p, s) && s.done < |p.spawns|
    ensures Typed(p, Spawn(p, s)) && TasksOk(p, Spawn(p, s))
    ensures s.pc[p.spawns[s.done]] == NotSpawned
  {
    hide Spawned, Received, TasksOk, Typed, MovesOnly, TaskTyped;
    var x := p.spawns[s.done];
    SpawnTyped(p, s);
    SpawnedNext(p, s.done);
    TaskAt(p, s, x);
    TasksKept(p, s, Spawn(p, s), x);
  }

  lemma SpawnInv(p: Plan, s: State)
    requires Inv(p, s) && s.done < |p.spawns|
    ensures Inv(p, Spawn(p, s))
  {
    SpawnTyped(p, s);
    SpawnTasks(p, s);
    hide WellFormed, TasksOk, Typed, MovesOnly, SawOk;
    SawKept(p, s, Spawn(p, s), p.spawns[s.done]);
  }

  /** The task of the next receive was not received before. */
  lemma ReceivedNext(p: Plan, done: nat)
    requires NoDuplicates(p.recvs) && |p.spawns| <= done < Total(p)
    ensures forall t :: Received(p, done + 1, t) <==> Received(p, done, t) || t == p.recvs[done - |p.spawns|]
    ensures !Received(p, done, p.recvs[done - |p.spawns|])
    ensures forall t :: Spawned(p, done + 1, t) <==> Spawned(p, done, t)
    ensures forall t :: t in p.spawns ==> Spawned(p, done, t)
  {}

  lemma ReceiveTyped(p: Plan, s: State)
    requires WellFormed(p) && Typed(p, s) && |p.spawns| <= s.done < Total(p)
    ensures var x := p.recvs[s.done - |p.spawns|];
      x in s.pc && Typed(p, Receive(s, x)) && MovesOnly(p, s, Receive(s, x), x)
  {
    assert p.recvs[s.done - |p.spawns|] in p.spawns;
    hide WaitsOf, WellFormed;
  }

  lemma ReceiveTasks(p: Plan, s: State)
    requires WellFormed(p) && Typed(p, s) && TasksOk(p, s) && |p.spawns| <= s.done && Enabled(p, s, Collect)
    ensures var x := p.recvs[s.done - |p.spawns|];
      x in s.pc && s.pc[x] == Sending && Typed(p, Receive(s, x)) && TasksOk(p, Receive(s, x))
  {
    hide Spawned, Received, TasksOk, Typed, MovesOnly, TaskTyped;
    var x := p.recvs[s.done - |p.spawns|];
    ReceiveTyped(p, s);
    ReceivedNext(p, s.done);
    TaskAt(p, s, x);
    assert x in p.spawns;
    TypedKeys(p, s);
    TasksKept(p, s, Receive(s, x), x);
  }

  lemma GotNext(p: Plan, s: State)
    requires NoDuplicates(p.recvs) && GotOk(p, s) && |p.spawns| <= s.done < Total(p)
    ensures var i := s.done - |p.spawns|;
      && s.got == p.recvs[..i] && p.recvs[i] !in s.got
      && p.recvs[..i + 1] == p.recvs[..i] + [p.recvs[i]]
  {}

  /** A receive takes the result of a task that gave none before. */
  lemma ReceiveInv(p: Plan, s: State)
    requires Inv(p, s) && |p.spawns| <= s.done && Enabled(p, s, Collect)
    ensures var x := p.recvs[s.done - |p.spawns|];
      x in s.pc && Inv(p, Receive(s, x)) && x !in s.got && Receive(s, x).got == s.got + [x]
  {
    hide TasksOk, Typed, MovesOnly, SawOk, Received, Spawned, NoDuplicates, WaitsOf;
    ReceiveTyped(p, s);
    ReceiveTasks(p, s);
    GotNext(p, s);
    var x := p.recvs[s.done - |p.spawns|];
    SawKept(p, s, Receive(s, x), x);
  }

  /** Whoever gets past a wait group was waiting for a task that is done. */
  lemma WaitOver(p: Plan, s: State, t: Task)
    requires Typed(p, s) && TasksOk(p, s) && SawOk(p, s)
    requires t in s.pc && s.pc[t].Blocked?
    ensures var w := WaitsOf(p, t)[s.pc[t].k];
      w in s.pc && w != t && Began(s.pc[w]) && (s.wg[w] == 0 <==> s.pc[w] == Done)
  {
    var w := WaitsOf(p, t)[s.pc[t].k];
    assert s.cmd[w] && w in s.pc;
    hide Spawned, Received, SawOk;
    assert TaskOk(p, s.done, w, s.pc[w], s.wg[w], s.cmd[w]);
  }

  /** The move of t keeps the types right; t blocks only on a task whose Cmd is set. */
  lemma AdvanceTyped(p: Plan, s: State, t: Task)
    requires WellFormed(p) && Typed(p, s) && Enabled(p, s, Advance(t))
    ensures t in s.wg
    ensures var pc := Next(p, s, t);
      && (pc.Blocked? ==> pc.k < |WaitsOf(p, t)| && s.pc[t] == Waiting(pc.k)
                          && var w := WaitsOf(p, t)[pc.k]; w in s.pc && w in s.cmd && s.cmd[w])
      && Typed(p, Move(p, s, t, pc)) && MovesOnly(p, s, Move(p, s, t, pc), t)
  {
    hide NoDuplicates;
  }

  lemma AdvanceTasks(p: Plan, s: State, t: Task)
    requires WellFormed(p) && Typed(p, s) && TasksOk(p, s) && SawOk(p, s) && Enabled(p, s, Advance(t))
    ensures var s' := Move(p, s, t, Next(p, s, t)); Typed(p, s') && TasksOk(p, s')
  {
    hide Spawned, Received, WellFormed, TasksOk, Typed, MovesOnly, SawOk;
    AdvanceTyped(p, s, t);
    TaskAt(p, s, t);
    TasksKept(p, s, Move(p, s, t, Next(p, s, t)), t);
  }

  lemma AdvanceSaw(p: Plan, s: State, t: Task)
    requires WellFormed(p) && Typed(p, s) && TasksOk(p, s) && SawOk(p, s) && Enabled(p, s, Advance(t))
    ensures var s' := Move(p, s, t, Next(p, s, t)); Typed(p, s') && SawOk(p, s')
  {
    hide WellFormed, TasksOk, Typed, MovesOnly, SawOk;
    AdvanceTyped(p, s, t);
    var s' := Move(p, s, t, Next(p, s, t));
    if s.pc[t].Blocked? {
      WaitOver(p, s, t);
      SawKept(p, s, s', t);
    } else if s'.pc[t].Blocked? {
      SawGrows(p, s, s', t);
    } else {
      SawKept(p, s, s', t);
    }
  }

  lemma AdvanceInv(p: Plan, s: State, t: Task)
    requires Inv(p, s) && Enabled(p, s, Advance(t))
    ensures Inv(p, Move(p, s, t, Next(p, s, t)))
  {
    hide WellFormed, TasksOk, Typed, SawOk;
    AdvanceTasks(p, s, t);
    AdvanceSaw(p, s, t);
  }

  lemma SetCmdTyped(p: Plan, s: State, t: Task)
    requires Typed(p, s) && t in s.pc
    ensures var s' := s.(cmd := s.cmd[t := true]); Typed(p, s') && MovesOnly(p, s, s', t)
  {
    hide WaitsOf, TaskTyped;
  }

  lemma SetCmdInv(p: Plan, s: State, t: Task)
    requires Inv(p, s) && Enabled(p, s, SetCmd(t))
    ensures Inv(p, s.(cmd := s.cmd[t := true]))
  {
    hide Spawned, Received, WellFormed, TasksOk, Typed, MovesOnly, SawOk, TaskTyped;
    var s' := s.(cmd := s.cmd[t := true]);
    SetCmdTyped(p, s, t);
    TaskAt(p, s, t);
    TasksKept(p, s, s', t);
    SawKept(p, s, s', t);
  }

  /** Every step of every goroutine keeps the invariant. */
  lemma StepInv(p: Plan, s: State, a: Action)
    requires Inv(p, s) && Enabled(p, s, a)
    ensures Inv(p, Step(p, s, a))
  {
    hide Inv, WellFormed, Typed;
    match a
    case Advance(t) => AdvanceInv(p, s, t);
    case Collect => if s.done < |p.spawns| { SpawnInv(p, s); } else { ReceiveInv(p, s); }
    case SetCmd(t) => SetCmdInv(p, s, t);
  }

  // ---------------------------------------------------------------------
  // Every run is finite
  // ---------------------------------------------------------------------

  /** The steps that t can still take at most. */
  function Rank(p: Plan, t: Task, pc: Pc, cmd: bool): int {
    match pc
    case NotSpawned => 7 + 2 * |WaitsOf(p, t)|
    case Waiting(k) => 6 + 2 * (|WaitsOf(p, t)| - k)
    case Blocked(k) => 5 + 2 * (|WaitsOf(p, t)| - k)
    case Running => if cmd then 4 else 5
    case Sending => 3
    case Sent => 2
    case Closed => 1
    case Done => 0
  }

  ghost function RankSum(p: Plan, s: State, n: nat): int
    requires Typed(p, s) && n <= |p.spawns|
  {
    if n == 0 then 0
    else var t := p.spawns[n - 1]; RankSum(p, s, n - 1) + Rank(p, t, s.pc[t], s.cmd[t])
  }

  /** The steps that can still be taken at most. */
  ghost function Left(p: Plan, s: State): int
    requires Typed(p, s)
  {
    RankSum(p, s, |p.spawns|) + Total(p) - s.done
  }

  lemma {:induction false} LeftNonNegative(p: Plan, s: State, n: nat)
    requires Typed(p, s) && n <= |p.spawns|
    ensures RankSum(p, s, n) >= 0
  {
    if n > 0 {
      LeftNonNegative(p, s, n - 1);
      var t := p.spawns[n - 1];
      assert t in s.pc && TaskTyped(p, t, s.pc[t]);
    }
  }

  lemma RankSame(p: Plan, s: State, s': State, x: Task, t: Task)
    requires Typed(p, s) && Typed(p, s') && MovesOnly(p, s, s', x) && t in p.spawns
    ensures t in s.pc && t in s'.pc && t in s.cmd && t in s'.cmd
    ensures t != x ==> Rank(p, t, s'.pc[t], s'.cmd[t]) == Rank(p, t, s.pc[t], s.cmd[t])
  {
    hide Rank, TaskTyped;
  }

  lemma {:induction false} RankSumDrops(p: Plan, s: State, s': State, x: Task, n: nat)
    requires Typed(p, s) && Typed(p, s') && MovesOnly(p, s, s', x) && n <= |p.spawns|
    requires x in s.pc && Rank(p, x, s'.pc[x], s'.cmd[x]) < Rank(p, x, s.pc[x], s.cmd[x])
    ensures RankSum(p, s', n) <= RankSum(p, s, n)
    ensures x in p.spawns[..n] ==> RankSum(p, s', n) < RankSum(p, s, n)
  {
    hide Rank, Typed, MovesOnly;
    if n > 0 {
      RankSumDrops(p, s, s', x, n - 1);
      RankSame(p, s, s', x, p.spawns[n - 1]);
      assert p.spawns[..n] == p.spawns[..n - 1] + [p.spawns[n - 1]];
    }
  }

  lemma {:induction false} MoveDrops(p: Plan, s: State, s': State, x: Task)
    requires Typed(p, s) && Typed(p, s') && MovesOnly(p, s, s', x) && s.done <= s'.done
    requires x in s.pc && Rank(p, x, s'.pc[x], s'.cmd[x]) < Rank(p, x, s.pc[x], s.cmd[x])
    ensures Left(p, s') < Left(p, s)
  {
    hide Rank, MovesOnly, RankSum;
    assert p.spawns[..|p.spawns|] == p.spawns;
    RankSumDrops(p, s, s', x, |p.spawns|);
  }

  lemma SpawnDrops(p: Plan, s: State)
    requires Inv(p, s) && s.done < |p.spawns|
    ensures Typed(p, Spawn(p, s)) && Left(p, Spawn(p, s)) < Left(p, s)
  {
    hide Typed, MovesOnly, SawOk, TasksOk, WellFormed, RankSum, Left;
    SpawnTyped(p, s);
    SpawnTasks(p, s);
    MoveDrops(p, s, Spawn(p, s), p.spawns[s.done]);
  }

  lemma ReceiveDrops(p: Plan, s: State)
    requires Inv(p, s) && |p.spawns| <= s.done && Enabled(p, s, Collect)
    ensures var x := p.recvs[s.done - |p.spawns|];
      x in s.pc && Typed(p, Receive(s, x)) && Left(p, Receive(s, x)) < Left(p, s)
  {
    hide Typed, MovesOnly, SawOk, TasksOk, WellFormed, RankSum, Left;
    ReceiveTyped(p, s);
    ReceiveTasks(p, s);
    var x := p.recvs[s.done - |p.spawns|];
    MoveDrops(p, s, Receive(s, x), x);
  }

  lemma AdvanceDrops(p: Plan, s: State, t: Task)
    requires WellFormed(p) && Typed(p, s) && Enabled(p, s, Advance(t))
    ensures t in s.wg
    ensures var pc := Next(p, s, t);
      && (pc.Blocked? ==> pc.k < |WaitsOf(p, t)|)
      && Typed(p, Move(p, s, t, pc)) && Left(p, Move(p, s, t, pc)) < Left(p, s)
  {
    hide Typed, MovesOnly, WellFormed, RankSum, Left;
    AdvanceTyped(p, s, t);
    MoveDrops(p, s, Move(p, s, t, Next(p, s, t)), t);
  }

  /** Every step brings the end nearer. */
  lemma StepDrops(p: Plan, s: State, a: Action)
    requires Inv(p, s) && Enabled(p, s, a)
    ensures Inv(p, Step(p, s, a)) && 0 <= Left(p, Step(p, s, a)) < Left(p, s)
  {
    hide Typed, WellFormed, TasksOk, SawOk, MovesOnly, RankSum;
    StepInv(p, s, a);
    LeftNonNegative(p, Step(p, s, a), |p.spawns|);
    match a
    case Advance(t) => AdvanceDrops(p, s, t);
    case Collect => if s.done < |p.spawns| { SpawnDrops(p, s); } else { ReceiveDrops(p, s); }
    case SetCmd(t) =>
      SetCmdTyped(p, s, t);
      MoveDrops(p, s, s.(cmd := s.cmd[t := true]), t);
  }

  // ---------------------------------------------------------------------
  // Runs
  // ---------------------------------------------------------------------

  ghost predicate Leads(p: Plan, s: State, acts: seq<Action>, s': State)
    requires Inv(p, s)
    decreases |acts|
  {
    if acts == [] then s' == s
    else Enabled(p, s, acts[0]) && (StepInv(p, s, acts[0]); Leads(p, Step(p, s, acts[0]), acts[1..], s'))
  }

  /** acts take the system from its start to s. */
  ghost predicate RunTo(p: Plan, acts: seq<Action>, s: State) {
    WellFormed(p) && (InitInv(p); Leads(p, Init(p), acts, s))
  }

  ghost predicate Reachable(p: Plan, s: State)
    requires WellFormed(p)
  {
    exists acts :: RunTo(p, acts, s)
  }

  ghost predicate Stuck(p: Plan, s: State)
    requires Inv(p, s)
  {
    forall a :: !Enabled(p, s, a)
  }

  /** Every result is collected and every goroutine gone. */
  ghost predicate Final(p: Plan, s: State) {
    s.done == Total(p) && s.got == p.recvs && forall t :: t in s.pc ==> s.pc[t] == Done
  }

  /** A run keeps the invariant and is no longer than the measure it uses up. */
  lemma {:induction false} RunDrops(p: Plan, s: State, acts: seq<Action>, s': State)
    requires Inv(p, s) && Leads(p, s, acts, s')
    ensures Inv(p, s') && 0 <= Left(p, s') && |acts| + Left(p, s') <= Left(p, s)
    decreases |acts|
  {
    hide Inv, Enabled, Step, Left;
    InvLeft(p, s);
    if acts != [] {
      StepDrops(p, s, acts[0]);
      RunDrops(p, Step(p, s, acts[0]), acts[1..], s');
    }
  }

  lemma InvLeft(p: Plan, s: State)
    requires Inv(p, s)
    ensures WellFormed(p) && Typed(p, s) && 0 <= Left(p, s)
  {
    LeftNonNegative(p, s, |p.spawns|);
  }

  /** A goroutine can take a step unless it is at its end, waits for a task that is not
      done, or waits for the collector. */
  lemma TaskMoves(p: Plan, s: State, t: Task)
    requires Inv(p, s) && t in s.pc && s.pc[t] != NotSpawned && s.pc[t] != Done && s.pc[t] != Sending
    requires s.pc[t].Blocked? ==> var w := WaitsOf(p, t)[s.pc[t].k]; w in s.pc && s.pc[w] == Done
    ensures Enabled(p, s, Advance(t))
  {
    hide SawOk, TasksOk, WellFormed, WaitsOf;
    if s.pc[t].Blocked? { WaitOver(p, s, t); }
  }

  lemma ReceivedAll(p: Plan, s: State, t: Task)
    requires Inv(p, s) && s.done == Total(p) && t in s.pc
    ensures Over(s.pc[t])
  {
    hide SawOk, WaitsOf;
    TaskAt(p, s, t);
    assert t in p.spawns && t in p.recvs;
    var i :| 0 <= i < |p.recvs| && p.recvs[i] == t;
    assert Received(p, s.done, t);
  }

  /** The task of the next receive is spawned and has not been received. */
  lemma NextIsLive(p: Plan, s: State)
    requires Inv(p, s) && |p.spawns| <= s.done < Total(p)
    ensures var t := p.recvs[s.done - |p.spawns|];
      t in s.pc && s.pc[t] != NotSpawned && !Over(s.pc[t])
  {
    hide SawOk, WaitsOf, TasksOk, Spawned, Received;
    var t := p.recvs[s.done - |p.spawns|];
    assert t in p.spawns;
    ReceivedNext(p, s.done);
    TaskAt(p, s, t);
  }

  /** The task that the next one to be received waits for has been received. */
  lemma WaitedIsOver(p: Plan, s: State)
    requires Inv(p, s) && Ordered(p) && |p.spawns| <= s.done < Total(p)
    requires var t := p.recvs[s.done - |p.spawns|]; t in s.pc && s.pc[t].Blocked?
    ensures var t := p.recvs[s.done - |p.spawns|]; var w := WaitsOf(p, t)[s.pc[t].k];
      w in s.pc && Over(s.pc[w])
  {
    hide SawOk, TasksOk, Spawned;
    var t := p.recvs[s.done - |p.spawns|];
    var w := WaitsOf(p, t)[s.pc[t].k];
    WaitOver(p, s, t);
    TaskAt(p, s, w);
    assert w in p.recvs;
    var j :| 0 <= j < |p.recvs| && p.recvs[j] == w;
    assert j < s.done - |p.spawns|;
  }

  /** A goroutine that neither waits nor sends gets to its end without anyone's help. */
  lemma StuckTask(p: Plan, s: State, t: Task)
    requires Inv(p, s) && Stuck(p, s) && t in s.pc
    requires Over(s.pc[t]) || s.pc[t].Waiting? || s.pc[t] == Running
    ensures s.pc[t] == Done
  {
    hide Inv, Enabled, WellFormed, Typed;
    InvLeft(p, s);
    assert !Enabled(p, s, Advance(t));
    if s.pc[t] != Done { TaskMoves(p, s, t); }
  }

  lemma StuckCollector(p: Plan, s: State)
    requires Inv(p, s) && Stuck(p, s)
    ensures |p.spawns| <= s.done <= Total(p)
    ensures s.done < Total(p) ==>
      var t := p.recvs[s.done - |p.spawns|]; t in s.pc && !CanReceive(s.pc[t])
  {
    hide TasksOk, SawOk, LookedOk, ClosedOk, WaitsOf, TaskTyped;
    assert !Enabled(p, s, Collect);
    if |p.spawns| <= s.done < Total(p) { ReceiveTyped(p, s); }
  }

  /** Without an enabled step every result is collected, when nobody waits for a task
      that is received later. */
  lemma StuckIsFinal(p: Plan, s: State)
    requires Inv(p, s) && Stuck(p, s) && Ordered(p)
    ensures Final(p, s)
  {
    hide TasksOk, SawOk, WellFormed, Typed, Ordered, Stuck;
    StuckCollector(p, s);
    if s.done < Total(p) {
      NextIsLive(p, s);
      var t := p.recvs[s.done - |p.spawns|];
      if s.pc[t].Blocked? {
        BlockedTyped(p, s, t);
        WaitedIsOver(p, s);
        StuckTask(p, s, WaitsOf(p, t)[s.pc[t].k]);
        StuckWait(p, s, t);
      } else {
        StuckTask(p, s, t);
      }
      assert false;
    }
    forall t | t in s.pc
      ensures s.pc[t] == Done
    {
      ReceivedAll(p, s, t);
      StuckTask(p, s, t);
    }
    assert p.recvs[..|p.recvs|] == p.recvs;
  }

  /** Whoever is still blocked waits for a task that is not done. */
  lemma StuckWait(p: Plan, s: State, t: Task)
    requires Inv(p, s) && Stuck(p, s) && t in s.pc && s.pc[t].Blocked?
    ensures var w := WaitsOf(p, t)[s.pc[t].k]; w in s.pc && s.pc[w] != Done
  {
    hide Inv, Enabled, WellFormed, TasksOk, SawOk;
    InvLeft(p, s);
    assert !Enabled(p, s, Advance(t));
    BlockedTyped(p, s, t);
    if s.pc[WaitsOf(p, t)[s.pc[t].k]] == Done { TaskMoves(p, s, t); }
  }

  lemma BlockedTyped(p: Plan, s: State, t: Task)
    requires Inv(p, s) && t in s.pc && s.pc[t].Blocked?
    ensures s.pc[t].k < |WaitsOf(p, t)| && WaitsOf(p, t)[s.pc[t].k] in s.pc
  {
    hide TasksOk, SawOk;
  }

  // ---------------------------------------------------------------------
  // The order of the receives decides
  // ---------------------------------------------------------------------

  lemma {:induction false} Extend(p: Plan, s: State, acts: seq<Action>, s': State, a: Action)
    requires Inv(p, s) && Leads(p, s, acts, s')
    requires Inv(p, s') && Enabled(p, s', a)
    ensures Leads(p, s, acts + [a], Step(p, s', a))
    decreases |acts|
  {
    hide Inv, Enabled, Step;
    InvLeft(p, s);
    if acts == [] {
      StepInv(p, s, a);
      assert ([a])[1..] == [];
      assert acts + [a] == [a];
    } else {
      StepInv(p, s, acts[0]);
      Extend(p, Step(p, s, acts[0]), acts[1..], s', a);
      assert (acts + [a])[1..] == acts[1..] + [a];
    }
  }

  /** A step from a reachable state. */
  lemma Reach(p: Plan, s: State, a: Action) returns (s': State)
    requires WellFormed(p) && Reachable(p, s) && Typed(p, s) && Enabled(p, s, a)
    ensures s' == Step(p, s, a) && Reachable(p, s') && Inv(p, s')
  {
    hide Inv, Enabled, Step, WellFormed, Typed;
    InitInv(p);
    var acts :| RunTo(p, acts, s);
    RunDrops(p, Init(p), acts, s);
    Extend(p, Init(p), acts, s, a);
    assert RunTo(p, acts + [a], Step(p, s, a));
    StepInv(p, s, a);
    s' := Step(p, s, a);
  }

  lemma ReachableInv(p: Plan, s: State)
    requires WellFormed(p) && Reachable(p, s)
    ensures Inv(p, s)
  {
    hide Inv, Leads, WellFormed;
    InitInv(p);
    var acts :| RunTo(p, acts, s);
    RunDrops(p, Init(p), acts, s);
  }

  /** A run in which somebody waits for a task received later ends stuck in that wait. */
  lemma {:induction false} RunOut(p: Plan, s: State, i: nat, j: nat) returns (s': State)
    requires WellFormed(p) && Reachable(p, s) && Trapped(p, s, i, j)
    ensures Reachable(p, s') && Inv(p, s') && Stuck(p, s') && Trapped(p, s', i, j)
    decreases (ReachableInv(p, s); InvLeft(p, s); Left(p, s))
  {
    hide Inv, Enabled, Step, WellFormed, Typed, Trapped, Left, Reachable;
    ReachableInv(p, s);
    InvLeft(p, s);
    if a :| Enabled(p, s, a) {
      s' := Reach(p, s, a);
      StepDrops(p, s, a);
      StaysTrapped(p, s, a, i, j);
      s' := RunOut(p, s', i, j);
    } else {
      s' := s;
    }
  }

  /** The i-th result to be received comes from a task that waits for the j-th. */
  ghost predicate Trapped(p: Plan, s: State, i: nat, j: nat) {
    && i < j < |p.recvs| && s.done <= |p.spawns| + i
    && var t := p.recvs[i];
      t in s.pc && s.pc[t].Blocked? && s.pc[t].k < |WaitsOf(p, t)| && WaitsOf(p, t)[s.pc[t].k] == p.recvs[j]
  }

  lemma TrappedWaits(p: Plan, s: State, i: nat, j: nat)
    requires Inv(p, s) && Trapped(p, s, i, j)
    ensures !Enabled(p, s, Advance(p.recvs[i]))
  {
    hide SawOk, Typed, WellFormed, TasksOk, Spawned;
    var w := p.recvs[j];
    InvLeft(p, s);
    BlockedTyped(p, s, p.recvs[i]);
    WaitOver(p, s, p.recvs[i]);
    TaskAt(p, s, w);
    NotReceived(p, s, j);
  }

  lemma NotReceived(p: Plan, s: State, j: nat)
    requires WellFormed(p) && j < |p.recvs| && s.done <= |p.spawns| + j
    ensures !Received(p, s.done, p.recvs[j])
  {}

  lemma CollectMoves(p: Plan, s: State, t: Task)
    requires Inv(p, s) && Enabled(p, s, Collect) && t in s.pc && s.pc[t].Blocked?
    ensures Step(p, s, Collect).pc.Keys == s.pc.Keys && Step(p, s, Collect).pc[t] == s.pc[t]
    ensures Step(p, s, Collect).done == s.done + 1
    ensures |p.spawns| <= s.done < Total(p) ==> p.recvs[s.done - |p.spawns|] != t
  {
    hide SawOk, TasksOk, Spawned, Received, MovesOnly, WaitsOf, TaskTyped;
    if s.done < |p.spawns| {
      SpawnTyped(p, s);
      SpawnTasks(p, s);
    } else {
      ReceiveTyped(p, s);
    }
  }

  /** No step of anyone ends such a wait. */
  lemma StaysTrapped(p: Plan, s: State, a: Action, i: nat, j: nat)
    requires Inv(p, s) && Enabled(p, s, a) && Trapped(p, s, i, j)
    ensures Trapped(p, Step(p, s, a), i, j)
  {
    hide SawOk, TasksOk, WellFormed, Typed, WaitsOf;
    InvLeft(p, s);
    match a
    case Collect => CollectMoves(p, s, p.recvs[i]);
    case SetCmd(t) =>
    case Advance(t) => TrappedWaits(p, s, i, j); AdvanceTyped(p, s, t);
  }

  /** After n spawns and nothing else. */
  ghost predicate JustSpawned(p: Plan, s: State, n: nat) {
    && s.done == n
    && (forall t :: t in s.pc ==> s.pc[t] == if Spawned(p, n, t) then Waiting(0) else NotSpawned)
    && (forall t :: t in s.cmd ==> !s.cmd[t])
  }

  lemma SpawnSpawns(p: Plan, s: State)
    requires WellFormed(p) && Typed(p, s) && s.done < |p.spawns| && JustSpawned(p, s, s.done)
    ensures JustSpawned(p, Spawn(p, s), s.done + 1)
  {
    hide TaskTyped, WaitsOf;
    SpawnedNext(p, s.done);
  }

  lemma {:induction false} ReachSpawned(p: Plan, n: nat) returns (s: State)
    requires WellFormed(p) && n <= |p.spawns|
    ensures Reachable(p, s) && Inv(p, s) && JustSpawned(p, s, n)
  {
    hide WellFormed, Typed, TasksOk, SawOk, JustSpawned;
    if n == 0 {
      s := Init(p);
      InitInv(p);
      assert RunTo(p, [], s);
      InitSpawned(p);
    } else {
      var r := ReachSpawned(p, n - 1);
      assert r.done == n - 1 by { SpawnedDone(p, r, n - 1); }
      SpawnSpawns(p, r);
      s := Reach(p, r, Collect);
    }
  }

  lemma SpawnedDone(p: Plan, s: State, n: nat)
    requires JustSpawned(p, s, n)
    ensures s.done == n
  {}

  lemma InitSpawned(p: Plan)
    ensures JustSpawned(p, Init(p), 0)
  {}

  /** A task moves past k tasks whose Cmd is not set. */
  lemma {:induction false} Walk(p: Plan, s: State, t: Task, k: nat) returns (s': State)
    requires WellFormed(p) && Reachable(p, s) && Inv(p, s)
    requires t in s.pc && s.pc[t] == Waiting(0) && k <= |WaitsOf(p, t)|
    requires forall h :: 0 <= h < k ==> WaitsOf(p, t)[h] in s.cmd && !s.cmd[WaitsOf(p, t)[h]]
    ensures Reachable(p, s') && Inv(p, s') && s'.done == s.done && s'.cmd == s.cmd
    ensures s'.pc == s.pc[t := Waiting(k)]
  {
    hide WellFormed, Typed, TasksOk, SawOk, WaitsOf, Reachable, Step, Enabled, GotOk, ClosedOk, LookedOk;
    if k == 0 {
      s' := s;
      assert s.pc == s.pc[t := Waiting(0)];
    } else {
      var r := Walk(p, s, t, k - 1);
      InvLeft(p, r);
      LookDecides(p, r, t, k - 1);
      s' := Reach(p, r, Advance(t));
      assert r.pc[t := Waiting(k)] == s.pc[t := Waiting(k)];
    }
  }

  function FirstAt(s: seq<Task>, w: Task): (k: nat)
    requires w in s
    ensures k < |s| && s[k] == w && w !in s[..k]
  {
    if s[0] == w then 0 else 1 + FirstAt(s[1..], w)
  }

  /** w starts to run and sets its Cmd. */
  lemma ReachCmd(p: Plan, s: State, w: Task) returns (s': State)
    requires WellFormed(p) && Reachable(p, s) && Inv(p, s) && !CmdAt(s, w)
    requires w in s.pc && s.pc[w] == Waiting(|WaitsOf(p, w)|)
    ensures Reachable(p, s') && Inv(p, s') && s'.done == s.done && s'.cmd == s.cmd[w := true]
    ensures w in s'.pc && s'.pc == s.pc[w := Running]
  {
    hide TasksOk, SawOk, Typed, WellFormed, WaitsOf, Reachable, GotOk;
    InvLeft(p, s);
    var r := Reach(p, s, Advance(w));
    AdvanceTyped(p, s, w);
    InvLeft(p, r);
    CmdKeys(p, r);
    s' := Reach(p, r, SetCmd(w));
  }

  predicate CmdAt(s: State, w: Task) { w in s.cmd && s.cmd[w] }

  lemma CmdKeys(p: Plan, s: State)
    requires Typed(p, s)
    ensures s.cmd.Keys == s.pc.Keys
  {
    hide TaskTyped;
  }

  /** w runs with its Cmd set while every other task is still waiting. */
  lemma ReachCmdSet(p: Plan, w: Task) returns (s: State)
    requires WellFormed(p) && w in p.spawns
    ensures Reachable(p, s) && Inv(p, s) && s.done == |p.spawns|
    ensures forall t :: t in p.spawns ==> t in s.cmd && t in s.pc && (s.cmd[t] <==> t == w)
    ensures forall t :: t in p.spawns && t != w ==> s.pc[t] == Waiting(0)
  {
    hide TasksOk, SawOk, Typed, WellFormed, WaitsOf, Reachable, Inv, JustSpawned;
    var r0 := ReachSpawned(p, |p.spawns|);
    AllWaiting(p, r0);
    AllCmds(p, r0, w);
    var r := Walk(p, r0, w, |WaitsOf(p, w)|);
    s := ReachCmd(p, r, w);
  }

  lemma AllWaiting(p: Plan, s: State)
    requires Inv(p, s) && JustSpawned(p, s, |p.spawns|)
    ensures s.done == |p.spawns|
    ensures forall t :: t in p.spawns ==> t in s.cmd && t in s.pc && !s.cmd[t] && s.pc[t] == Waiting(0)
  {
    hide TasksOk, SawOk, WaitsOf, TaskTyped, Received;
  }

  lemma AllCmds(p: Plan, s: State, w: Task)
    requires Inv(p, s) && JustSpawned(p, s, |p.spawns|)
    ensures forall h :: 0 <= h < |WaitsOf(p, w)| ==> WaitsOf(p, w)[h] in s.cmd && !s.cmd[WaitsOf(p, w)[h]]
  {
    hide TasksOk, SawOk, TaskTyped, Received, Spawned;
  }

  /** A task can get to wait for one that is received later. */
  lemma ReachTrap(p: Plan, i: nat, j: nat) returns (s: State)
    requires WellFormed(p) && i < j < |p.recvs| && p.recvs[j] in WaitsOf(p, p.recvs[i])
    ensures Reachable(p, s) && Inv(p, s) && Trapped(p, s, i, j)
  {
    hide TasksOk, SawOk, Typed, Reachable, WaitsOf;
    var t, w := p.recvs[i], p.recvs[j];
    assert t in p.spawns && w in p.spawns && t != w;
    var r := ReachCmdSet(p, w);
    var k := FirstAt(WaitsOf(p, t), w);
    assert forall h :: 0 <= h < k ==> WaitsOf(p, t)[h] == WaitsOf(p, t)[..k][h];
    r := Walk(p, r, t, k);
    InvLeft(p, r);
    s := Reach(p, r, Advance(t));
  }

  /** Every run that cannot go on has collected every result, if and only if nobody waits
      for a task that is received later.  By RunDrops every run comes to such an end. */
  lemma NeverStuckIffOrdered(p: Plan)
    requires WellFormed(p)
    ensures Ordered(p) <==> forall s :: Reachable(p, s) && Inv(p, s) && Stuck(p, s) ==> Final(p, s)
  {
    hide Inv, WellFormed, Reachable, Stuck, Final, WaitsOf;
    forall s | Ordered(p) && Reachable(p, s) && Inv(p, s) && Stuck(p, s)
      ensures Final(p, s)
    {
      StuckIsFinal(p, s);
    }
    if !Ordered(p) {
      var i, j :| 0 <= i < j < |p.recvs| && p.recvs[j] in WaitsOf(p, p.recvs[i]);
      var s := ReachTrap(p, i, j);
      s := RunOut(p, s, i, j);
      TrappedNotFinal(p, s, i, j);
      assert Reachable(p, s) && Inv(p, s) && Stuck(p, s) && !Final(p, s);
    }
  }

  lemma TrappedNotFinal(p: Plan, s: State, i: nat, j: nat)
    requires Trapped(p, s, i, j)
    ensures !Final(p, s)
  {}

  /** The results received are those of different tasks, in the order of the receives; a
      task looks at all those it was told to wait for before its Run, and if it saw a Cmd
      set starts only after that task's result was received and its goroutine was done. */
  lemma RunAfterWaitedFor(p: Plan, s: State)
    requires WellFormed(p) && Reachable(p, s)
    ensures s.got <= p.recvs && NoDuplicates(s.got)
    ensures forall e :: e in s.saw && e.0 in s.pc && Began(s.pc[e.0]) ==>
              e.1 in s.pc && s.pc[e.1] == Done && e.1 in s.got
    ensures forall t, w :: t in s.pc && Began(s.pc[t]) && w in WaitsOf(p, t) ==> (t, w) in s.looked
  {
    ReachableInv(p, s);
    GotPrefix(p, s);
    LookedAtAll(p, s);
    hide Inv, Reachable, WaitsOf;
    forall e | e in s.saw && e.0 in s.pc && Began(s.pc[e.0])
      ensures e.1 in s.pc && s.pc[e.1] == Done && e.1 in s.got
    {
      SawDone(p, s, e);
      ReceivedGot(p, s, e.1);
    }
  }

  lemma LookedAtAll(p: Plan, s: State)
    requires Inv(p, s)
    ensures forall t, w :: t in s.pc && Began(s.pc[t]) && w in WaitsOf(p, t) ==> (t, w) in s.looked
  {
    hide TasksOk, SawOk, WellFormed, Typed, GotOk, ClosedOk, WaitsOf;
  }

  /** A look at a task whose Cmd is set blocks the waiter, and it stays so until that task is
      done; a look at one whose Cmd is not set is all the waiting there is. */
  lemma LookDecides(p: Plan, s: State, t: Task, k: nat)
    requires Inv(p, s) && t in s.pc && s.pc[t] == Waiting(k) && k < |WaitsOf(p, t)|
    ensures var w := WaitsOf(p, t)[k];
      && w in s.cmd && Enabled(p, s, Advance(t)) && (t, w) in Step(p, s, Advance(t)).looked
      && Step(p, s, Advance(t)).pc == s.pc[t := if s.cmd[w] then Blocked(k) else Waiting(k + 1)]
      && Step(p, s, Advance(t)).cmd == s.cmd && Step(p, s, Advance(t)).done == s.done
      && Step(p, s, Advance(t)).saw == if s.cmd[w] then s.saw + {(t, w)} else s.saw
  {
    hide TasksOk, SawOk, GotOk, ClosedOk, LookedOk;
  }

  /** Without a Cmd to be seen nobody waits: any task can be in its Run while every other
      one, also those it was told to wait for, has not begun. */
  lemma RunUnordered(p: Plan, t: Task) returns (s: State)
    requires WellFormed(p) && t in p.spawns
    ensures Reachable(p, s) && t in s.pc && s.pc[t] == Running
    ensures forall w :: w in p.spawns && w != t ==> w in s.pc && s.pc[w] == Waiting(0)
  {
    hide TasksOk, SawOk, Typed, WellFormed, WaitsOf, Reachable, GotOk, JustSpawned;
    var r0 := ReachSpawned(p, |p.spawns|);
    AllWaiting(p, r0);
    AllCmds(p, r0, t);
    var r := Walk(p, r0, t, |WaitsOf(p, t)|);
    InvLeft(p, r);
    s := Reach(p, r, Advance(t));
    AdvanceTyped(p, r, t);
  }

  lemma GotPrefix(p: Plan, s: State)
    requires Inv(p, s)
    ensures s.got <= p.recvs && NoDuplicates(s.got)
  {
    hide TasksOk, SawOk, Typed, WaitsOf;
  }

  lemma SawDone(p: Plan, s: State, e: (Task, Task))
    requires Inv(p, s) && e in s.saw && e.0 in s.pc && Began(s.pc[e.0])
    ensures e.1 in s.pc && s.pc[e.1] == Done
  {
    hide TasksOk, Typed, WaitsOf, WellFormed;
  }

  lemma ReceivedGot(p: Plan, s: State, t: Task)
    requires Inv(p, s) && t in s.pc && Over(s.pc[t])
    ensures t in s.got
  {
    hide SawOk, TasksOk, Typed, WaitsOf, WellFormed;
    TaskAt(p, s, t);
  }

  // ---------------------------------------------------------------------
  // The plan of FullCapture
  // ---------------------------------------------------------------------

  /** What the configuration decides: whether a process was found by its id, whether
      a single application log and whether a script for extended data is configured. */
  datatype Config = Config(pidPassed: bool, appLog: bool, extendedData: bool)

  function FullCapture(c: Config): Plan {
    Plan(
      [GC] + (if c.pidPassed then [NetStat, Top, VMStat, PS, DMesg, Disk] else []) +
      [Ping, Kernel, ThreadDump] + (if c.appLog then [AppLog] else []) + [AppLogs, HDSub] +
      (if c.extendedData then [ExtendedData] else []),
      (if c.pidPassed then [Top, Disk, NetStat, PS, VMStat, DMesg] else []) +
      [GC, Ping] + (if c.appLog then [AppLog] else []) + [AppLogs, HDSub, Kernel, ThreadDump] +
      (if c.extendedData then [ExtendedData] else []),
      if c.pidPassed then map[DMesg := [VMStat]] else map[])
  }

  /** The place of each task among all the spawns, and among all the receives, there are. */
  function SpawnNumber(t: Task): int {
    match t
    case GC => 0 case NetStat => 1 case Top => 2 case VMStat => 3 case PS => 4 case DMesg => 5
    case Disk => 6 case Ping => 7 case Kernel => 8 case ThreadDump => 9 case AppLog => 10
    case AppLogs => 11 case HDSub => 12 case ExtendedData => 13
  }

  function RecvNumber(t: Task): int {
    match t
    case Top => 0 case Disk => 1 case NetStat => 2 case PS => 3 case VMStat => 4 case DMesg => 5
    case GC => 6 case Ping => 7 case AppLog => 8 case AppLogs => 9 case HDSub => 10
    case Kernel => 11 case ThreadDump => 12 case ExtendedData => 13
  }

  /** The numbers of s grow, from lo on and below hi. */
  ghost predicate Climbs(s: seq<Task>, number: Task -> int, lo: int, hi: int) {
    && (forall i :: 0 <= i < |s| ==> lo <= number(s[i]) < hi)
    && (forall i, j :: 0 <= i < j < |s| ==> number(s[i]) < number(s[j]))
  }

  lemma ClimbsOn(a: seq<Task>, b: seq<Task>, number: Task -> int, lo: int, mid: int, hi: int)
    requires Climbs(a, number, lo, mid) && Climbs(b, number, mid, hi) && lo <= mid <= hi
    ensures Climbs(a + b, number, lo, hi)
  {}

  lemma SystemClimbs()
    ensures Climbs([NetStat, Top, VMStat, PS, DMesg, Disk], SpawnNumber, 1, 7)
    ensures Climbs([Top, Disk, NetStat, PS, VMStat, DMesg], RecvNumber, 0, 6)
  {}

  lemma OthersClimb()
    ensures Climbs([GC], SpawnNumber, 0, 1) && Climbs([Ping, Kernel, ThreadDump], SpawnNumber, 7, 10)
    ensures Climbs([AppLogs, HDSub], SpawnNumber, 11, 13)
  {}

  lemma OtherReceivesClimb()
    ensures Climbs([GC, Ping], RecvNumber, 6, 8)
    ensures Climbs([AppLogs, HDSub, Kernel, ThreadDump], RecvNumber, 9, 13)
  {}

  lemma OptionsClimb(c: Config)
    ensures Climbs(if c.appLog then [AppLog] else [], SpawnNumber, 10, 11)
    ensures Climbs(if c.appLog then [AppLog] else [], RecvNumber, 8, 9)
    ensures Climbs(if c.extendedData then [ExtendedData] else [], SpawnNumber, 13, 14)
    ensures Climbs(if c.extendedData then [ExtendedData] else [], RecvNumber, 13, 14)
  {}

  lemma SpawnsClimb(c: Config)
    ensures Climbs(FullCapture(c).spawns, SpawnNumber, 0, 14)
  {
    hide Climbs;
    SystemClimbs();
    OthersClimb();
    OptionsClimb(c);
    EmptyClimbs(SpawnNumber, 1, 7);
    var b := if c.pidPassed then [NetStat, Top, VMStat, PS, DMesg, Disk] else [];
    var d := if c.appLog then [AppLog] else [];
    var f := if c.extendedData then [ExtendedData] else [];
    ClimbsOn([GC], b, SpawnNumber, 0, 1, 7);
    ClimbsOn([GC] + b, [Ping, Kernel, ThreadDump], SpawnNumber, 0, 7, 10);
    ClimbsOn([GC] + b + [Ping, Kernel, ThreadDump], d, SpawnNumber, 0, 10, 11);
    ClimbsOn([GC] + b + [Ping, Kernel, ThreadDump] + d, [AppLogs, HDSub], SpawnNumber, 0, 11, 13);
    ClimbsOn([GC] + b + [Ping, Kernel, ThreadDump] + d + [AppLogs, HDSub], f, SpawnNumber, 0, 13, 14);
  }

  lemma EmptyClimbs(number: Task -> int, lo: int, hi: int)
    ensures Climbs([], number, lo, hi)
  {}

  lemma RecvsClimb(c: Config)
    ensures Climbs(FullCapture(c).recvs, RecvNumber, 0, 14)
  {
    hide Climbs;
    SystemClimbs();
    OtherReceivesClimb();
    OptionsClimb(c);
    EmptyClimbs(RecvNumber, 0, 6);
    var a := if c.pidPassed then [Top, Disk, NetStat, PS, VMStat, DMesg] else [];
    var d := if c.appLog then [AppLog] else [];
    var f := if c.extendedData then [ExtendedData] else [];
    ClimbsOn(a, [GC, Ping], RecvNumber, 0, 6, 8);
    ClimbsOn(a + [GC, Ping], d, RecvNumber, 0, 8, 9);
    ClimbsOn(a + [GC, Ping] + d, [AppLogs, HDSub, Kernel, ThreadDump], RecvNumber, 0, 9, 13);
    ClimbsOn(a + [GC, Ping] + d + [AppLogs, HDSub, Kernel, ThreadDump], f, RecvNumber, 0, 13, 14);
  }

  lemma SameTasks(c: Config)
    ensures forall t :: t in FullCapture(c).spawns <==> t in FullCapture(c).recvs
    ensures c.pidPassed ==> VMStat in FullCapture(c).spawns && DMesg in FullCapture(c).spawns
    ensures FullCapture(c).waits == if c.pidPassed then map[DMesg := [VMStat]] else map[]
  {}

  /** The plan of every configuration is in order: the receive of vmstat's result comes
      before that of dmesg's, and dmesg alone waits. */
  lemma FullCaptureInOrder(c: Config)
    ensures WellFormed(FullCapture(c)) && Ordered(FullCapture(c))
  {
    hide FullCapture;
    SpawnsClimb(c);
    RecvsClimb(c);
    SameTasks(c);
  }

  /** The tasks of every configuration, by name. */
  lemma FullCaptureTasks(c: Config)
    ensures forall t :: t in FullCapture(c).spawns <==>
              match t
              case GC => true case Ping => true case Kernel => true case ThreadDump => true
              case AppLogs => true case HDSub => true
              case AppLog => c.appLog
              case ExtendedData => c.extendedData
              case _ => c.pidPassed
  {}

  lemma FullCaptureWaits(c: Config)
    ensures forall t, w :: w in WaitsOf(FullCapture(c), t) <==> c.pidPassed && t == DMesg && w == VMStat
  {
    SameTasks(c);
    hide FullCapture;
  }

  /** The order of spawns and receives with everything configured. */
  lemma FullCaptureReads(c: Config)
    requires c.pidPassed && c.appLog && c.extendedData
    ensures FullCapture(c).spawns == [GC, NetStat, Top, VMStat, PS, DMesg, Disk, Ping, Kernel, ThreadDump, AppLog,
                                      AppLogs, HDSub, ExtendedData]
    ensures FullCapture(c).recvs == [Top, Disk, NetStat, PS, VMStat, DMesg, GC, Ping, AppLog, AppLogs, HDSub, Kernel,
                                     ThreadDump, ExtendedData]
  {}

  lemma FinalIsClosed(p: Plan, s: State)
    requires Inv(p, s) && Final(p, s)
    ensures forall t :: t in p.recvs ==> t in s.pc && s.pc[t] == Done && t in s.closed
  {
    hide TasksOk, SawOk, WaitsOf, TaskTyped;
  }

  /** Every run of FullCapture, in every configuration, takes a bounded number of steps;
      one that cannot go on has every task's result, each once, and left no goroutine
      behind; and a dmesg that saw vmstat's Cmd runs only after vmstat's result was
      received. */
  lemma FullCaptureCollectsAll(c: Config, acts: seq<Action>, s: State)
    requires RunTo(FullCapture(c), acts, s)
    ensures Typed(FullCapture(c), Init(FullCapture(c))) && |acts| <= Left(FullCapture(c), Init(FullCapture(c)))
    ensures Inv(FullCapture(c), s) && NoDuplicates(s.got)
    ensures Stuck(FullCapture(c), s) ==>
              && (forall t :: t in FullCapture(c).spawns <==> t in s.got)
              && (forall t :: t in s.got ==> t in s.pc && s.pc[t] == Done && t in s.closed)
              && s.got == FullCapture(c).recvs
    ensures (DMesg, VMStat) in s.saw && DMesg in s.pc && Began(s.pc[DMesg]) ==> VMStat in s.got
  {
    hide FullCapture, Inv, Ordered, Leads, Stuck, NoDuplicates, Left;
    var p := FullCapture(c);
    FullCaptureInOrder(c);
    SameTasks(c);
    InitInv(p);
    InvLeft(p, Init(p));
    RunDrops(p, Init(p), acts, s);
    assert Reachable(p, s);
    RunAfterWaitedFor(p, s);
    if Stuck(p, s) {
      StuckIsFinal(p, s);
      FinalIsClosed(p, s);
    }
    if (DMesg, VMStat) in s.saw && DMesg in s.pc && Began(s.pc[DMesg]) {
      var e := (DMesg, VMStat);
      assert e.1 in s.got;
    }
  }

  /** dmesg is told to wait for vmstat, and can run before vmstat has begun. */
  lemma DMesgUnordered(c: Config) returns (s: State)
    requires c.pidPassed
    ensures WellFormed(FullCapture(c)) && VMStat in WaitsOf(FullCapture(c), DMesg) && Reachable(FullCapture(c), s)
    ensures DMesg in s.pc && s.pc[DMesg] == Running && VMStat in s.pc && s.pc[VMStat] == Waiting(0)
  {
    hide FullCapture, Ordered, Reachable, WellFormed;
    FullCaptureInOrder(c);
    SameTasks(c);
    s := RunUnordered(FullCapture(c), DMesg);
  }
}
