/** The thread dumps of JStack: a coordinator asks two workers, round by round, over
    buffered channels, and waits for a reply of each.  The first worker takes the dump
    and gives up after its first failure, closing its reply channel; the second runs
    top -H and goes on.  An action is one step of one of the three. */
module JStackProtocol {

  import opened Common

  /** What a worker sends back; round says for which request. */
  datatype Reply = Reply(round: nat, failed: bool)

  datatype WorkerPc =
    | Taking                  // at the receive of the next request
    | Working(round: nat)
    | Replying(reply: Reply)  // at the send of the reply
    | Quitting                // returned, about to close its reply channel
    | Gone

  /** asks and replies are the contents of the two channels of a worker, closed and over
      say whether they are closed; finished counts the rounds it worked through, and
      gaveUp is the round whose failure made it quit, 0 if there was none. */
  datatype Worker = Worker(pc: WorkerPc, asks: seq<nat>, closed: bool, replies: seq<Reply>, over: bool,
                           taken: nat, finished: nat, gaveUp: nat)

  datatype CoordinatorPc = AskTop | AskDump | AwaitDump | AwaitTop | CloseDump | CloseTop | Ended

  /** What the coordinator received in one round; None is the zero value of a closed channel. */
  datatype Round = Round(dump: Option<Reply>, top: Option<Reply>)

  datatype State = State(round: nat, at: CoordinatorPc, dump: Worker, top: Worker,
                         answer: Option<Reply>, log: seq<Round>)

  /** The outcome of a step of work is up to the environment. */
  datatype Action = Coordinate | Dump(failed: bool) | Top(failed: bool)

  const NEW_WORKER := Worker(Taking, [], false, [], false, 0, 0, 0)

  const INIT := State(1, AskTop, NEW_WORKER, NEW_WORKER, None, [])

  // ---------------------------------------------------------------------
  // Steps
  // ---------------------------------------------------------------------

  predicate WorkerEnabled(count: nat, w: Worker) {
    match w.pc
    case Taking => w.asks != [] || w.closed
    case Working(_) => true
    case Replying(_) => |w.replies| < count
    case Quitting => true
    case Gone => false
  }

  /** quits says whether a failure makes this worker give up. */
  function WorkerStep(w: Worker, failed: bool, quits: bool): Worker {
    match w.pc
    case Taking =>
      if w.asks != [] then w.(pc := Working(w.asks[0]), asks := w.asks[1..], taken := w.taken + 1)
      else w.(pc := Quitting)
    case Working(n) => w.(pc := Replying(Reply(n, failed)), finished := w.finished + 1)
    case Replying(r) =>
      if quits && r.failed then w.(pc := Quitting, replies := w.replies + [r], gaveUp := r.round)
      else w.(pc := Taking, replies := w.replies + [r])
    case _ => w.(pc := Gone, over := true)
  }

  predicate CanReceive(w: Worker) { w.replies != [] || w.over }

  function Received(w: Worker): Option<Reply> { if w.replies != [] then Some(w.replies[0]) else None }

  function AfterReceive(w: Worker): Worker { if w.replies != [] then w.(replies := w.replies[1..]) else w }

  predicate Enabled(count: nat, s: State, a: Action) {
    match a
    case Dump(_) => WorkerEnabled(count, s.dump)
    case Top(_) => WorkerEnabled(count, s.top)
    case Coordinate =>
      match s.at
      case AskTop => |s.top.asks| < count
      case AskDump => |s.dump.asks| < count
      case AwaitDump => CanReceive(s.dump)
      case AwaitTop => CanReceive(s.top)
      case CloseDump => true
      case CloseTop => true
      case Ended => false
  }

  function Step(count: nat, s: State, a: Action): State {
    match a
    case Dump(failed) => s.(dump := WorkerStep(s.dump, failed, true))
    case Top(failed) => s.(top := WorkerStep(s.top, failed, false))
    case Coordinate =>
      match s.at
      case AskTop => s.(at := AskDump, top := s.top.(asks := s.top.asks + [s.round]))
      case AskDump => s.(at := AwaitDump, dump := s.dump.(asks := s.dump.asks + [s.round]))
      case AwaitDump => s.(at := AwaitTop, answer := Received(s.dump), dump := AfterReceive(s.dump))
      case AwaitTop =>
        s.(at := if s.round < count then AskTop else CloseDump, round := s.round + 1,
           log := s.log + [Round(s.answer, Received(s.top))], top := AfterReceive(s.top))
      case CloseDump => s.(at := CloseTop, dump := s.dump.(closed := true))
      case _ => s.(at := Ended, top := s.top.(closed := true))
  }

  // ---------------------------------------------------------------------
  // What every step keeps
  // ---------------------------------------------------------------------

  /** The rounds asked of each worker, and the rounds answered, by the coordinator's place. */
  function AskedTop(s: State): int { if s.at in {AskDump, AwaitDump, AwaitTop} then s.round else s.round - 1 }
  function AskedDump(s: State): int { if s.at in {AwaitDump, AwaitTop} then s.round else s.round - 1 }
  function AnsweredDump(s: State): int { if s.at == AwaitTop then s.round else s.round - 1 }
  function AnsweredTop(s: State): int { s.round - 1 }

  /** A worker that did not give up has at most one request, and it is in one place. */
  predicate Serving(w: Worker, asked: int, answered: int, quits: bool) {
    match w.pc
    case Taking =>
      && w.finished == w.taken == asked - |w.asks|
      && ((w.asks == [] && w.replies == [] && asked == answered)
          || (w.asks == [asked] && w.replies == [] && asked == answered + 1)
          || (w.asks == [] && |w.replies| == 1 && w.replies[0].round == asked == answered + 1
              && !(quits && w.replies[0].failed)))
    case Working(n) =>
      w.asks == [] && w.replies == [] && n == asked == answered + 1 && w.taken == asked && w.finished == asked - 1
    case Replying(r) =>
      w.asks == [] && w.replies == [] && r.round == asked == answered + 1 && w.taken == asked == w.finished
    case _ =>
      w.closed && w.asks == [] && w.replies == [] && w.taken == asked == w.finished
  }

  /** A worker that gave up leaves the later requests unread. */
  predicate GivenUp(w: Worker, asked: int, answered: int) {
    && (w.pc == Quitting || w.pc == Gone)
    && w.gaveUp <= asked && |w.asks| == asked - w.gaveUp && w.taken == w.finished == w.gaveUp
    && (if answered < w.gaveUp then w.replies == [Reply(w.gaveUp, true)] && asked == w.gaveUp == answered + 1
        else w.replies == [])
  }

  predicate WorkerOk(w: Worker, asked: int, answered: int, count: nat, quits: bool) {
    && 0 <= answered <= asked <= count && asked <= answered + 1
    && (w.closed ==> answered == count)
    && (w.over <==> w.pc == Gone)
    && (if w.gaveUp == 0 then Serving(w, asked, answered, quits) else quits && GivenUp(w, asked, answered))
  }

  /** The reply of round n to the dump request, for a worker that gave up in round gaveUp. */
  predicate DumpAnswer(gaveUp: nat, n: int, answer: Option<Reply>) {
    if gaveUp == 0 || n <= gaveUp then
      answer.Some? && answer.value.round == n && (answer.value.failed <==> n == gaveUp)
    else answer == None
  }

  predicate LogOk(s: State) {
    && |s.log| == s.round - 1
    && forall i :: 0 <= i < |s.log| ==>
         && s.log[i].top.Some? && s.log[i].top.value.round == i + 1
         && DumpAnswer(s.dump.gaveUp, i + 1, s.log[i].dump)
  }

  predicate CoordinatorOk(count: nat, s: State) {
    && 1 <= s.round <= count + 1
    && (s.at in {CloseDump, CloseTop, Ended} <==> s.round == count + 1)
    && (s.dump.closed <==> s.at == CloseTop || s.at == Ended)
    && (s.top.closed <==> s.at == Ended)
    && (s.at == AwaitTop ==> DumpAnswer(s.dump.gaveUp, s.round, s.answer))
  }

  predicate Inv(count: nat, s: State) {
    && CoordinatorOk(count, s)
    && WorkerOk(s.dump, AskedDump(s), AnsweredDump(s), count, true)
    && WorkerOk(s.top, AskedTop(s), AnsweredTop(s), count, false)
    && LogOk(s)
  }

  lemma InitInv(count: nat)
    requires count >= 1
    ensures Inv(count, INIT)
  {}

  lemma WorkerStepOk(w: Worker, failed: bool, asked: int, answered: int, count: nat, quits: bool)
    requires WorkerOk(w, asked, answered, count, quits) && WorkerEnabled(count, w)
    ensures WorkerOk(WorkerStep(w, failed, quits), asked, answered, count, quits)
    ensures WorkerStep(w, failed, quits).closed == w.closed
    ensures w.gaveUp != 0 ==> WorkerStep(w, failed, quits).gaveUp == w.gaveUp
    ensures w.gaveUp == 0 && WorkerStep(w, failed, quits).gaveUp != 0 ==>
              WorkerStep(w, failed, quits).gaveUp == asked == answered + 1
  {}

  /** A request finds room, also when nobody reads the requests any more. */
  lemma AskOk(w: Worker, asked: int, count: nat, quits: bool)
    requires WorkerOk(w, asked, asked, count, quits) && asked < count
    ensures |w.asks| < count
    ensures WorkerOk(w.(asks := w.asks + [asked + 1]), asked + 1, asked, count, quits)
  {}

  /** The reply received is the one to the last request, or comes from a closed channel. */
  lemma ReceiveOk(w: Worker, asked: int, count: nat, quits: bool)
    requires WorkerOk(w, asked, asked - 1, count, quits) && CanReceive(w)
    ensures WorkerOk(AfterReceive(w), asked, asked, count, quits)
    ensures AfterReceive(w).closed == w.closed && AfterReceive(w).gaveUp == w.gaveUp
    ensures DumpAnswer(w.gaveUp, asked, Received(w)) || (!quits && w.gaveUp == 0)
    ensures !quits ==> Received(w).Some? && Received(w).value.round == asked
  {}

  lemma CloseOk(w: Worker, count: nat, quits: bool)
    requires WorkerOk(w, count, count, count, quits)
    ensures WorkerOk(w.(closed := true), count, count, count, quits)
  {}

  /** What was received before a worker gave up stays right. */
  lemma LogStays(s: State, s': State)
    requires LogOk(s) && s'.log == s.log && s'.round == s.round
    requires s'.dump.gaveUp == s.dump.gaveUp || (s.dump.gaveUp == 0 && s'.dump.gaveUp >= s.round)
    ensures LogOk(s')
  {}

  lemma LogGrows(s: State, s': State, top: Option<Reply>)
    requires LogOk(s) && s.round >= 1 && s'.log == s.log + [Round(s.answer, top)] && s'.round == s.round + 1
    requires s'.dump.gaveUp == s.dump.gaveUp && DumpAnswer(s.dump.gaveUp, s.round, s.answer)
    requires top.Some? && top.value.round == s.round
    ensures LogOk(s')
  {
    hide DumpAnswer;
  }

  lemma DumpStepInv(count: nat, s: State, failed: bool)
    requires Inv(count, s) && Enabled(count, s, Dump(failed))
    ensures Inv(count, Step(count, s, Dump(failed)))
  {
    hide WorkerOk, WorkerStep, LogOk, WorkerEnabled;
    WorkerStepOk(s.dump, failed, AskedDump(s), AnsweredDump(s), count, true);
    LogStays(s, Step(count, s, Dump(failed)));
  }

  lemma TopStepInv(count: nat, s: State, failed: bool)
    requires Inv(count, s) && Enabled(count, s, Top(failed))
    ensures Inv(count, Step(count, s, Top(failed)))
  {
    hide WorkerOk, WorkerStep, LogOk, WorkerEnabled;
    WorkerStepOk(s.top, failed, AskedTop(s), AnsweredTop(s), count, false);
    LogStays(s, Step(count, s, Top(failed)));
  }

  lemma CoordinateInv(count: nat, s: State)
    requires Inv(count, s) && Enabled(count, s, Coordinate)
    ensures Inv(count, Step(count, s, Coordinate))
  {
    hide WorkerOk, LogOk, CanReceive, Received, AfterReceive, DumpAnswer;
    var s' := Step(count, s, Coordinate);
    match s.at {
      case AskTop => AskOk(s.top, s.round - 1, count, false);
      case AskDump => AskOk(s.dump, s.round - 1, count, true);
      case AwaitDump => ReceiveOk(s.dump, s.round, count, true);
      case AwaitTop => ReceiveOk(s.top, s.round, count, false);
      case CloseDump => CloseOk(s.dump, count, true);
      case CloseTop => CloseOk(s.top, count, false);
    }
    if s.at == AwaitTop { LogGrows(s, s', Received(s.top)); } else { LogStays(s, s'); }
  }

  lemma StepInv(count: nat, s: State, a: Action)
    requires Inv(count, s) && Enabled(count, s, a)
    ensures Inv(count, Step(count, s, a))
  {
    hide Inv, Enabled, Step;
    match a
    case Dump(failed) => DumpStepInv(count, s, failed);
    case Top(failed) => TopStepInv(count, s, failed);
    case Coordinate => CoordinateInv(count, s);
  }

  // ---------------------------------------------------------------------
  // No full buffer, no deadlock, no endless run
  // ---------------------------------------------------------------------

  /** Whoever is at a send finds room in the channel, and the channel open. */
  lemma NoFullBuffer(count: nat, s: State)
    requires Inv(count, s)
    ensures s.at == AskTop ==> |s.top.asks| < count && !s.top.closed
    ensures s.at == AskDump ==> |s.dump.asks| < count && !s.dump.closed
    ensures s.dump.pc.Replying? ==> |s.dump.replies| < count && !s.dump.over
    ensures s.top.pc.Replying? ==> |s.top.replies| < count && !s.top.over
  {
    hide LogOk, DumpAnswer;
  }

  /** Before round n + 1 is requested of anyone, top -H worked through round n, and the
      dump worker did too, unless it gave up. */
  lemma RoundFinished(count: nat, s: State)
    requires Inv(count, s)
    ensures AskedTop(s) - 1 <= s.top.finished && AskedDump(s) - 1 <= s.top.finished
    ensures s.dump.gaveUp == 0 ==> AskedDump(s) - 1 <= s.dump.finished && AskedTop(s) - 1 <= s.dump.finished
  {
    hide LogOk, DumpAnswer;
  }

  ghost predicate Stuck(count: nat, s: State) { forall a :: !Enabled(count, s, a) }

  /** The coordinator saw count rounds and both workers are gone. */
  predicate Final(count: nat, s: State) {
    s.at == Ended && |s.log| == count && s.dump.pc == Gone && s.top.pc == Gone
  }

  lemma StuckIsFinal(count: nat, s: State)
    requires Inv(count, s) && Stuck(count, s)
    ensures Final(count, s)
  {
    NoFullBuffer(count, s);
    hide DumpAnswer;
    assert !Enabled(count, s, Coordinate) && !Enabled(count, s, Dump(false)) && !Enabled(count, s, Top(false));
  }

  function WorkerLeft(count: nat, w: Worker): int {
    match w.pc
    case Taking => 3 * (count - w.taken) + 2
    case Working(_) => 3 * (count - w.taken) + 4
    case Replying(_) => 3 * (count - w.taken) + 3
    case Quitting => 1
    case Gone => 0
  }

  function CoordinatorLeft(count: nat, s: State): int {
    match s.at
    case AskTop => 4 * (count - s.round) + 6
    case AskDump => 4 * (count - s.round) + 5
    case AwaitDump => 4 * (count - s.round) + 4
    case AwaitTop => 4 * (count - s.round) + 3
    case CloseDump => 2
    case CloseTop => 1
    case Ended => 0
  }

  /** The steps that can still be taken at most. */
  function Left(count: nat, s: State): int {
    CoordinatorLeft(count, s) + WorkerLeft(count, s.dump) + WorkerLeft(count, s.top)
  }

  lemma StepDrops(count: nat, s: State, a: Action)
    requires Inv(count, s) && Enabled(count, s, a)
    ensures Left(count, Step(count, s, a)) < Left(count, s)
  {
    hide LogOk, DumpAnswer;
  }

  lemma LeftNonNegative(count: nat, s: State)
    requires Inv(count, s)
    ensures 0 <= Left(count, s)
  {
    hide LogOk, DumpAnswer;
  }

  // ---------------------------------------------------------------------
  // Whole runs
  // ---------------------------------------------------------------------

  /** acts lead from s to s'. */
  predicate Leads(count: nat, s: State, acts: seq<Action>, s': State)
    decreases |acts|
  {
    if acts == [] then s' == s
    else Enabled(count, s, acts[0]) && Leads(count, Step(count, s, acts[0]), acts[1..], s')
  }

  lemma {:induction false} RunKeeps(count: nat, s: State, acts: seq<Action>, s': State)
    requires Inv(count, s) && Leads(count, s, acts, s')
    ensures Inv(count, s') && |acts| + Left(count, s') <= Left(count, s)
    decreases |acts|
  {
    hide Inv, Enabled, Step, Left;
    if acts != [] {
      StepInv(count, s, acts[0]);
      StepDrops(count, s, acts[0]);
      RunKeeps(count, Step(count, s, acts[0]), acts[1..], s');
    }
  }

  /** Whatever fails: a run takes at most ten steps a round and six more; one that cannot
      go on has been through count rounds, in each of them received top -H's reply of that
      round, and the dump's reply of that round as long as the dump worker had not given
      up; and both workers are gone. */
  lemma JStackCompletes(count: nat, acts: seq<Action>, s: State)
    requires count >= 1 && Leads(count, INIT, acts, s)
    ensures |acts| <= 10 * count + 6 && Inv(count, s)
    ensures Stuck(count, s) ==> s.at == Ended && s.dump.pc == Gone && s.top.pc == Gone && |s.log| == count
    ensures forall i :: 0 <= i < |s.log| ==>
              && s.log[i].top.Some? && s.log[i].top.value.round == i + 1
              && (if s.dump.gaveUp == 0 || i < s.dump.gaveUp
                  then s.log[i].dump == Some(Reply(i + 1, i + 1 == s.dump.gaveUp))
                  else s.log[i].dump == None)
  {
    hide WorkerOk, CoordinatorOk, Leads, Stuck;
    InitInv(count);
    RunKeeps(count, INIT, acts, s);
    LeftNonNegative(count, s);
    if Stuck(count, s) { StuckIsFinal(count, s); }
  }

  // ---------------------------------------------------------------------
  // What the environment decides is what is reported
  // ---------------------------------------------------------------------

  /** The outcomes of the steps of one worker, in order. */
  function Outcomes(acts: seq<Action>, dump: bool): seq<bool>
    decreases |acts|
  {
    if acts == [] then []
    else
      (match acts[0]
       case Dump(failed) => if dump then [failed] else []
       case Top(failed) => if dump then [] else [failed]
       case Coordinate => [])
      + Outcomes(acts[1..], dump)
  }

  /** A worker takes three steps a round: it takes the request, ends its work, and sends the
      reply.  So the second of these decides the outcome of round n. */
  predicate Failed(h: seq<bool>, n: nat) { 1 <= n && 3 * n - 2 < |h| && h[3 * n - 2] }

  /** How many steps a worker has taken, by its place. */
  predicate StepsTaken(w: Worker, h: seq<bool>) {
    match w.pc
    case Taking => |h| == 3 * w.taken
    case Working(_) => w.taken >= 1 && |h| == 3 * w.taken - 2
    case Replying(r) => w.taken >= 1 && |h| == 3 * w.taken - 1 && r.failed == h[3 * w.taken - 2]
    case Quitting => |h| == 3 * w.taken + if w.gaveUp > 0 then 0 else 1
    case Gone => |h| == 3 * w.taken + if w.gaveUp > 0 then 1 else 2
  }

  ghost predicate WorkerTold(w: Worker, h: seq<bool>, quits: bool) {
    && StepsTaken(w, h)
    && (forall i :: 0 <= i < |w.replies| ==>
          3 * w.replies[i].round <= |h| && w.replies[i].failed == Failed(h, w.replies[i].round))
    && (quits ==> w.gaveUp == 0 ==> forall m :: 1 <= m && 3 * m <= |h| ==> !Failed(h, m))
    && (w.gaveUp > 0 ==> 3 * w.gaveUp <= |h| && Failed(h, w.gaveUp) && forall m :: 1 <= m < w.gaveUp ==> !Failed(h, m))
  }

  predicate AnswerTold(answer: Option<Reply>, h: seq<bool>) {
    answer.Some? ==> 3 * answer.value.round <= |h| && answer.value.failed == Failed(h, answer.value.round)
  }

  ghost predicate Told(s: State, dump: seq<bool>, top: seq<bool>) {
    && WorkerTold(s.dump, dump, true) && WorkerTold(s.top, top, false)
    && AnswerTold(s.answer, dump)
    && forall i :: 0 <= i < |s.log| ==> AnswerTold(s.log[i].dump, dump) && AnswerTold(s.log[i].top, top)
  }

  lemma FailedStays(h: seq<bool>, failed: bool)
    ensures forall n: nat :: 3 * n <= |h| ==> Failed(h + [failed], n) == Failed(h, n)
  {}

  lemma WorkerStepTold(w: Worker, h: seq<bool>, failed: bool, asked: int, answered: int, count: nat, quits: bool)
    requires WorkerOk(w, asked, answered, count, quits) && WorkerEnabled(count, w) && WorkerTold(w, h, quits)
    ensures WorkerTold(WorkerStep(w, failed, quits), h + [failed], quits)
  {
    FailedStays(h, failed);
  }

  lemma ReceiveTold(w: Worker, h: seq<bool>, quits: bool)
    requires WorkerTold(w, h, quits)
    ensures WorkerTold(AfterReceive(w), h, quits) && AnswerTold(Received(w), h)
  {
    hide Failed;
  }

  /** The ends of the request channel are no matter. */
  lemma RequestsTell(w: Worker, h: seq<bool>, quits: bool, asks: seq<nat>)
    requires WorkerTold(w, h, quits)
    ensures WorkerTold(w.(asks := asks), h, quits) && WorkerTold(w.(closed := true), h, quits)
  {
    hide Failed;
  }

  /** The n-th piece of work failed, its reply is sent, and none before failed. */
  ghost predicate FirstFailure(h: seq<bool>, n: int)
    requires n >= 1
  {
    3 * n <= |h| && h[3 * n - 2] && forall m :: 1 <= m < n ==> !h[3 * m - 2]
  }

  lemma CoordinateTold(count: nat, s: State, dump: seq<bool>, top: seq<bool>)
    requires Enabled(count, s, Coordinate) && Told(s, dump, top)
    ensures Told(Step(count, s, Coordinate), dump, top)
  {
    hide WorkerTold, AnswerTold, AfterReceive, Received, CanReceive;
    ReceiveTold(s.dump, dump, true);
    ReceiveTold(s.top, top, false);
    RequestsTell(s.dump, dump, true, s.dump.asks + [s.round]);
    RequestsTell(s.top, top, false, s.top.asks + [s.round]);
  }

  lemma ToldStays(s: State, dump: seq<bool>, top: seq<bool>, failed: bool)
    requires Told(s, dump, top)
    ensures AnswerTold(s.answer, dump + [failed])
    ensures forall i :: 0 <= i < |s.log| ==>
              AnswerTold(s.log[i].dump, dump + [failed]) && AnswerTold(s.log[i].top, top + [failed])
  {
    FailedStays(dump, failed);
    FailedStays(top, failed);
    hide Failed, WorkerTold;
  }

  lemma StepTold(count: nat, s: State, a: Action, dump: seq<bool>, top: seq<bool>)
    requires Inv(count, s) && Enabled(count, s, a) && Told(s, dump, top)
    ensures Told(Step(count, s, a), dump + Outcomes([a], true), top + Outcomes([a], false))
  {
    hide WorkerOk, WorkerTold, WorkerStep, WorkerEnabled, AnswerTold, LogOk;
    OneOutcome(a);
    match a
    case Coordinate => CoordinateTold(count, s, dump, top); assert dump + [] == dump && top + [] == top;
    case Dump(failed) =>
      assert top + [] == top;
      ToldStays(s, dump, top, failed);
      WorkerStepTold(s.dump, dump, failed, AskedDump(s), AnsweredDump(s), count, true);
    case Top(failed) =>
      assert dump + [] == dump;
      ToldStays(s, dump, top, failed);
      WorkerStepTold(s.top, top, failed, AskedTop(s), AnsweredTop(s), count, false);
  }

  lemma OneOutcome(a: Action)
    ensures Outcomes([a], true) == if a.Dump? then [a.failed] else []
    ensures Outcomes([a], false) == if a.Top? then [a.failed] else []
  {
    assert [a][1..] == [];
  }

  lemma {:induction false} RunTold(count: nat, s: State, acts: seq<Action>, s': State, dump: seq<bool>, top: seq<bool>)
    requires Inv(count, s) && Leads(count, s, acts, s') && Told(s, dump, top)
    ensures Told(s', dump + Outcomes(acts, true), top + Outcomes(acts, false))
    decreases |acts|
  {
    hide Inv, Enabled, Step, Told;
    if acts == [] {
      assert dump + [] == dump && top + [] == top;
    } else {
      var a, rest := acts[0], acts[1..];
      StepInv(count, s, a);
      StepTold(count, s, a, dump, top);
      var dump', top' := dump + Outcomes([a], true), top + Outcomes([a], false);
      RunTold(count, Step(count, s, a), rest, s', dump', top');
      OutcomesCons(acts);
      assert dump' + Outcomes(rest, true) == dump + (Outcomes([a], true) + Outcomes(rest, true));
      assert top' + Outcomes(rest, false) == top + (Outcomes([a], false) + Outcomes(rest, false));
    }
  }

  lemma OutcomesCons(acts: seq<Action>)
    requires acts != []
    ensures forall dump :: Outcomes(acts, dump) == Outcomes([acts[0]], dump) + Outcomes(acts[1..], dump)
  {
    OneOutcome(acts[0]);
  }

  /** Over every run, by the outcomes of the actions alone: the dump worker gave up in round n
      exactly when the action that ended its work of round n failed and none before did, and
      every reply in the log tells how the action that ended that round's work went. */
  lemma OutcomesAreReported(count: nat, acts: seq<Action>, s: State)
    requires count >= 1 && Leads(count, INIT, acts, s)
    ensures var h := Outcomes(acts, true); forall n :: n >= 1 ==> (s.dump.gaveUp == n <==> FirstFailure(h, n))
    ensures var h := Outcomes(acts, false); forall i :: 0 <= i < |s.log| ==>
              s.log[i].top.Some? && 3 * i + 1 < |h| && s.log[i].top.value.failed == h[3 * i + 1]
    ensures var h := Outcomes(acts, true); forall i :: 0 <= i < |s.log| && s.log[i].dump.Some? ==>
              3 * i + 1 < |h| && s.log[i].dump.value.failed == h[3 * i + 1]
  {
    hide Leads, Outcomes, Inv, Told, Stuck, FirstFailure;
    InitInv(count);
    InitTold();
    RunTold(count, INIT, acts, s, [], []);
    JStackCompletes(count, acts, s);
    var dump, top := Outcomes(acts, true), Outcomes(acts, false);
    assert [] + dump == dump && [] + top == top;
    LogIsTold(s, dump, top);
  }

  lemma LogIsTold(s: State, dump: seq<bool>, top: seq<bool>)
    requires Told(s, dump, top)
    requires forall i :: 0 <= i < |s.log| ==>
               && s.log[i].top.Some? && s.log[i].top.value.round == i + 1
               && (s.log[i].dump.Some? ==> s.log[i].dump.value.round == i + 1)
    ensures forall n :: n >= 1 ==> (s.dump.gaveUp == n <==> FirstFailure(dump, n))
    ensures forall i :: 0 <= i < |s.log| ==>
              s.log[i].top.Some? && 3 * i + 1 < |top| && s.log[i].top.value.failed == top[3 * i + 1]
    ensures forall i :: 0 <= i < |s.log| && s.log[i].dump.Some? ==>
              3 * i + 1 < |dump| && s.log[i].dump.value.failed == dump[3 * i + 1]
  {
    hide WorkerTold, AnswerTold, FirstFailure;
    GaveUpIs(s.dump, dump);
    forall i | 0 <= i < |s.log|
      ensures 3 * i + 1 < |top| && s.log[i].top.value.failed == top[3 * i + 1]
      ensures s.log[i].dump.Some? ==> 3 * i + 1 < |dump| && s.log[i].dump.value.failed == dump[3 * i + 1]
    {
      ReplyTold(s.log[i].top, top, i);
      if s.log[i].dump.Some? { ReplyTold(s.log[i].dump, dump, i); }
    }
  }

  lemma ReplyTold(answer: Option<Reply>, h: seq<bool>, i: nat)
    requires AnswerTold(answer, h) && answer.Some? && answer.value.round == i + 1
    ensures 3 * i + 1 < |h| && answer.value.failed == h[3 * i + 1]
  {}

  lemma InitTold()
    ensures Told(INIT, [], [])
  {}

  lemma GaveUpIs(w: Worker, h: seq<bool>)
    requires WorkerTold(w, h, true)
    ensures forall n :: n >= 1 ==> (w.gaveUp == n <==> FirstFailure(h, n))
  {
    forall n | n >= 1
      ensures w.gaveUp == n <==> FirstFailure(h, n)
    {
      GaveUpAt(w, h, n);
      if 3 * n <= |h| { NoneFailed(h, n); }
    }
  }

  lemma GaveUpAt(w: Worker, h: seq<bool>, n: nat)
    requires WorkerTold(w, h, true) && n >= 1
    ensures w.gaveUp == n <==> 3 * n <= |h| && Failed(h, n) && forall m: nat :: 1 <= m < n ==> !Failed(h, m)
  {
    hide StepsTaken, Failed;
  }

  lemma NoneFailed(h: seq<bool>, n: nat)
    requires 1 <= n && 3 * n <= |h|
    ensures Failed(h, n) == h[3 * n - 2]
    ensures (forall m: nat :: 1 <= m < n ==> !Failed(h, m)) <==> (forall m :: 1 <= m < n ==> !h[3 * m - 2])
  {
    if forall m: nat :: 1 <= m < n ==> !Failed(h, m) {
      forall m | 1 <= m < n ensures !h[3 * m - 2] {
        assert !Failed(h, m);
      }
    }
  }
}
