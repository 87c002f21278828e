/** The bridge relayer: a queue, at most one drain loop, and counters, under any interleaving of its callers. */
module Relayer {
  import opened BridgeCommand
  import opened Wrappers

  /** What `buildRelayCommand` makes of an event; it throws on values that cannot be turned into text. */
  datatype Built = Made(command: Command) | Nothing | BuildThrew

  /** How a call of the relay executor settles. A rejection with undefined or null makes the handler itself throw
      when it reads the message, and ends the drain loop. */
  datatype Outcome = Dispatched | NotDispatched | Failed(message: string) | FailedBare

  /** A drain loop: waiting for the executor, or done but not yet cleared from `processing`. */
  datatype Drain = Waiting(command: Command) | Done

  type TaskId = nat

  datatype State = State(
    enabled: bool,
    queue: seq<Command>,
    processing: Option<TaskId>,
    observed: nat, skipped: nat, relayed: nat, failed: nat, lastError: Option<string>,
    // The rest is not in the object: the drain loops that exist, and what was done with the commands.
    drains: map<TaskId, Drain>, nextTask: TaskId,
    handed: seq<Command>, answers: seq<Answer>, rejected: nat)

  /** The executor's answer to a command. */
  datatype Answer = Answer(command: Command, outcome: Outcome)

  datatype Event =
    | Ingest(built: Built)                    // `ingestEvent` up to its first wait
    | Flush                                   // `flushQueue` or `stop`, called by anyone
    | Settle(task: TaskId, outcome: Outcome)  // the executor answers a drain loop
    | Clear(task: TaskId)                     // the starter of a finished drain loop resumes

  function Init(enabled: bool): State {
    State(enabled, [], None, 0, 0, 0, 0, None, map[], 0, [], [], 0)
  }

  /** A drain loop between two waits: hand over the next command, or finish. */
  function Turn(s: State, task: TaskId): State {
    if s.queue == [] then s.(drains := s.drains[task := Done])
    else s.(queue := s.queue[1..], handed := s.handed + [s.queue[0]], drains := s.drains[task := Waiting(s.queue[0])])
  }

  function FlushStep(s: State): State {
    if s.processing.Some? then s
    else Turn(s.(processing := Some(s.nextTask), nextTask := s.nextTask + 1), s.nextTask)
  }

  function Count(s: State, a: Answer): State {
    var t := s.(answers := s.answers + [a]);
    match a.outcome
    case Dispatched => t.(relayed := t.relayed + 1)
    case NotDispatched => t
    case Failed(m) => t.(failed := t.failed + 1, lastError := Some(m))
    case FailedBare => t.(failed := t.failed + 1)
  }

  /** The loop goes on after an answer, or ends where it stands. */
  function GoOn(s: State, task: TaskId, outcome: Outcome): State {
    if outcome.FailedBare? then s.(drains := s.drains[task := Done]) else Turn(s, task)
  }

  function Step(s: State, e: Event): State {
    match e
    case Ingest(built) =>
      if !s.enabled then s
      else
        var t := s.(observed := s.observed + 1);
        (match built
         case BuildThrew => t.(rejected := t.rejected + 1)
         case Nothing => t.(skipped := t.skipped + 1)
         case Made(c) => FlushStep(t.(queue := t.queue + [c])))
    case Flush => FlushStep(s)
    case Settle(task, outcome) =>
      if task in s.drains && s.drains[task].Waiting?
      then GoOn(Count(s, Answer(s.drains[task].command, outcome)), task, outcome) else s
    case Clear(task) =>
      if task in s.drains && s.drains[task].Done? then s.(drains := s.drains - {task}, processing := None) else s
  }

  function Run(s: State, es: seq<Event>): State
    decreases |es|
  {
    if es == [] then s else Run(Step(s, es[0]), es[1..])
  }

  /** Appends to `done` the commands that callers ask to relay, in order. */
  function Accepted(done: seq<Command>, es: seq<Event>): seq<Command>
    decreases |es|
  {
    if es == [] then done else Accepted(Accept(done, es[0]), es[1..])
  }

  function Accept(done: seq<Command>, e: Event): seq<Command> {
    if e.Ingest? && e.built.Made? then done + [e.built.command] else done
  }

  function Requests(es: seq<Event>): nat {
    if es == [] then 0 else (if es[0].Ingest? then 1 else 0) + Requests(es[1..])
  }

  /** The events that build no command. */
  function Skips(es: seq<Event>): nat {
    if es == [] then 0 else (if es[0] == Ingest(Nothing) then 1 else 0) + Skips(es[1..])
  }

  function InFlight(s: State): nat {
    if s.processing.Some? && s.processing.value in s.drains && s.drains[s.processing.value].Waiting? then 1 else 0
  }

  /** The only drain loop is the one in `processing`, and waits for the last command handed over. */
  ghost predicate SingleDrain(s: State) {
    && (forall t :: t in s.drains <==> s.processing == Some(t))
    && (s.processing.Some? ==> s.processing.value < s.nextTask)
    && forall t :: t in s.drains && s.drains[t].Waiting? ==>
       s.handed != [] && s.handed[|s.handed| - 1] == s.drains[t].command
  }

  /** The answers of one kind. */
  function Answered(answers: seq<Answer>, kind: Outcome -> bool): nat {
    if answers == [] then 0
    else Answered(answers[..|answers| - 1], kind) + if kind(answers[|answers| - 1].outcome) then 1 else 0
  }

  predicate IsDispatched(o: Outcome) { o.Dispatched? }

  predicate IsUndispatched(o: Outcome) { o.NotDispatched? }

  predicate IsFailed(o: Outcome) { o.Failed? || o.FailedBare? }

  /** The message of the last failure that had one. */
  function LastFailure(answers: seq<Answer>): Option<string> {
    if answers == [] then None
    else
      var last := answers[|answers| - 1].outcome;
      if last.Failed? then Some(last.message) else LastFailure(answers[..|answers| - 1])
  }

  ghost predicate Conserved(s: State) {
    && s.observed == s.skipped + s.rejected + |s.handed| + |s.queue|
    && |s.handed| == |s.answers| + InFlight(s)
    && (forall i :: 0 <= i < |s.answers| ==> s.answers[i].command == s.handed[i])
  }

  /** The counters of the object agree with the answers given. */
  ghost predicate Counted(s: State) {
    && s.relayed == Answered(s.answers, IsDispatched) && s.failed == Answered(s.answers, IsFailed)
    && s.lastError == LastFailure(s.answers)
  }

  ghost predicate Inv(s: State) {
    SingleDrain(s) && Conserved(s) && Counted(s)
  }

  lemma {:induction false} AnswersAddUp(answers: seq<Answer>)
    ensures |answers| == Answered(answers, IsDispatched) + Answered(answers, IsUndispatched)
            + Answered(answers, IsFailed)
  {
    if answers != [] {
      AnswersAddUp(answers[..|answers| - 1]);
    }
  }

  lemma CountCounts(s: State, a: Answer)
    requires Counted(s)
    ensures Counted(Count(s, a))
  {
    assert (s.answers + [a])[..|s.answers|] == s.answers;
  }

  /** The commands handed over, followed by those still queued. */
  function Flow(s: State): seq<Command> {
    s.handed + s.queue
  }

  /** No command is lost, repeated or overtaken, and no event observed, from s to t. */
  predicate Continues(s: State, t: State) {
    Flow(t) == Flow(s) && s.handed <= t.handed && t.enabled == s.enabled && t.observed == s.observed &&
      t.skipped == s.skipped
  }

  lemma TurnKeeps(s: State, task: TaskId)
    requires s.processing == Some(task) && task < s.nextTask && forall t :: t in s.drains ==> t == task
    requires s.observed == s.skipped + s.rejected + |s.handed| + |s.queue| && |s.handed| == |s.answers| && Counted(s)
    requires forall i :: 0 <= i < |s.answers| ==> s.answers[i].command == s.handed[i]
    ensures Inv(Turn(s, task)) && Continues(s, Turn(s, task))
  {
    if s.queue != [] {
      assert s.handed + [s.queue[0]] + s.queue[1..] == s.handed + s.queue;
    }
  }

  lemma EndKeeps(s: State, task: TaskId)
    requires s.processing == Some(task) && task < s.nextTask && forall t :: t in s.drains ==> t == task
    requires s.observed == s.skipped + s.rejected + |s.handed| + |s.queue| && |s.handed| == |s.answers| && Counted(s)
    requires forall i :: 0 <= i < |s.answers| ==> s.answers[i].command == s.handed[i]
    ensures var t := s.(drains := s.drains[task := Done]); Inv(t) && Continues(s, t)
  {
  }

  lemma FlushKeeps(s: State)
    requires Inv(s)
    ensures Inv(FlushStep(s)) && Continues(s, FlushStep(s))
  {
    if s.processing.None? {
      TurnKeeps(s.(processing := Some(s.nextTask), nextTask := s.nextTask + 1), s.nextTask);
    }
  }

  lemma StepKeepsInv(s: State, e: Event)
    requires Inv(s)
    ensures var t := Step(s, e);
            && Inv(t) && t.enabled == s.enabled && s.handed <= t.handed
            && Flow(t) == (if s.enabled then Accept(Flow(s), e) else Flow(s))
            && t.observed == s.observed + (if s.enabled && e.Ingest? then 1 else 0)
            && t.skipped == s.skipped + (if s.enabled && e == Ingest(Nothing) then 1 else 0)
  {
    hide Turn, FlushStep;
    match e {
      case Ingest(built) => IngestKeeps(s, built);
      case Flush => FlushKeeps(s);
      case Settle(task, outcome) =>
        if task in s.drains && s.drains[task].Waiting? {
          SettleKeeps(s, task, outcome);
        }
      case Clear(task) =>
        assert Flow(Step(s, e)) == Flow(s);
    }
  }

  lemma SettleKeeps(s: State, task: TaskId, outcome: Outcome)
    requires Inv(s) && task in s.drains && s.drains[task].Waiting?
    ensures var t := Step(s, Settle(task, outcome)); Inv(t) && Continues(s, t)
  {
    hide Turn, Counted;
    var a := Answer(s.drains[task].command, outcome);
    var t := Count(s, a);
    CountCounts(s, a);
    assert Flow(t) == Flow(s);
    if !outcome.FailedBare? {
      TurnKeeps(t, task);
    } else {
      EndKeeps(t, task);
    }
  }

  lemma IngestKeeps(s: State, built: Built)
    requires Inv(s)
    ensures var t := Step(s, Ingest(built));
            && Inv(t) && t.enabled == s.enabled && s.handed <= t.handed
            && Flow(t) == (if s.enabled then Accept(Flow(s), Ingest(built)) else Flow(s))
            && t.observed == s.observed + (if s.enabled then 1 else 0)
            && t.skipped == s.skipped + (if s.enabled && built.Nothing? then 1 else 0)
  {
    hide Turn, FlushStep, Answered, LastFailure;
    if s.enabled && built.Made? {
      var t := s.(observed := s.observed + 1, queue := s.queue + [built.command]);
      assert Flow(t) == Flow(s) + [built.command];
      FlushKeeps(t);
    } else {
      assert Flow(Step(s, Ingest(built))) == Flow(s);
    }
  }

  /** After any interleaving of events, flushes, executor answers and clearings: every observed event is
      skipped, rejected by the builder, relayed, failed, undispatched, in flight or queued; there is at
      most one drain loop; and the commands handed to the executor followed by those still queued are the
      accepted ones, in order, none lost and none repeated. */
  lemma {:induction false} EveryRun(s: State, es: seq<Event>)
    requires Inv(s)
    ensures var t := Run(s, es);
            && Inv(t) && t.enabled == s.enabled && s.handed <= t.handed
            && Flow(t) == (if s.enabled then Accepted(Flow(s), es) else Flow(s))
            && t.observed == s.observed + (if s.enabled then Requests(es) else 0)
            && t.skipped == s.skipped + (if s.enabled then Skips(es) else 0)
    decreases |es|
  {
    if es != [] {
      StepKeepsInv(s, es[0]);
      hide Step, Inv, Flow;
      EveryRun(Step(s, es[0]), es[1..]);
    }
  }

  lemma RelayerConserves(enabled: bool, es: seq<Event>)
    ensures var t := Run(Init(enabled), es);
            && t.observed == t.skipped + t.rejected + t.relayed + t.failed + Answered(t.answers, IsUndispatched)
               + InFlight(t) + |t.queue|
            && t.relayed == Answered(t.answers, IsDispatched) && t.failed == Answered(t.answers, IsFailed)
            && t.lastError == LastFailure(t.answers)
            && t.observed == (if enabled then Requests(es) else 0) && t.skipped == (if enabled then Skips(es) else 0)
            && t.handed + t.queue == (if enabled then Accepted([], es) else [])
            && (forall i :: 0 <= i < |t.answers| ==> i < |t.handed| && t.answers[i].command == t.handed[i])
            && (forall a, b :: a in t.drains && b in t.drains ==> a == b)
  {
    assert Flow(Init(enabled)) == [];
    EveryRun(Init(enabled), es);
    AnswersAddUp(Run(Init(enabled), es).answers);
  }

  // ----- Progress, and where it stops -----

  /** Commands wait and no drain loop will take them. */
  predicate Stranded(s: State) {
    s.queue != [] && s.processing.None?
  }

  /** Commands are stranded exactly when the starter clears an ended drain loop over a queue that is not empty, and
      stay so exactly until the next flush, which a later accepted event brings with it. */
  lemma StrandedExactly(s: State, e: Event)
    requires Inv(s)
    ensures Stranded(Step(s, e)) <==>
            if s.processing.Some? then e.Clear? && s.processing == Some(e.task) && s.drains[e.task].Done? &&
              s.queue != []
            else s.queue != [] && !e.Flush? && !(s.enabled && e.Ingest? && e.built.Made?)
  {
  }

  /** An ended drain loop has commands behind it. */
  predicate EndedOverQueue(s: State) {
    s.queue != [] && s.processing.Some? && s.processing.value in s.drains && s.drains[s.processing.value].Done?
  }

  /** There are exactly two ways to that: a push after the loop has ended, and an executor that rejects with no
      error object while commands are queued. */
  lemma EndedOverQueueExactly(s: State, e: Event)
    requires Inv(s)
    ensures EndedOverQueue(Step(s, e)) <==>
            || (EndedOverQueue(s) && !(e.Clear? && s.processing == Some(e.task)))
            || (s.enabled && e.Ingest? && e.built.Made? && s.processing.Some? && s.drains[s.processing.value].Done?)
            || (e.Settle? && e.outcome.FailedBare? && s.processing == Some(e.task) && s.drains[e.task].Waiting? &&
               s.queue != [])
  {
    hide Counted, Conserved;
  }

  /** A push over an ended loop, or a bare rejection over commands in the queue. */
  ghost predicate LeavesBehind(s: State, e: Event) {
    || (s.enabled && e.Ingest? && e.built.Made? && s.processing.Some? && s.processing.value in s.drains
        && s.drains[s.processing.value].Done?)
    || (e.Settle? && e.outcome.FailedBare? && e.task in s.drains && s.drains[e.task].Waiting? && s.queue != [])
  }

  ghost predicate NeverLeavesBehind(s: State, es: seq<Event>)
    decreases |es|
  {
    es == [] || (!LeavesBehind(s, es[0]) && NeverLeavesBehind(Step(s, es[0]), es[1..]))
  }

  /** In a run without such an event, commands are never stranded. */
  lemma {:induction false} NeverStranded(s: State, es: seq<Event>, k: nat)
    requires Inv(s) && !Stranded(s) && !EndedOverQueue(s) && NeverLeavesBehind(s, es) && k <= |es|
    ensures !Stranded(Run(s, es[..k]))
    decreases |es|
  {
    if k > 0 {
      var e := es[0];
      StepKeepsInv(s, e);
      StrandedExactly(s, e);
      EndedOverQueueExactly(s, e);
      assert !Stranded(Step(s, e)) && !EndedOverQueue(Step(s, e));
      hide Step, Inv, Stranded, EndedOverQueue, LeavesBehind;
      assert es[..k][1..] == es[1..][..k - 1];
      NeverStranded(Step(s, e), es[1..], k - 1);
    }
  }

  /** And after each such event, the clearing of its loop strands them. */
  lemma LeavingBehindStrands(s: State, e: Event)
    requires Inv(s) && LeavesBehind(s, e)
    ensures Step(s, e).processing.Some? && Stranded(Step(Step(s, e), Clear(Step(s, e).processing.value)))
  {
    StepKeepsInv(s, e);
    EndedOverQueueExactly(s, e);
    var t := Step(s, e);
    assert EndedOverQueue(t);
    hide Counted, Conserved;
    StrandedExactly(t, Clear(t.processing.value));
  }

  /** It does happen: a push between the end of the loop and the clearing waits for the next flush. */
  lemma LatePushIsStranded(a: Command, b: Command, outcome: Outcome)
    ensures var s := Run(Init(true), [Ingest(Made(a)), Settle(0, outcome), Ingest(Made(b)), Clear(0)]);
            Stranded(s) && s.queue == [b] && s.handed == [a]
  {
    var es := [Ingest(Made(a)), Settle(0, outcome), Ingest(Made(b)), Clear(0)];
    var s1 := Step(Init(true), es[0]);
    var s2 := Step(s1, es[1]);
    var s3 := Step(s2, es[2]);
    var s4 := Step(s3, es[3]);
    assert es[1..][1..] == es[2..] && es[2..][1..] == es[3..] && es[3..][1..] == [];
    assert Run(Init(true), es) == Run(s1, es[1..]) == Run(s2, es[2..]) == Run(s3, es[3..]) == Run(s4, []);
  }

  /** And so does the other: a bare rejection leaves the rest of the queue behind, its message unrecorded. */
  lemma BareRejectionStrands(a: Command, b: Command)
    ensures var s := Run(Init(true), [Ingest(Made(a)), Ingest(Made(b)), Settle(0, FailedBare), Clear(0)]);
            Stranded(s) && s.queue == [b] && s.handed == [a] && s.failed == 1 && s.lastError == None
  {
    var es := [Ingest(Made(a)), Ingest(Made(b)), Settle(0, FailedBare), Clear(0)];
    var s1 := Step(Init(true), es[0]);
    var s2 := Step(s1, es[1]);
    var s3 := Step(s2, es[2]);
    var s4 := Step(s3, es[3]);
    assert es[1..][1..] == es[2..] && es[2..][1..] == es[3..] && es[3..][1..] == [];
    assert Run(Init(true), es) == Run(s1, es[1..]) == Run(s2, es[2..]) == Run(s3, es[3..]) == Run(s4, []);
  }

  function Answers(task: TaskId, outcomes: seq<Outcome>): seq<Event> {
    if outcomes == [] then [] else [Settle(task, outcomes[0])] + Answers(task, outcomes[1..])
  }

  /** Once a drain loop waits, answers that let it go on empty the queue, handing over every command in it. */
  lemma {:induction false} AnswersEmptyTheQueue(s: State, task: TaskId, outcomes: seq<Outcome>)
    requires task in s.drains && s.drains[task].Waiting? && |outcomes| == |s.queue| + 1
    requires forall i :: 0 <= i < |outcomes| - 1 ==> !outcomes[i].FailedBare?
    ensures var t := Run(s, Answers(task, outcomes));
            t.queue == [] && t.handed == Flow(s) && task in t.drains && t.drains[task] == Done
    decreases |outcomes|
  {
    var t := Step(s, Settle(task, outcomes[0]));
    assert Answers(task, outcomes)[1..] == Answers(task, outcomes[1..]);
    if s.queue != [] {
      assert Flow(t) == Flow(s);
      AnswersEmptyTheQueue(t, task, outcomes[1..]);
    } else {
      assert Answers(task, outcomes[1..]) == [] && Run(t, []) == t;
      assert Flow(s) == s.handed;
    }
  }

  // ----- The object -----

  function Building(sourceChain: Value, event: Option<BridgeCommand.Event>, now: string, throws: bool): Built {
    if throws then BuildThrew
    else
      match BuildRelayCommand(sourceChain, event, now)
      case None => Nothing
      case Some(c) => Made(c)
  }

  class BridgeRelayer {
    const enabled: bool
    var queue: seq<Command>
    var processing: Option<TaskId>
    var observed: nat
    var skipped: nat
    var relayed: nat
    var failed: nat
    var lastError: Option<string>
    var drains: map<TaskId, Drain>  // stands for the suspended loops of the runtime
    var nextTask: TaskId
    ghost var handed: seq<Command>
    ghost var answers: seq<Answer>
    ghost var rejected: nat

    ghost function View(): State reads this {
      State(enabled, queue, processing, observed, skipped, relayed, failed, lastError, drains, nextTask, handed,
        answers, rejected)
    }

    constructor (enabled: bool)
      ensures View() == Init(enabled)
    {
      this.enabled := enabled;
      queue, processing, lastError := [], None, None;
      observed, skipped, relayed, failed := 0, 0, 0, 0;
      drains, nextTask, handed, answers, rejected := map[], 0, [], [], 0;
    }

    /** The loop of `flushQueue` from its test to its next wait. */
    method DrainTurn(task: TaskId)
      modifies this
      ensures View() == Turn(old(View()), task)
    {
      if |queue| > 0 {
        var command := queue[0];
        queue := queue[1..];
        handed := handed + [command];
        drains := drains[task := Waiting(command)];
      } else {
        drains := drains[task := Done];
      }
    }

    method FlushQueue()
      modifies this
      ensures View() == Step(old(View()), Flush)
    {
      if processing.Some? {
        return;
      }
      var task := nextTask;
      nextTask := nextTask + 1;
      processing := Some(task);
      DrainTurn(task);
    }

    /** The command is built of the event, unless that throws. */
    method IngestEvent(sourceChain: Value, event: Option<BridgeCommand.Event>, now: string, throws: bool)
      returns (command: Option<Command>)
      modifies this
      ensures View() == Step(old(View()), Ingest(Building(sourceChain, event, now, throws)))
      ensures command == if enabled && !throws then BuildRelayCommand(sourceChain, event, now) else None
    {
      hide BuildRelayCommand, Turn;
      if !enabled {
        return None;
      }
      observed := observed + 1;
      if throws {
        rejected := rejected + 1;
        return None;
      }
      command := BuildRelayCommand(sourceChain, event, now);
      if command.None? {
        skipped := skipped + 1;
        return;
      }
      queue := queue + [command.value];
      FlushQueue();
    }

    /** The executor's answer, counted, and the loop's next turn. */
    method Resume(task: TaskId, outcome: Outcome)
      requires task in drains && drains[task].Waiting?
      modifies this
      ensures View() == Step(old(View()), Settle(task, outcome))
    {
      answers := answers + [Answer(drains[task].command, outcome)];
      match outcome {
        case Dispatched => relayed := relayed + 1;
        case NotDispatched =>
        case Failed(m) =>
          failed := failed + 1;
          lastError := Some(m);
        case FailedBare =>
          failed := failed + 1;
          drains := drains[task := Done];
          return;
      }
      DrainTurn(task);
    }

    /** The `finally` of the call that started the loop. */
    method ClearProcessing(task: TaskId)
      requires task in drains && drains[task].Done?
      modifies this
      ensures View() == Step(old(View()), Clear(task))
    {
      drains := drains - {task};
      processing := None;
    }
  }
}
