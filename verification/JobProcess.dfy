/**
 The worker's reusable job process: parent and child joined by two first-in first-out pipes.

 What the parent does not control is a script: for every turn of its loop, what the child did
 before the poll and after it, the time, and what `on_tick` answered. Results hold over all
 scripts. A result message carries the job it was computed from, so that a task need not be a
 function of its parameters.
 */
module JobProcess {
  import opened Wrappers

  datatype Job = Job(target: string, params: string)

  datatype Message = Ready | Result(job: Job, payload: string)

  datatype Phase = Booting | Idle | Busy(job: Job)

  /** A child and its pipes: jobs sent and not yet taken, messages sent and not yet read. */
  datatype Child = Child(alive: bool, phase: Phase, inbox: seq<Job>, outbox: seq<Message>)

  /** What a child may do next; an action that is not possible changes nothing. */
  datatype Action = Boot | Take | Finish(payload: string) | Die

  datatype Answer = Continue | Stop(reason: string) | Raise

  /** One turn of the loop: poll, liveness check, clock, tick. */
  datatype Turn = Turn(early: seq<Action>, late: seq<Action>, now: int, answer: Answer)

  datatype Outcome =
    | Done(message: Message)
    | Timeout
    | Crashed
    | Stopped(reason: string)
    | Raised
    | SendFailed
    | Running

  const CHILD_BOOT_SECONDS: int := 120

  // ----- The child

  const NewChild := Child(true, Booting, [], [])

  /** `_child_main`, one step at a time. */
  function Act(c: Child, a: Action): Child {
    if !c.alive then c else
    match a
    case Die => c.(alive := false)
    case Boot => if c.phase.Booting? then c.(phase := Idle, outbox := c.outbox + [Ready]) else c
    case Take =>
      if c.phase.Idle? && c.inbox != [] then c.(phase := Busy(c.inbox[0]), inbox := c.inbox[1..]) else c
    case Finish(payload) =>
      if c.phase.Busy? then c.(phase := Idle, outbox := c.outbox + [Result(c.phase.job, payload)]) else c
  }

  function Acts(c: Child, actions: seq<Action>): Child
    decreases actions
  {
    if actions == [] then c else Acts(Act(c, actions[0]), actions[1..])
  }

  // ----- The parent

  datatype Parent = Parent(child: Option<Child>, jobs: nat)

  datatype Ended = Ended(parent: Parent, outcome: Outcome, deadline: Option<int>)

  /** The loop of `run`: `deadline` is set once the child is ready. */
  function Loop(c: Child, jobs: nat, recycle: nat, deadline: Option<int>, bootBy: int, timeout: int,
          turns: seq<Turn>): Ended
    decreases turns
  {
    if turns == [] then Ended(Parent(Some(c), jobs), Running, deadline)
    else
      var t := turns[0];
      var polled := Acts(c, t.early);
      if polled.outbox != [] then
        var rest := polled.(outbox := polled.outbox[1..]);
        if polled.outbox[0].Ready? then
          Loop(rest, jobs, recycle, Some(t.now + timeout), bootBy, timeout, turns[1..])
        else
          Ended(Parent(if jobs + 1 >= recycle then None else Some(rest), jobs + 1), Done(polled.outbox[0]), deadline)
      else if !polled.alive then Ended(Parent(None, jobs), Crashed, deadline)
      else
        var checked := Acts(polled, t.late);
        if !checked.alive then Ended(Parent(None, jobs), Crashed, deadline)
        else if deadline.None? && t.now >= bootBy then Ended(Parent(None, jobs), Crashed, deadline)
        else if deadline.Some? && t.now >= deadline.value then Ended(Parent(None, jobs), Timeout, deadline)
        else
          match t.answer
          case Stop(reason) => Ended(Parent(None, jobs), Stopped(reason), deadline)
          case Raise => Ended(Parent(Some(checked), jobs), Raised, deadline)
          case Continue => Loop(checked, jobs, recycle, deadline, bootBy, timeout, turns[1..])
  }

  predicate HasLiveChild(p: Parent) {
    p.child.Some? && p.child.value.alive
  }

  /** One call: its job and limit, the time it starts, what the child did since the last call and
      while the job was being sent, and its turns. */
  datatype Call = Call(job: Job, timeout: int, start: int, idle: seq<Action>, sending: seq<Action>, turns: seq<Turn>)

  /** `run`. A child that is gone is replaced; sending to one that has just died raises. */
  function Run(p: Parent, recycle: nat, call: Call): Ended {
    var restart := !HasLiveChild(p);
    var jobs := if restart then 0 else p.jobs;
    var deadline := if restart then None else Some(call.start + call.timeout);
    var c := Acts(if restart then NewChild else p.child.value, call.sending);
    if !c.alive then Ended(Parent(Some(c), jobs), SendFailed, deadline)
    else Loop(c.(inbox := c.inbox + [call.job]), jobs, recycle, deadline, call.start + CHILD_BOOT_SECONDS,
              call.timeout, call.turns)
  }

  /** What the child does on its own between calls. */
  function Between(p: Parent, actions: seq<Action>): Parent {
    match p.child
    case None => p
    case Some(c) => p.(child := Some(Acts(c, actions)))
  }

  class Process {
    const recycleAfter: nat
    var child: Option<Child>
    var jobs: nat

    constructor (recycleAfter: nat)
      ensures this.recycleAfter == recycleAfter && Abstract() == Parent(None, 0)
    {
      this.recycleAfter := recycleAfter;
      child, jobs := None, 0;
    }

    ghost function Abstract(): Parent
      reads this
    {
      Parent(child, jobs)
    }

    /** `stop` and `kill` both end without a child; `stop` first asks it to leave. */
    method Kill()
      modifies this`child
      ensures child == None
    {
      child := None;
    }

    method RunJob(call: Call) returns (outcome: Outcome, ghost deadline: Option<int>)
      modifies this
      ensures Ended(Abstract(), outcome, deadline) == Run(old(Abstract()), recycleAfter, call)
    {
      var limit: Option<int> := None;
      deadline := None;
      if child.None? || !child.value.alive {
        child, jobs := Some(NewChild), 0;
      } else {
        limit := Some(call.start + call.timeout);
      }
      child := Some(Acts(child.value, call.sending));
      deadline := limit;
      if !child.value.alive {
        return SendFailed, deadline;
      }
      child := Some(child.value.(inbox := child.value.inbox + [call.job]));
      var bootBy := call.start + CHILD_BOOT_SECONDS;
      var i := 0;
      while i < |call.turns|
        invariant 0 <= i <= |call.turns| && child.Some?
        invariant Loop(child.value, jobs, recycleAfter, limit, bootBy, call.timeout, call.turns[i..])
               == Run(old(Abstract()), recycleAfter, call)
      {
        var turn := call.turns[i];
        assert call.turns[i..][0] == turn && call.turns[i..][1..] == call.turns[i + 1..];
        deadline := limit;
        child := Some(Acts(child.value, turn.early));
        if child.value.outbox != [] {
          var message := child.value.outbox[0];
          child := Some(child.value.(outbox := child.value.outbox[1..]));
          if message.Ready? {
            limit := Some(turn.now + call.timeout);
            i := i + 1;
            continue;
          }
          jobs := jobs + 1;
          if jobs >= recycleAfter {
            Kill();
          }
          return Done(message), deadline;
        }
        if !child.value.alive {
          Kill();
          return Crashed, deadline;
        }
        child := Some(Acts(child.value, turn.late));
        if !child.value.alive {
          Kill();
          return Crashed, deadline;
        }
        if limit.None? && turn.now >= bootBy {
          Kill();
          return Crashed, deadline;
        }
        if limit.Some? && turn.now >= limit.value {
          Kill();
          return Timeout, deadline;
        }
        match turn.answer {
          case Stop(reason) =>
            Kill();
            return Stopped(reason), deadline;
          case Raise =>
            return Raised, deadline;
          case Continue =>
        }
        i := i + 1;
      }
      deadline := limit;
      return Running, deadline;
    }
  }

  // ----- What a child owes its parent

  /** No child, a dead one, or one that waits with both pipes empty. */
  predicate Clean(p: Parent) {
    HasLiveChild(p) ==> p.child.value.phase.Idle? && p.child.value.inbox == [] && p.child.value.outbox == []
  }

  /** The jobs a child has yet to answer, and the answers not yet read, oldest first. */
  function Owed(c: Child): seq<Job> {
    Answered(c.outbox) + (if c.phase.Busy? then [c.phase.job] else []) + c.inbox
  }

  function Answered(messages: seq<Message>): seq<Job> {
    if messages == [] then []
    else (if messages[0].Ready? then [] else [messages[0].job]) + Answered(messages[1..])
  }

  /** Whether the child has yet to be heard saying it is ready; it says so once, and first. */
  predicate Unready(c: Child) {
    c.phase.Booting? || Ready in c.outbox
  }

  predicate Orderly(c: Child) {
    && (c.phase.Booting? ==> c.outbox == [])
    && (forall i :: 1 <= i < |c.outbox| ==> c.outbox[i].Result?)
  }

  lemma {:induction false} AnsweredAppend(messages: seq<Message>, m: Message)
    ensures Answered(messages + [m]) == Answered(messages) + if m.Ready? then [] else [m.job]
  {
    if messages == [] {
      assert messages + [m] == [m];
      assert [m][1..] == [];
    } else {
      var whole := messages + [m];
      AnsweredAppend(messages[1..], m);
      assert whole[0] == messages[0] && whole[1..] == messages[1..] + [m];
      assert Answered(whole) == (if messages[0].Ready? then [] else [messages[0].job]) + Answered(whole[1..]);
    }
  }

  /** Nothing a child does on its own changes what it owes, except that dying keeps it silent. */
  lemma ActKeeps(c: Child, a: Action)
    requires Orderly(c)
    ensures Orderly(Act(c, a)) && Owed(Act(c, a)) == Owed(c)
    ensures Unready(Act(c, a)) <==> Unready(c)
  {
    var d := Act(c, a);
    if c.alive && a.Boot? && c.phase.Booting? {
      AnsweredAppend(c.outbox, Ready);
      assert Answered(c.outbox) + [] == Answered(c.outbox);
    } else if c.alive && a.Finish? && c.phase.Busy? {
      AnsweredAppend(c.outbox, Result(c.phase.job, a.payload));
      assert Answered(c.outbox) + [c.phase.job] + [] == Answered(c.outbox) + [c.phase.job];
      assert Ready in d.outbox <==> Ready in c.outbox;
    } else if c.alive && a.Take? && c.phase.Idle? && c.inbox != [] {
      assert Answered(c.outbox) + [c.inbox[0]] + c.inbox[1..] == Answered(c.outbox) + [] + c.inbox;
    }
  }

  lemma {:induction false} ActsKeep(c: Child, actions: seq<Action>)
    requires Orderly(c)
    ensures Orderly(Acts(c, actions)) && Owed(Acts(c, actions)) == Owed(c)
    ensures Unready(Acts(c, actions)) <==> Unready(c)
    decreases actions
  {
    hide Orderly, Owed, Unready, Act;
    if actions != [] {
      ActKeeps(c, actions[0]);
      ActsKeep(Act(c, actions[0]), actions[1..]);
    }
  }

  /** Reading one message: a result answers the oldest job owed, and cannot come before readiness. */
  lemma ReadKeeps(c: Child)
    requires Orderly(c) && c.outbox != []
    ensures var d := c.(outbox := c.outbox[1..]);
            && Orderly(d) && !Unready(d)
            && (c.outbox[0].Ready? ==> Unready(c) && Owed(d) == Owed(c))
            && (c.outbox[0].Result? ==> !Unready(c) && Owed(c) == [c.outbox[0].job] + Owed(d))
  {
    var d := c.(outbox := c.outbox[1..]);
    assert forall i :: 0 <= i < |d.outbox| ==> d.outbox[i] == c.outbox[i + 1];
    if c.outbox[0].Result? {
      assert Answered(c.outbox) == [c.outbox[0].job] + Answered(d.outbox);
    } else {
      assert Answered(c.outbox) == [] + Answered(d.outbox);
    }
  }

  // ----- One call

  /** In a run the loop sees a child that owes exactly its job. */
  predicate Owes(c: Child, job: Job, deadline: Option<int>) {
    Orderly(c) && Owed(c) == [job] && (deadline.None? <==> Unready(c))
  }

  /** A live child that owes `job` and nothing else. */
  predicate LeftOwing(p: Parent, job: Job) {
    HasLiveChild(p) && Orderly(p.child.value) && Owed(p.child.value) == [job]
  }

  lemma OwingIsNotClean(p: Parent, job: Job)
    requires LeftOwing(p, job)
    ensures !Clean(p)
  {
    assert Answered([]) == [];
  }

  /** What the loop returns: a result of its own job only. What it leaves: no child that still owes
      anything, exactly when no tick raised; otherwise a live child that owes just that job. */
  lemma {:induction false} LoopPairs(c: Child, jobs: nat, recycle: nat, job: Job, deadline: Option<int>, bootBy: int,
          timeout: int, turns: seq<Turn>)
    requires Owes(c, job, deadline)
    ensures var e := Loop(c, jobs, recycle, deadline, bootBy, timeout, turns);
            && (e.outcome.Done? ==> e.outcome.message.Result? && e.outcome.message.job == job && e.deadline.Some?)
            && (e.outcome.Timeout? ==> e.deadline.Some?)
            && (!e.outcome.Running? ==> (Clean(e.parent) <==> !e.outcome.Raised?))
            && (e.outcome.Raised? ==> LeftOwing(e.parent, job))
    decreases turns
  {
    hide Orderly, Owed, Unready, Acts;
    if turns != [] {
      var t := turns[0];
      var polled := Acts(c, t.early);
      ActsKeep(c, t.early);
      if polled.outbox != [] {
        ReadKeeps(polled);
        var rest := polled.(outbox := polled.outbox[1..]);
        if polled.outbox[0].Ready? {
          LoopPairs(rest, jobs, recycle, job, Some(t.now + timeout), bootBy, timeout, turns[1..]);
        } else {
          LastAnswer(polled, job);
        }
      } else if polled.alive {
        var checked := Acts(polled, t.late);
        ActsKeep(polled, t.late);
        if t.answer.Continue? {
          LoopPairs(checked, jobs, recycle, job, deadline, bootBy, timeout, turns[1..]);
        } else if checked.alive {
          OwingIsNotClean(Parent(Some(checked), jobs), job);
        }
      }
    }
  }

  /** Once the only job owed is answered, nothing is left in the pipes. */
  lemma LastAnswer(c: Child, job: Job)
    requires Orderly(c) && Owed(c) == [job] && c.outbox != [] && c.outbox[0].Result?
    ensures c.outbox[0].job == job
    ensures var d := c.(outbox := c.outbox[1..]); d.phase.Idle? && d.inbox == [] && d.outbox == []
  {
    ReadKeeps(c);
    var d := c.(outbox := c.outbox[1..]);
    assert ([c.outbox[0].job] + Owed(d))[0] == c.outbox[0].job;
    assert [c.outbox[0].job] + Owed(d) == [job];
    assert Owed(d) == [];
    NothingAnswered(d.outbox);
  }

  lemma NothingAnswered(messages: seq<Message>)
    requires Answered(messages) == [] && forall i :: 0 <= i < |messages| ==> messages[i].Result?
    ensures messages == []
  {
    assert messages != [] ==> |Answered(messages)| > 0;
  }

  /** A call that starts clean returns only results of its own job. However it returns, it leaves a
      clean parent exactly when no tick raised; after a raise the live child owes just this job. */
  lemma RunPairs(p: Parent, recycle: nat, call: Call)
    requires Clean(p)
    ensures var e := Run(p, recycle, call);
            && (e.outcome.Done? ==> e.outcome.message.Result? && e.outcome.message.job == call.job)
            && (!e.outcome.Running? ==> (Clean(e.parent) <==> !e.outcome.Raised?))
            && (e.outcome.Raised? ==> LeftOwing(e.parent, call.job))
  {
    hide Loop;
    var before := if HasLiveChild(p) then p.child.value else NewChild;
    var c := Acts(before, call.sending);
    ActsKeep(before, call.sending);
    if c.alive {
      NothingOwed(c);
      var deadline := if HasLiveChild(p) then Some(call.start + call.timeout) else None;
      LoopPairs(c.(inbox := c.inbox + [call.job]), if HasLiveChild(p) then p.jobs else 0, recycle, call.job,
                deadline, call.start + CHILD_BOOT_SECONDS, call.timeout, call.turns);
    }
  }

  lemma NothingOwed(c: Child)
    requires Owed(c) == []
    ensures forall job :: Owed(c.(inbox := c.inbox + [job])) == [job]
  {
    assert c.inbox == [] && !c.phase.Busy? && Answered(c.outbox) == [];
  }

  lemma BetweenClean(p: Parent, actions: seq<Action>)
    requires Clean(p)
    ensures Clean(Between(p, actions))
  {
    if p.child.Some? {
      IdleStays(p.child.value, actions);
    }
  }

  lemma {:induction false} IdleStays(c: Child, actions: seq<Action>)
    requires c.alive ==> c.phase.Idle? && c.inbox == [] && c.outbox == []
    ensures var d := Acts(c, actions); d.alive ==> d.phase.Idle? && d.inbox == [] && d.outbox == []
    decreases actions
  {
    if actions != [] {
      IdleStays(Act(c, actions[0]), actions[1..]);
    }
  }

  // ----- Sequences of calls

  function RunAll(p: Parent, recycle: nat, calls: seq<Call>): (outcomes: seq<Outcome>)
    ensures |outcomes| == |calls|
    decreases calls
  {
    if calls == [] then []
    else
      var e := Run(Between(p, calls[0].idle), recycle, calls[0]);
      [e.outcome] + RunAll(e.parent, recycle, calls[1..])
  }

  predicate Quiet(turns: seq<Turn>) {
    forall i :: 0 <= i < |turns| ==> !turns[i].answer.Raise?
  }

  lemma {:induction false} QuietNeverRaises(c: Child, jobs: nat, recycle: nat, deadline: Option<int>, bootBy: int,
          timeout: int, turns: seq<Turn>)
    requires Quiet(turns)
    ensures !Loop(c, jobs, recycle, deadline, bootBy, timeout, turns).outcome.Raised?
    decreases turns
  {
    if turns != [] {
      var t := turns[0];
      var polled := Acts(c, t.early);
      assert Quiet(turns[1..]);
      if polled.outbox != [] && polled.outbox[0].Ready? {
        QuietNeverRaises(polled.(outbox := polled.outbox[1..]), jobs, recycle, Some(t.now + timeout), bootBy, timeout, turns[1..]);
      } else if polled.outbox == [] && polled.alive && t.answer.Continue? {
        QuietNeverRaises(Acts(polled, t.late), jobs, recycle, deadline, bootBy, timeout, turns[1..]);
      }
    }
  }

  /** Over any sequence of calls that return and whose ticks do not raise, every result handed back
      was computed from the job it is handed back for. */
  lemma {:induction false} AllPaired(p: Parent, recycle: nat, calls: seq<Call>, i: nat)
    requires Clean(p) && i < |calls|
    requires forall k :: 0 <= k < |calls| ==> Quiet(calls[k].turns) && !RunAll(p, recycle, calls)[k].Running?
    ensures var o := RunAll(p, recycle, calls)[i];
            o.Done? ==> o.message.Result? && o.message.job == calls[i].job
    decreases calls
  {
    hide Loop, Clean, Quiet;
    var q := Between(p, calls[0].idle);
    BetweenClean(p, calls[0].idle);
    RunPairs(q, recycle, calls[0]);
    var e := Run(q, recycle, calls[0]);
    var outcomes, rest := RunAll(p, recycle, calls), RunAll(e.parent, recycle, calls[1..]);
    assert outcomes == [e.outcome] + rest;
    if i > 0 {
      RunQuiet(q, recycle, calls[0]);
      assert outcomes[0] == e.outcome;
      forall k | 0 <= k < |calls[1..]|
        ensures Quiet(calls[1..][k].turns) && !rest[k].Running?
      {
        assert calls[1..][k] == calls[k + 1] && rest[k] == outcomes[k + 1];
      }
      AllPaired(e.parent, recycle, calls[1..], i - 1);
      assert rest[i - 1] == outcomes[i] && calls[1..][i - 1] == calls[i];
    }
  }

  lemma RunQuiet(p: Parent, recycle: nat, call: Call)
    requires Quiet(call.turns)
    ensures !Run(p, recycle, call).outcome.Raised?
  {
    hide Loop, Quiet;
    var live := HasLiveChild(p);
    var c := Acts(if live then p.child.value else NewChild, call.sending);
    QuietNeverRaises(c.(inbox := c.inbox + [call.job]), if live then p.jobs else 0, recycle,
                     if live then Some(call.start + call.timeout) else None,
                     call.start + CHILD_BOOT_SECONDS, call.timeout, call.turns);
  }

  // ----- When a tick raises

  /** Whatever the child and the clock do, a result comes from the oldest job the child owes, and
      leaves the child owing the rest; a raise leaves it owing all; anything else ends the child. */
  lemma {:induction false} LoopAnswersOldest(c: Child, jobs: nat, recycle: nat, deadline: Option<int>, bootBy: int,
          timeout: int, turns: seq<Turn>)
    requires Orderly(c) && Owed(c) != []
    ensures var e := Loop(c, jobs, recycle, deadline, bootBy, timeout, turns);
            && (e.outcome.Done? ==> e.outcome.message.Result? && e.outcome.message.job == Owed(c)[0])
            && (e.outcome.Done? && HasLiveChild(e.parent) ==>
                  Orderly(e.parent.child.value) && Owed(e.parent.child.value) == Owed(c)[1..])
            && (e.outcome.Raised? ==>
                  HasLiveChild(e.parent) && Orderly(e.parent.child.value) && Owed(e.parent.child.value) == Owed(c))
            && (!e.outcome.Running? && !e.outcome.Done? && !e.outcome.Raised? ==> e.parent.child.None?)
    decreases turns
  {
    hide Orderly, Owed, Unready, Acts;
    if turns != [] {
      var t := turns[0];
      var polled := Acts(c, t.early);
      ActsKeep(c, t.early);
      if polled.outbox != [] {
        ReadKeeps(polled);
        var rest := polled.(outbox := polled.outbox[1..]);
        if polled.outbox[0].Ready? {
          LoopAnswersOldest(rest, jobs, recycle, Some(t.now + timeout), bootBy, timeout, turns[1..]);
        } else {
          assert ([polled.outbox[0].job] + Owed(rest))[1..] == Owed(rest);
        }
      } else if polled.alive {
        ActsKeep(polled, t.late);
        if t.answer.Continue? {
          LoopAnswersOldest(Acts(polled, t.late), jobs, recycle, deadline, bootBy, timeout, turns[1..]);
        }
      }
    }
  }

  /** Left owing one job, the child hands that job's result to the next call, whatever that call asked
      for, and then owes the call's own job: from then on every result belongs to the call before. */
  lemma ResultsStayLate(p: Parent, recycle: nat, owed: Job, call: Call)
    requires LeftOwing(p, owed)
    ensures var e := Run(p, recycle, call);
            && (e.outcome.Done? ==> e.outcome.message.Result? && e.outcome.message.job == owed)
            && (e.outcome.Done? && HasLiveChild(e.parent) ==> LeftOwing(e.parent, call.job))
  {
    hide Loop;
    var c := Acts(p.child.value, call.sending);
    ActsKeep(p.child.value, call.sending);
    if c.alive {
      SendingOwes(c, call.job);
      assert ([owed] + [call.job])[1..] == [call.job];
      LoopAnswersOldest(c.(inbox := c.inbox + [call.job]), p.jobs, recycle, Some(call.start + call.timeout),
                        call.start + CHILD_BOOT_SECONDS, call.timeout, call.turns);
    }
  }

  lemma SendingOwes(c: Child, job: Job)
    requires Orderly(c)
    ensures var d := c.(inbox := c.inbox + [job]); Orderly(d) && Owed(d) == Owed(c) + [job]
  {
  }

  /** A child that boots if it has to, takes a job if it can and finishes it. */
  const Obliging: seq<Action> := [Boot, Take, Finish("")]

  lemma ObligingSpeaks(c: Child)
    requires c.alive && Orderly(c) && Owed(c) != []
    ensures Acts(c, Obliging).outbox != [] && Acts(c, Obliging).alive
  {
    var one := Act(c, Boot);
    var two := Act(one, Take);
    assert Obliging[1..] == [Take, Finish("")] && Obliging[1..][1..] == [Finish("")] && [Finish("")][1..] == [];
    assert Acts(one, Obliging[1..]) == Acts(two, [Finish("")]) == Act(two, Finish(""));
    assert Answered([]) == [];
  }

  /** An obliging child that has to answer is heard within two turns. */
  lemma ObligingAnswers(c: Child, jobs: nat, recycle: nat, deadline: Option<int>, bootBy: int, timeout: int, now: int)
    requires c.alive && Orderly(c) && Owed(c) != []
    ensures var turn := Turn(Obliging, [], now, Continue);
            Loop(c, jobs, recycle, deadline, bootBy, timeout, [turn, turn]).outcome.Done?
    ensures !Unready(c) ==>
              Loop(c, jobs, recycle, deadline, bootBy, timeout, [Turn(Obliging, [], now, Continue)]).outcome.Done?
    decreases if Unready(c) then 1 else 0
  {
    hide Orderly, Owed, Unready, Acts;
    var turn := Turn(Obliging, [], now, Continue);
    var polled := Acts(c, Obliging);
    ObligingSpeaks(c);
    ActsKeep(c, Obliging);
    ReadKeeps(polled);
    assert [turn, turn][1..] == [turn];
    if polled.outbox[0].Ready? {
      var rest := polled.(outbox := polled.outbox[1..]);
      ObligingAnswers(rest, jobs, recycle, Some(now + timeout), bootBy, timeout, now);
      assert Loop(c, jobs, recycle, deadline, bootBy, timeout, [turn, turn])
          == Loop(rest, jobs, recycle, Some(now + timeout), bootBy, timeout, [turn]);
    }
  }

  /** And it can happen: an obliging child left owing any job, booting, idle or busy, answers the next
      call with that job's result. */
  lemma OwingBreaksPairing(p: Parent, recycle: nat, owed: Job, job: Job, start: int, timeout: int)
    requires LeftOwing(p, owed)
    ensures var turn := Turn(Obliging, [], start, Continue);
            var o := Run(p, recycle, Call(job, timeout, start, [], [], [turn, turn])).outcome;
            o.Done? && o.message.Result? && o.message.job == owed
  {
    hide Orderly, Owed, Loop;
    var turn := Turn(Obliging, [], start, Continue);
    ResultsStayLate(p, recycle, owed, Call(job, timeout, start, [], [], [turn, turn]));
    var c := p.child.value;
    assert Acts(c, []) == c;
    SendingOwes(c, job);
    ObligingAnswers(c.(inbox := c.inbox + [job]), p.jobs, recycle, Some(start + timeout), start + CHILD_BOOT_SECONDS,
                    timeout, start);
  }

  /** Any clean parent, with or without a child, can be left so: a tick that raises before the job is
      answered is enough. */
  lemma RaiseLeavesOwing(p: Parent, recycle: nat, job: Job, start: int, timeout: int)
    requires Clean(p) && timeout > 0
    ensures var e := Run(p, recycle, Call(job, timeout, start, [], [], [Turn([], [], start, Raise)]));
            e.outcome.Raised? && LeftOwing(e.parent, job)
  {
    hide Orderly, Owed;
    var call := Call(job, timeout, start, [], [], [Turn([], [], start, Raise)]);
    RunPairs(p, recycle, call);
    var c := if HasLiveChild(p) then p.child.value else NewChild;
    var sent := c.(inbox := c.inbox + [job]);
    assert Acts(c, []) == c && Acts(sent, []) == sent;
  }

  // ----- The time limit

  /** The child as the loop's turn `i` finds it, while the loop goes on. */
  function ChildAt(c: Child, turns: seq<Turn>, i: nat): Child
    requires i <= |turns|
    decreases turns, i
  {
    if i == 0 then c
    else
      var polled := Acts(c, turns[0].early);
      ChildAt(if polled.outbox != [] then polled.(outbox := polled.outbox[1..]) else Acts(polled, turns[0].late),
              turns[1..], i - 1)
  }

  /** Whether turn `i` reads that the child is ready. */
  predicate HearsReady(c: Child, turns: seq<Turn>, i: nat)
    requires i < |turns|
  {
    var polled := Acts(ChildAt(c, turns, i), turns[i].early);
    polled.outbox != [] && polled.outbox[0].Ready?
  }

  /** A new child's job has no deadline until the parent has heard that the child is ready, and
      then the whole limit from that moment on; until then only the boot limit applies. */
  lemma {:induction false} LimitStartsWhenReady(c: Child, jobs: nat, recycle: nat, bootBy: int, timeout: int,
          turns: seq<Turn>) returns (i: nat)
    requires Loop(c, jobs, recycle, None, bootBy, timeout, turns).deadline.Some?
    requires Orderly(c) && Unready(c)
    ensures i < |turns| && HearsReady(c, turns, i)
    ensures Loop(c, jobs, recycle, None, bootBy, timeout, turns).deadline == Some(turns[i].now + timeout)
    decreases turns
  {
    hide Acts, Orderly, Unready;
    var t := turns[0];
    var polled := Acts(c, t.early);
    ActsKeep(c, t.early);
    if polled.outbox != [] {
      ReadKeeps(polled);
      var rest := polled.(outbox := polled.outbox[1..]);
      DeadlineSticks(rest, jobs, recycle, t.now + timeout, bootBy, timeout, turns[1..]);
      i := 0;
    } else {
      var checked := Acts(polled, t.late);
      ActsKeep(polled, t.late);
      i := LimitStartsWhenReady(checked, jobs, recycle, bootBy, timeout, turns[1..]);
      assert ChildAt(c, turns, i + 1) == ChildAt(checked, turns[1..], i);
      assert turns[i + 1] == turns[1..][i];
      i := i + 1;
    }
  }

  /** Readiness is heard once: a deadline that is set stays. */
  lemma {:induction false} DeadlineSticks(c: Child, jobs: nat, recycle: nat, deadline: int, bootBy: int, timeout: int,
          turns: seq<Turn>)
    requires Orderly(c) && !Unready(c)
    ensures Loop(c, jobs, recycle, Some(deadline), bootBy, timeout, turns).deadline == Some(deadline)
    decreases turns
  {
    hide Acts, Orderly, Unready;
    if turns != [] {
      var t := turns[0];
      var polled := Acts(c, t.early);
      ActsKeep(c, t.early);
      if polled.outbox != [] {
        ReadKeeps(polled);
      } else {
        ActsKeep(polled, t.late);
        DeadlineSticks(Acts(polled, t.late), jobs, recycle, deadline, bootBy, timeout, turns[1..]);
      }
    }
  }

  /** A call never times out before its whole limit has passed since readiness was heard, or since
      the start when the child was ready already. */
  lemma {:induction false} TimeoutAfterDeadline(c: Child, jobs: nat, recycle: nat, deadline: Option<int>, bootBy: int,
          timeout: int, turns: seq<Turn>) returns (at: nat)
    requires Loop(c, jobs, recycle, deadline, bootBy, timeout, turns).outcome.Timeout?
    ensures at < |turns|
    ensures var e := Loop(c, jobs, recycle, deadline, bootBy, timeout, turns);
            e.deadline.Some? && turns[at].now >= e.deadline.value
    decreases turns
  {
    var t := turns[0];
    var polled := Acts(c, t.early);
    if polled.outbox != [] {
      at := TimeoutAfterDeadline(polled.(outbox := polled.outbox[1..]), jobs, recycle, Some(t.now + timeout), bootBy, timeout, turns[1..]);
      at := at + 1;
    } else if deadline.Some? && t.now >= deadline.value {
      at := 0;
    } else {
      at := TimeoutAfterDeadline(Acts(polled, t.late), jobs, recycle, deadline, bootBy, timeout, turns[1..]);
      at := at + 1;
    }
  }

  /** A job sent to a new process times out no sooner than its whole limit after the process was
      heard to be ready, however long it took to start. */
  lemma NewProcessTimesOutLate(p: Parent, recycle: nat, call: Call) returns (sent: Child, heard: nat, at: nat)
    requires !HasLiveChild(p) && Run(p, recycle, call).outcome.Timeout?
    ensures sent == Acts(NewChild, call.sending).(inbox := [call.job])
    ensures heard < |call.turns| && at < |call.turns| && HearsReady(sent, call.turns, heard)
    ensures call.turns[at].now >= call.turns[heard].now + call.timeout
  {
    hide Loop, HearsReady;
    var c := Acts(NewChild, call.sending);
    ActsKeep(NewChild, call.sending);
    NothingOwed(c);
    sent := c.(inbox := c.inbox + [call.job]);
    assert sent.inbox == [call.job];
    var bootBy := call.start + CHILD_BOOT_SECONDS;
    at := TimeoutAfterDeadline(sent, 0, recycle, None, bootBy, call.timeout, call.turns);
    heard := LimitStartsWhenReady(sent, 0, recycle, bootBy, call.timeout, call.turns);
  }

  // ----- How a call ends, read off its turns

  /** The child after the poll of turn `i`. */
  function PolledAt(c: Child, turns: seq<Turn>, i: nat): Child
    requires i < |turns|
  {
    Acts(ChildAt(c, turns, i), turns[i].early)
  }

  predicate HearsResult(c: Child, turns: seq<Turn>, i: nat)
    requires i < |turns|
  {
    PolledAt(c, turns, i).outbox != [] && PolledAt(c, turns, i).outbox[0].Result?
  }

  /** Turn `i` finds nothing to read and a child that lives through the check. */
  predicate SilentAt(c: Child, turns: seq<Turn>, i: nat)
    requires i < |turns|
  {
    PolledAt(c, turns, i).outbox == [] && Acts(PolledAt(c, turns, i), turns[i].late).alive
  }

  predicate GoneAt(c: Child, turns: seq<Turn>, i: nat)
    requires i < |turns|
  {
    PolledAt(c, turns, i).outbox == [] && !Acts(PolledAt(c, turns, i), turns[i].late).alive
  }

  /** The deadline in force at turn `i`: the limit after the last turn that heard readiness, or the
      one the loop began with. */
  function DeadlineAt(c: Child, deadline: Option<int>, timeout: int, turns: seq<Turn>, i: nat): Option<int>
    requires i <= |turns|
  {
    if i == 0 then deadline
    else if HearsReady(c, turns, i - 1) then Some(turns[i - 1].now + timeout)
    else DeadlineAt(c, deadline, timeout, turns, i - 1)
  }

  predicate TimeUpAt(c: Child, deadline: Option<int>, timeout: int, turns: seq<Turn>, i: nat)
    requires i < |turns|
  {
    var limit := DeadlineAt(c, deadline, timeout, turns, i);
    SilentAt(c, turns, i) && limit.Some? && turns[i].now >= limit.value
  }

  predicate BootOverAt(c: Child, deadline: Option<int>, timeout: int, bootBy: int, turns: seq<Turn>, i: nat)
    requires i < |turns|
  {
    SilentAt(c, turns, i) && DeadlineAt(c, deadline, timeout, turns, i).None? && turns[i].now >= bootBy
  }

  /** Turn `i` is quiet and within its limit, and it is the tick that ends the call. */
  predicate TickEndsAt(c: Child, deadline: Option<int>, timeout: int, bootBy: int, turns: seq<Turn>, i: nat)
    requires i < |turns|
  {
    && SilentAt(c, turns, i) && !turns[i].answer.Continue?
    && !TimeUpAt(c, deadline, timeout, turns, i) && !BootOverAt(c, deadline, timeout, bootBy, turns, i)
  }

  predicate EndsAt(c: Child, deadline: Option<int>, timeout: int, bootBy: int, turns: seq<Turn>, i: nat)
    requires i < |turns|
  {
    || HearsResult(c, turns, i) || GoneAt(c, turns, i)
    || TimeUpAt(c, deadline, timeout, turns, i) || BootOverAt(c, deadline, timeout, bootBy, turns, i)
    || TickEndsAt(c, deadline, timeout, bootBy, turns, i)
  }

  /** What turn `i` makes of a call it ends. */
  predicate EndedBy(e: Ended, c: Child, jobs: nat, recycle: nat, deadline: Option<int>, timeout: int, bootBy: int,
                    turns: seq<Turn>, i: nat)
    requires i < |turns|
  {
    var polled := PolledAt(c, turns, i);
    && e.deadline == DeadlineAt(c, deadline, timeout, turns, i)
    && !e.outcome.Running? && !e.outcome.SendFailed?
    && e.parent.jobs == (if HearsResult(c, turns, i) then jobs + 1 else jobs)
    && (e.outcome.Done? <==> HearsResult(c, turns, i))
    && (HearsResult(c, turns, i) ==>
          && e.outcome.message == polled.outbox[0]
          && e.parent.child == if jobs + 1 >= recycle then None else Some(polled.(outbox := polled.outbox[1..])))
    && (e.outcome.Timeout? <==> TimeUpAt(c, deadline, timeout, turns, i))
    && (e.outcome.Crashed? <==> GoneAt(c, turns, i) || BootOverAt(c, deadline, timeout, bootBy, turns, i))
    && (e.outcome.Stopped? || e.outcome.Raised? <==> TickEndsAt(c, deadline, timeout, bootBy, turns, i))
    && (e.outcome.Stopped? ==> turns[i].answer == Stop(e.outcome.reason))
    && (e.outcome.Raised? ==> turns[i].answer.Raise? && e.parent.child == Some(Acts(polled, turns[i].late)))
    && (!e.outcome.Done? && !e.outcome.Raised? ==> e.parent.child.None?)
  }

  /** What the turns after the first look like from the first one's end. */
  lemma {:induction false} OneTurnOn(c: Child, deadline: Option<int>, timeout: int, turns: seq<Turn>, i: nat)
    requires 0 < i <= |turns|
    ensures var next, limit := ChildAt(c, turns, 1), DeadlineAt(c, deadline, timeout, turns, 1);
            && ChildAt(c, turns, i) == ChildAt(next, turns[1..], i - 1)
            && DeadlineAt(c, deadline, timeout, turns, i) == DeadlineAt(next, limit, timeout, turns[1..], i - 1)
  {
    hide Acts;
    if i > 1 {
      OneTurnOn(c, deadline, timeout, turns, i - 1);
    }
  }

  lemma LaterEnds(c: Child, deadline: Option<int>, timeout: int, bootBy: int, turns: seq<Turn>, i: nat)
    requires 0 < i < |turns|
    ensures var next, limit := ChildAt(c, turns, 1), DeadlineAt(c, deadline, timeout, turns, 1);
            EndsAt(c, deadline, timeout, bootBy, turns, i) <==> EndsAt(next, limit, timeout, bootBy, turns[1..], i - 1)
  {
    hide Acts, ChildAt, DeadlineAt;
    OneTurnOn(c, deadline, timeout, turns, i);
  }

  lemma LaterEndedBy(e: Ended, c: Child, jobs: nat, recycle: nat, deadline: Option<int>, timeout: int, bootBy: int,
          turns: seq<Turn>, i: nat)
    requires 0 < i < |turns|
    ensures var next, limit := ChildAt(c, turns, 1), DeadlineAt(c, deadline, timeout, turns, 1);
            (EndedBy(e, c, jobs, recycle, deadline, timeout, bootBy, turns, i)
             <==> EndedBy(e, next, jobs, recycle, limit, timeout, bootBy, turns[1..], i - 1))
  {
    hide Acts, ChildAt, DeadlineAt;
    OneTurnOn(c, deadline, timeout, turns, i);
  }

  lemma {:induction false} DeadStays(c: Child, actions: seq<Action>)
    requires !c.alive
    ensures Acts(c, actions) == c
    decreases actions
  {
    if actions != [] {
      DeadStays(c, actions[1..]);
    }
  }

  /** A loop goes on past a turn that does not end it. */
  lemma GoesOn(c: Child, jobs: nat, recycle: nat, deadline: Option<int>, bootBy: int, timeout: int, turns: seq<Turn>)
    requires turns != [] && !EndsAt(c, deadline, timeout, bootBy, turns, 0)
    ensures Loop(c, jobs, recycle, deadline, bootBy, timeout, turns)
         == Loop(ChildAt(c, turns, 1), jobs, recycle, DeadlineAt(c, deadline, timeout, turns, 1), bootBy, timeout, turns[1..])
  {
    hide Acts;
    var polled := Acts(c, turns[0].early);
    if !polled.alive {
      DeadStays(polled, turns[0].late);
    }
    assert ChildAt(c, turns, 0) == c;
    assert ChildAt(ChildAt(c, turns, 1), turns[1..], 0) == ChildAt(c, turns, 1);
  }

  lemma EndsHere(c: Child, jobs: nat, recycle: nat, deadline: Option<int>, bootBy: int, timeout: int, turns: seq<Turn>)
    requires turns != [] && EndsAt(c, deadline, timeout, bootBy, turns, 0)
    ensures EndedBy(Loop(c, jobs, recycle, deadline, bootBy, timeout, turns), c, jobs, recycle, deadline, timeout, bootBy, turns, 0)
  {
    hide Acts;
    var polled := Acts(c, turns[0].early);
    if !polled.alive {
      DeadStays(polled, turns[0].late);
    }
  }

  /** Turn `i` is the first that ends the call. */
  predicate FirstEnd(c: Child, deadline: Option<int>, timeout: int, bootBy: int, turns: seq<Turn>, i: nat) {
    && i < |turns| && EndsAt(c, deadline, timeout, bootBy, turns, i)
    && forall j :: 0 <= j < i ==> !EndsAt(c, deadline, timeout, bootBy, turns, j)
  }

  predicate NeverEnds(c: Child, deadline: Option<int>, timeout: int, bootBy: int, turns: seq<Turn>) {
    forall j :: 0 <= j < |turns| ==> !EndsAt(c, deadline, timeout, bootBy, turns, j)
  }

  /** Over all scripts: the loop ends at the first turn that ends it, as that turn says. */
  lemma {:induction false} LoopEndsExactly(c: Child, jobs: nat, recycle: nat, deadline: Option<int>, bootBy: int,
          timeout: int, turns: seq<Turn>, i: nat)
    requires FirstEnd(c, deadline, timeout, bootBy, turns, i)
    ensures EndedBy(Loop(c, jobs, recycle, deadline, bootBy, timeout, turns), c, jobs, recycle, deadline, timeout, bootBy, turns, i)
    decreases turns
  {
    hide Loop, EndsAt, EndedBy, ChildAt, DeadlineAt;
    if i == 0 {
      EndsHere(c, jobs, recycle, deadline, bootBy, timeout, turns);
    } else {
      var next, limit := ChildAt(c, turns, 1), DeadlineAt(c, deadline, timeout, turns, 1);
      GoesOn(c, jobs, recycle, deadline, bootBy, timeout, turns);
      forall j | 0 < j <= i
        ensures EndsAt(c, deadline, timeout, bootBy, turns, j) <==> EndsAt(next, limit, timeout, bootBy, turns[1..], j - 1)
      {
        LaterEnds(c, deadline, timeout, bootBy, turns, j);
      }
      forall j | 0 <= j < i - 1
        ensures !EndsAt(next, limit, timeout, bootBy, turns[1..], j)
      {
        assert !EndsAt(c, deadline, timeout, bootBy, turns, j + 1);
      }
      LoopEndsExactly(next, jobs, recycle, limit, bootBy, timeout, turns[1..], i - 1);
      LaterEndedBy(Loop(c, jobs, recycle, deadline, bootBy, timeout, turns), c, jobs, recycle, deadline, timeout, bootBy, turns, i);
    }
  }

  lemma {:induction false} LoopRunsOn(c: Child, jobs: nat, recycle: nat, deadline: Option<int>, bootBy: int,
          timeout: int, turns: seq<Turn>)
    requires NeverEnds(c, deadline, timeout, bootBy, turns)
    ensures Loop(c, jobs, recycle, deadline, bootBy, timeout, turns)
         == Ended(Parent(Some(ChildAt(c, turns, |turns|)), jobs), Running, DeadlineAt(c, deadline, timeout, turns, |turns|))
    decreases turns
  {
    hide EndsAt, Acts;
    if turns != [] {
      var next, limit := ChildAt(c, turns, 1), DeadlineAt(c, deadline, timeout, turns, 1);
      GoesOn(c, jobs, recycle, deadline, bootBy, timeout, turns);
      forall j | 0 <= j < |turns| - 1
        ensures !EndsAt(next, limit, timeout, bootBy, turns[1..], j)
      {
        LaterEnds(c, deadline, timeout, bootBy, turns, j + 1);
      }
      LoopRunsOn(next, jobs, recycle, limit, bootBy, timeout, turns[1..]);
      OneTurnOn(c, deadline, timeout, turns, |turns|);
    }
  }

  lemma {:induction false} FirstOrNever(c: Child, deadline: Option<int>, timeout: int, bootBy: int, turns: seq<Turn>,
          n: nat) returns (i: nat)
    requires n <= |turns| && forall j :: 0 <= j < n ==> !EndsAt(c, deadline, timeout, bootBy, turns, j)
    ensures FirstEnd(c, deadline, timeout, bootBy, turns, i) || NeverEnds(c, deadline, timeout, bootBy, turns)
    decreases |turns| - n
  {
    hide EndsAt;
    i := n;
    if n < |turns| && !EndsAt(c, deadline, timeout, bootBy, turns, n) {
      i := FirstOrNever(c, deadline, timeout, bootBy, turns, n + 1);
    }
  }

  /** A call's beginning: the child it speaks to, with the job sent, and the deadline it has. */
  function SentTo(p: Parent, call: Call): Child {
    var c := Acts(if HasLiveChild(p) then p.child.value else NewChild, call.sending);
    c.(inbox := c.inbox + [call.job])
  }

  function FirstDeadline(p: Parent, call: Call): Option<int> {
    if HasLiveChild(p) then Some(call.start + call.timeout) else None
  }

  lemma NeverLate(c: Child, deadline: Option<int>, timeout: int, bootBy: int, turns: seq<Turn>)
    requires NeverEnds(c, deadline, timeout, bootBy, turns)
    ensures forall j :: 0 <= j < |turns| && SilentAt(c, turns, j) && DeadlineAt(c, deadline, timeout, turns, j).Some? ==>
              turns[j].now < DeadlineAt(c, deadline, timeout, turns, j).value
  {
    hide Acts, ChildAt, DeadlineAt;
    forall j | 0 <= j < |turns| && SilentAt(c, turns, j) && DeadlineAt(c, deadline, timeout, turns, j).Some?
      ensures turns[j].now < DeadlineAt(c, deadline, timeout, turns, j).value
    {
      assert !EndsAt(c, deadline, timeout, bootBy, turns, j);
    }
  }

  /** Every call, over all scripts. It fails at once where the child dies before the job is sent; else
      the first turn that ends it says how: a result is heard, the child is gone, the deadline or, of a
      new child not yet ready, the 120 seconds for starting are over, or a tick ends it. Where no turn
      does, it is still running, and every silent turn came before its deadline. */
  lemma RunEndsExactly(p: Parent, recycle: nat, call: Call) returns (i: nat)
    ensures var e := Run(p, recycle, call);
            var c, deadline, bootBy := SentTo(p, call), FirstDeadline(p, call), call.start + 120;
            var jobs := if HasLiveChild(p) then p.jobs else 0;
            && (e.outcome.SendFailed? <==> !c.alive)
            && (e.outcome.Running? <==> c.alive && NeverEnds(c, deadline, call.timeout, bootBy, call.turns))
            && (c.alive && !e.outcome.Running? ==>
                  && FirstEnd(c, deadline, call.timeout, bootBy, call.turns, i)
                  && EndedBy(e, c, jobs, recycle, deadline, call.timeout, bootBy, call.turns, i))
            && (e.outcome.Running? ==>
                  forall j :: 0 <= j < |call.turns| && SilentAt(c, call.turns, j)
                              && DeadlineAt(c, deadline, call.timeout, call.turns, j).Some? ==>
                    call.turns[j].now < DeadlineAt(c, deadline, call.timeout, call.turns, j).value)
  {
    hide Loop, Acts, ChildAt, DeadlineAt, SilentAt, EndsAt;
    var c, deadline, bootBy := SentTo(p, call), FirstDeadline(p, call), call.start + 120;
    var jobs := if HasLiveChild(p) then p.jobs else 0;
    i := 0;
    if c.alive {
      i := FirstOrNever(c, deadline, call.timeout, bootBy, call.turns, 0);
      if NeverEnds(c, deadline, call.timeout, bootBy, call.turns) {
        LoopRunsOn(c, jobs, recycle, deadline, bootBy, call.timeout, call.turns);
        NeverLate(c, deadline, call.timeout, bootBy, call.turns);
      } else {
        LoopEndsExactly(c, jobs, recycle, deadline, bootBy, call.timeout, call.turns, i);
      }
    }
  }

  // ----- What the child's own steps lead to

  /** A child that boots if it has to, takes its job and finishes it with `payload` is heard with that
      payload, by a call that starts clean. */
  lemma PayloadDelivered(p: Parent, recycle: nat, call: Call, payload: string, now: int)
    requires Clean(p) && call.sending == [] && |call.turns| >= 2
    requires forall i :: 0 <= i < 2 ==> call.turns[i] == Turn([Boot, Take, Finish(payload)], [], now, Continue)
    ensures Run(p, recycle, call).outcome == Done(Result(call.job, payload))
  {
    var actions := [Boot, Take, Finish(payload)];
    assert actions[1..] == [Take, Finish(payload)] && actions[1..][1..] == [Finish(payload)] && [Finish(payload)][1..] == [];
    var live := HasLiveChild(p);
    var c := if live then p.child.value else NewChild;
    assert Acts(c, []) == c;
    var sent := c.(inbox := c.inbox + [call.job]);
    assert sent.inbox == [call.job] && sent.inbox[1..] == [];
    var one := Act(sent, Boot);
    var two := Act(one, Take);
    var polled := Act(two, Finish(payload));
    assert Acts(sent, actions) == Acts(one, actions[1..]) == Acts(two, [Finish(payload)]) == polled by {
      assert Acts(polled, []) == polled;
    }
    if !live {
      var rest := polled.(outbox := polled.outbox[1..]);
      assert rest.outbox == [Result(call.job, payload)];
      StaysIdle(rest, actions);
      var bootBy := call.start + CHILD_BOOT_SECONDS;
      HearsFirst(sent, 0, recycle, None, bootBy, call.timeout, call.turns);
      HearsFirst(rest, 0, recycle, Some(now + call.timeout), bootBy, call.timeout, call.turns[1..]);
    } else {
      HearsFirst(sent, p.jobs, recycle, Some(call.start + call.timeout), call.start + CHILD_BOOT_SECONDS, call.timeout, call.turns);
    }
  }

  lemma HearsFirst(c: Child, jobs: nat, recycle: nat, deadline: Option<int>, bootBy: int, timeout: int, turns: seq<Turn>)
    requires turns != [] && Acts(c, turns[0].early).outbox != []
    ensures var polled, e := Acts(c, turns[0].early), Loop(c, jobs, recycle, deadline, bootBy, timeout, turns);
            && (polled.outbox[0].Result? ==> e.outcome == Done(polled.outbox[0]))
            && (polled.outbox[0].Ready? ==>
                  e == Loop(polled.(outbox := polled.outbox[1..]), jobs, recycle, Some(turns[0].now + timeout), bootBy,
                            timeout, turns[1..]))
  {
    hide Acts;
  }

  lemma {:induction false} StaysIdle(c: Child, actions: seq<Action>)
    requires c.alive && c.phase.Idle? && c.inbox == []
    ensures Acts(c, actions).outbox == c.outbox
    decreases actions
  {
    if actions != [] && actions[0].Die? {
      DeadStays(Act(c, actions[0]), actions[1..]);
    } else if actions != [] {
      StaysIdle(c, actions[1..]);
    }
  }

  /** A child that dies without a word crashes the call. */
  lemma DeathCrashes(c: Child, jobs: nat, recycle: nat, deadline: Option<int>, bootBy: int, timeout: int, turns: seq<Turn>,
          rest: seq<Action>)
    requires c.outbox == [] && turns != [] && (turns[0].early == [Die] + rest || (turns[0].early == [] && turns[0].late == [Die] + rest))
    ensures Loop(c, jobs, recycle, deadline, bootBy, timeout, turns) == Ended(Parent(None, jobs), Crashed, deadline)
  {
    var dead := Act(c, Die);
    assert ([Die] + rest)[0] == Die && ([Die] + rest)[1..] == rest;
    DeadStays(dead, rest);
    assert Acts(c, [Die] + rest) == dead;
    assert Acts(c, []) == c;
    if turns[0].early != [] {
      DeadStays(dead, turns[0].late);
    }
  }

  /** A child that dies between two calls is replaced by the second: it goes as if there had been none. */
  lemma DeadIsReplaced(p: Parent, recycle: nat, call: Call, rest: seq<Action>)
    ensures Run(Between(p, [Die] + rest), recycle, call) == Run(Parent(None, 0), recycle, call)
  {
    hide Loop;
    if p.child.Some? {
      assert ([Die] + rest)[0] == Die && ([Die] + rest)[1..] == rest;
      DeadStays(Act(p.child.value, Die), rest);
    }
  }
}
