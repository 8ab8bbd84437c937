/**
 The queue of conversion jobs. Jobs are submitted from any thread; the main thread starts the job at
 the front, launches a process for it, and ends it when the process has completed.
 */
module JobQueue {
  import opened Options

  /** A job ends with the name of a file or without; it is told so only if its handle is still alive. */
  datatype End = End(job: nat, told: bool, result: Option<nat>)

  /** Where the main thread is: between events, in the three stages of `startJob`, or in the two of `endJob`. */
  datatype Stage = Resting | Notifying | Preparing | Launching | Finishing(result: Option<nat>) | Popping

  /**
   What happened to the jobs: whether a handle was found alive, whether a preparation went well, a process
   that was launched or completed, the end.
   */
  datatype Mark =
    | Checked(job: nat, alive: bool)
    | Prepared(job: nat, ok: bool)
    | Launched(job: nat)
    | Completed(job: nat, result: Option<nat>)
    | Ended(job: nat, told: bool, result: Option<nat>)

  /**
   `scheduled` counts queued calls of `startJob`, `running` launched processes; `dead` are handles
   that nobody holds any more; `misread` tells that the front of an empty queue was read.
   */
  datatype Service = Service(
    queue: seq<nat>, scheduled: nat, running: nat, stage: Stage, dead: set<nat>,
    submitted: seq<nat>, ended: seq<End>, misread: bool, log: seq<Mark>)

  datatype Step =
    | Submit(job: nat)
    | Die(job: nat)
    | Deliver
    | Advance(ok: bool)
    | Complete(result: Option<nat>)

  const INITIAL: Service := Service([], 0, 0, Resting, {}, [], [], false, [])

  /** One atomic step of the main thread. What fails, fails by `ok` or because the handle is dead. */
  function AdvanceMain(s: Service, ok: bool): Service {
    if s.stage == Resting then s
    else if s.queue == [] then s.(misread := true)
    else
      var job := s.queue[0];
      var alive := job !in s.dead;
      match s.stage
      case Notifying => s.(stage := if alive then Preparing else Finishing(None), log := s.log + [Checked(job, alive)])
      case Preparing =>
        if alive then
          s.(stage := if ok then Launching else Finishing(None), log := s.log + [Checked(job, true), Prepared(job, ok)])
        else s.(stage := Finishing(None), log := s.log + [Checked(job, false)])
      case Launching =>
        if alive then
          s.(stage := Resting, running := s.running + 1, log := s.log + [Checked(job, true), Launched(job)])
        else s.(stage := Finishing(None), log := s.log + [Checked(job, false)])
      case Finishing(result) =>
        s.(stage := Popping, ended := s.ended + [End(job, alive, result)], log := s.log + [Ended(job, alive, result)])
      case Popping => s.(queue := s.queue[1..], stage := if |s.queue| > 1 then Notifying else Resting)
  }

  /** Steps of other threads come between those of the main thread; events come while it rests. */
  function Take(s: Service, step: Step): Service {
    match step
    case Submit(job) =>
      s.(queue := s.queue + [job], submitted := s.submitted + [job],
      scheduled := if |s.queue + [job]| == 1 then s.scheduled + 1 else s.scheduled)
    case Die(job) => s.(dead := s.dead + {job})
    case Deliver =>
      if s.scheduled > 0 && s.stage == Resting then s.(scheduled := s.scheduled - 1, stage := Notifying) else s
    case Advance(ok) => AdvanceMain(s, ok)
    case Complete(result) =>
      if s.running > 0 && s.stage == Resting then
        s.(running := s.running - 1, stage := Finishing(result),
        log := if s.queue == [] then s.log else s.log + [Completed(s.queue[0], result)])
      else s
  }

  function TakeAll(s: Service, steps: seq<Step>): Service
    decreases |steps|
  {
    if steps == [] then s else TakeAll(Take(s, steps[0]), steps[1..])
  }

  function Jobs(ended: seq<End>): (r: seq<nat>)
    ensures |r| == |ended|
  {
    seq(|ended|, i requires 0 <= i < |ended| => ended[i].job)
  }

  function Pending(s: Service): seq<nat> {
    if s.stage == Popping && s.queue != [] then s.queue[1..] else s.queue
  }

  ghost predicate Disciplined(s: Service) {
    && s.scheduled + s.running + (if s.stage == Resting then 0 else 1) == (if s.queue == [] then 0 else 1)
    && Jobs(s.ended) + Pending(s) == s.submitted
    && (forall i :: 0 <= i < |s.ended| ==> s.ended[i].told || s.ended[i].job in s.dead)
    && !s.misread
  }

  lemma {:induction false} TakeKeeps(s: Service, step: Step)
    requires Disciplined(s)
    ensures Disciplined(Take(s, step))
  {
    match step
    case Submit(job) => SubmitKeeps(s, job);
    case Advance(ok) => AdvanceKeeps(s, ok);
    case _ =>
  }

  lemma {:induction false} SubmitKeeps(s: Service, job: nat)
    requires Disciplined(s)
    ensures Disciplined(Take(s, Submit(job)))
  {
    var d := Take(s, Submit(job));
    assert s.queue != [] ==> (s.queue + [job])[1..] == s.queue[1..] + [job];
    assert Pending(d) == Pending(s) + [job];
    assert Jobs(s.ended) + (Pending(s) + [job]) == (Jobs(s.ended) + Pending(s)) + [job];
  }

  lemma {:induction false} AdvanceKeeps(s: Service, ok: bool)
    requires Disciplined(s)
    ensures Disciplined(AdvanceMain(s, ok))
  {
    if s.stage.Finishing? {
      FinishKeeps(s, ok);
    } else if s.stage.Popping? {
      PopKeeps(s, ok);
    }
  }

  lemma {:induction false} FinishKeeps(s: Service, ok: bool)
    requires Disciplined(s) && s.stage.Finishing?
    ensures Disciplined(AdvanceMain(s, ok))
  {
    hide Jobs, AdvanceMain;
    var e := End(s.queue[0], s.queue[0] !in s.dead, s.stage.result);
    FinishStep(s, ok, e);
    JobsMove(s.ended, e, s.queue);
  }

  lemma {:induction false} FinishStep(s: Service, ok: bool, e: End)
    requires s.stage.Finishing? && s.queue != [] && e == End(s.queue[0], s.queue[0] !in s.dead, s.stage.result)
    ensures AdvanceMain(s, ok)
            == s.(stage := Popping, ended := s.ended + [e], log := s.log + [Ended(e.job, e.told, e.result)])
  {
  }

  lemma {:induction false} JobsMove(ended: seq<End>, e: End, queue: seq<nat>)
    requires queue != [] && e.job == queue[0]
    ensures Jobs(ended + [e]) + queue[1..] == Jobs(ended) + queue
  {
    hide Jobs;
    JobsSnoc(ended, e);
    assert (Jobs(ended) + [queue[0]]) + queue[1..] == Jobs(ended) + queue;
  }

  lemma {:induction false} JobsSnoc(ended: seq<End>, e: End)
    ensures Jobs(ended + [e]) == Jobs(ended) + [e.job]
  {
  }

  lemma {:induction false} PopKeeps(s: Service, ok: bool)
    requires Disciplined(s) && s.stage.Popping?
    ensures Disciplined(AdvanceMain(s, ok))
  {
    hide Jobs;
    assert Pending(s) == s.queue[1..] == Pending(AdvanceMain(s, ok));
  }

  lemma {:induction false} TakeAllKeeps(s: Service, steps: seq<Step>)
    requires Disciplined(s)
    ensures Disciplined(TakeAll(s, steps))
    decreases |steps|
  {
    hide Disciplined, Take;
    if steps != [] {
      TakeKeeps(s, steps[0]);
      TakeAllKeeps(Take(s, steps[0]), steps[1..]);
    }
  }

  /**
   In every interleaving the queue is non-empty exactly when one job is scheduled, being handled or
   running; the front of an empty queue is never read; jobs end in the order they were submitted,
   each once, and whoever was not told so is dead.
   */
  lemma {:induction false} QueueDiscipline(steps: seq<Step>)
    ensures var s := TakeAll(INITIAL, steps);
            && s.scheduled + s.running + (if s.stage == Resting then 0 else 1) == (if s.queue == [] then 0 else 1)
            && !s.misread
            && Jobs(s.ended) + Pending(s) == s.submitted
            && (forall i :: 0 <= i < |s.ended| && s.ended[i].job !in s.dead ==> s.ended[i].told)
  {
    hide TakeAll;
    InitiallyDisciplined();
    TakeAllKeeps(INITIAL, steps);
  }

  /* ----- every job ends ----- */

  /** Steps that the main thread or a process can take. */
  predicate Due(s: Service, step: Step) {
    match step
    case Deliver => s.scheduled > 0 && s.stage == Resting
    case Advance(ok) => s.stage != Resting
    case Complete(result) => s.running > 0 && s.stage == Resting
    case _ => false
  }

  /** How many steps the job in front may still take, beyond the last one. */
  function StepsLeft(s: Service): nat {
    match s.stage
    case Resting => if s.scheduled > 0 then 6 else 2
    case Notifying => 5
    case Preparing => 4
    case Launching => 3
    case Finishing(result) => 1
    case Popping => 0
  }

  function Work(s: Service): nat {
    if s.queue == [] then 0 else 7 * |s.queue| + StepsLeft(s)
  }

  /** While a job waits or runs some step is due, and none without one. */
  lemma {:induction false} SomethingIsDue(s: Service)
    requires Disciplined(s)
    ensures s.queue != [] <==> Due(s, Deliver) || Due(s, Advance(true)) || Due(s, Complete(None))
  {
    hide Jobs;
  }

  /** Each such step brings the end of the jobs nearer; handles that die do not put it off. */
  lemma {:induction false} WorkShrinks(s: Service, step: Step)
    requires Disciplined(s) && !step.Submit?
    ensures if Due(s, step) then Work(Take(s, step)) < Work(s) else Work(Take(s, step)) == Work(s)
  {
    hide Jobs;
  }

  function DueSteps(s: Service, steps: seq<Step>): nat
    decreases |steps|
  {
    if steps == [] then 0 else (if Due(s, steps[0]) then 1 else 0) + DueSteps(Take(s, steps[0]), steps[1..])
  }

  lemma {:induction false} WorkBounds(s: Service, steps: seq<Step>)
    requires Disciplined(s) && forall step :: step in steps ==> !step.Submit?
    ensures var d := TakeAll(s, steps); DueSteps(s, steps) + Work(d) <= Work(s) && d.submitted == s.submitted
    decreases |steps|
  {
    hide Disciplined, Take, Work, Due;
    if steps != [] {
      assert steps[0] in steps;
      TakeKeeps(s, steps[0]);
      WorkShrinks(s, steps[0]);
      NothingSubmitted(s, steps[0]);
      WorkBounds(Take(s, steps[0]), steps[1..]);
    }
  }

  lemma {:induction false} NothingSubmitted(s: Service, step: Step)
    requires !step.Submit?
    ensures Take(s, step).submitted == s.submitted
  {
  }

  lemma {:induction false} NoWorkLeft(s: Service)
    requires Disciplined(s)
    ensures Work(s) == 0 <==> s.queue == []
    ensures s.queue == [] ==> Jobs(s.ended) == s.submitted
  {
    hide Jobs;
    if s.queue == [] { assert Jobs(s.ended) + [] == Jobs(s.ended); }
  }

  /**
   A job that waits is never forgotten, in any interleaving: once nothing more is submitted, at most as
   many steps are due as the work left, as long as a job is left one of them is, and when none is, every
   job has ended, in the order of submission.
   */
  lemma {:induction false} EveryJobEnds(before: seq<Step>, after: seq<Step>)
    requires forall step :: step in after ==> !step.Submit?
    ensures var s := TakeAll(INITIAL, before);
            var d := TakeAll(s, after);
            && DueSteps(s, after) <= Work(s) && (DueSteps(s, after) == Work(s) ==> d.queue == [])
            && (d.queue != [] <==> Due(d, Deliver) || Due(d, Advance(true)) || Due(d, Complete(None)))
            && (d.queue == [] ==> Jobs(d.ended) == s.submitted)
  {
    hide TakeAll, Disciplined, Work, Due, DueSteps;
    InitiallyDisciplined();
    TakeAllKeeps(INITIAL, before);
    var s := TakeAll(INITIAL, before);
    TakeAllKeeps(s, after);
    WorkBounds(s, after);
    SomethingIsDue(TakeAll(s, after));
    NoWorkLeft(TakeAll(s, after));
  }

  lemma {:induction false} InitiallyDisciplined()
    ensures Disciplined(INITIAL)
  {
    assert Jobs([]) + [] == [];
  }

  /* ----- the service object, one event at a time ----- */

  class ConverterService {
    var queue: seq<nat>
    var scheduled: nat
    var running: nat
    var dead: set<nat>
    ghost var submitted: seq<nat>
    ghost var ended: seq<End>
    ghost var log: seq<Mark>

    /** The record, with the main thread at the given stage. */
    ghost function At(stage: Stage): Service
      reads this
    {
      Service(queue, scheduled, running, stage, dead, submitted, ended, false, log)
    }

    ghost predicate Valid()
      reads this
    {
      Disciplined(At(Resting))
    }

    constructor ()
      ensures Valid() && At(Resting) == INITIAL
    {
      queue, scheduled, running, dead, submitted, ended, log := [], 0, 0, {}, [], [], [];
    }

    method ProcessJobMessage(job: nat)
      requires Valid()
      modifies this`queue, this`scheduled, this`submitted
      ensures Valid() && At(Resting) == Take(old(At(Resting)), Submit(job))
    {
      SubmitKeeps(At(Resting), job);
      queue := queue + [job];
      submitted := submitted + [job];
      if |queue| == 1 { scheduled := scheduled + 1; }
    }

    /** Whether the handle in front of the queue is alive. Its owner may have let go of it at any time. */
    method CurrentJob() returns (alive: bool, ghost lost: seq<Step>)
      requires queue != []
      modifies this`dead
      ensures lost == if alive then [] else [Die(queue[0])]
      ensures dead == (if alive then old(dead) else old(dead) + {queue[0]}) && (alive <==> queue[0] !in dead)
    {
      alive := *;
      alive := alive && queue[0] !in dead;
      if !alive { dead := dead + {queue[0]}; }
      lost := if alive then [] else [Die(queue[0])];
    }

    /**
     Starts the job in front, and the next one if that fails at once, and so on along the queue. `steps` are
     what the main thread did, and the handles it found dead.
     */
    method StartJob() returns (ghost steps: seq<Step>)
      requires queue != [] && Disciplined(At(Notifying))
      modifies this
      ensures Valid() && At(Resting) == TakeAll(old(At(Notifying)), steps) && Internal(steps)
      ensures submitted == old(submitted) && old(ended) <= ended
      ensures queue != [] ==> running == 1
      decreases |queue|, 1
    {
      hide Disciplined, Take, TakeAll;
      ghost var s := At(Notifying);
      var alive, lost := CurrentJob();
      steps := lost + [Advance(true)];
      Checks(s, lost, alive, true);
      log := log + [Checked(queue[0], alive)];
      if !alive {
        ghost var rest := EndJob(None);
        Continues(s, steps, rest);
        steps := steps + rest;
        return;
      }
      s := At(Preparing);
      ghost var before := steps;
      var prepared: bool := *;
      alive, lost := CurrentJob();
      steps := lost + [Advance(prepared)];
      Checks(s, lost, alive, prepared);
      log := log + if alive then [Checked(queue[0], true), Prepared(queue[0], prepared)]
                   else [Checked(queue[0], false)];
      Continues(old(At(Notifying)), before, steps);
      steps := before + steps;
      if !alive || !prepared {
        ghost var rest := EndJob(None);
        Continues(old(At(Notifying)), steps, rest);
        steps := steps + rest;
        return;
      }
      s := At(Launching);
      before := steps;
      alive, lost := CurrentJob();
      steps := lost + [Advance(true)];
      Checks(s, lost, alive, true);
      log := log + if alive then [Checked(queue[0], true), Launched(queue[0])] else [Checked(queue[0], false)];
      Continues(old(At(Notifying)), before, steps);
      steps := before + steps;
      if !alive {
        ghost var rest := EndJob(None);
        Continues(old(At(Notifying)), steps, rest);
        steps := steps + rest;
        return;
      }
      running := running + 1;
      RestsBusy(At(Resting));
    }

    /** Ends the job in front, tells it so if it is alive, and starts the next one. */
    method EndJob(result: Option<nat>) returns (ghost steps: seq<Step>)
      requires queue != [] && Disciplined(At(Finishing(result)))
      modifies this
      ensures Valid() && At(Resting) == TakeAll(old(At(Finishing(result))), steps) && Internal(steps)
      ensures submitted == old(submitted)
      ensures old(ended) < ended && ended[|old(ended)|].job == old(queue[0]) && ended[|old(ended)|].result == result
      ensures ended[|old(ended)|].told || old(queue[0]) in dead
      ensures queue != [] ==> running == 1
      decreases |queue|, 0
    {
      hide Disciplined, Take, TakeAll;
      ghost var s := At(Finishing(result));
      var alive, lost := CurrentJob();
      Checks(s, lost, alive, true);
      ended := ended + [End(queue[0], alive, result)];
      log := log + [Ended(queue[0], alive, result)];
      ghost var t := At(Popping);
      steps := lost + [Advance(true)];
      PopsAs(t);
      queue := queue[1..];
      Continues(s, steps, [Advance(true)]);
      steps := steps + [Advance(true)];
      if queue != [] {
        ghost var rest := StartJob();
        Continues(s, steps, rest);
        steps := steps + rest;
      }
      ToldOrDead(At(Resting));
    }

    /** The queued call of `startJob` is delivered. */
    method Deliver() returns (ghost steps: seq<Step>)
      requires Valid() && scheduled > 0
      modifies this
      ensures Valid() && At(Resting) == TakeAll(Take(old(At(Resting)), Step.Deliver), steps) && Internal(steps)
      ensures submitted == old(submitted) && old(ended) <= ended
      ensures queue != [] ==> running == 1
    {
      DeliveredTo(At(Resting));
      scheduled := scheduled - 1;
      steps := StartJob();
    }

    /** The process completed, and there is a result if it went well and the file could be copied. */
    method HandleProcessFinished(result: Option<nat>) returns (ghost steps: seq<Step>)
      requires Valid() && running > 0
      modifies this
      ensures Valid() && At(Resting) == TakeAll(Take(old(At(Resting)), Complete(result)), steps) && Internal(steps)
      ensures submitted == old(submitted)
      ensures queue != [] ==> running == 1
      ensures old(queue) != [] && old(ended) < ended
      ensures ended[|old(ended)|].job == old(queue[0]) && ended[|old(ended)|].result == result
    {
      CompletedTo(At(Resting), result);
      running := running - 1;
      log := log + [Completed(queue[0], result)];
      steps := EndJob(result);
    }
  }

  /** Steps of the main thread, and handles that die meanwhile. */
  predicate Internal(steps: seq<Step>) {
    forall i :: 0 <= i < |steps| ==> steps[i].Advance? || steps[i].Die?
  }

  lemma {:induction false} TakeAllAppend(s: Service, a: seq<Step>, b: seq<Step>)
    ensures TakeAll(s, a + b) == TakeAll(TakeAll(s, a), b)
    decreases |a|
  {
    hide Take;
    if a == [] {
      assert a + b == b;
    } else {
      assert (a + b)[1..] == a[1..] + b;
      TakeAllAppend(Take(s, a[0]), a[1..], b);
    }
  }

  /** Steps that go on where others stopped. */
  lemma {:induction false} Continues(s: Service, steps: seq<Step>, rest: seq<Step>)
    requires Internal(steps) && Internal(rest)
    ensures Internal(steps + rest) && TakeAll(s, steps + rest) == TakeAll(TakeAll(s, steps), rest)
  {
    hide TakeAll;
    TakeAllAppend(s, steps, rest);
  }

  lemma {:induction false} TakeOne(s: Service, step: Step)
    ensures TakeAll(s, [step]) == Take(s, step)
  {
    hide Take;
    assert TakeAll(Take(s, step), []) == Take(s, step);
  }

  /** A look at the handle in front, and the step that follows it. */
  lemma {:induction false} Checks(s: Service, lost: seq<Step>, alive: bool, ok: bool)
    requires s.queue != [] && Disciplined(s) && lost == if alive then [] else [Die(s.queue[0])]
    ensures var d := AdvanceMain(if alive then s else s.(dead := s.dead + {s.queue[0]}), ok);
            && TakeAll(s, lost + [Advance(ok)]) == d && Disciplined(d) && Internal(lost + [Advance(ok)])
  {
    hide Disciplined, AdvanceMain, TakeAll;
    if alive {
      assert lost + [Advance(ok)] == [Advance(ok)];
      TakeOne(s, Advance(ok));
      TakeKeeps(s, Advance(ok));
    } else {
      TakeAllAppend(s, lost, [Advance(ok)]);
      TakeOne(s, lost[0]);
      TakeKeeps(s, lost[0]);
      TakeOne(Take(s, lost[0]), Advance(ok));
      TakeKeeps(Take(s, lost[0]), Advance(ok));
    }
  }

  lemma {:induction false} RestsBusy(s: Service)
    requires Disciplined(s) && s.stage == Resting && s.running > 0
    ensures s.queue != [] && s.running == 1
  {
    hide Jobs;
  }

  lemma {:induction false} ToldOrDead(s: Service)
    requires Disciplined(s)
    ensures forall i :: 0 <= i < |s.ended| ==> s.ended[i].told || s.ended[i].job in s.dead
  {
    hide Jobs;
  }

  lemma {:induction false} PopsAs(s: Service)
    requires s.queue != [] && s.stage == Popping && Disciplined(s)
    ensures var d := s.(queue := s.queue[1..], stage := if |s.queue| > 1 then Notifying else Resting);
            TakeAll(s, [Advance(true)]) == d && Disciplined(d)
  {
    hide Disciplined, TakeAll;
    TakeOne(s, Advance(true));
    TakeKeeps(s, Advance(true));
  }

  lemma {:induction false} DeliveredTo(s: Service)
    requires Disciplined(s) && s.stage == Resting && s.scheduled > 0
    ensures Take(s, Deliver) == s.(scheduled := s.scheduled - 1, stage := Notifying)
    ensures Disciplined(Take(s, Deliver)) && s.queue != []
  {
    hide Jobs;
    TakeKeeps(s, Deliver);
  }

  lemma {:induction false} CompletedTo(s: Service, result: Option<nat>)
    requires Disciplined(s) && s.stage == Resting && s.running > 0
    ensures s.queue != []
    ensures Take(s, Complete(result))
         == s.(running := s.running - 1, stage := Finishing(result), log := s.log + [Completed(s.queue[0], result)])
    ensures Disciplined(Take(s, Complete(result)))
  {
    hide Jobs;
    TakeKeeps(s, Complete(result));
  }
}
