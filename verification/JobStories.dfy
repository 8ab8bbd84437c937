/**
 What becomes of every job, read off what happened in a run: whether its process was launched, why not
 otherwise, and what it ended with.
 */
module JobStories {
  import opened Options
  import opened JobQueue

  /* ----- the record is true ----- */

  /** What one step may add to the record, given what the handles and the step itself say. */
  ghost predicate True(s: Service, step: Step, mark: Mark) {
    && s.queue != [] && mark.job == s.queue[0]
    && match mark
       case Checked(job, alive) => step.Advance? && (alive <==> job !in s.dead)
       case Prepared(_, ok) => step == Advance(ok)
       case Launched(_) => step.Advance? && Take(s, step).running == s.running + 1
       case Completed(_, result) => step == Complete(result) && s.running > 0 && Take(s, step).running == s.running - 1
       case Ended(job, told, result) =>
         step.Advance? && (told <==> job !in s.dead) && Take(s, step).ended == s.ended + [End(job, told, result)]
  }

  ghost predicate Recorded(s: Service, step: Step, d: Service) {
    && s.log <= d.log
    && (forall i :: |s.log| <= i < |d.log| ==> True(s, step, d.log[i]))
    && d.dead == (if step.Die? then s.dead + {step.job} else s.dead)
    && d.submitted == (if step.Submit? then s.submitted + [step.job] else s.submitted)
    && (d.running > s.running <==> exists i :: |s.log| <= i < |d.log| && d.log[i].Launched?)
    && (d.ended != s.ended <==> exists i :: |s.log| <= i < |d.log| && d.log[i].Ended?)
  }

  lemma {:induction false} LookIsRecorded(s: Service, ok: bool)
    requires s.stage == Notifying || s.stage == Preparing
    ensures Recorded(s, Advance(ok), Take(s, Advance(ok)))
  {
  }

  lemma {:induction false} LaunchIsRecorded(s: Service, ok: bool)
    requires s.stage == Launching
    ensures Recorded(s, Advance(ok), Take(s, Advance(ok)))
  {
    var d := Take(s, Advance(ok));
    if d.running > s.running { assert d.log[|s.log| + 1].Launched?; }
  }

  lemma {:induction false} EndIsRecorded(s: Service, ok: bool)
    requires s.stage.Finishing? || s.stage == Popping || s.stage == Resting
    ensures Recorded(s, Advance(ok), Take(s, Advance(ok)))
  {
    var d := Take(s, Advance(ok));
    if d.ended != s.ended { assert d.log[|s.log|].Ended?; }
  }

  lemma {:induction false} OtherIsRecorded(s: Service, step: Step)
    requires !step.Advance?
    ensures Recorded(s, step, Take(s, step))
  {
  }

  /** Every mark is true of the step that made it, a process runs only when launched, and handles only die. */
  lemma {:induction false} StepIsRecorded(s: Service, step: Step)
    ensures Recorded(s, step, Take(s, step))
    ensures s.running > 0 && s.stage == Resting && s.queue != [] && step.Complete? ==>
              Take(s, step).log == s.log + [Completed(s.queue[0], step.result)]
  {
    hide Recorded;
    match step
    case Advance(ok) =>
      if s.stage == Launching { LaunchIsRecorded(s, ok); }
      else if s.stage == Notifying || s.stage == Preparing { LookIsRecorded(s, ok); }
      else { EndIsRecorded(s, ok); }
    case _ => OtherIsRecorded(s, step);
  }

  /* ----- the shape of a story ----- */

  /** What a job goes through up to the point where its process is launched. */
  function Launch(job: nat): seq<Mark> {
    [Checked(job, true), Checked(job, true), Prepared(job, true), Checked(job, true), Launched(job)]
  }

  /** A job that is not launched: its handle was dead at one of three looks, or its preparation failed. */
  ghost predicate Stopped(story: seq<Mark>, job: nat) {
    || story == [Checked(job, false)]
    || story == [Checked(job, true), Checked(job, false)]
    || story == [Checked(job, true), Checked(job, true), Prepared(job, false)]
    || story == [Checked(job, true), Checked(job, true), Prepared(job, true), Checked(job, false)]
  }

  /** All that leads to an end with the given result. */
  ghost predicate Due(story: seq<Mark>, job: nat, result: Option<nat>) {
    || (Stopped(story, job) && result == None)
    || story == Launch(job) + [Completed(job, result)]
  }

  /** The whole story of a job that has ended. */
  ghost predicate Whole(story: seq<Mark>, e: End) {
    && story != [] && story[|story| - 1] == Ended(e.job, e.told, e.result)
    && Due(story[..|story| - 1], e.job, e.result)
  }

  /** What has happened so far to the job in front. */
  ghost predicate Partly(story: seq<Mark>, s: Service) {
    if s.queue == [] || s.stage == Popping then story == []
    else
      var job := s.queue[0];
      match s.stage
      case Resting => story == if s.running > 0 then Launch(job) else []
      case Notifying => story == []
      case Preparing => story == [Checked(job, true)]
      case Launching => story == [Checked(job, true), Checked(job, true), Prepared(job, true)]
      case Finishing(result) => Due(story, job, result)
      case Popping => story == []
  }

  function Concat(stories: seq<seq<Mark>>): seq<Mark> {
    if stories == [] then [] else Concat(stories[..|stories| - 1]) + stories[|stories| - 1]
  }

  /** The record is the stories of the ended jobs, and of the one that is at work. */
  ghost predicate Told(s: Service, stories: seq<seq<Mark>>, now: seq<Mark>) {
    && s.log == Concat(stories) + now
    && |stories| == |s.ended| && (forall i :: 0 <= i < |stories| ==> Whole(stories[i], s.ended[i]))
    && Partly(now, s)
  }

  lemma {:induction false} ConcatStep(stories: seq<seq<Mark>>, last: seq<Mark>)
    ensures Concat(stories + [last]) == Concat(stories) + last
  {
    assert (stories + [last])[..|stories|] == stories;
  }

  /** A story that goes on. */
  lemma {:induction false} GoesOn(s: Service, d: Service, stories: seq<seq<Mark>>, now: seq<Mark>, more: seq<Mark>)
    requires Told(s, stories, now) && d.log == s.log + more && d.ended == s.ended && Partly(now + more, d)
    ensures Told(d, stories, now + more)
  {
    hide Partly, Whole, Concat;
    assert (Concat(stories) + now) + more == Concat(stories) + (now + more);
  }

  /** A story that ends. */
  lemma {:induction false} Ends(s: Service, d: Service, stories: seq<seq<Mark>>, now: seq<Mark>, e: End)
    requires Told(s, stories, now) && Due(now, e.job, e.result)
    requires d.log == s.log + [Ended(e.job, e.told, e.result)] && d.ended == s.ended + [e] && Partly([], d)
    ensures Told(d, stories + [now + [Ended(e.job, e.told, e.result)]], [])
  {
    hide Partly, Due, Concat;
    var last := now + [Ended(e.job, e.told, e.result)];
    ConcatStep(stories, last);
    assert last[..|last| - 1] == now;
    assert (Concat(stories) + now) + [Ended(e.job, e.told, e.result)] == (Concat(stories) + last) + [];
  }

  /** What the marks of a step add to the story of the job in front, unless that ends. */
  ghost predicate GoesOnAs(s: Service, d: Service, now: seq<Mark>) {
    s.log <= d.log && d.ended == s.ended && Partly(now + d.log[|s.log|..], d)
  }

  lemma {:induction false} LookGoesOn(s: Service, ok: bool, now: seq<Mark>)
    requires Disciplined(s) && Partly(now, s) && s.stage in {Notifying, Preparing, Launching}
    ensures GoesOnAs(s, Take(s, Advance(ok)), now)
  {
    hide Jobs;
    var d := Take(s, Advance(ok));
    assert d.log[..|s.log|] == s.log;
  }

  lemma {:induction false} NothingAdded(s: Service, d: Service, now: seq<Mark>)
    requires d.log == s.log && d.ended == s.ended && Partly(now, d)
    ensures GoesOnAs(s, d, now)
  {
    hide Partly;
    assert now + [] == now && d.log[|s.log|..] == [];
  }

  lemma {:induction false} CompletionGoesOn(s: Service, result: Option<nat>, now: seq<Mark>)
    requires Disciplined(s) && Partly(now, s)
    ensures GoesOnAs(s, Take(s, Complete(result)), now)
  {
    hide Jobs;
    var d := Take(s, Complete(result));
    assert now + [] == now;
    assert d.log[..|s.log|] == s.log;
  }

  lemma {:induction false} StepGoesOn(s: Service, step: Step, now: seq<Mark>)
    requires Disciplined(s) && Partly(now, s) && !(s.stage.Finishing? && step.Advance?)
    ensures GoesOnAs(s, Take(s, step), now)
  {
    hide Jobs, GoesOnAs, Due, Stopped;
    match step
    case Complete(result) => CompletionGoesOn(s, result, now);
    case Advance(ok) =>
      if s.stage in {Notifying, Preparing, Launching} { LookGoesOn(s, ok, now); }
      else { NothingAdded(s, Take(s, step), now); }
    case _ => NothingAdded(s, Take(s, step), now);
  }

  lemma {:induction false} StepTells(s: Service, step: Step, stories: seq<seq<Mark>>, now: seq<Mark>)
    returns (more: seq<seq<Mark>>, next: seq<Mark>)
    requires Disciplined(s) && Told(s, stories, now)
    ensures Told(Take(s, step), more, next)
  {
    hide Told, Concat, Jobs, Whole, Partly;
    var d := Take(s, step);
    ToldPartly(s, stories, now);
    if s.stage.Finishing? && step.Advance? {
      var e := End(s.queue[0], s.queue[0] !in s.dead, s.stage.result);
      FinishingIsDue(s, now);
      FinishStep(s, step.ok, e);
      NothingYet(d);
      Ends(s, d, stories, now, e);
      more, next := stories + [now + [Ended(e.job, e.told, e.result)]], [];
    } else {
      StepGoesOn(s, step, now);
      assert d.log == s.log + d.log[|s.log|..];
      GoesOn(s, d, stories, now, d.log[|s.log|..]);
      more, next := stories, now + d.log[|s.log|..];
    }
  }

  lemma {:induction false} FinishingIsDue(s: Service, now: seq<Mark>)
    requires Partly(now, s) && s.stage.Finishing? && s.queue != []
    ensures Due(now, s.queue[0], s.stage.result)
  {
  }

  lemma {:induction false} NothingYet(s: Service)
    requires s.stage == Popping
    ensures Partly([], s)
  {
  }

  lemma {:induction false} ToldPartly(s: Service, stories: seq<seq<Mark>>, now: seq<Mark>)
    requires Told(s, stories, now)
    ensures Partly(now, s)
  {
    hide Partly;
  }

  lemma {:induction false} RunTells(s: Service, steps: seq<Step>, stories: seq<seq<Mark>>, now: seq<Mark>)
    returns (more: seq<seq<Mark>>, next: seq<Mark>)
    requires Disciplined(s) && Told(s, stories, now)
    ensures Told(TakeAll(s, steps), more, next)
    decreases |steps|
  {
    hide Told, Disciplined, Take;
    if steps == [] {
      more, next := stories, now;
    } else {
      more, next := StepTells(s, steps[0], stories, now);
      TakeKeeps(s, steps[0]);
      more, next := RunTells(Take(s, steps[0]), steps[1..], more, next);
    }
  }

  /**
   In every interleaving the record is one story after the other, of the jobs in the order in which they
   ended, and what the job in front has gone through so far. A job ended unlaunched, without a result,
   exactly if its handle was found dead or its preparation failed; any other was launched once, and ended
   with the result that its process completed with.
   */
  lemma {:induction false} EveryJobHasItsStory(steps: seq<Step>) returns (stories: seq<seq<Mark>>, now: seq<Mark>)
    ensures var s := TakeAll(INITIAL, steps);
            && s.log == Concat(stories) + now && Partly(now, s)
            && |stories| == |s.ended| && (forall i :: 0 <= i < |stories| ==> Whole(stories[i], s.ended[i]))
  {
    hide TakeAll, Partly, Whole;
    InitiallyDisciplined();
    InitiallyTold();
    stories, now := RunTells(INITIAL, steps, [], []);
  }

  lemma {:induction false} InitiallyTold()
    ensures Told(INITIAL, [], [])
  {
  }

  /** A story tells a launch exactly if no look and no preparation in it failed, and then one, before one completion. */
  lemma {:induction false} LaunchedIff(story: seq<Mark>, e: End)
    requires Whole(story, e)
    ensures Launched(e.job) in story <==> Checked(e.job, false) !in story && Prepared(e.job, false) !in story
    ensures Launched(e.job) in story <==> Completed(e.job, e.result) in story
    ensures Launched(e.job) !in story ==> e.result == None
    ensures forall i, j :: 0 <= i < j < |story| ==> !(story[i].Launched? && story[j].Launched?)
  {
    var all := story[..|story| - 1];
    assert story == all + [Ended(e.job, e.told, e.result)];
    if !Stopped(all, e.job) {
      assert story[4] == Launched(e.job) && story[5] == Completed(e.job, e.result);
    }
  }

  /** A job whose handle lives and whose preparation succeeds has its process launched. */
  lemma {:induction false} AliveJobsAreLaunched(s: Service)
    requires s.stage == Notifying && s.queue != [] && s.queue[0] !in s.dead
    ensures var d := TakeAll(s, [Advance(true), Advance(true), Advance(true)]);
            && d.stage == Resting && d.running == s.running + 1 && d.queue == s.queue && d.ended == s.ended
            && d.log == s.log + Launch(s.queue[0])
  {
    var a, b := Take(s, Advance(true)), Take(Take(s, Advance(true)), Advance(true));
    var c := Take(b, Advance(true));
    var one := Advance(true);
    assert TakeAll(s, [one, one, one]) == TakeAll(a, [one, one]) == TakeAll(b, [one]) == TakeAll(c, []) by {
      assert [one, one, one][1..] == [one, one] && [one, one][1..] == [one] && [one][1..] == [];
    }
    assert c.log == s.log + Launch(s.queue[0]);
  }
}
