/**
 Channel identifiers: a wrapping 16-bit counter that looks for an identifier not in use, and what
 that gives over whole runs of additions and removals.
 */
module ChannelIds {

  const IDS: nat := 0x1_0000

  /** How far a wrapping counter has to go from one identifier to another. */
  function Distance(from: nat, to: nat): (d: nat)
    requires from < IDS && to < IDS
    ensures d < IDS && (from + d) % IDS == to
  {
    if from <= to then to - from else to + IDS - from
  }

  /** Where the search stops: zero is never given out. */
  predicate Free(used: set<nat>, id: nat) {
    0 < id < IDS && id !in used
  }

  ghost predicate SomeFree(used: set<nat>) {
    exists id: nat :: Free(used, id)
  }

  /** The numbers from one up to, but not including, `n`. */
  function Positive(n: nat): (s: set<nat>)
    ensures forall i :: i in s <==> 0 < i < n
    ensures |s| == if n == 0 then 0 else n - 1
  {
    if n <= 1 then {} else Positive(n - 1) + {n - 1}
  }

  lemma {:induction false} SubsetSize(a: set<nat>, b: set<nat>)
    requires a <= b
    ensures |a| <= |b|
    ensures |a| == |b| ==> a == b
  {
    assert b == a + (b - a);
  }

  /** Identifiers that may have been given out. */
  ghost predicate Given(used: set<nat>) {
    forall id :: id in used ==> 0 < id < IDS
  }

  /** An identifier is free exactly as long as fewer are in use than there are. */
  lemma {:induction false} SomeFreeIff(used: set<nat>)
    requires Given(used)
    ensures SomeFree(used) <==> |used| < IDS - 1
    ensures |used| <= IDS - 1
  {
    hide Positive;
    var all := Positive(IDS);
    SubsetSize(used, all);
    if |used| < IDS - 1 {
      if all <= used { SubsetSize(all, used); }
      var id :| id in all && id !in used;
      assert Free(used, id);
    }
  }

  /** The counter after some turns of the search. */
  function After(next: nat, turns: nat): nat {
    (next + turns) % IDS
  }

  /** The search ends, wherever it starts, exactly as long as fewer are in use than there are. */
  lemma {:induction false} SearchEndsIff(used: set<nat>, next: nat)
    requires Given(used) && next < IDS
    ensures (exists turns: nat :: Free(used, After(next, turns))) <==> |used| < IDS - 1
  {
    hide Given;
    SomeFreeIff(used);
    if SomeFree(used) {
      var id: nat :| Free(used, id);
      assert Free(used, After(next, Distance(next, id)));
    }
  }

  /* ----- the search ----- */

  /** Nothing the counter has passed is free. */
  ghost predicate Passed(start: nat, next: nat, used: set<nat>)
    requires start < IDS && next < IDS
  {
    forall i: nat {:trigger Free(used, i)} :: i < IDS && Distance(start, i) < Distance(start, next) ==> !Free(used, i)
  }

  ghost function AnyFree(used: set<nat>): (id: nat)
    requires SomeFree(used)
    ensures Free(used, id)
  {
    var id: nat :| Free(used, id);
    id
  }

  lemma {:induction false} StepsCloser(next: nat, to: nat)
    requires next < IDS && to < IDS && next != to
    ensures Distance((next + 1) % IDS, to) == Distance(next, to) - 1
  {
  }

  lemma {:induction false} PassedBefore(next: nat, id: nat, used: set<nat>)
    requires next < IDS && id < IDS && !Free(used, next) && next != id && Passed((next + 1) % IDS, id, used)
    ensures Passed(next, id, used)
  {
    forall i: nat | i < IDS && Distance(next, i) < Distance(next, id) ensures !Free(used, i) {
      if i != next {
        StepsCloser(next, i);
        StepsCloser(next, id);
      }
    }
  }

  /** The loop of `add`: the counter moves on, and wraps around, until it stands on a free identifier. */
  ghost function NextFree(next: nat, used: set<nat>): (id: nat)
    requires next < IDS && SomeFree(used)
    ensures Free(used, id) && Passed(next, id, used)
    decreases Distance(next, AnyFree(used))
  {
    if Free(used, next) then next
    else
      StepsCloser(next, AnyFree(used));
      var id := NextFree((next + 1) % IDS, used);
      PassedBefore(next, id, used);
      id
  }

  /** An identifier that was just given back is given out again only when no other is free. */
  lemma {:induction false} ReusedOnlyWhenAlone(used: set<nat>, id: nat)
    requires Free(used, id) && NextFree((id + 1) % IDS, used) == id
    ensures forall i: nat {:trigger Free(used, i)} :: i != id ==> !Free(used, i)
  {
    forall i: nat | i != id && 0 < i < IDS ensures !Free(used, i) {
      assert Distance((id + 1) % IDS, i) < Distance((id + 1) % IDS, id);
    }
  }

  /* ----- runs ----- */

  /** The counter, the identifiers of the live channels, the limit, and whether a search goes on forever. */
  datatype Registry = Registry(next: nat, live: seq<nat>, limit: nat, searching: bool)

  datatype Event = Adding | Removing(id: nat) | Limiting(limit: nat)

  const EMPTY: Registry := Registry(1, [], 0, false)

  function Used(live: seq<nat>): set<nat> {
    set id | id in live
  }

  function Without(live: seq<nat>, id: nat): seq<nat> {
    if live == [] then []
    else (if live[0] == id then [] else [live[0]]) + Without(live[1..], id)
  }

  /** `add` on a registry, `remove`, and a new limit in 16 bits. */
  ghost function Step(r: Registry, e: Event): Registry
    requires r.next < IDS
  {
    if r.searching then r
    else
      match e
      case Adding =>
        if r.limit > 0 && |r.live| >= r.limit then r
        else if !SomeFree(Used(r.live)) then r.(searching := true)
        else
          var id := NextFree(r.next, Used(r.live));
          r.(next := (id + 1) % IDS, live := r.live + [id])
      case Removing(id) => r.(live := Without(r.live, id))
      case Limiting(n) => r.(limit := n % IDS)
  }

  ghost function Run(r: Registry, events: seq<Event>): Registry
    requires r.next < IDS
    decreases |events|
  {
    if events == [] then r else StepNext(r, events[0]); Run(Step(r, events[0]), events[1..])
  }

  lemma {:induction false} StepNext(r: Registry, e: Event)
    requires r.next < IDS
    ensures Step(r, e).next < IDS
  {
  }

  ghost predicate Distinct(live: seq<nat>) {
    && (forall i, j :: 0 <= i < j < |live| ==> live[i] != live[j])
    && (forall i :: 0 <= i < |live| ==> 0 < live[i] < IDS)
  }

  ghost predicate Sound(r: Registry) {
    && r.next < IDS && r.limit < IDS && Distinct(r.live)
    && (r.searching ==> !SomeFree(Used(r.live)) && r.limit == 0)
  }

  lemma {:induction false} WithoutKeeps(live: seq<nat>, id: nat)
    ensures forall x :: x in Without(live, id) <==> x in live && x != id
    ensures Distinct(live) ==> Distinct(Without(live, id))
    decreases |live|
  {
    if live != [] {
      WithoutKeeps(live[1..], id);
      var rest := Without(live[1..], id);
      assert live == [live[0]] + live[1..];
      if Distinct(live) {
        forall i | 0 <= i < |rest| ensures rest[i] != live[0] && 0 < rest[i] < IDS {
          assert rest[i] in rest;
          var k :| 0 <= k < |live[1..]| && live[1..][k] == rest[i];
          assert live[k + 1] == rest[i];
        }
      }
    }
  }

  lemma {:induction false} DistinctPrefix(live: seq<nat>, n: nat)
    requires Distinct(live) && n < |live|
    ensures Distinct(live[..n]) && live[n] !in Used(live[..n])
  {
  }

  lemma {:induction false} UsedSnoc(live: seq<nat>, id: nat)
    ensures Used(live + [id]) == Used(live) + {id}
  {
  }

  lemma {:induction false} UsedIsGiven(live: seq<nat>)
    requires Distinct(live)
    ensures Given(Used(live))
  {
  }

  lemma {:induction false} NoneUsed()
    ensures Used([]) == {}
  {
  }

  /** As many identifiers are in use as channels are alive. */
  lemma {:induction false} UsedSize(live: seq<nat>)
    requires Distinct(live)
    ensures Given(Used(live)) && |Used(live)| == |live|
    decreases |live|
  {
    hide Distinct, Used, Given;
    UsedIsGiven(live);
    if live == [] {
      NoneUsed();
    } else {
      var n := |live| - 1;
      DistinctPrefix(live, n);
      UsedSize(live[..n]);
      UsedSnoc(live[..n], live[n]);
      assert live == live[..n] + [live[n]];
    }
  }

  lemma {:induction false} StepKeeps(r: Registry, e: Event)
    requires Sound(r)
    ensures Sound(Step(r, e))
  {
    hide Without, NextFree, Passed;
    UsedSize(r.live);
    SomeFreeIff(Used(r.live));
    match e
    case Removing(id) => WithoutKeeps(r.live, id);
    case _ =>
  }

  lemma {:induction false} RunKeeps(r: Registry, events: seq<Event>)
    requires Sound(r)
    ensures Sound(Run(r, events))
    decreases |events|
  {
    hide Sound, Step;
    SoundNext(r);
    if events != [] {
      StepKeeps(r, events[0]);
      SoundNext(Step(r, events[0]));
      RunKeeps(Step(r, events[0]), events[1..]);
    }
  }

  lemma {:induction false} SoundNext(r: Registry)
    requires Sound(r)
    ensures r.next < IDS
  {
  }

  /**
   In every run of additions, removals and new limits, with the counter wrapping around: the live
   identifiers are distinct, none is zero, and a search without end means that there is no limit and
   every identifier is in use.
   */
  lemma {:induction false} IdsStayUnique(events: seq<Event>)
    ensures var r := Run(EMPTY, events);
            && Distinct(r.live) && |r.live| <= IDS - 1
            && (r.searching ==> r.limit == 0 && |r.live| == IDS - 1)
  {
    hide Run, SomeFree, Given;
    RunKeeps(EMPTY, events);
    var r := Run(EMPTY, events);
    UsedSize(r.live);
    SomeFreeIff(Used(r.live));
  }

  /** What happens to the live identifiers: one more from the search, one less, or a new limit. */
  lemma {:induction false} StepDoes(r: Registry, id: nat)
    requires r.next < IDS && !r.searching
    ensures var d := Step(r, Adding);
            if r.limit > 0 && |r.live| >= r.limit then d == r
            else if !SomeFree(Used(r.live)) then d == r.(searching := true)
            else
              var given := NextFree(r.next, Used(r.live));
              && d.live == r.live + [given] && d.next == (given + 1) % IDS && d.limit == r.limit && !d.searching
              && given !in r.live && 0 < given < IDS && Passed(r.next, given, Used(r.live))
    ensures var d := Step(r, Removing(id));
            d == r.(live := d.live) && forall x :: x in d.live <==> x in r.live && x != id
    ensures Step(r, Limiting(id)) == r.(limit := id % IDS)
  {
    hide NextFree, SomeFree, Passed, Without;
    WithoutKeeps(r.live, id);
  }
}
