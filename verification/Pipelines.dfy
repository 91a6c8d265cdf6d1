/**
 The pipeline object: its methods perform the protocol's steps on its state,
 and give way to the other threads and the store wherever those may run.
 */
module Pipelines {
  import opened Fills
  import opened Tables
  import opened Writer

  /** Steps of the store and of callback threads, as opposed to the caller's own. */
  predicate ByOthers(e: Event) { e.Land? || e.Answer? || e.Release? || e.Count? }

  /**
   What the store and the callback threads do next, given all that happened so
   far, or nothing when they let the caller go on.  Any interleaving is some
   environment.
   */
  type Environment = seq<Event> -> Option<Event>

  /** The environment plays by the protocol, and goes on while no permit is free but requests are in flight. */
  ghost predicate Answers(env: Environment, max: nat) {
    forall events :: Exec(max, events).Some? ==> Responds(env(events), Exec(max, events).value)
  }

  ghost predicate Responds(next: Option<Event>, s: State) {
    && (next.Some? ==> ByOthers(next.value) && Enabled(s, next.value))
    && (s.free == 0 && Total(s.requests, Busy) > 0 ==> next.Some?)
  }

  /** The environment never reports an error. */
  ghost predicate NeverFails(env: Environment) {
    forall events :: env(events).Some? ==> !Failure(env(events).value)
  }

  /** More events, without a crash among the new ones. */
  ghost predicate Extends(events: seq<Event>, events': seq<Event>) {
    events <= events' && forall i :: |events| <= i < |events'| ==> !events'[i].Restart?
  }

  lemma ExtendsInit(events: seq<Event>, events': seq<Event>)
    requires Extends(events, events') && |events| < |events'|
    ensures Extends(events, events'[..|events'| - 1]) && !events'[|events'| - 1].Restart?
  {
  }

  lemma ExtendsItself(events: seq<Event>)
    ensures Extends(events, events)
  {
  }

  lemma ExtendsFurther(events: seq<Event>, events': seq<Event>, events'': seq<Event>)
    requires Extends(events, events') && Extends(events', events'')
    ensures Extends(events, events'')
  {
  }

  lemma ExecutedSnoc(events: seq<Event>, e: Event)
    ensures Executed(events + [e]) ==
            if e.Restart? then [] else if e.Acquire? then Executed(events) + [e.w] else Executed(events)
  {
    assert (events + [e])[..|events|] == events;
  }

  /** What the other threads do leaves the caller where it stands and only shortens what remains. */
  lemma OthersStep(s: State, e: Event)
    requires Inv(s) && Enabled(s, e) && ByOthers(e)
    ensures Step(s, e).caller == s.caller && Step(s, e).base == s.base && |Step(s, e).requests| == |s.requests|
    ensures 0 <= Total(Step(s, e).requests, Distance) < Total(s.requests, Distance)
  {
    hide Total, StoreSound, Merge;
    TotalNonNegative(Step(s, e).requests, Distance);
    match e
    case Land(i) => TotalUpdate(s.requests, i, s.requests[i].(landed := true), Distance);
    case Answer(i, ok) => TotalUpdate(s.requests, i, s.requests[i].(status := Answered(ok)), Distance);
    case Release(i) =>
      TotalUpdate(s.requests, i, s.requests[i].(status := Released(s.requests[i].status.ok)), Distance);
    case Count(i) =>
      TotalUpdate(s.requests, i, s.requests[i].(status := Counted(s.requests[i].status.ok)), Distance);
    case _ =>
  }

  /** The first request from index i on that holds a permit. */
  function FirstBusy(rs: seq<Request>, i: nat): (r: Option<nat>)
    requires i <= |rs|
    ensures r.Some? ==> i <= r.value < |rs| && Busy(rs[r.value]) > 0
    ensures r.None? ==> forall j :: i <= j < |rs| ==> Busy(rs[j]) == 0
    decreases |rs| - i
  {
    if i == |rs| then None else if Busy(rs[i]) > 0 then Some(i) else FirstBusy(rs, i + 1)
  }

  /** A store that lands and acknowledges every request at once, and callbacks that run at once. */
  function Prompt(max: nat): Environment {
    events =>
      match Exec(max, events)
      case None => None
      case Some(s) =>
        match FirstBusy(s.requests, 0)
        case None => None
        case Some(i) => Some(Serve(s.requests[i], i))
  }

  function Serve(r: Request, i: nat): Event {
    if !r.landed then Land(i) else if r.status.InFlight? then Answer(i, true) else Release(i)
  }

  /** Environments that answer and never fail do exist. */
  lemma PromptAnswers(max: nat)
    ensures Answers(Prompt(max), max) && NeverFails(Prompt(max))
  {
    hide Exec, Total;
    forall events | Exec(max, events).Some? ensures Responds(Prompt(max)(events), Exec(max, events).value) {
      TotalNonNegative(Exec(max, events).value.requests, Busy);
    }
  }

  class Pipeline {
    const max: nat
    var s: State
    /** Everything that has happened to the process and the store. */
    var events: seq<Event>

    ghost predicate Valid()
      reads this
    {
      Exec(max, events) == Some(s)
    }

    constructor (max: nat)
      ensures Valid() && this.max == max && events == [] && s == Init(max)
    {
      this.max := max;
      s := Init(max);
      events := [];
    }

    method Do(e: Event)
      requires Valid() && Enabled(s, e)
      modifies this
      ensures Valid() && s == Step(old(s), e) && events == old(events) + [e]
      ensures Executed(events) == if e.Restart? then [] else
                                  if e.Acquire? then Executed(old(events)) + [e.w] else Executed(old(events))
      ensures !e.Restart? ==> Extends(old(events), events)
      ensures !Failure(e) && NoFailures(old(s)) ==> NoFailures(s)
    {
      if !Failure(e) && NoFailures(s) {
        StepKeepsNoFailures(s, e);
      }
      ExecutedSnoc(events, e);
      assert (events + [e])[..|events|] == events;
      s := Step(s, e);
      events := events + [e];
    }

    /** Lets the store and the callback threads run for as long as they like. */
    method GiveWay(env: Environment)
      requires Valid() && Answers(env, max)
      modifies this
      ensures Valid() && s.caller == old(s.caller) && s.base == old(s.base) && |s.requests| == |old(s.requests)|
      ensures Executed(events) == Executed(old(events)) && Extends(old(events), events)
      ensures Responds(None, s)
      ensures NeverFails(env) && NoFailures(old(s)) ==> NoFailures(s)
    {
      hide NoFailures, Exec, Executed, Step, Enabled, Total;
      while env(events).Some?
        invariant Valid() && s.caller == old(s.caller) && s.base == old(s.base) && |s.requests| == |old(s.requests)|
        invariant Executed(events) == Executed(old(events)) && Extends(old(events), events)
        invariant NeverFails(env) && NoFailures(old(s)) ==> NoFailures(s)
        decreases Total(s.requests, Distance)
      {
        var e := env(events).value;
        assert Responds(env(events), s);
        ExecKeepsInv(max, events);
        OthersStep(s, e);
        ghost var before := events;
        Do(e);
        ExtendsFurther(old(events), before, events);
      }
      assert Responds(env(events), s);
    }

    /** execute: acquire a permit, issue the request. */
    method Execute(w: Write, env: Environment)
      requires Valid() && Answers(env, max) && max > 0 && s.caller.Idle?
      modifies this
      ensures Valid() && s.caller.Idle?
      ensures Executed(events) == Executed(old(events)) + [w] && Extends(old(events), events)
      ensures |s.requests| == |old(s.requests)| + 1
      ensures NeverFails(env) && NoFailures(old(s)) ==> NoFailures(s)
    {
      hide Exec, Executed, Total, Answers, NoFailures, NeverFails;
      GiveWay(env);
      ghost var waited := events;
      ExecKeepsInv(max, events);
      Do(Acquire(w));
      ExtendsFurther(old(events), waited, events);
      ghost var acquired := events;
      GiveWay(env);
      ExtendsFurther(old(events), acquired, events);
      ghost var ready := events;
      Do(Issue);
      ExtendsFurther(old(events), ready, events);
    }

    /** The acquire loop of drain. */
    method DrainAcquire(m: nat, env: Environment)
      requires Valid() && Answers(env, max) && m <= max && s.caller.Idle?
      modifies this
      ensures Valid() && s.caller == Draining(m, m) && |s.requests| == |old(s.requests)|
      ensures Executed(events) == Executed(old(events)) && Extends(old(events), events)
      ensures NeverFails(env) && NoFailures(old(s)) ==> NoFailures(s)
    {
      hide Exec, Executed, Total, Answers, NoFailures, NeverFails;
      Do(StartDrain(m));
      for k := 0 to m
        invariant Valid() && s.caller == Draining(m, k) && |s.requests| == |old(s.requests)|
        invariant Executed(events) == Executed(old(events)) && Extends(old(events), events)
        invariant NeverFails(env) && NoFailures(old(s)) ==> NoFailures(s)
      {
        ghost var before := events;
        GiveWay(env);
        ExtendsFurther(old(events), before, events);
        ExecKeepsInv(max, events);
        ghost var waited := events;
        Do(DrainTake);
        ExtendsFurther(old(events), waited, events);
      }
    }

    /** The release loop of drain. */
    method DrainRelease(env: Environment)
      requires Valid() && Answers(env, max) && s.caller.Refilling? && s.caller.left == s.caller.m
      modifies this
      ensures Valid() && s.caller == Refilling(old(s.caller).m, 0) && |s.requests| == |old(s.requests)|
      ensures Executed(events) == Executed(old(events)) && Extends(old(events), events)
      ensures NeverFails(env) && NoFailures(old(s)) ==> NoFailures(s)
    {
      hide Exec, Executed, Total, Answers, NoFailures, NeverFails;
      ghost var m := s.caller.m;
      while s.caller.left > 0
        invariant Valid() && s.caller.Refilling? && s.caller.m == m && |s.requests| == |old(s.requests)|
        invariant Executed(events) == Executed(old(events)) && Extends(old(events), events)
        invariant NeverFails(env) && NoFailures(old(s)) ==> NoFailures(s)
        decreases s.caller.left
      {
        ghost var before := events;
        GiveWay(env);
        ExtendsFurther(old(events), before, events);
        ghost var waited := events;
        Do(DrainGive);
        ExtendsFurther(old(events), waited, events);
      }
    }

    /**
     drain: returns for every environment that answers, with its permits given
     back; a full drain returns with no request in flight.
     */
    method Drain(m: nat, env: Environment)
      requires Valid() && Answers(env, max) && m <= max && s.caller.Idle?
      modifies this
      ensures Valid() && s.caller.Idle? && |s.requests| == |old(s.requests)|
      ensures Executed(events) == Executed(old(events)) && Extends(old(events), events)
      ensures Total(s.requests, Busy) <= max - m && s.free == max - Total(s.requests, Busy)
      ensures m == max ==> Quiet(s)
      ensures NeverFails(env) && NoFailures(old(s)) ==> NoFailures(s)
    {
      hide Exec, Executed, Total, Answers, NoFailures, NeverFails;
      DrainAcquire(m, env);
      ghost var acquired := events;
      Do(DrainTurn);
      ExtendsFurther(old(events), acquired, events);
      ghost var turned := events;
      DrainRelease(env);
      ExtendsFurther(old(events), turned, events);
      DrainWaits(max, events);
      ghost var refilled := events;
      Do(EndDrain);
      ExtendsFurther(old(events), refilled, events);
      IdlePermits(max, events);
    }

    /** Executes a list of writes in order. */
    method ExecuteAll(ws: seq<Write>, env: Environment)
      requires Valid() && Answers(env, max) && max > 0 && s.caller.Idle?
      modifies this
      ensures Valid() && s.caller.Idle?
      ensures Executed(events) == Executed(old(events)) + ws && Extends(old(events), events)
      ensures NeverFails(env) && NoFailures(old(s)) ==> NoFailures(s)
    {
      hide Exec, Executed, Answers, NoFailures, NeverFails;
      for i := 0 to |ws|
        invariant Valid() && s.caller.Idle?
        invariant Executed(events) == Executed(old(events)) + ws[..i] && Extends(old(events), events)
        invariant NeverFails(env) && NoFailures(old(s)) ==> NoFailures(s)
      {
        ghost var before := events;
        Execute(ws[i], env);
        ExtendsFurther(old(events), before, events);
        assert ws[..i + 1] == ws[..i] + [ws[i]];
      }
      assert ws[..|ws|] == ws;
    }

    /** Executes a list of writes in order and drains completely. */
    method PushAll(ws: seq<Write>, env: Environment)
      requires Valid() && Answers(env, max) && max > 0 && s.caller.Idle?
      modifies this
      ensures Valid() && s.caller.Idle? && Quiet(s)
      ensures Executed(events) == Executed(old(events)) + ws && Extends(old(events), events)
      ensures NeverFails(env) && NoFailures(old(s)) ==> NoFailures(s)
    {
      hide Exec, Executed, Answers, Quiet, NoFailures, NeverFails;
      ExecuteAll(ws, env);
      ghost var pushed := events;
      Drain(max, env);
      ExtendsFurther(old(events), pushed, events);
    }
  }
}
