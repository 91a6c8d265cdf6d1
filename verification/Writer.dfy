/**
 The write pipeline as a protocol of interleaved steps.  One caller thread
 acquires a permit, issues a request, or drains; every request is answered,
 releases its permit and is counted on a callback thread of its own; the store
 lands a request at any moment after issue and keeps, per key, the row issued
 last (last writer wins).  The process may die at any step and start again: its
 requests are then orphaned, but may still land.
 */
module Writer {
  import opened Fills
  import opened Tables

  /** A request between execute_async and the end of its callback, or left behind by a dead process. */
  datatype Status = InFlight | Answered(ok: bool) | Released(ok: bool) | Counted(ok: bool) | Orphaned

  datatype Request = Request(write: Write, status: Status, landed: bool)

  /** Where the caller thread stands. */
  datatype Caller =
    | Idle
    | Holding(w: Write)                  // in execute, permit acquired, not yet issued
    | Draining(m: nat, taken: nat)       // in drain(m), acquire loop
    | Refilling(m: nat, left: nat)       // in drain(m), release loop

  datatype Cell = Cell(stamp: nat, row: TableRow)

  /** The requests from index base on belong to the running process. */
  datatype State = State(max: nat, free: nat, caller: Caller, requests: seq<Request>, base: nat,
                         count: nat, errors: nat, store: map<Key, Cell>)

  datatype Event =
    | Acquire(w: Write) | Issue
    | Land(i: nat) | Answer(i: nat, ok: bool) | Release(i: nat) | Count(i: nat)
    | StartDrain(m: nat) | DrainTake | DrainTurn | DrainGive | EndDrain
    | Restart

  predicate Enabled(s: State, e: Event) {
    match e
    case Acquire(w) => s.caller.Idle? && s.free > 0
    case Issue => s.caller.Holding?
    case Land(i) => i < |s.requests| && !s.requests[i].landed
    case Answer(i, ok) => i < |s.requests| && s.requests[i].status.InFlight? && (ok ==> s.requests[i].landed)
    case Release(i) => i < |s.requests| && s.requests[i].status.Answered?
    case Count(i) => i < |s.requests| && s.requests[i].status.Released?
    case StartDrain(m) => s.caller.Idle?
    case DrainTake => s.caller.Draining? && s.caller.taken < s.caller.m && s.free > 0
    case DrainTurn => s.caller.Draining? && s.caller.taken == s.caller.m
    case DrainGive => s.caller.Refilling? && s.caller.left > 0
    case EndDrain => s.caller.Refilling? && s.caller.left == 0
    case Restart => true
  }

  /** The store keeps the later-issued of two rows for a key. */
  function Merge(store: map<Key, Cell>, i: nat, w: Write): map<Key, Cell> {
    if w.key in store && store[w.key].stamp >= i then store else store[w.key := Cell(i, w.row)]
  }

  function SetStatus(s: State, i: nat, status: Status): State
    requires i < |s.requests|
  {
    s.(requests := s.requests[i := s.requests[i].(status := status)])
  }

  function Orphan(rs: seq<Request>): seq<Request> {
    seq(|rs|, i requires 0 <= i < |rs| => rs[i].(status := Orphaned))
  }

  function Step(s: State, e: Event): State
    requires Enabled(s, e)
  {
    match e
    case Acquire(w) => s.(free := s.free - 1, caller := Holding(w))
    case Issue => s.(requests := s.requests + [Request(s.caller.w, InFlight, false)], caller := Idle)
    case Land(i) => s.(requests := s.requests[i := s.requests[i].(landed := true)],
                       store := Merge(s.store, i, s.requests[i].write))
    case Answer(i, ok) => SetStatus(s, i, Answered(ok))
    case Release(i) => SetStatus(s, i, Released(s.requests[i].status.ok)).(free := s.free + 1)
    case Count(i) =>
      var ok := s.requests[i].status.ok;
      SetStatus(s, i, Counted(ok)).(count := s.count + (if ok then 1 else 0),
                                    errors := s.errors + (if ok then 0 else 1))
    case StartDrain(m) => s.(caller := Draining(m, 0))
    case DrainTake => s.(free := s.free - 1, caller := Draining(s.caller.m, s.caller.taken + 1))
    case DrainTurn => s.(caller := Refilling(s.caller.m, s.caller.m))
    case DrainGive => s.(free := s.free + 1, caller := Refilling(s.caller.m, s.caller.left - 1))
    case EndDrain => s.(caller := Idle)
    case Restart => State(s.max, s.max, Idle, Orphan(s.requests), |s.requests|, 0, 0, s.store)
  }

  function Init(max: nat): State { State(max, max, Idle, [], 0, 0, 0, map[]) }

  /** The state after a sequence of events, if each of them could happen. */
  function Exec(max: nat, events: seq<Event>): Option<State> {
    if |events| == 0 then Some(Init(max))
    else
      var before := Exec(max, events[..|events| - 1]);
      var e := events[|events| - 1];
      if before.Some? && Enabled(before.value, e) then Some(Step(before.value, e)) else None
  }

  // ---------- tallies over the requests ----------

  function Total(rs: seq<Request>, g: Request -> int): int {
    if |rs| == 0 then 0 else Total(rs[..|rs| - 1], g) + g(rs[|rs| - 1])
  }

  lemma TotalSnoc(rs: seq<Request>, r: Request, g: Request -> int)
    ensures Total(rs + [r], g) == Total(rs, g) + g(r)
  {
    assert (rs + [r])[..|rs|] == rs;
  }

  lemma {:induction false} TotalUpdate(rs: seq<Request>, i: nat, r: Request, g: Request -> int)
    requires i < |rs|
    ensures Total(rs[i := r], g) == Total(rs, g) - g(rs[i]) + g(r)
  {
    var init := rs[..|rs| - 1];
    if i == |rs| - 1 {
      assert rs[i := r][..|rs| - 1] == init;
    } else {
      assert rs[i := r][..|rs| - 1] == init[i := r];
      TotalUpdate(init, i, r, g);
    }
  }

  lemma {:induction false} TotalNonNegative(rs: seq<Request>, g: Request -> int)
    requires forall r :: g(r) >= 0
    ensures Total(rs, g) >= 0
    ensures Total(rs, g) > 0 ==> exists i :: 0 <= i < |rs| && g(rs[i]) > 0
    ensures Total(rs, g) == 0 ==> forall i :: 0 <= i < |rs| ==> g(rs[i]) == 0
  {
    if rs != [] {
      var init := rs[..|rs| - 1];
      TotalNonNegative(init, g);
      if Total(init, g) > 0 {
        var i :| 0 <= i < |init| && g(init[i]) > 0;
        assert g(rs[i]) > 0;
      }
    }
  }

  function Bit(b: bool): int { if b then 1 else 0 }

  // What a request contributes to each tally.
  function Busy(r: Request): int { Bit(r.status.InFlight? || r.status.Answered?) }
  function Uncounted(r: Request): int { Bit(r.status.Released?) }
  function CountedOk(r: Request): int { Bit(r.status.Counted? && r.status.ok) }
  function CountedErr(r: Request): int { Bit(r.status.Counted? && !r.status.ok) }

  /** Exactly the first base requests are orphans. */
  ghost predicate OrphansFirst(rs: seq<Request>, base: nat) {
    base <= |rs| && forall i :: 0 <= i < |rs| ==> (rs[i].status.Orphaned? <==> i < base)
  }

  lemma {:induction false} EveryRequestIsSomewhere(rs: seq<Request>, base: nat)
    requires OrphansFirst(rs, base)
    ensures Total(rs, Busy) + Total(rs, Uncounted) + Total(rs, CountedOk) + Total(rs, CountedErr) == |rs| - base
  {
    if rs != [] {
      EveryRequestIsSomewhere(rs[..|rs| - 1], if base == |rs| then base - 1 else base);
    }
  }

  lemma {:induction false} OrphansAreNotTallied(rs: seq<Request>)
    ensures Total(Orphan(rs), Busy) == 0 && Total(Orphan(rs), CountedOk) == 0 && Total(Orphan(rs), CountedErr) == 0
  {
    if rs != [] {
      var init, last := rs[..|rs| - 1], rs[|rs| - 1].(status := Orphaned);
      assert Orphan(rs) == Orphan(init) + [last];
      OrphansAreNotTallied(init);
      TalliesSnoc(Orphan(init), last);
    }
  }

  /** Permits the caller thread has in hand. */
  function InHand(c: Caller): nat {
    match c case Idle => 0 case Holding(_) => 1 case Draining(_, taken) => taken case Refilling(_, left) => left
  }

  // ---------- safety of every interleaving ----------

  ghost predicate PermitsConserved(s: State) {
    s.free + InHand(s.caller) + Total(s.requests, Busy) == s.max
  }

  ghost predicate Tallied(s: State) {
    s.count == Total(s.requests, CountedOk) && s.errors == Total(s.requests, CountedErr)
  }

  ghost predicate DrainSound(s: State) {
    match s.caller
    case Draining(m, taken) => taken <= m
    case Refilling(m, left) => left <= m && m + Total(s.requests, Busy) <= s.max
    case _ => true
  }

  ghost predicate SuccessMeansLanded(s: State) {
    forall i :: 0 <= i < |s.requests| && Succeeded(s.requests[i]) ==> s.requests[i].landed
  }

  predicate Succeeded(r: Request) {
    match r.status case Answered(ok) => ok case Released(ok) => ok case Counted(ok) => ok case _ => false
  }

  ghost predicate Inv(s: State) {
    && PermitsConserved(s) && Tallied(s) && DrainSound(s) && SuccessMeansLanded(s)
    && OrphansFirst(s.requests, s.base) && StoreSound(s.store, s.requests)
  }

  /** Request i is the last landed one for key. */
  ghost predicate Wins(rs: seq<Request>, i: nat, key: Key) {
    && i < |rs| && rs[i].landed && rs[i].write.key == key
    && forall j :: i < j < |rs| && rs[j].landed ==> rs[j].write.key != key
  }

  ghost predicate NoneLanded(rs: seq<Request>, key: Key) {
    forall j :: 0 <= j < |rs| && rs[j].landed ==> rs[j].write.key != key
  }

  /** Every cell holds the last-issued landed row of its key. */
  ghost predicate StoreSound(store: map<Key, Cell>, rs: seq<Request>) {
    forall key ::
      if key in store then Wins(rs, store[key].stamp, key) && store[key].row == rs[store[key].stamp].write.row
      else NoneLanded(rs, key)
  }

  lemma IssueKeepsStore(store: map<Key, Cell>, rs: seq<Request>, r: Request)
    requires StoreSound(store, rs) && !r.landed
    ensures StoreSound(store, rs + [r])
  {
  }

  lemma StatusKeepsStore(store: map<Key, Cell>, rs: seq<Request>, i: nat, status: Status)
    requires StoreSound(store, rs) && i < |rs|
    ensures StoreSound(store, rs[i := rs[i].(status := status)])
  {
  }

  lemma OrphanKeepsStore(store: map<Key, Cell>, rs: seq<Request>)
    requires StoreSound(store, rs)
    ensures StoreSound(store, Orphan(rs))
  {
    forall key
      ensures if key in store then Wins(Orphan(rs), store[key].stamp, key) &&
                                   store[key].row == Orphan(rs)[store[key].stamp].write.row
              else NoneLanded(Orphan(rs), key)
    {
      if key in store {
        assert Wins(rs, store[key].stamp, key);
      } else {
        assert NoneLanded(rs, key);
      }
    }
  }

  lemma LandKeepsStore(store: map<Key, Cell>, rs: seq<Request>, i: nat)
    requires StoreSound(store, rs) && i < |rs| && !rs[i].landed
    ensures StoreSound(Merge(store, i, rs[i].write), rs[i := rs[i].(landed := true)])
  {
    var rs' := rs[i := rs[i].(landed := true)];
    var store' := Merge(store, i, rs[i].write);
    forall key ensures
        if key in store' then Wins(rs', store'[key].stamp, key) && store'[key].row == rs'[store'[key].stamp].write.row
        else NoneLanded(rs', key)
    {
      if key in store {
        assert Wins(rs, store[key].stamp, key);
      } else {
        assert NoneLanded(rs, key);
      }
    }
  }

  /** Changing one request moves every tally by the difference. */
  lemma TalliesUpdate(rs: seq<Request>, i: nat, r: Request)
    requires i < |rs|
    ensures Total(rs[i := r], Busy) == Total(rs, Busy) - Busy(rs[i]) + Busy(r)
    ensures Total(rs[i := r], CountedOk) == Total(rs, CountedOk) - CountedOk(rs[i]) + CountedOk(r)
    ensures Total(rs[i := r], CountedErr) == Total(rs, CountedErr) - CountedErr(rs[i]) + CountedErr(r)
  {
    TotalUpdate(rs, i, r, Busy);
    TotalUpdate(rs, i, r, CountedOk);
    TotalUpdate(rs, i, r, CountedErr);
  }

  lemma TalliesSnoc(rs: seq<Request>, r: Request)
    ensures Total(rs + [r], Busy) == Total(rs, Busy) + Busy(r)
    ensures Total(rs + [r], CountedOk) == Total(rs, CountedOk) + CountedOk(r)
    ensures Total(rs + [r], CountedErr) == Total(rs, CountedErr) + CountedErr(r)
  {
    TotalSnoc(rs, r, Busy);
    TotalSnoc(rs, r, CountedOk);
    TotalSnoc(rs, r, CountedErr);
  }

  /** Every step of the protocol keeps the invariant. */
  lemma StepKeepsInv(s: State, e: Event)
    requires Inv(s) && Enabled(s, e)
    ensures Inv(Step(s, e))
  {
    hide Total, StoreSound, Merge;
    match e
    case Issue =>
      var r := Request(s.caller.w, InFlight, false);
      TalliesSnoc(s.requests, r);
      IssueKeepsStore(s.store, s.requests, r);
    case Land(i) =>
      TalliesUpdate(s.requests, i, s.requests[i].(landed := true));
      LandKeepsStore(s.store, s.requests, i);
    case Answer(i, ok) =>
      TalliesUpdate(s.requests, i, s.requests[i].(status := Answered(ok)));
      StatusKeepsStore(s.store, s.requests, i, Answered(ok));
    case Release(i) =>
      var status := Released(s.requests[i].status.ok);
      TalliesUpdate(s.requests, i, s.requests[i].(status := status));
      StatusKeepsStore(s.store, s.requests, i, status);
    case Count(i) =>
      var status := Counted(s.requests[i].status.ok);
      TalliesUpdate(s.requests, i, s.requests[i].(status := status));
      StatusKeepsStore(s.store, s.requests, i, status);
    case Restart =>
      OrphansAreNotTallied(s.requests);
      OrphanKeepsStore(s.store, s.requests);
    case _ =>
  }

  /** Safety of every interleaving. */
  lemma {:induction false} ExecKeepsInv(max: nat, events: seq<Event>)
    requires Exec(max, events).Some?
    ensures Inv(Exec(max, events).value) && Exec(max, events).value.max == max
  {
    hide Inv, Enabled;
    if events == [] {
      InitInv(max);
    } else {
      var init, e := events[..|events| - 1], events[|events| - 1];
      ExecKeepsInv(max, init);
      StepKeepsInv(Exec(max, init).value, e);
      StepKeepsMax(Exec(max, init).value, e);
    }
  }

  lemma InitInv(max: nat)
    ensures Inv(Init(max))
  {
  }

  lemma StepKeepsMax(s: State, e: Event)
    requires Enabled(s, e)
    ensures Step(s, e).max == s.max
  {
  }

  /** Every permit and every issued request is accounted for, in every reachable state. */
  lemma PermitsAndRequestsAccountedFor(max: nat, events: seq<Event>)
    requires Exec(max, events).Some?
    ensures var s := Exec(max, events).value;
            && s.free + InHand(s.caller) + Total(s.requests, Busy) == max
            && |s.requests| - s.base == s.count + s.errors + Total(s.requests, Busy) + Total(s.requests, Uncounted)
  {
    hide Total, Exec, StoreSound;
    ExecKeepsInv(max, events);
    EveryRequestIsSomewhere(Exec(max, events).value.requests, Exec(max, events).value.base);
  }

  // ---------- drain ----------

  /**
   drain(m) leaves its acquire loop only with at most max - m requests in
   flight: never when m exceeds the number of permits, and with none in flight
   when m is all of them.  The counters may then lag the issued requests by
   exactly the callbacks between release and lock.
   */
  lemma DrainWaits(max: nat, events: seq<Event>)
    requires Exec(max, events).Some?
    requires Exec(max, events).value.caller.Refilling? ||
             (Exec(max, events).value.caller.Draining? &&
              Exec(max, events).value.caller.taken == Exec(max, events).value.caller.m)
    ensures var s := Exec(max, events).value;
            && s.caller.m <= max
            && Total(s.requests, Busy) <= max - s.caller.m
            && (s.caller.m == max ==>
                  && Quiet(s)
                  && |s.requests| - s.base - (s.count + s.errors) == Total(s.requests, Uncounted))
  {
    hide Total, Exec, StoreSound;
    var s := Exec(max, events).value;
    ExecKeepsInv(max, events);
    PermitsAndRequestsAccountedFor(max, events);
    TotalNonNegative(s.requests, Busy);
    if s.caller.m == max {
      forall i | s.base <= i < |s.requests| ensures s.requests[i].status.Released? || s.requests[i].status.Counted? {
        assert Busy(s.requests[i]) == 0;
      }
    }
  }

  /** After a drain, or whenever the caller is idle, all permits not held by requests are free. */
  lemma IdlePermits(max: nat, events: seq<Event>)
    requires Exec(max, events).Some? && Exec(max, events).value.caller.Idle?
    ensures var s := Exec(max, events).value; s.free == max - Total(s.requests, Busy)
  {
    hide Total, Exec, StoreSound;
    ExecKeepsInv(max, events);
  }

  // How far a draining state is from the end of the drain and of all callbacks.
  function Distance(r: Request): int {
    (if r.landed then 0 else 1) +
    match r.status case InFlight => 3 case Answered(_) => 2 case Released(_) => 1 case _ => 0
  }

  function DrainSteps(c: Caller): int {
    match c
    case Draining(m, taken) => 2 * m - taken + 2
    case Refilling(_, left) => left + 1
    case _ => 0
  }

  function Remaining(s: State): int { Total(s.requests, Distance) + DrainSteps(s.caller) }

  /** While a drain runs, every possible step but a crash brings it closer to its end, in any interleaving. */
  lemma DrainOnlyProgresses(s: State, e: Event)
    requires Inv(s) && Enabled(s, e) && (s.caller.Draining? || s.caller.Refilling?) && e != Restart
    ensures 0 <= Remaining(Step(s, e)) < Remaining(s)
  {
    hide Total, StoreSound, Merge;
    TotalNonNegative(Step(s, e).requests, Distance);
    match e
    case Land(i) => TotalUpdate(s.requests, i, s.requests[i].(landed := true), Distance);
    case Answer(i, ok) => TotalUpdate(s.requests, i, s.requests[i].(status := Answered(ok)), Distance);
    case Release(i) =>
      TotalUpdate(s.requests, i, s.requests[i].(status := Released(s.requests[i].status.ok)), Distance);
    case Count(i) =>
      TotalUpdate(s.requests, i, s.requests[i].(status := Counted(s.requests[i].status.ok)), Distance);
    case _ =>
  }

  /** ... and as long as it asks for no more permits than there are, some step is always possible. */
  lemma DrainNeverDeadlocks(s: State) returns (e: Event)
    requires Inv(s) && (s.caller.Refilling? || (s.caller.Draining? && s.caller.m <= s.max))
    ensures Enabled(s, e)
  {
    hide Total, StoreSound;
    match s.caller {
      case Refilling(m, left) => e := if left > 0 then DrainGive else EndDrain;
      case Draining(m, taken) =>
        if taken == m {
          e := DrainTurn;
        } else if s.free > 0 {
          e := DrainTake;
        } else {
          TotalNonNegative(s.requests, Busy);
          var i :| 0 <= i < |s.requests| && Busy(s.requests[i]) > 0;
          e := if s.requests[i].status.InFlight? then Answer(i, false) else Release(i);
        }
    }
  }

  /** A drain that asks for more permits than exist never gets past its acquire loop. */
  lemma OversizedDrainIsStuck(s: State)
    requires Inv(s) && s.caller.Draining? && s.caller.m > s.max
    ensures !Enabled(s, DrainTurn)
  {
    hide Total, StoreSound;
    TotalNonNegative(s.requests, Busy);
  }

  /** One request may have given its permit back and still wait to be counted. */
  lemma ReleasedBeforeCounted(w: Write) returns (es: seq<Event>)
    ensures Exec(1, es) == Some(State(1, 1, Idle, [Request(w, Released(true), true)], 0, 0, 0,
                                      map[w.key := Cell(0, w.row)]))
  {
    var cells := map[w.key := Cell(0, w.row)];
    es := [];
    assert Exec(1, es) == Some(Init(1));
    hide Exec;
    es := Then(1, es, Acquire(w), State(1, 0, Holding(w), [], 0, 0, 0, map[]));
    es := Then(1, es, Issue, State(1, 0, Idle, [Request(w, InFlight, false)], 0, 0, 0, map[]));
    es := Then(1, es, Land(0), State(1, 0, Idle, [Request(w, InFlight, true)], 0, 0, 0, cells));
    es := Then(1, es, Answer(0, true), State(1, 0, Idle, [Request(w, Answered(true), true)], 0, 0, 0, cells));
    es := Then(1, es, Release(0), State(1, 1, Idle, [Request(w, Released(true), true)], 0, 0, 0, cells));
  }

  /** So the counters really can lag: a full drain returns while a callback waits for the lock. */
  lemma CountersCanLagDrain(w: Write) returns (es: seq<Event>)
    ensures es != [] && es[|es| - 1] == EndDrain && Exec(1, es).Some?
    ensures Exec(1, es).value.count + Exec(1, es).value.errors < |Exec(1, es).value.requests| - Exec(1, es).value.base
  {
    hide Exec;
    es := ReleasedBeforeCounted(w);
    var idle := Exec(1, es).value;
    es := Then(1, es, StartDrain(1), idle.(caller := Draining(1, 0)));
    es := Then(1, es, DrainTake, idle.(free := 0, caller := Draining(1, 1)));
    es := Then(1, es, DrainTurn, idle.(free := 0, caller := Refilling(1, 1)));
    es := Then(1, es, DrainGive, idle.(caller := Refilling(1, 0)));
    es := Then(1, es, EndDrain, idle);
  }

  lemma Then(max: nat, es: seq<Event>, e: Event, s': State) returns (es': seq<Event>)
    requires Exec(max, es).Some? && Enabled(Exec(max, es).value, e) && Step(Exec(max, es).value, e) == s'
    ensures es' == es + [e] && Exec(max, es') == Some(s')
  {
    es' := es + [e];
    assert es'[..|es|] == es;
  }

  // ---------- asynchronous writes refine sequential ones ----------

  function WritesOf(rs: seq<Request>): seq<Write> {
    seq(|rs|, i requires 0 <= i < |rs| => rs[i].write)
  }

  /** The writes that landed, in issue order. */
  function LandedWrites(rs: seq<Request>): seq<Write> {
    if |rs| == 0 then []
    else
      var init, r := LandedWrites(rs[..|rs| - 1]), rs[|rs| - 1];
      if r.landed then init + [r.write] else init
  }

  /** The rows a reader sees. */
  function Rows(store: map<Key, Cell>): Tables {
    map key | key in store :: store[key].row
  }

  lemma ApplySnoc(t: Tables, ws: seq<Write>, w: Write)
    ensures ApplyAll(t, ws + [w]) == ApplyAll(t, ws)[w.key := w.row]
  {
    assert (ws + [w])[..|ws|] == ws;
  }

  lemma {:induction false} LandedLookup(rs: seq<Request>, key: Key)
    ensures NoneLanded(rs, key) ==> key !in ApplyAll(map[], LandedWrites(rs))
    ensures forall i: nat :: Wins(rs, i, key) ==>
                          key in ApplyAll(map[], LandedWrites(rs)) &&
                          ApplyAll(map[], LandedWrites(rs))[key] == rs[i].write.row
  {
    if rs != [] {
      var init, r := rs[..|rs| - 1], rs[|rs| - 1];
      LandedLookup(init, key);
      ApplySnoc(map[], LandedWrites(init), r.write);
      forall i: nat | Wins(rs, i, key)
        ensures key in ApplyAll(map[], LandedWrites(rs)) && ApplyAll(map[], LandedWrites(rs))[key] == rs[i].write.row
      {
        if i < |init| {
          assert Wins(init, i, key);
        }
      }
    }
  }

  /** In every interleaving the store shows the landed writes applied one by one in issue order. */
  lemma StoreRefinesSequential(s: State)
    requires StoreSound(s.store, s.requests)
    ensures Rows(s.store) == ApplyAll(map[], LandedWrites(s.requests))
  {
    hide LandedWrites, ApplyAll;
    var seqTables := ApplyAll(map[], LandedWrites(s.requests));
    forall key ensures key in s.store <==> key in seqTables {
      LandedLookup(s.requests, key);
    }
    forall key | key in s.store ensures s.store[key].row == seqTables[key] {
      LandedLookup(s.requests, key);
    }
  }

  lemma {:induction false} LandedConcat(rs: seq<Request>, base: nat)
    requires base <= |rs| && forall i :: base <= i < |rs| ==> rs[i].landed
    ensures LandedWrites(rs) == LandedWrites(rs[..base]) + WritesOf(rs[base..])
  {
    if base == |rs| {
      assert rs[..base] == rs;
    } else {
      var init := rs[..|rs| - 1];
      LandedConcat(init, base);
      assert init[..base] == rs[..base];
      assert WritesOf(rs[base..]) == WritesOf(init[base..]) + [rs[|rs| - 1].write];
    }
  }

  /** The writes that the running process has executed; it issues them in that order. */
  function Executed(events: seq<Event>): seq<Write> {
    if |events| == 0 then []
    else
      var init, e := Executed(events[..|events| - 1]), events[|events| - 1];
      if e.Restart? then [] else if e.Acquire? then init + [e.w] else init
  }

  function Held(c: Caller): seq<Write> { if c.Holding? then [c.w] else [] }

  lemma {:induction false} IssueOrder(max: nat, events: seq<Event>)
    requires Exec(max, events).Some?
    ensures var s := Exec(max, events).value;
            s.base <= |s.requests| && Executed(events) == WritesOf(s.requests[s.base..]) + Held(s.caller)
  {
    if events != [] {
      var init, e := events[..|events| - 1], events[|events| - 1];
      IssueOrder(max, init);
      IssueOrderStep(Exec(max, init).value, e);
    }
  }

  lemma IssueOrderStep(s: State, e: Event)
    requires Enabled(s, e) && s.base <= |s.requests|
    ensures var s' := Step(s, e);
            && s'.base <= |s'.requests|
            && WritesOf(s'.requests[s'.base..]) + Held(s'.caller) ==
               (if e.Restart? then [] else
                  WritesOf(s.requests[s.base..]) + Held(s.caller) + if e.Acquire? then [e.w] else [])
  {
  }

  /** No request of the running process has come back with an error. */
  ghost predicate NoFailures(s: State) {
    forall i :: s.base <= i < |s.requests| ==> s.requests[i].status.InFlight? || Succeeded(s.requests[i])
  }

  /** An error callback. */
  predicate Failure(e: Event) { e.Answer? && !e.ok }

  /** Only an error callback makes a request fail. */
  lemma StepKeepsNoFailures(s: State, e: Event)
    requires NoFailures(s) && Enabled(s, e) && !Failure(e)
    ensures NoFailures(Step(s, e))
  {
    hide Merge;
  }

  /** Every request of the running process has been answered and has given its permit back. */
  ghost predicate Quiet(s: State) {
    && !s.caller.Holding?
    && forall i :: s.base <= i < |s.requests| ==> s.requests[i].status.Released? || s.requests[i].status.Counted?
  }

  /**
   Once the process is quiet without failures: whatever the interleaving was,
   and whatever earlier processes left in flight, the tables are the rows that
   landed from before with the executed writes applied in order.
   */
  lemma QuietStoreIsSequential(max: nat, events: seq<Event>)
    requires Exec(max, events).Some?
    requires Quiet(Exec(max, events).value) && NoFailures(Exec(max, events).value)
    ensures var s := Exec(max, events).value;
            && s.base <= |s.requests|
            && Rows(s.store) == ApplyAll(ApplyAll(map[], LandedWrites(s.requests[..s.base])), Executed(events))
  {
    hide Total, Exec, StoreSound, Executed, LandedWrites, ApplyAll, WritesOf;
    var s := Exec(max, events).value;
    ExecKeepsInv(max, events);
    IssueOrder(max, events);
    LandedConcat(s.requests, s.base);
    StoreRefinesSequential(s);
    assert Executed(events) == WritesOf(s.requests[s.base..]);
    ApplyConcat(map[], LandedWrites(s.requests[..s.base]), Executed(events));
  }

  // ---------- while writes are in flight ----------

  /** Every write of key that the running process has executed has landed. */
  ghost predicate Settled(s: State, key: Key) {
    && (forall i :: s.base <= i < |s.requests| && s.requests[i].write.key == key ==> s.requests[i].landed)
    && (s.caller.Holding? ==> s.caller.w.key != key)
  }

  /** Whatever else is in flight, a settled key shows what the executed writes applied in order would leave. */
  lemma SettledKeyIsSequential(max: nat, events: seq<Event>, key: Key)
    requires Exec(max, events).Some? && Settled(Exec(max, events).value, key)
    requires Touches(Executed(events), key) || Exec(max, events).value.base == 0
    ensures Lookup(Rows(Exec(max, events).value.store), key) == Lookup(ApplyAll(map[], Executed(events)), key)
  {
    hide Total, Exec, Executed, ApplyAll, Wins;
    var s, executed := Exec(max, events).value, Executed(events);
    ExecKeepsInv(max, events);
    IssueOrder(max, events);
    ApplyAllLookup(map[], executed, key);
    if Touches(executed, key) {
      var i: nat :| LastWrite(executed, key, i);
      LastOwnWins(s, executed, key, i);
    } else {
      assert key !in s.store by { UntouchedIsAbsent(s, executed, key); }
    }
  }

  lemma OwnWrites(s: State, executed: seq<Write>)
    requires s.base <= |s.requests| && executed == WritesOf(s.requests[s.base..]) + Held(s.caller)
    ensures forall k :: s.base <= k < |s.requests| ==>
                          k - s.base < |executed| && s.requests[k].write == executed[k - s.base]
    ensures forall k :: s.base <= k < |s.requests| ==> s.requests[k].write in executed
  {
    var own := WritesOf(s.requests[s.base..]);
    forall k | s.base <= k < |s.requests|
      ensures k - s.base < |executed| && s.requests[k].write == executed[k - s.base]
    {
      assert own[k - s.base] == s.requests[k].write;
    }
  }

  lemma LastOwnWins(s: State, executed: seq<Write>, key: Key, i: nat)
    requires StoreSound(s.store, s.requests) && s.base <= |s.requests|
    requires executed == WritesOf(s.requests[s.base..]) + Held(s.caller)
    requires LastWrite(executed, key, i) && Settled(s, key)
    ensures s.base + i < |s.requests| && key in s.store && s.store[key].row == executed[i].row
  {
    OwnWrites(s, executed);
    assert key in s.store && Wins(s.requests, s.store[key].stamp, key);
  }

  lemma UntouchedIsAbsent(s: State, executed: seq<Write>, key: Key)
    requires StoreSound(s.store, s.requests) && s.base == 0
    requires executed == WritesOf(s.requests[s.base..]) + Held(s.caller)
    requires !Touches(executed, key)
    ensures key !in s.store
  {
    OwnWrites(s, executed);
  }

  /** A write of the running process that has not landed. */
  function Behind(r: Request): int { Bit(!r.landed && !r.status.Orphaned?) }

  lemma {:induction false} TotalMono(rs: seq<Request>, g: Request -> int, g': Request -> int)
    requires forall i :: 0 <= i < |rs| ==> g(rs[i]) <= g'(rs[i])
    ensures Total(rs, g) <= Total(rs, g')
  {
    if rs != [] {
      TotalMono(rs[..|rs| - 1], g, g');
    }
  }

  /** Without failures at most max_inflight writes are behind at any time. */
  lemma FewWritesBehind(max: nat, events: seq<Event>)
    requires Exec(max, events).Some? && NoFailures(Exec(max, events).value)
    ensures Total(Exec(max, events).value.requests, Behind) <= max
  {
    hide Total, Exec, StoreSound;
    var s := Exec(max, events).value;
    ExecKeepsInv(max, events);
    PermitsAndRequestsAccountedFor(max, events);
    TotalMono(s.requests, Behind, Busy);
  }
}
