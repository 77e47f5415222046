/** The processor status: one read at a time per endpoint and version, shared by every caller that needs
    it while it runs, with a forced refresh that must be answered by a read begun after it was asked for.
    The steps are the critical sections and wake-ups of concurrent callers and of the reads themselves,
    in any interleaving. Keys never share state, so one key is modelled. */
module StatusRefresh {
  import opened Wrappers
  import opened IndexCheckpoint

  const CACHE_TTL: nat := 30

  type Outcome = Result<Statuses, IndexError>

  /** A read is in flight until it lands under the mutex, leaving the registry; it then publishes its
      fields to whoever waits. */
  datatype Phase = InFlight | Landed | Published

  datatype Refresh = Refresh(startedAt: nat, landedAt: nat, phase: Phase, outcome: Outcome)

  datatype Cached = Cached(at: nat, chains: Statuses, from: nat)

  datatype Source = FromCache(entry: Cached) | FromRefresh(refresh: nat)

  /** Where a caller stands: about to take the mutex, waiting on a refresh, answered, or gone. */
  datatype Place = Consulting | Waiting(refresh: nat) | Answered(source: Source, outcome: Outcome) | Left

  /** `known` counts the reads already begun when the caller did: those are the ones before it, however
      little time has passed since. */
  datatype Caller = Caller(
    forced: bool, beganAt: nat, known: nat, tooEarly: Option<nat>, waits: nat, place: Place)

  datatype State = State(
    now: nat, cache: Option<Cached>, registered: Option<nat>, refreshes: seq<Refresh>, callers: seq<Caller>)

  datatype Step =
    | Tick(seconds: nat)
    | Call(forced: bool)
    | Consult(caller: nat)
    | Wake(caller: nat)
    | Leave(caller: nat)
    | Land(refresh: nat, outcome: Outcome)
    | Publish(refresh: nat)

  const Initial: State := State(0, None, None, [], [])

  // ---------- The steps ----------

  predicate Fresh(s: State) {
    s.cache.Some? && s.now - s.cache.value.at < CACHE_TTL
  }

  predicate Enabled(s: State, step: Step) {
    match step
    case Tick(_) => true
    case Call(_) => true
    case Consult(c) => c < |s.callers| && s.callers[c].place.Consulting?
    case Wake(c) =>
      c < |s.callers| && s.callers[c].place.Waiting? && s.callers[c].place.refresh < |s.refreshes|
      && s.refreshes[s.callers[c].place.refresh].phase.Published?
    case Leave(c) => c < |s.callers| && (s.callers[c].place.Consulting? || s.callers[c].place.Waiting?)
    case Land(r, _) => r < |s.refreshes| && s.refreshes[r].phase.InFlight?
    case Publish(r) => r < |s.refreshes| && s.refreshes[r].phase.Landed?
  }

  /** The top of the caller's loop, under the mutex: a fresh entry answers an unforced caller; otherwise
      the caller waits on the registered read, starting one if there is none, and a forced caller marks
      the first read it found already running as too early for it. */
  function ConsultStep(s: State, c: nat): State
    requires c < |s.callers|
  {
    var caller := s.callers[c];
    if !caller.forced && Fresh(s) then
      s.(callers := s.callers[c := caller.(place := Answered(FromCache(s.cache.value), Ok(s.cache.value.chains)))])
    else if s.registered.None? then
      var r := |s.refreshes|;
      s.(registered := Some(r),
         refreshes := s.refreshes + [Refresh(s.now, s.now, InFlight, Err(StatusUnread))],
         callers := s.callers[c := caller.(waits := caller.waits + 1, place := Waiting(r))])
    else
      var r := s.registered.value;
      var marked := if caller.forced && caller.tooEarly.None? then Some(r) else caller.tooEarly;
      s.(callers := s.callers[c := caller.(tooEarly := marked, waits := caller.waits + 1, place := Waiting(r))])
  }

  function Apply(s: State, step: Step): State
    requires Enabled(s, step)
  {
    match step
    case Tick(seconds) => s.(now := s.now + seconds)
    case Call(forced) => s.(callers := s.callers + [Caller(forced, s.now, |s.refreshes|, None, 0, Consulting)])
    case Consult(c) => ConsultStep(s, c)
    case Wake(c) =>
      var caller := s.callers[c];
      var r := caller.place.refresh;
      s.(callers := s.callers[c := caller.(place :=
           if caller.tooEarly == Some(r) then Consulting else Answered(FromRefresh(r), s.refreshes[r].outcome))])
    case Leave(c) => s.(callers := s.callers[c := s.callers[c].(place := Left)])
    case Land(r, outcome) =>
      s.(cache := if outcome.Ok? then Some(Cached(s.now, outcome.value, r)) else s.cache,
         registered := None,
         refreshes := s.refreshes[r := s.refreshes[r].(landedAt := s.now, phase := Landed, outcome := outcome)])
    case Publish(r) => s.(refreshes := s.refreshes[r := s.refreshes[r].(phase := Published)])
  }

  /** A run takes enabled steps one after another. */
  ghost predicate IsRun(s: State, steps: seq<Step>)
    decreases |steps|
  {
    steps == [] || (Enabled(s, steps[0]) && IsRun(Apply(s, steps[0]), steps[1..]))
  }

  ghost function After(s: State, steps: seq<Step>): State
    requires IsRun(s, steps)
    decreases |steps|
  {
    if steps == [] then s else After(Apply(s, steps[0]), steps[1..])
  }

  // ---------- The invariant ----------

  /** Exactly the registered read is in flight, and it is the newest. */
  ghost predicate SingleFlight(s: State) {
    && (forall r :: 0 <= r < |s.refreshes| ==> (s.refreshes[r].phase.InFlight? <==> s.registered == Some(r)))
    && (s.registered.Some? ==> s.registered.value == |s.refreshes| - 1)
    && forall r :: 0 <= r < |s.refreshes| ==> s.refreshes[r].startedAt <= s.refreshes[r].landedAt <= s.now
  }

  /** An entry is what a landed, successful read answered, at the time it landed. */
  ghost predicate EntryOf(s: State, entry: Cached) {
    && entry.from < |s.refreshes| && !s.refreshes[entry.from].phase.InFlight?
    && s.refreshes[entry.from].outcome == Ok(entry.chains)
    && s.refreshes[entry.from].landedAt == entry.at <= s.now
  }

  /** The read began after the caller did, and so no earlier by the clock. */
  ghost predicate BegunAfter(s: State, caller: Caller, r: nat)
    requires r < |s.refreshes|
  {
    caller.known <= r && caller.beganAt <= s.refreshes[r].startedAt
  }

  /** Reads later than this caller's early one began after the caller did. */
  ghost predicate LaterAreFresh(s: State, caller: Caller, early: nat) {
    caller.known <= early + 1 && forall r :: early < r < |s.refreshes| ==> caller.beganAt <= s.refreshes[r].startedAt
  }

  ghost predicate CallerKeeps(s: State, caller: Caller) {
    && caller.beganAt <= s.now && caller.known <= |s.refreshes|
    && (caller.tooEarly.Some? ==>
          caller.forced && caller.tooEarly.value < |s.refreshes| && LaterAreFresh(s, caller, caller.tooEarly.value))
    && (!caller.forced ==> caller.waits <= 1)
    && match caller.place
       case Consulting =>
         if caller.tooEarly.None? then caller.waits == 0
         else caller.waits == 1 && s.refreshes[caller.tooEarly.value].phase.Published?
       case Waiting(r) =>
         && r < |s.refreshes|
         && caller.waits == (if caller.tooEarly.Some? && caller.tooEarly.value != r then 2 else 1)
         && (caller.forced && caller.tooEarly != Some(r) ==> BegunAfter(s, caller, r))
       case Answered(FromCache(entry), outcome) =>
         && !caller.forced && EntryOf(s, entry) && outcome == Ok(entry.chains) && caller.waits == 0
       case Answered(FromRefresh(r), outcome) =>
         && r < |s.refreshes| && s.refreshes[r].phase.Published? && outcome == s.refreshes[r].outcome
         && (caller.forced ==> BegunAfter(s, caller, r) && caller.waits <= 2)
       case Left => caller.waits <= 2
  }

  ghost predicate Inv(s: State) {
    && SingleFlight(s)
    && (s.cache.Some? ==> EntryOf(s, s.cache.value))
    && forall c :: 0 <= c < |s.callers| ==> CallerKeeps(s, s.callers[c])
  }

  /** A caller another step does not touch keeps what it has. */
  lemma Undisturbed(s: State, step: Step, caller: Caller)
    requires Inv(s) && Enabled(s, step) && CallerKeeps(s, caller)
    ensures CallerKeeps(Apply(s, step), caller)
  {
  }

  lemma StepKeepsSingleFlight(s: State, step: Step)
    requires Inv(s) && Enabled(s, step)
    ensures SingleFlight(Apply(s, step))
  {
  }

  lemma StepKeepsEntry(s: State, step: Step)
    requires Inv(s) && Enabled(s, step)
    ensures Apply(s, step).cache.Some? ==> EntryOf(Apply(s, step), Apply(s, step).cache.value)
  {
  }

  lemma ConsultKeeps(s: State, c: nat)
    requires Inv(s) && Enabled(s, Consult(c))
    ensures CallerKeeps(Apply(s, Consult(c)), Apply(s, Consult(c)).callers[c])
  {
  }

  lemma WakeKeeps(s: State, c: nat)
    requires Inv(s) && Enabled(s, Wake(c))
    ensures CallerKeeps(Apply(s, Wake(c)), Apply(s, Wake(c)).callers[c])
  {
  }

  lemma LeaveKeeps(s: State, c: nat)
    requires Inv(s) && Enabled(s, Leave(c))
    ensures CallerKeeps(Apply(s, Leave(c)), Apply(s, Leave(c)).callers[c])
  {
  }

  lemma StepKeepsInv(s: State, step: Step)
    requires Inv(s) && Enabled(s, step)
    ensures Inv(Apply(s, step))
  {
    StepKeepsSingleFlight(s, step);
    StepKeepsEntry(s, step);
    StepKeepsCallers(s, step);
  }

  lemma StepKeepsCallers(s: State, step: Step)
    requires Inv(s) && Enabled(s, step)
    ensures forall c :: 0 <= c < |Apply(s, step).callers| ==> CallerKeeps(Apply(s, step), Apply(s, step).callers[c])
  {
    var next := Apply(s, step);
    forall c | 0 <= c < |next.callers| ensures CallerKeeps(next, next.callers[c]) {
      if step == Consult(c) {
        ConsultKeeps(s, c);
      } else if step == Wake(c) {
        WakeKeeps(s, c);
      } else if step == Leave(c) {
        LeaveKeeps(s, c);
      } else if c < |s.callers| {
        Undisturbed(s, step, s.callers[c]);
      }
    }
  }

  lemma {:induction false} RunKeepsInv(s: State, steps: seq<Step>)
    requires Inv(s) && IsRun(s, steps)
    ensures Inv(After(s, steps))
    decreases |steps|
  {
    if steps != [] {
      StepKeepsInv(s, steps[0]);
      RunKeepsInv(Apply(s, steps[0]), steps[1..]);
    }
  }

  // ---------- What every run guarantees ----------

  /** In every run at most one read is in flight; only successes are cached; and every answer is either a
      successful read's, taken from the cache by a caller that forced nothing, or the outcome of a read
      whose fields were published before the caller looked. */
  lemma AnswersComeFromFinishedReads(steps: seq<Step>)
    requires IsRun(Initial, steps)
    ensures var s := After(Initial, steps);
            && (forall q, r :: 0 <= q < r < |s.refreshes| ==>
                  !(s.refreshes[q].phase.InFlight? && s.refreshes[r].phase.InFlight?))
            && (s.cache.Some? ==> EntryOf(s, s.cache.value))
            && forall c :: 0 <= c < |s.callers| && s.callers[c].place.Answered? ==>
                 match s.callers[c].place.source
                 case FromCache(entry) => !s.callers[c].forced && EntryOf(s, entry)
                 case FromRefresh(r) => r < |s.refreshes| && s.refreshes[r].phase.Published?
                                        && s.callers[c].place.outcome == s.refreshes[r].outcome
  {
    RunKeepsInv(Initial, steps);
    var s := After(Initial, steps);
    forall c | 0 <= c < |s.callers| && s.callers[c].place.Answered?
      ensures match s.callers[c].place.source
              case FromCache(entry) => !s.callers[c].forced && EntryOf(s, entry)
              case FromRefresh(r) => r < |s.refreshes| && s.refreshes[r].phase.Published?
                                     && s.callers[c].place.outcome == s.refreshes[r].outcome
    {
      assert CallerKeeps(s, s.callers[c]);
    }
  }

  // ---------- Answers are what the node replied ----------

  lemma {:induction false} LandedStays(s: State, steps: seq<Step>, r: nat)
    requires IsRun(s, steps) && r < |s.refreshes| && !s.refreshes[r].phase.InFlight?
    ensures r < |After(s, steps).refreshes| && !After(s, steps).refreshes[r].phase.InFlight?
    ensures After(s, steps).refreshes[r].outcome == s.refreshes[r].outcome
    decreases |steps|
  {
    if steps != [] {
      LandedStays(Apply(s, steps[0]), steps[1..], r);
    }
  }

  /** A landing fixes its read's outcome for the rest of the run. */
  lemma {:induction false} LandingStays(s: State, steps: seq<Step>, r: nat, outcome: Outcome)
    requires IsRun(s, steps) && Land(r, outcome) in steps
    ensures r < |After(s, steps).refreshes| && !After(s, steps).refreshes[r].phase.InFlight?
    ensures After(s, steps).refreshes[r].outcome == outcome
    decreases |steps|
  {
    if steps[0] == Land(r, outcome) {
      LandedStays(Apply(s, steps[0]), steps[1..], r);
    } else {
      LandingStays(Apply(s, steps[0]), steps[1..], r, outcome);
    }
  }

  /** Every landed read landed in the run, with the outcome it has. */
  lemma {:induction false} LandedByAStep(s: State, steps: seq<Step>, r: nat)
    requires IsRun(s, steps)
    requires r < |After(s, steps).refreshes| && !After(s, steps).refreshes[r].phase.InFlight?
    requires r < |s.refreshes| ==> s.refreshes[r].phase.InFlight?
    ensures Land(r, After(s, steps).refreshes[r].outcome) in steps
    decreases |steps|
  {
    var next := Apply(s, steps[0]);
    if r < |next.refreshes| && !next.refreshes[r].phase.InFlight? {
      LandedStays(next, steps[1..], r);
    } else {
      LandedByAStep(next, steps[1..], r);
    }
  }

  /** In every run a caller that waited a read out is answered with exactly the outcome that read landed with,
      and one answered from the cache with a successful landing's statuses. */
  lemma AnswersAreWhatTheNodeReplied(steps: seq<Step>, c: nat)
    requires IsRun(Initial, steps)
    requires c < |After(Initial, steps).callers| && After(Initial, steps).callers[c].place.Answered?
    ensures var place := After(Initial, steps).callers[c].place;
            if place.source.FromRefresh?
            then forall outcome :: Land(place.source.refresh, outcome) in steps <==> outcome == place.outcome
            else var entry := place.source.entry;
                 place.outcome == Ok(entry.chains) && Land(entry.from, Ok(entry.chains)) in steps
  {
    RunKeepsInv(Initial, steps);
    var s := After(Initial, steps);
    assert CallerKeeps(s, s.callers[c]);
    var source := s.callers[c].place.source;
    if source.FromRefresh? {
      LandedByAStep(Initial, steps, source.refresh);
      forall outcome | Land(source.refresh, outcome) in steps ensures outcome == s.callers[c].place.outcome {
        LandingStays(Initial, steps, source.refresh, outcome);
      }
    } else {
      LandedByAStep(Initial, steps, source.entry.from);
    }
  }

  ghost predicate NoSuccess(steps: seq<Step>) {
    forall i :: 0 <= i < |steps| ==> !(steps[i].Land? && steps[i].outcome.Ok?)
  }

  /** A successful landing is what the cache holds until the next one, whatever else happens. */
  lemma {:induction false} CacheHoldsTheLastSuccess(s: State, rest: seq<Step>, entry: Cached)
    requires IsRun(s, rest) && s.cache == Some(entry)
    requires NoSuccess(rest)
    ensures After(s, rest).cache == Some(entry)
    decreases |rest|
  {
    if rest != [] {
      CacheHoldsTheLastSuccess(Apply(s, rest[0]), rest[1..], entry);
    }
  }

  /** From a successful landing on, and until the next, an unforced caller that looks within the time to live
      is answered at once with what landed; before any success, past that time, or forced, a caller waits on
      the read in flight, or on a new one begun at that moment. */
  lemma LookingUp(s: State, r: nat, chains: Statuses, rest: seq<Step>, c: nat)
    requires Enabled(s, Land(r, Ok(chains))) && IsRun(Apply(s, Land(r, Ok(chains))), rest)
    requires NoSuccess(rest)
    requires Enabled(After(Apply(s, Land(r, Ok(chains))), rest), Consult(c))
    ensures var before := After(Apply(s, Land(r, Ok(chains))), rest);
            var caller, after := before.callers[c], Apply(before, Consult(c));
            if !caller.forced && before.now < s.now + CACHE_TTL
            then after.callers[c].place == Answered(FromCache(Cached(s.now, chains, r)), Ok(chains))
            else WaitsOnTheCurrentRead(before, after, c)
  {
    CacheHoldsTheLastSuccess(Apply(s, Land(r, Ok(chains))), rest, Cached(s.now, chains, r));
  }

  ghost predicate WaitsOnTheCurrentRead(before: State, after: State, c: nat)
    requires c < |after.callers|
  {
    match before.registered
    case Some(q) => after.callers[c].place == Waiting(q) && after.refreshes == before.refreshes && after.registered == Some(q)
    case None =>
      var q := |before.refreshes|;
      && after.callers[c].place == Waiting(q) && after.registered == Some(q)
      && |after.refreshes| == q + 1 && after.refreshes[..q] == before.refreshes
      && after.refreshes[q].phase.InFlight? && after.refreshes[q].startedAt == before.now
  }

  /** While nothing has succeeded the cache is empty, and every caller that looks waits. */
  lemma {:induction false} EmptyUntilASuccess(s: State, steps: seq<Step>)
    requires IsRun(s, steps) && s.cache == None
    requires NoSuccess(steps)
    ensures After(s, steps).cache == None
    ensures forall c :: Enabled(After(s, steps), Consult(c)) ==>
              WaitsOnTheCurrentRead(After(s, steps), Apply(After(s, steps), Consult(c)), c)
    decreases |steps|
  {
    if steps != [] {
      EmptyUntilASuccess(Apply(s, steps[0]), steps[1..]);
    }
  }

  /** In every run a forced caller is answered only by a read begun after its call, never by one that was
      already in flight, however fast; it waits on at most two reads, whoever else comes and goes, and an
      unforced caller on at most one. */
  lemma ForcedCallersAreFresh(steps: seq<Step>)
    requires IsRun(Initial, steps)
    ensures var s := After(Initial, steps);
            forall c :: 0 <= c < |s.callers| ==>
              && s.callers[c].waits <= (if s.callers[c].forced then 2 else 1)
              && (s.callers[c].forced && s.callers[c].place.Answered? ==>
                    && s.callers[c].place.source.FromRefresh?
                    && s.callers[c].place.source.refresh < |s.refreshes|
                    && BegunAfter(s, s.callers[c], s.callers[c].place.source.refresh))
  {
    RunKeepsInv(Initial, steps);
    var s := After(Initial, steps);
    forall c | 0 <= c < |s.callers|
      ensures && s.callers[c].waits <= (if s.callers[c].forced then 2 else 1)
              && (s.callers[c].forced && s.callers[c].place.Answered? ==>
                    && s.callers[c].place.source.FromRefresh?
                    && s.callers[c].place.source.refresh < |s.refreshes|
                    && BegunAfter(s, s.callers[c], s.callers[c].place.source.refresh))
    {
      assert CallerKeeps(s, s.callers[c]);
    }
  }

  /** What a caller records when it calls is the number of reads begun until then: each later read has an
      index it did not count. */
  lemma {:induction false} KnownAtTheCall(s: State, forced: bool, steps: seq<Step>)
    requires IsRun(Apply(s, Call(forced)), steps)
    ensures var after, c := After(Apply(s, Call(forced)), steps), |s.callers|;
            && c < |after.callers| && after.callers[c].known == |s.refreshes| && after.callers[c].forced == forced
            && after.callers[c].beganAt == s.now && |s.refreshes| <= |after.refreshes|
  {
    CallersKeepTheirCall(Apply(s, Call(forced)), |s.callers|, steps);
  }

  lemma {:induction false} CallersKeepTheirCall(s: State, c: nat, steps: seq<Step>)
    requires IsRun(s, steps) && c < |s.callers|
    ensures var after := After(s, steps);
            && c < |after.callers| && after.callers[c].known == s.callers[c].known
            && after.callers[c].forced == s.callers[c].forced && after.callers[c].beganAt == s.callers[c].beganAt
            && |s.refreshes| <= |after.refreshes|
    decreases |steps|
  {
    if steps != [] {
      CallersKeepTheirCall(Apply(s, steps[0]), c, steps[1..]);
    }
  }

  /** A cached answer is younger than the time to live when it is given. */
  lemma CachedAnswersAreYoung(s: State, c: nat)
    requires Inv(s) && Enabled(s, Consult(c))
    requires Apply(s, Consult(c)).callers[c].place.Answered?
    ensures var caller := Apply(s, Consult(c)).callers[c];
            && caller.place.source.FromCache? && !caller.forced
            && s.now - s.refreshes[caller.place.source.entry.from].landedAt < CACHE_TTL
  {
  }

  /** A waiting caller never depends on another: from any reachable state the read it waits on can land
      and publish by its own steps, and the caller then wakes, even if every other caller has left. */
  lemma WaitersCanWake(s: State, c: nat, outcome: Outcome) returns (steps: seq<Step>)
    requires Inv(s) && c < |s.callers| && s.callers[c].place.Waiting?
    ensures |steps| <= 3 && IsRun(s, steps)
    ensures forall step :: step in steps ==> step.Land? || step.Publish? || step == Wake(c)
    ensures var after, caller := After(s, steps), s.callers[c];
            && |after.callers| == |s.callers| && after.callers[c].tooEarly == caller.tooEarly
            && (if caller.tooEarly == Some(caller.place.refresh) then after.callers[c].place.Consulting?
                else after.callers[c].place.Answered?)
  {
    assert CallerKeeps(s, s.callers[c]);
    var r := s.callers[c].place.refresh;
    var landed := if s.refreshes[r].phase.InFlight? then Apply(s, Land(r, outcome)) else s;
    var published := if landed.refreshes[r].phase.Landed? then Apply(landed, Publish(r)) else landed;
    steps := [Wake(c)];
    OneMoreStep(published, Wake(c), []);
    if landed.refreshes[r].phase.Landed? {
      OneMoreStep(landed, Publish(r), steps);
      steps := [Publish(r)] + steps;
    }
    if s.refreshes[r].phase.InFlight? {
      OneMoreStep(s, Land(r, outcome), steps);
      steps := [Land(r, outcome)] + steps;
    }
  }

  lemma {:induction false} RunsJoin(s: State, first: seq<Step>, rest: seq<Step>)
    requires IsRun(s, first) && IsRun(After(s, first), rest)
    ensures IsRun(s, first + rest) && After(s, first + rest) == After(After(s, first), rest)
    decreases |first|
  {
    if first == [] {
      assert first + rest == rest;
    } else {
      RunsJoin(Apply(s, first[0]), first[1..], rest);
      assert first + rest == [first[0]] + (first[1..] + rest);
      OneMoreStep(s, first[0], first[1..] + rest);
    }
  }

  ghost predicate OwnSteps(steps: seq<Step>, c: nat) {
    forall step :: step in steps ==> step.Land? || step.Publish? || step == Wake(c) || step == Consult(c)
  }

  lemma WaitersCanBeAnswered(s: State, c: nat, outcome: Outcome) returns (steps: seq<Step>)
    requires Inv(s) && c < |s.callers| && s.callers[c].place.Waiting?
    ensures IsRun(s, steps) && OwnSteps(steps, c)
    ensures c < |After(s, steps).callers| && After(s, steps).callers[c].place.Answered?
  {
    steps := WaitersCanWake(s, c, outcome);
    var woken := After(s, steps);
    RunKeepsInv(s, steps);
    if woken.callers[c].place.Consulting? {
      assert CallerKeeps(woken, woken.callers[c]);
      StepKeepsInv(woken, Consult(c));
      var again := WaitersCanWake(Apply(woken, Consult(c)), c, outcome);
      OneMoreStep(woken, Consult(c), again);
      RunsJoin(s, steps, [Consult(c)] + again);
      steps := steps + ([Consult(c)] + again);
    }
  }

  /** Every caller still there can be answered by its own steps and those of the reads it waits on. */
  lemma CallersCanBeAnswered(s: State, c: nat, outcome: Outcome) returns (steps: seq<Step>)
    requires Inv(s) && c < |s.callers| && (s.callers[c].place.Consulting? || s.callers[c].place.Waiting?)
    ensures IsRun(s, steps) && OwnSteps(steps, c)
    ensures c < |After(s, steps).callers| && After(s, steps).callers[c].place.Answered?
  {
    if s.callers[c].place.Waiting? {
      steps := WaitersCanBeAnswered(s, c, outcome);
    } else {
      var next := Apply(s, Consult(c));
      StepKeepsInv(s, Consult(c));
      steps := [];
      if next.callers[c].place.Waiting? {
        steps := WaitersCanBeAnswered(next, c, outcome);
      }
      OneMoreStep(s, Consult(c), steps);
      steps := [Consult(c)] + steps;
    }
  }

  lemma OneMoreStep(s: State, step: Step, rest: seq<Step>)
    requires Enabled(s, step) && IsRun(Apply(s, step), rest)
    ensures IsRun(s, [step] + rest) && After(s, [step] + rest) == After(Apply(s, step), rest)
  {
  }

  // ---------- Callers and the clock ----------

  ghost function Elapsed(steps: seq<Step>): nat {
    if steps == [] then 0 else (if steps[0].Tick? then steps[0].seconds else 0) + Elapsed(steps[1..])
  }

  /** The clock moves by what its ticks say, and by nothing else. */
  lemma {:induction false} ClockFollowsTicks(s: State, steps: seq<Step>)
    requires IsRun(s, steps)
    ensures After(s, steps).now == s.now + Elapsed(steps)
    decreases |steps|
  {
    if steps != [] {
      ClockFollowsTicks(Apply(s, steps[0]), steps[1..]);
    }
  }

  /** Who leaves is gone for good. */
  lemma {:induction false} LeaversStayGone(s: State, steps: seq<Step>, c: nat)
    requires IsRun(s, steps) && (Leave(c) in steps || (c < |s.callers| && s.callers[c].place.Left?))
    ensures c < |After(s, steps).callers| && After(s, steps).callers[c].place.Left?
    decreases |steps|
  {
    if steps != [] {
      LeaversStayGone(Apply(s, steps[0]), steps[1..], c);
    }
  }

  // ---------- The client's own state, changed in place ----------

  /** What the mutex guards. Its methods are the critical sections, run one at a time. */
  class StatusClient {
    var cache: Option<Cached>
    var registered: Option<nat>
    var refreshes: seq<Refresh>

    constructor ()
      ensures forall now, callers :: View(now, callers) == State(now, None, None, [], callers)
    {
      cache, registered, refreshes := None, None, [];
    }

    ghost function View(now: nat, callers: seq<Caller>): State
      reads this
    {
      State(now, cache, registered, refreshes, callers)
    }

    /** The top of a caller's loop: a cached entry, or the refresh to wait on and the one too early for it. */
    method Consult(now: nat, forced: bool, tooEarly: Option<nat>, ghost callers: seq<Caller>, ghost c: nat)
      returns (entry: Option<Cached>, refresh: nat, marked: Option<nat>)
      requires c < |callers| && callers[c].place.Consulting?
      requires callers[c].forced == forced && callers[c].tooEarly == tooEarly
      modifies this
      ensures var caller := callers[c];
              var moved := if entry.Some? then caller.(place := Answered(FromCache(entry.value), Ok(entry.value.chains)))
                           else caller.(tooEarly := marked, waits := caller.waits + 1, place := Waiting(refresh));
              View(now, callers[c := moved]) == Apply(old(View(now, callers)), Step.Consult(c))
    {
      entry, refresh, marked := None, 0, tooEarly;
      if cache.Some? && !forced && now - cache.value.at < CACHE_TTL {
        entry := cache;
        return;
      }
      if registered.None? {
        refresh := |refreshes|;
        registered := Some(refresh);
        refreshes := refreshes + [Refresh(now, now, InFlight, Err(StatusUnread))];
      } else {
        refresh := registered.value;
        if forced && tooEarly.None? {
          marked := Some(refresh);
        }
      }
    }

    /** A read ends: a success is cached, a failure is not, and either leaves the registry. */
    method Land(now: nat, refresh: nat, outcome: Outcome, ghost callers: seq<Caller>)
      requires refresh < |refreshes| && refreshes[refresh].phase.InFlight?
      modifies this
      ensures View(now, callers) == Apply(old(View(now, callers)), Step.Land(refresh, outcome))
    {
      if outcome.Ok? {
        cache := Some(Cached(now, outcome.value, refresh));
      }
      registered := None;
      refreshes := refreshes[refresh := refreshes[refresh].(landedAt := now, phase := Landed, outcome := outcome)];
    }
  }
}
