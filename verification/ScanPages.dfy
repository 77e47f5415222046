/** What the processes of a scan get done: a read that ends has read every page unless something excused it,
    and a background probe that ends has been answered unless something excused it. */
module ScanPages {
  import opened Wrappers
  import opened ScanProgress

  // ---------- Reads ----------

  /** The page replies a read still needs. */
  ghost function PagesOwed(p: Process): nat {
    if p.kind.Prefetch? || p.place.Finished? then 0 else
    if HasJob(p.place) && p.place.job.Page? then p.place.job.pages + 1 else p.pages + 1
  }

  ghost predicate AnswersAPage(s: State, step: Step, p: nat) {
    step == Answer(p, Success) && At(s, p) && s.processes[p].place.RoundTrip? && s.processes[p].place.job.Page?
  }

  /** What may end a read short of its pages: its context ended, it was proven empty, its status failed, or the
      indexer refused a page for good. */
  ghost predicate EndsRead(s: State, step: Step, p: nat) {
    || step == Cancel(p) || step == WakeMemo(p, true) || step == Close(p, true)
    || (step.WakeStatus? && step.p == p && step.verdict.Failed?)
    || (step == Answer(p, Failure) && At(s, p) && s.processes[p].place.RoundTrip? && s.processes[p].place.job.Page?)
  }

  lemma ReplyOwes(p: Process, reply: Reply)
    requires p.kind.Reader? && p.place.RoundTrip? && (reply.Failure? ==> p.place.job.Probe?)
    ensures PagesOwed(p)
         == PagesOwed(p.(place := Answered(p, p.place.job, reply))) + if reply.Success? && p.place.job.Page? then 1 else 0
  {
  }

  lemma OwnStepOwes(s: State, step: Step, p: nat)
    requires Enabled(s, step) && Mover(step) == Some(p) && s.processes[p].kind.Reader? && !EndsRead(s, step, p)
    requires ProcessPlaced(s, s.processes[p])
    ensures At(Apply(s, step), p)
    ensures PagesOwed(s.processes[p])
         == PagesOwed(Apply(s, step).processes[p]) + if AnswersAPage(s, step, p) then 1 else 0
  {
    match step
    case Answer(_, reply) => ReplyOwes(s.processes[p], reply);
    case _ =>
  }

  lemma StepOwes(s: State, step: Step, p: nat)
    requires Inv(s) && Enabled(s, step) && At(s, p) && s.processes[p].kind.Reader? && !EndsRead(s, step, p)
    ensures At(Apply(s, step), p) && Apply(s, step).processes[p].kind.Reader?
    ensures PagesOwed(s.processes[p])
         == PagesOwed(Apply(s, step).processes[p]) + if AnswersAPage(s, step, p) then 1 else 0
  {
    StepMovesOne(s, step);
    if Mover(step) == Some(p) {
      assert ProcessPlaced(s, s.processes[p]);
      OwnStepOwes(s, step, p);
    }
  }

  ghost predicate Undisturbed(s: State, steps: seq<Step>, p: nat)
    requires IsRun(s, steps)
    decreases |steps|
  {
    steps == [] || (!EndsRead(s, steps[0], p) && Undisturbed(Apply(s, steps[0]), steps[1..], p))
  }

  ghost function PagesAnswered(s: State, steps: seq<Step>, p: nat): nat
    requires IsRun(s, steps)
    decreases |steps|
  {
    if steps == [] then 0 else
    (if AnswersAPage(s, steps[0], p) then 1 else 0) + PagesAnswered(Apply(s, steps[0]), steps[1..], p)
  }

  lemma {:induction false} RunOwes(s: State, steps: seq<Step>, p: nat)
    requires Inv(s) && IsRun(s, steps) && At(s, p) && s.processes[p].kind.Reader? && Undisturbed(s, steps, p)
    ensures At(After(s, steps), p) && After(s, steps).processes[p].kind.Reader?
    ensures PagesOwed(s.processes[p]) == PagesOwed(After(s, steps).processes[p]) + PagesAnswered(s, steps, p)
    decreases |steps|
  {
    if steps != [] {
      StepOwes(s, steps[0], p);
      StepKeepsInv(s, steps[0]);
      RunOwes(Apply(s, steps[0]), steps[1..], p);
    }
  }

  /** In every interleaving a read that ends undisturbed has been answered exactly its pages, one reply each,
      whatever it waited on and however often a request was repeated. */
  lemma EveryPageIsRead(start: State, steps: seq<Step>, p: nat)
    requires Initial(start) && IsRun(start, steps) && At(start, p) && start.processes[p].kind.Reader?
    requires Undisturbed(start, steps, p)
    ensures At(After(start, steps), p)
    ensures PagesAnswered(start, steps, p) <= start.processes[p].pages + 1
    ensures After(start, steps).processes[p].place.Finished? <==> PagesAnswered(start, steps, p) == start.processes[p].pages + 1
  {
    InitialInv(start);
    RunOwes(start, steps, p);
  }

  /** A read with its status asks the memo exactly when it may be proven empty, and goes to its pages when not;
      at the memo it waits for an owner or owns the key, and an owner probes unless too few chains are left.
      Proven empty it is done, and goes to its pages otherwise. */
  lemma ReadsAskTheMemo(s: State, p: nat, provable: bool, few: bool)
    requires At(s, p) && s.processes[p].kind.Reader?
    ensures Enabled(s, CacheHit(p, provable, few)) ==>
              Apply(s, CacheHit(p, provable, few)).processes[p].place
              == if provable then ClaimMemo else WantLane(Page(ATTEMPTS, s.processes[p].pages))
    ensures Enabled(s, WakeStatus(p, Ready, provable, few)) ==>
              Apply(s, WakeStatus(p, Ready, provable, few)).processes[p].place
              == if provable then ClaimMemo else WantLane(Page(ATTEMPTS, s.processes[p].pages))
    ensures Enabled(s, Claim(p, few)) ==>
              var place, key := Apply(s, Claim(p, few)).processes[p].place, s.processes[p].key;
              && (place.AwaitMemo? <==> key in s.memo)
              && (key !in s.memo ==> Apply(s, Claim(p, few)).memo[key] == Entry(p, false)
                                     && (if few then place.CloseMemo? else place == WantLane(Probe(ATTEMPTS))))
    ensures forall proven :: Enabled(s, WakeMemo(p, proven)) ==>
              Apply(s, WakeMemo(p, proven)).processes[p].place
              == if proven then Finished else WantLane(Page(ATTEMPTS, s.processes[p].pages))
    ensures forall proven :: Enabled(s, Close(p, proven)) ==>
              Apply(s, Close(p, proven)).processes[p].place
              == if proven then Finished else WantLane(Page(ATTEMPTS, s.processes[p].pages))
  {
  }

  // ---------- Requests ----------

  /** How many requests a process may still send. */
  ghost function RequestsLeft(p: Process): nat {
    var pages := if p.kind.Prefetch? then 0 else ATTEMPTS * (p.pages + 1);
    match p.place
    case Finished => 0
    case CloseMemo => pages
    case AwaitMemo => pages
    case WantLane(job) => JobRequests(job, pages)
    case RoundTrip(job) => JobRequests(job, pages)
    case Backoff(job) => JobRequests(job, pages)
    case _ => ATTEMPTS + pages
  }

  ghost function JobRequests(job: Job, pages: nat): nat {
    job.attempts + if job.Page? then ATTEMPTS * job.pages else pages
  }

  /** Every job still has an attempt to make, and no read has more pages left than it has. */
  ghost predicate JobsKeep(s: State) {
    forall p :: 0 <= p < |s.processes| ==> JobKeeps(s.processes[p])
  }

  ghost predicate JobKeeps(p: Process) {
    HasJob(p.place) ==> && 1 <= p.place.job.attempts <= ATTEMPTS
                        && (p.place.job.Page? ==> p.kind.Reader? && p.place.job.pages <= p.pages)
  }

  lemma ReplySpends(p: Process, reply: Reply)
    requires p.place.RoundTrip? && JobKeeps(p) && (reply.Retry? ==> p.place.job.attempts > 1)
    ensures JobKeeps(p.(place := Answered(p, p.place.job, reply)))
    ensures RequestsLeft(p.(place := Answered(p, p.place.job, reply))) + 1 <= RequestsLeft(p)
  {
  }

  lemma StatusSpends(p: Process, provable: bool, few: bool)
    requires p.place.AskStatus? || p.place.AwaitStatus?
    ensures JobKeeps(p.(place := WithStatus(p, provable, few)))
    ensures RequestsLeft(p.(place := WithStatus(p, provable, few))) <= RequestsLeft(p)
  {
  }

  lemma GivingUpSpends(p: Process)
    requires p.kind.Reader? || !p.place.CloseMemo?
    ensures JobKeeps(p.(place := GivesUp(p))) && RequestsLeft(p.(place := GivesUp(p))) <= RequestsLeft(p)
  {
  }

  lemma StepSpends(s: State, step: Step, p: nat)
    requires Inv(s) && JobsKeep(s) && Enabled(s, step) && At(s, p)
    ensures At(Apply(s, step), p) && JobKeeps(Apply(s, step).processes[p])
    ensures RequestsLeft(Apply(s, step).processes[p]) + (if step.Answer? && step.p == p then 1 else 0)
            <= RequestsLeft(s.processes[p])
  {
    StepMovesOne(s, step);
    assert JobKeeps(s.processes[p]) && ProcessPlaced(s, s.processes[p]);
    if Mover(step) == Some(p) {
      OwnStepSpends(s, step, p);
    }
  }

  lemma OwnStepSpends(s: State, step: Step, p: nat)
    requires Enabled(s, step) && Mover(step) == Some(p) && JobKeeps(s.processes[p]) && ProcessPlaced(s, s.processes[p])
    ensures At(Apply(s, step), p) && JobKeeps(Apply(s, step).processes[p])
    ensures RequestsLeft(Apply(s, step).processes[p]) + (if step.Answer? then 1 else 0) <= RequestsLeft(s.processes[p])
  {
    match step
    case Answer(_, reply) => ReplySpends(s.processes[p], reply);
    case CacheHit(_, provable, few) => StatusSpends(s.processes[p], provable, few);
    case WakeStatus(_, verdict, provable, few) => WokenSpends(s, p, verdict, provable, few);
    case Cancel(_) => GivingUpSpends(s.processes[p]);
    case _ =>
  }

  lemma WokenSpends(s: State, p: nat, verdict: Verdict, provable: bool, few: bool)
    requires Enabled(s, WakeStatus(p, verdict, provable, few))
    ensures var next := Apply(s, WakeStatus(p, verdict, provable, few));
            At(next, p) && JobKeeps(next.processes[p]) && RequestsLeft(next.processes[p]) <= RequestsLeft(s.processes[p])
  {
    StatusSpends(s.processes[p], provable, few);
    GivingUpSpends(s.processes[p]);
  }

  ghost function Requests(steps: seq<Step>, p: nat): nat {
    if steps == [] then 0 else (if steps[0].Answer? && steps[0].p == p then 1 else 0) + Requests(steps[1..], p)
  }

  lemma {:induction false} RunSpends(s: State, steps: seq<Step>, p: nat)
    requires Inv(s) && JobsKeep(s) && IsRun(s, steps) && At(s, p)
    ensures Requests(steps, p) <= RequestsLeft(s.processes[p])
    decreases |steps|
  {
    if steps != [] {
      var next := Apply(s, steps[0]);
      StepSpends(s, steps[0], p);
      StepMovesOne(s, steps[0]);
      forall q | 0 <= q < |next.processes| ensures JobKeeps(next.processes[q]) {
        StepSpends(s, steps[0], q);
      }
      StepKeepsInv(s, steps[0]);
      RunSpends(next, steps[1..], p);
    }
  }

  /** No interleaving sends a request more often than its attempts: a read sends at most that many for its
      probe and for each of its pages, and a background probe at most that many in all. */
  lemma RequestsAreBounded(start: State, steps: seq<Step>, p: nat)
    requires Initial(start) && IsRun(start, steps) && At(start, p)
    ensures Requests(steps, p) <= ATTEMPTS * if start.processes[p].kind.Prefetch? then 1 else start.processes[p].pages + 2
  {
    InitialInv(start);
    RunSpends(start, steps, p);
  }

  /** A reply worth repeating costs one attempt, and can be repeated as long as another is left. */
  lemma RetryCostsOne(s: State, p: nat)
    requires Inv(s) && At(s, p) && s.processes[p].place.RoundTrip?
    ensures Enabled(s, Answer(p, Retry)) <==> s.processes[p].place.job.attempts > 1
    ensures Enabled(s, Answer(p, Retry)) ==>
              var job, place := s.processes[p].place.job, Apply(s, Answer(p, Retry)).processes[p].place;
              place.Backoff? && place.job == job.(attempts := job.attempts - 1)
  {
    var reply := AnswerOf(s, p);
  }

  // ---------- Waiting ----------

  /** Nobody is woken early: whoever waits on an open entry, a read in flight, a full lane or full prefetch
      slots stays where it is, whatever any other process does. */
  lemma NobodyWakesEarly(s: State, step: Step, p: nat)
    requires Enabled(s, step) && At(s, p) && step != Cancel(p)
    ensures var process := s.processes[p];
            || (process.place.AwaitMemo? && process.key in s.memo && !s.memo[process.key].closed)
            || (process.place.AwaitStatus? && process.place.refresh < |s.refreshDone| && !s.refreshDone[process.place.refresh])
            || (process.place.WantLane? && s.laneInUse == s.laneCapacity)
            || (process.place.AwaitSlot? && s.slotsInUse == s.slotCapacity) ==>
              Apply(s, step).processes[p] == process
  {
    StepMovesOne(s, step);
  }

  // ---------- Probes ----------

  /** A background probe with its status asks about its chains, unless too few are left to be worth it. */
  lemma ProbesAskUnlessFew(s: State, p: nat, provable: bool, few: bool)
    requires At(s, p) && s.processes[p].kind.Prefetch?
    ensures Enabled(s, CacheHit(p, provable, few)) ==>
              Apply(s, CacheHit(p, provable, few)).processes[p].place == if few then CloseMemo else WantLane(Probe(ATTEMPTS))
    ensures Enabled(s, WakeStatus(p, Ready, provable, few)) ==>
              Apply(s, WakeStatus(p, Ready, provable, few)).processes[p].place
              == if few then CloseMemo else WantLane(Probe(ATTEMPTS))
  {
  }

  /** The reply a background probe still needs. */
  ghost function ProbeOwed(p: Process): nat {
    if p.place.CloseMemo? || p.place.Finished? then 0 else 1
  }

  /** What may end a probe unanswered: its context ended, its status failed, it had too few chains to ask
      about, or the indexer refused it for good. */
  ghost predicate EndsProbe(step: Step, p: nat) {
    || step == Cancel(p) || step == Answer(p, Failure)
    || (step.CacheHit? && step.p == p && step.fewTargets)
    || (step.WakeStatus? && step.p == p && (step.verdict.Failed? || step.fewTargets))
  }

  lemma StepProbes(s: State, step: Step, p: nat)
    requires Inv(s) && Enabled(s, step) && At(s, p) && s.processes[p].kind.Prefetch? && !EndsProbe(step, p)
    ensures At(Apply(s, step), p) && Apply(s, step).processes[p].kind.Prefetch?
    ensures ProbeOwed(s.processes[p])
         == ProbeOwed(Apply(s, step).processes[p]) + if step == Answer(p, Success) then 1 else 0
  {
    StepMovesOne(s, step);
    assert ProcessPlaced(s, s.processes[p]);
  }

  lemma {:induction false} RunProbes(s: State, steps: seq<Step>, p: nat)
    requires Inv(s) && IsRun(s, steps) && At(s, p) && s.processes[p].kind.Prefetch?
    requires forall step :: step in steps ==> !EndsProbe(step, p)
    ensures At(After(s, steps), p)
    ensures ProbeOwed(s.processes[p]) == ProbeOwed(After(s, steps).processes[p]) + multiset(steps)[Answer(p, Success)]
    decreases |steps|
  {
    if steps != [] {
      StepProbes(s, steps[0], p);
      StepKeepsInv(s, steps[0]);
      RunProbes(Apply(s, steps[0]), steps[1..], p);
      assert steps == [steps[0]] + steps[1..];
    }
  }

  /** In every interleaving a background probe that nothing ended early closes its entry after exactly one
      answer. */
  lemma EveryProbeIsAnswered(start: State, steps: seq<Step>, p: nat)
    requires Initial(start) && IsRun(start, steps) && At(start, p) && start.processes[p].kind.Prefetch?
    requires forall step :: step in steps ==> !EndsProbe(step, p)
    ensures At(After(start, steps), p)
    ensures var place := After(start, steps).processes[p].place;
            multiset(steps)[Answer(p, Success)] == if place.CloseMemo? || place.Finished? then 1 else 0
  {
    InitialInv(start);
    RunProbes(start, steps, p);
  }
}
