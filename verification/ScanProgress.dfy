/** A scan's index work as one system: reads and prefetched probes that wait on status refreshes, on each
    other's memo entries, on prefetch slots and on the indexer lane. Every interleaving is considered,
    with any lane and slot capacity of at least one, any number of pages, and any reply or cancellation. */
module ScanProgress {
  import opened Wrappers

  // ---------- Processes ----------

  const ATTEMPTS: nat := 3

  /** A GraphQL request: a presence probe, or a page with so many pages to follow, and the attempts left. */
  datatype Job = Probe(attempts: nat) | Page(attempts: nat, pages: nat)

  /** Where a process stands. Only `RoundTrip` holds a lane slot. `left` bounds the further status reads a
      forced or stale status may still cost. */
  datatype Place =
    | AskStatus(left: nat)
    | AwaitStatus(refresh: nat, left: nat)
    | AwaitSlot
    | ClaimMemo
    | AwaitMemo
    | WantLane(job: Job)
    | RoundTrip(job: Job)
    | Backoff(job: Job)
    | CloseMemo
    | Finished

  /** An index read on one chain, or the background probe of one account. */
  datatype Kind = Reader | Prefetch

  datatype Process = Process(kind: Kind, key: nat, endpoint: nat, pages: nat, place: Place)

  datatype Entry = Entry(owner: nat, closed: bool)

  datatype State = State(
    processes: seq<Process>, refreshDone: seq<bool>, registered: map<nat, nat>, memo: map<nat, Entry>,
    laneInUse: nat, laneCapacity: nat, slotsInUse: nat, slotCapacity: nat)

  predicate HoldsLane(p: Process) {
    p.place.RoundTrip?
  }

  predicate HoldsSlot(p: Process) {
    p.kind.Prefetch? && (p.place.AskStatus? || p.place.AwaitStatus? || p.place.WantLane? || p.place.RoundTrip? || p.place.Backoff?)
  }

  /** The process computes its memo key's value. */
  predicate Owns(p: Process) {
    match p.kind
    case Prefetch => !p.place.Finished?
    case Reader =>
      p.place.CloseMemo? || ((p.place.WantLane? || p.place.RoundTrip? || p.place.Backoff?) && p.place.job.Probe?)
  }

  function FirstPage(p: Process): Place {
    WantLane(Page(ATTEMPTS, p.pages))
  }

  // ---------- Steps ----------

  /** What a woken caller makes of a finished refresh, and what a round trip brings. */
  datatype Verdict = Again | Ready | Failed

  datatype Reply = Success | Retry | Failure

  datatype Step =
    | CacheHit(p: nat, provable: bool, fewTargets: bool)
    | JoinRefresh(p: nat)
    | FinishRefresh(endpoint: nat)
    | WakeStatus(p: nat, verdict: Verdict, provable: bool, fewTargets: bool)
    | TakeSlot(p: nat)
    | Claim(p: nat, fewTargets: bool)
    | WakeMemo(p: nat, proven: bool)
    | TakeLane(p: nat)
    | Answer(p: nat, reply: Reply)
    | Resume(p: nat)
    | Close(p: nat, proven: bool)
    | Cancel(p: nat)

  predicate At(s: State, p: nat) {
    p < |s.processes|
  }

  predicate Enabled(s: State, step: Step) {
    match step
    case CacheHit(p, _, _) => At(s, p) && s.processes[p].place.AskStatus?
    case JoinRefresh(p) => At(s, p) && s.processes[p].place.AskStatus?
    case FinishRefresh(e) => e in s.registered && s.registered[e] < |s.refreshDone| && !s.refreshDone[s.registered[e]]
    case WakeStatus(p, verdict, _, _) =>
      At(s, p) && s.processes[p].place.AwaitStatus? && s.processes[p].place.refresh < |s.refreshDone|
      && s.refreshDone[s.processes[p].place.refresh] && (verdict.Again? ==> s.processes[p].place.left > 0)
    case TakeSlot(p) => At(s, p) && s.processes[p].place.AwaitSlot? && s.slotsInUse < s.slotCapacity
    case Claim(p, _) => At(s, p) && s.processes[p].place.ClaimMemo?
    case WakeMemo(p, _) => At(s, p) && s.processes[p].place.AwaitMemo?
                           && s.processes[p].key in s.memo && s.memo[s.processes[p].key].closed
    case TakeLane(p) => At(s, p) && s.processes[p].place.WantLane? && s.laneInUse < s.laneCapacity
    case Answer(p, reply) => At(s, p) && s.processes[p].place.RoundTrip? && s.laneInUse > 0
                             && (reply.Retry? ==> s.processes[p].place.job.attempts > 1)
                             && (HoldsSlot(s.processes[p]) ==> s.slotsInUse > 0)
    case Resume(p) => At(s, p) && s.processes[p].place.Backoff?
    case Close(p, _) => At(s, p) && s.processes[p].place.CloseMemo? && s.processes[p].key in s.memo
    case Cancel(p) => At(s, p) && (s.processes[p].place.AskStatus? || s.processes[p].place.AwaitStatus?
                                   || s.processes[p].place.AwaitSlot? || s.processes[p].place.AwaitMemo?
                                   || s.processes[p].place.WantLane? || s.processes[p].place.Backoff?)
                      && (HoldsSlot(s.processes[p]) ==> s.slotsInUse > 0)
  }

  /** Where a process goes once it has its status: to its memo entry, to its pages, or, for a background
      probe, to its request; a probe with too few chains to ask about asks nothing. */
  function WithStatus(p: Process, provable: bool, fewTargets: bool): Place {
    match p.kind
    case Reader => if provable then ClaimMemo else FirstPage(p)
    case Prefetch => if fewTargets then CloseMemo else WantLane(Probe(ATTEMPTS))
  }

  /** Where a process goes when what it waits for fails or its context ends: an owner still closes its entry. */
  function GivesUp(p: Process): Place {
    if Owns(p) then CloseMemo else Finished
  }

  function Answered(p: Process, job: Job, reply: Reply): Place {
    match reply
    case Retry => Backoff(job.(attempts := if job.attempts > 0 then job.attempts - 1 else 0))
    case Failure => GivesUp(p)
    case Success =>
      if job.Probe? then CloseMemo else
      if job.pages > 0 then WantLane(Page(ATTEMPTS, job.pages - 1)) else Finished
  }

  /** Moves one process and gives back the slot it no longer holds. */
  function Move(s: State, p: nat, place: Place): State
    requires At(s, p)
  {
    var moved := s.processes[p].(place := place);
    s.(processes := s.processes[p := moved],
       slotsInUse := if HoldsSlot(s.processes[p]) && !HoldsSlot(moved) && s.slotsInUse > 0 then s.slotsInUse - 1
                     else s.slotsInUse)
  }

  function Apply(s: State, step: Step): State
    requires Enabled(s, step)
  {
    match step
    case CacheHit(p, provable, few) => Move(s, p, WithStatus(s.processes[p], provable, few))
    case JoinRefresh(p) =>
      var e, left := s.processes[p].endpoint, s.processes[p].place.left;
      if e in s.registered then Move(s, p, AwaitStatus(s.registered[e], left)) else
      Move(s, p, AwaitStatus(|s.refreshDone|, left)).(
        refreshDone := s.refreshDone + [false], registered := s.registered[e := |s.refreshDone|])
    case FinishRefresh(e) =>
      s.(refreshDone := s.refreshDone[s.registered[e] := true], registered := s.registered - {e})
    case WakeStatus(p, verdict, provable, few) =>
      Move(s, p, match verdict
                 case Again => AskStatus(s.processes[p].place.left - 1)
                 case Ready => WithStatus(s.processes[p], provable, few)
                 case Failed => GivesUp(s.processes[p]))
    case TakeSlot(p) => Move(s, p, AskStatus(0)).(slotsInUse := s.slotsInUse + 1)
    case Claim(p, few) =>
      var key := s.processes[p].key;
      if key in s.memo then Move(s, p, AwaitMemo) else
      Move(s, p, if few then CloseMemo else WantLane(Probe(ATTEMPTS))).(memo := s.memo[key := Entry(p, false)])
    case WakeMemo(p, proven) => Move(s, p, if proven then Finished else FirstPage(s.processes[p]))
    case TakeLane(p) => Move(s, p, RoundTrip(s.processes[p].place.job)).(laneInUse := s.laneInUse + 1)
    case Answer(p, reply) =>
      Move(s, p, Answered(s.processes[p], s.processes[p].place.job, reply)).(laneInUse := s.laneInUse - 1)
    case Resume(p) => Move(s, p, WantLane(s.processes[p].place.job))
    case Close(p, proven) =>
      var key := s.processes[p].key;
      Move(s, p, if proven || s.processes[p].kind.Prefetch? then Finished else FirstPage(s.processes[p])).(
        memo := s.memo[key := s.memo[key].(closed := true)])
    case Cancel(p) => Move(s, p, GivesUp(s.processes[p]))
  }

  ghost predicate IsRun(s: State, steps: seq<Step>)
    decreases |steps|
  {
    steps == [] || (Enabled(s, steps[0]) && IsRun(Apply(s, steps[0]), steps[1..]))
  }

  ghost function After(s: State, steps: seq<Step>): State
    requires IsRun(s, steps)
    decreases |steps|
  {
    if steps == [] then s else After(Apply(s, steps[0]), steps[1..])
  }

  // ---------- The invariant ----------

  ghost function LaneHolders(processes: seq<Process>): set<nat> {
    set i | 0 <= i < |processes| && HoldsLane(processes[i])
  }

  ghost function SlotHolders(processes: seq<Process>): set<nat> {
    set i | 0 <= i < |processes| && HoldsSlot(processes[i])
  }

  ghost predicate Counted(s: State) {
    && s.laneCapacity >= 1 && s.slotCapacity >= 1
    && s.laneInUse == |LaneHolders(s.processes)| <= s.laneCapacity
    && s.slotsInUse == |SlotHolders(s.processes)| <= s.slotCapacity
  }

  ghost predicate Owned(s: State) {
    && (forall key :: key in s.memo && !s.memo[key].closed ==>
          At(s, s.memo[key].owner) && s.processes[s.memo[key].owner].key == key && Owns(s.processes[s.memo[key].owner]))
    && forall p :: 0 <= p < |s.processes| && Owns(s.processes[p]) ==>
         s.processes[p].key in s.memo && s.memo[s.processes[p].key] == Entry(p, false)
  }

  ghost predicate HasJob(place: Place) {
    place.WantLane? || place.RoundTrip? || place.Backoff?
  }

  /** A process stands where its kind can: only a read claims or awaits a memo entry, only a background
      probe takes a prefetch slot and it sends nothing but its probe, and a refresh still awaited runs. */
  ghost predicate ProcessPlaced(s: State, process: Process) {
    && (process.place.AwaitMemo? ==> process.kind.Reader? && process.key in s.memo)
    && (process.place.ClaimMemo? ==> process.kind.Reader?)
    && (process.place.AwaitSlot? ==> process.kind.Prefetch?)
    && (HasJob(process.place) && process.kind.Prefetch? ==> process.place.job.Probe?)
    && (process.place.AwaitStatus? ==>
          var r := process.place.refresh;
          && r < |s.refreshDone|
          && (!s.refreshDone[r] ==> process.endpoint in s.registered && s.registered[process.endpoint] == r))
  }

  ghost predicate Placed(s: State) {
    forall p :: 0 <= p < |s.processes| ==> ProcessPlaced(s, s.processes[p])
  }

  ghost predicate Inv(s: State) {
    Counted(s) && Owned(s) && Placed(s) && Unshared(s)
  }

  /** A registered read is running, and each endpoint has its own. */
  ghost predicate Unshared(s: State) {
    && (forall e :: e in s.registered ==> s.registered[e] < |s.refreshDone| && !s.refreshDone[s.registered[e]])
    && forall e, f :: e in s.registered && f in s.registered && s.registered[e] == s.registered[f] ==> e == f
  }

  /** How a scan starts: probes prefetched under distinct keys, reads about to ask for their status. */
  ghost predicate Initial(s: State) {
    && s.laneCapacity >= 1 && s.slotCapacity >= 1 && s.laneInUse == 0 && s.slotsInUse == 0
    && s.refreshDone == [] && s.registered == map[]
    && (forall p :: 0 <= p < |s.processes| ==>
          if s.processes[p].kind.Prefetch? then s.processes[p].place.AwaitSlot? else s.processes[p].place.AskStatus?)
    && (forall p :: 0 <= p < |s.processes| && s.processes[p].kind.Prefetch? ==>
          s.processes[p].key in s.memo && s.memo[s.processes[p].key] == Entry(p, false))
    && forall key :: key in s.memo ==>
         At(s, s.memo[key].owner) && s.processes[s.memo[key].owner].kind.Prefetch? && s.processes[s.memo[key].owner].key == key
  }

  lemma InitialInv(s: State)
    requires Initial(s)
    ensures Inv(s)
  {
  }

  /** Moving one process changes each holder set by that process alone. */
  lemma HoldersAfter(processes: seq<Process>, p: nat, moved: Process)
    requires p < |processes|
    ensures var lanes, slots := LaneHolders(processes), SlotHolders(processes);
            && |LaneHolders(processes[p := moved])|
               == |lanes| + (if HoldsLane(moved) then 1 else 0) - (if HoldsLane(processes[p]) then 1 else 0)
            && |SlotHolders(processes[p := moved])|
               == |slots| + (if HoldsSlot(moved) then 1 else 0) - (if HoldsSlot(processes[p]) then 1 else 0)
  {
    var after := processes[p := moved];
    assert LaneHolders(after) - {p} == LaneHolders(processes) - {p};
    assert SlotHolders(after) - {p} == SlotHolders(processes) - {p};
    assert |LaneHolders(after)| == |LaneHolders(after) - {p}| + if HoldsLane(moved) then 1 else 0;
    assert |LaneHolders(processes)| == |LaneHolders(processes) - {p}| + if HoldsLane(processes[p]) then 1 else 0;
    assert |SlotHolders(after)| == |SlotHolders(after) - {p}| + if HoldsSlot(moved) then 1 else 0;
    assert |SlotHolders(processes)| == |SlotHolders(processes) - {p}| + if HoldsSlot(processes[p]) then 1 else 0;
  }

  /** The process a step moves, if any. */
  function Mover(step: Step): Option<nat> {
    match step
    case FinishRefresh(_) => None
    case _ => Some(step.p)
  }

  lemma StepMovesOne(s: State, step: Step)
    requires Enabled(s, step)
    ensures var next := Apply(s, step);
            && |next.processes| == |s.processes| && next.laneCapacity == s.laneCapacity && next.slotCapacity == s.slotCapacity
            && (Mover(step).None? ==> next.processes == s.processes)
            && (Mover(step).Some? ==>
                  && At(s, Mover(step).value)
                  && next.processes == s.processes[Mover(step).value := next.processes[Mover(step).value]]
                  && next.processes[Mover(step).value]
                     == s.processes[Mover(step).value].(place := next.processes[Mover(step).value].place))
  {
  }

  lemma StepKeepsLane(s: State, step: Step)
    requires Inv(s) && Enabled(s, step)
    ensures var next := Apply(s, step);
            next.laneInUse == |LaneHolders(next.processes)| <= next.laneCapacity
  {
    StepMovesOne(s, step);
    if Mover(step).Some? {
      HoldersAfter(s.processes, Mover(step).value, Apply(s, step).processes[Mover(step).value]);
    }
  }

  lemma StepKeepsSlots(s: State, step: Step)
    requires Inv(s) && Enabled(s, step)
    ensures var next := Apply(s, step);
            next.slotsInUse == |SlotHolders(next.processes)| <= next.slotCapacity
  {
    StepMovesOne(s, step);
    if Mover(step).Some? {
      var p := Mover(step).value;
      assert ProcessPlaced(s, s.processes[p]);
      assert HoldsSlot(s.processes[p]) ==> p in SlotHolders(s.processes);
      HoldersAfter(s.processes, p, Apply(s, step).processes[p]);
    }
  }

  lemma StepKeepsUnshared(s: State, step: Step)
    requires Inv(s) && Enabled(s, step)
    ensures Unshared(Apply(s, step))
  {
  }

  lemma OthersStayPlaced(s: State, step: Step, process: Process)
    requires Inv(s) && Enabled(s, step) && ProcessPlaced(s, process)
    ensures ProcessPlaced(Apply(s, step), process)
  {
  }

  /** Going on with a status or a reply, or giving up, leads where the process may stand. */
  lemma OutcomesArePlaced(s: State, p: Process, provable: bool, few: bool, reply: Reply)
    requires ProcessPlaced(s, p)
    ensures ProcessPlaced(s, p.(place := WithStatus(p, provable, few)))
    ensures p.place.RoundTrip? ==> ProcessPlaced(s, p.(place := Answered(p, p.place.job, reply)))
    ensures ProcessPlaced(s, p.(place := GivesUp(p)))
  {
  }

  lemma MoverIsPlaced(s: State, step: Step)
    requires Inv(s) && Enabled(s, step) && Mover(step).Some?
    ensures At(Apply(s, step), Mover(step).value)
    ensures ProcessPlaced(Apply(s, step), Apply(s, step).processes[Mover(step).value])
  {
    var p := s.processes[Mover(step).value];
    assert ProcessPlaced(s, p);
    match step
    case CacheHit(_, provable, few) => OutcomesArePlaced(s, p, provable, few, Failure);
    case WakeStatus(_, _, provable, few) => OutcomesArePlaced(s, p, provable, few, Failure);
    case Answer(_, reply) => OutcomesArePlaced(s, p, false, false, reply);
    case Cancel(_) => OutcomesArePlaced(s, p, false, false, Failure);
    case _ =>
  }

  lemma StepKeepsPlaced(s: State, step: Step)
    requires Inv(s) && Enabled(s, step)
    ensures Placed(Apply(s, step))
  {
    StepMovesOne(s, step);
    var next := Apply(s, step);
    forall p | 0 <= p < |next.processes| ensures ProcessPlaced(next, next.processes[p]) {
      if Mover(step) == Some(p) {
        MoverIsPlaced(s, step);
      } else {
        OthersStayPlaced(s, step, s.processes[p]);
      }
    }
  }

  /** Only a claim of a free key and a close change what a process owns. */
  lemma OwnershipAfter(s: State, step: Step)
    requires Inv(s) && Enabled(s, step) && Mover(step).Some?
    ensures At(s, Mover(step).value) && At(Apply(s, step), Mover(step).value)
    ensures var p, next := Mover(step).value, Apply(s, step);
            var claims := step.Claim? && s.processes[p].key !in s.memo;
            && (claims ==> !Owns(s.processes[p]) && Owns(next.processes[p])
                           && next.memo == s.memo[s.processes[p].key := Entry(p, false)])
            && (step.Close? ==> Owns(s.processes[p]) && !Owns(next.processes[p])
                                && next.memo == s.memo[s.processes[p].key := s.memo[s.processes[p].key].(closed := true)])
            && (!claims && !step.Close? ==> Owns(next.processes[p]) == Owns(s.processes[p]) && next.memo == s.memo)
  {
    assert ProcessPlaced(s, s.processes[Mover(step).value]);
  }

  lemma StepKeepsOwned(s: State, step: Step)
    requires Inv(s) && Enabled(s, step)
    ensures Owned(Apply(s, step))
  {
    StepMovesOne(s, step);
    if Mover(step).Some? {
      OwnershipAfter(s, step);
      OwnedAfter(s, Apply(s, step), Mover(step).value);
    }
  }

  /** Ownership survives a move that keeps what the process owns, claims a free key, or closes its own. */
  lemma OwnedAfter(s: State, next: State, p: nat)
    requires Owned(s) && At(s, p) && At(next, p)
    requires next.processes == s.processes[p := next.processes[p]] && next.processes[p].key == s.processes[p].key
    requires var key, was, now := s.processes[p].key, Owns(s.processes[p]), Owns(next.processes[p]);
             || (was == now && next.memo == s.memo)
             || (!was && now && key !in s.memo && next.memo == s.memo[key := Entry(p, false)])
             || (was && !now && key in s.memo && next.memo == s.memo[key := s.memo[key].(closed := true)])
    ensures Owned(next)
  {
  }

  lemma StepKeepsInv(s: State, step: Step)
    requires Inv(s) && Enabled(s, step)
    ensures Inv(Apply(s, step))
  {
    StepMovesOne(s, step);
    StepKeepsLane(s, step);
    StepKeepsSlots(s, step);
    StepKeepsUnshared(s, step);
    StepKeepsPlaced(s, step);
    StepKeepsOwned(s, step);
  }

  lemma {:induction false} RunKeepsInv(s: State, steps: seq<Step>)
    requires Inv(s) && IsRun(s, steps)
    ensures Inv(After(s, steps))
    decreases |steps|
  {
    if steps != [] {
      StepKeepsInv(s, steps[0]);
      RunKeepsInv(Apply(s, steps[0]), steps[1..]);
    }
  }

  // ---------- Some process can always step ----------

  /** The wait order: a memo entry, then a prefetch slot, then a status or the lane, then nothing. */
  function Rank(place: Place): nat {
    match place
    case AwaitMemo => 2
    case AwaitSlot => 1
    case _ => 0
  }

  /** Whoever waits, following whom it waits for ends at a step that is enabled and is no cancellation. */
  lemma {:induction false} NextStep(s: State, p: nat) returns (step: Step)
    requires Inv(s) && At(s, p) && !s.processes[p].place.Finished?
    ensures Enabled(s, step) && !step.Cancel?
    decreases Rank(s.processes[p].place)
  {
    var process := s.processes[p];
    assert ProcessPlaced(s, process);
    match process.place
    case AskStatus(_) => step := JoinRefresh(p);
    case AwaitStatus(r, _) =>
      step := if s.refreshDone[r] then WakeStatus(p, Failed, false, false) else FinishRefresh(process.endpoint);
    case AwaitSlot =>
      if s.slotsInUse < s.slotCapacity {
        step := TakeSlot(p);
      } else {
        var holder :| holder in SlotHolders(s.processes);
        step := NextStep(s, holder);
      }
    case ClaimMemo => step := Claim(p, false);
    case AwaitMemo =>
      if s.memo[process.key].closed {
        step := WakeMemo(p, false);
      } else {
        step := NextStep(s, s.memo[process.key].owner);
      }
    case WantLane(_) =>
      if s.laneInUse < s.laneCapacity {
        step := TakeLane(p);
      } else {
        var holder :| holder in LaneHolders(s.processes);
        step := AnswerOf(s, holder);
      }
    case RoundTrip(_) => step := AnswerOf(s, p);
    case Backoff(_) => step := Resume(p);
    case CloseMemo => step := Close(p, false);
    case Finished =>
  }

  /** A process inside a round trip waits for nothing: its reply can always come. */
  lemma AnswerOf(s: State, p: nat) returns (step: Step)
    requires Inv(s) && At(s, p) && HoldsLane(s.processes[p])
    ensures step == Answer(p, Failure) && Enabled(s, step)
  {
    step := Answer(p, Failure);
    assert p in LaneHolders(s.processes);
    if HoldsSlot(s.processes[p]) {
      assert p in SlotHolders(s.processes);
    }
  }

  // ---------- Every run ends ----------

  /** The steps a read's pages may still take, at three attempts of at most four steps each. */
  function PagesWeight(p: Process): nat {
    14 + 18 * p.pages
  }

  function CloseWeight(p: Process): nat {
    match p.kind
    case Reader => PagesWeight(p) + 1
    case Prefetch => 1
  }

  function JobWeight(p: Process, job: Job): nat {
    4 * job.attempts + (if job.Probe? then CloseWeight(p) else 18 * job.pages)
  }

  function ReadyWeight(p: Process): nat {
    16 + CloseWeight(p) + PagesWeight(p)
  }

  function Weight(p: Process): nat {
    match p.place
    case AskStatus(left) => ReadyWeight(p) + 4 * left + 3
    case AwaitStatus(_, left) => ReadyWeight(p) + 4 * left + 1
    case AwaitSlot => ReadyWeight(p) + 4
    case ClaimMemo => ReadyWeight(p)
    case AwaitMemo => PagesWeight(p) + 1
    case WantLane(job) => JobWeight(p, job) + 2
    case RoundTrip(job) => JobWeight(p, job) + 1
    case Backoff(job) => JobWeight(p, job) + 3
    case CloseMemo => CloseWeight(p)
    case Finished => 0
  }

  function TotalWeight(processes: seq<Process>): nat {
    if processes == [] then 0 else Weight(processes[0]) + TotalWeight(processes[1..])
  }

  function Running(done: seq<bool>): nat {
    if done == [] then 0 else (if done[0] then 0 else 1) + Running(done[1..])
  }

  function Measure(s: State): nat {
    TotalWeight(s.processes) + Running(s.refreshDone)
  }

  lemma {:induction false} TotalAfter(processes: seq<Process>, p: nat, moved: Process)
    requires p < |processes|
    ensures TotalWeight(processes[p := moved]) + Weight(processes[p]) == TotalWeight(processes) + Weight(moved)
  {
    if p > 0 {
      TotalAfter(processes[1..], p - 1, moved);
      assert processes[p := moved][1..] == processes[1..][p - 1 := moved];
    } else {
      assert processes[p := moved][1..] == processes[1..];
    }
  }

  lemma {:induction false} RunningAfter(done: seq<bool>, r: nat)
    requires r < |done| && !done[r]
    ensures Running(done[r := true]) + 1 == Running(done)
  {
    if r > 0 {
      RunningAfter(done[1..], r - 1);
      assert done[r := true][1..] == done[1..][r - 1 := true];
    } else {
      assert done[r := true][1..] == done[1..];
    }
  }

  lemma {:induction false} RunningMore(done: seq<bool>)
    ensures Running(done + [false]) == Running(done) + 1
  {
    if done != [] {
      RunningMore(done[1..]);
      assert (done + [false])[1..] == done[1..] + [false];
    }
  }

  /** Going on with a status, a reply, or giving up always leaves less to do. */
  lemma OutcomesLighten(p: Process, provable: bool, few: bool, reply: Reply)
    requires HasJob(p.place) && p.kind.Prefetch? ==> p.place.job.Probe?
    ensures Weight(p.(place := WithStatus(p, provable, few))) <= ReadyWeight(p)
    ensures p.place.RoundTrip? && (reply.Retry? ==> p.place.job.attempts > 1) ==>
              Weight(p.(place := Answered(p, p.place.job, reply))) < Weight(p)
    ensures (p.place.AskStatus? || p.place.AwaitStatus? || p.place.AwaitSlot? || p.place.AwaitMemo?
             || p.place.WantLane? || p.place.Backoff?) ==> Weight(p.(place := GivesUp(p))) < Weight(p)
  {
  }

  /** The step's process gets strictly lighter, by two when it starts a refresh. */
  lemma MoverLightens(s: State, step: Step)
    requires Inv(s) && Enabled(s, step) && Mover(step).Some?
    ensures At(s, Mover(step).value) && |Apply(s, step).processes| == |s.processes|
    ensures Weight(Apply(s, step).processes[Mover(step).value]) + (if step.JoinRefresh? then 2 else 1)
            <= Weight(s.processes[Mover(step).value])
  {
    var p := s.processes[Mover(step).value];
    assert ProcessPlaced(s, p);
    match step
    case CacheHit(_, provable, few) => OutcomesLighten(p, provable, few, Failure);
    case WakeStatus(_, _, provable, few) => OutcomesLighten(p, provable, few, Failure);
    case Answer(_, reply) => OutcomesLighten(p, false, false, reply);
    case Cancel(_) => OutcomesLighten(p, false, false, Failure);
    case _ =>
  }

  lemma StepLightens(s: State, step: Step)
    requires Inv(s) && Enabled(s, step)
    ensures Measure(Apply(s, step)) < Measure(s)
  {
    StepMovesOne(s, step);
    if Mover(step).Some? {
      var p := Mover(step).value;
      MoverLightens(s, step);
      TotalAfter(s.processes, p, Apply(s, step).processes[p]);
      RunningMore(s.refreshDone);
    } else {
      RunningAfter(s.refreshDone, s.registered[step.endpoint]);
    }
  }

  /** No run is longer than the measure of its first state: every interleaving ends. */
  lemma {:induction false} RunsEnd(s: State, steps: seq<Step>)
    requires Inv(s) && IsRun(s, steps)
    ensures |steps| + Measure(After(s, steps)) <= Measure(s)
    decreases |steps|
  {
    if steps != [] {
      StepLightens(s, steps[0]);
      StepKeepsInv(s, steps[0]);
      RunsEnd(Apply(s, steps[0]), steps[1..]);
    }
  }

  ghost predicate AllFinished(s: State) {
    forall p :: 0 <= p < |s.processes| ==> s.processes[p].place.Finished?
  }

  /** No interleaving of a scan deadlocks, whatever the capacities: after any run either every process has
      finished, with every lane and prefetch slot given back and every claimed entry closed, or some
      process can step without being cancelled; and no run outlasts the measure of its start. */
  lemma ScansNeverDeadlock(start: State, steps: seq<Step>) returns (step: Step)
    requires Initial(start) && IsRun(start, steps)
    ensures |steps| <= Measure(start)
    ensures var s := After(start, steps);
            if AllFinished(s)
            then s.laneInUse == 0 && s.slotsInUse == 0 && forall key :: key in s.memo ==> s.memo[key].closed
            else Enabled(s, step) && !step.Cancel?
  {
    InitialInv(start);
    RunKeepsInv(start, steps);
    RunsEnd(start, steps);
    var s := After(start, steps);
    if AllFinished(s) {
      assert LaneHolders(s.processes) == {} && SlotHolders(s.processes) == {};
      step := Cancel(0);
    } else {
      var p :| 0 <= p < |s.processes| && !s.processes[p].place.Finished?;
      step := NextStep(s, p);
    }
  }

  // ---------- The lane, in place ----------

  const DEFAULT_CONCURRENCY: nat := 4

  /** Admission control in front of the indexer: a counting semaphore. */
  class IndexerLane {
    const capacity: nat
    var inUse: nat

    ghost predicate Valid()
      reads this
    {
      inUse <= capacity && capacity >= 1
    }

    constructor (concurrency: int)
      ensures Valid() && inUse == 0
      ensures capacity == if concurrency <= 0 then DEFAULT_CONCURRENCY else concurrency
    {
      capacity := if concurrency <= 0 then DEFAULT_CONCURRENCY else concurrency;
      inUse := 0;
    }

    /** The lane's part of a scan's state. */
    ghost predicate IsLaneOf(s: State)
      reads this
    {
      s.laneInUse == inUse && s.laneCapacity == capacity
    }

    /** Takes a free slot, or reports that the caller must wait: the step of a process that wants one. */
    method TryAcquire(ghost s: State, ghost p: nat) returns (acquired: bool)
      requires Valid() && IsLaneOf(s) && At(s, p) && s.processes[p].place.WantLane?
      modifies this
      ensures Valid() && (acquired <==> Enabled(s, TakeLane(p)))
      ensures IsLaneOf(if acquired then Apply(s, TakeLane(p)) else s)
      ensures inUse == old(inUse) + if acquired then 1 else 0
    {
      acquired := inUse < capacity;
      if acquired {
        inUse := inUse + 1;
      }
    }
  }

  /** A held slot. Giving it back twice gives it back once. */
  class LaneHold {
    const lane: IndexerLane
    var released: bool

    constructor (lane: IndexerLane)
      ensures this.lane == lane && !released
    {
      this.lane := lane;
      released := false;
    }

    /** The first release is the lane's part of the step that ends a round trip, whatever the reply. */
    method Release(ghost s: State, ghost p: nat, ghost reply: Reply)
      requires lane.Valid() && lane.IsLaneOf(s) && (!released ==> Enabled(s, Answer(p, reply)))
      modifies this, lane
      ensures lane.Valid() && released
      ensures lane.IsLaneOf(if old(released) then s else Apply(s, Answer(p, reply)))
      ensures lane.inUse == old(lane.inUse) - if old(released) then 0 else 1
    {
      if !released {
        lane.inUse := lane.inUse - 1;
        released := true;
      }
    }
  }
}
