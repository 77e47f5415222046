/** How a scan dispatches its deployments: workers take them one by one, the wallet's run beside them once
    discovery has answered, collection may stop at any moment, and each protocol's prefetched probes are
    cancelled when no deployment is left to use them. */
module Dispatch {
  import opened Wrappers
  import opened ProbeLifetimes

  const WALLET := "wallet"

  datatype Deployment = Deployment(protocol: string, active: bool)

  // ---------- The dispatch ----------

  /** Read, skipped as inactive at its pin, never dispatched, or left unread with the wallet. */
  datatype Status = Pending | Running | Read | Skipped | Undispatched | Unread

  datatype WalletPhase = Discovering | Launched | LeftUnread

  /** The deployments in dispatch order, then the wallet's; `first` of the wallet's is `walletFrom`. */
  datatype Plan = Plan(jobs: seq<Deployment>, walletFrom: nat, tracked: set<string>, workers: nat)

  /** `settled` runs ahead of `dispatched` once sending is over, through the deployments never sent.
      `reached` counts how often each deployment was handed to a reader, and `doneLog` names the protocol
      of every call that reported a deployment done. */
  datatype State = State(
    status: seq<Status>, reached: seq<nat>, dispatched: nat, settled: nat, sending: bool, stopped: bool,
    wallet: WalletPhase, lifetimes: Lifetimes, doneLog: seq<string>)

  datatype Step = Stop | Send | EndSending | Settle | WalletAnswered | Finish(job: nat)

  ghost predicate WellFormed(plan: Plan) {
    && plan.walletFrom <= |plan.jobs| && plan.workers >= 1
    && forall i :: 0 <= i < |plan.jobs| ==> (plan.jobs[i].protocol == WALLET <==> plan.walletFrom <= i)
  }

  ghost predicate IsSettled(status: Status) {
    status.Read? || status.Skipped? || status.Undispatched?
  }

  /** Deployments of `p` from `from` on that no reader has finished and no one has written off. */
  ghost function Open(jobs: seq<Deployment>, status: seq<Status>, p: string): nat
    requires |jobs| == |status|
  {
    if jobs == [] then 0 else
    (if jobs[0].protocol == p && !IsSettled(status[0]) then 1 else 0) + Open(jobs[1..], status[1..], p)
  }

  function Count(jobs: seq<Deployment>, p: string): nat {
    if jobs == [] then 0 else (if jobs[0].protocol == p then 1 else 0) + Count(jobs[1..], p)
  }

  function Counts(jobs: seq<Deployment>): map<string, nat> {
    map job | job in jobs :: job.protocol := Count(jobs, job.protocol)
  }

  function Repeat<T>(n: nat, x: T): (r: seq<T>)
    ensures |r| == n && forall i :: 0 <= i < n ==> r[i] == x
  {
    seq(n, i => x)
  }

  function Initial(plan: Plan): State {
    State(Repeat(|plan.jobs|, Pending), Repeat(|plan.jobs|, 0), 0, 0, true, false, Discovering,
          NewLifetimes(plan.tracked, Counts(plan.jobs)), [])
  }

  ghost function Busy(plan: Plan, s: State): set<nat> {
    set i | 0 <= i < |s.status| && i < plan.walletFrom && s.status[i].Running?
  }

  ghost predicate Enabled(plan: Plan, s: State, step: Step) {
    && |s.status| == |s.reached| == |plan.jobs| && plan.walletFrom <= |plan.jobs|
    && match step
       case Stop => true
       case Send => s.sending && s.dispatched < plan.walletFrom && |Busy(plan, s)| < plan.workers
       case EndSending => s.sending && (s.dispatched == plan.walletFrom || s.stopped)
       case Settle => !s.sending && s.settled < plan.walletFrom
       case WalletAnswered => s.wallet.Discovering?
       case Finish(i) => i < |s.status| && s.status[i].Running?
  }

  function Reported(plan: Plan, s: State, i: nat, status: Status): State
    requires i < |plan.jobs| == |s.status|
  {
    s.(status := s.status[i := status],
       lifetimes := Done(s.lifetimes, plan.jobs[i].protocol),
       doneLog := s.doneLog + [plan.jobs[i].protocol])
  }

  /** Discovery's answer launches every wallet deployment at once, or, once collection has stopped, leaves
      them all unread without reporting any of them done. */
  function WithWallet(plan: Plan, s: State): State
    requires |s.status| == |s.reached| == |plan.jobs| && plan.walletFrom <= |plan.jobs|
  {
    var n := |plan.jobs| - plan.walletFrom;
    if s.stopped
    then s.(wallet := LeftUnread, status := s.status[..plan.walletFrom] + Repeat(n, Unread))
    else s.(wallet := Launched,
            status := s.status[..plan.walletFrom] + Repeat(n, Running),
            reached := s.reached[..plan.walletFrom]
                       + seq(n, i requires 0 <= i < n => s.reached[plan.walletFrom + i] + 1))
  }

  ghost function Apply(plan: Plan, s: State, step: Step): State
    requires Enabled(plan, s, step)
  {
    match step
    case Stop => s.(stopped := true)
    case Send =>
      var i := s.dispatched;
      s.(status := s.status[i := Running], reached := s.reached[i := s.reached[i] + 1],
         dispatched := i + 1, settled := i + 1)
    case EndSending => s.(sending := false)
    case Settle => Reported(plan, s, s.settled, Undispatched).(settled := s.settled + 1)
    case WalletAnswered => WithWallet(plan, s)
    case Finish(i) => Reported(plan, s, i, if plan.jobs[i].active then Read else Skipped)
  }

  ghost predicate IsRun(plan: Plan, s: State, steps: seq<Step>)
    decreases |steps|
  {
    steps == [] || (Enabled(plan, s, steps[0]) && IsRun(plan, Apply(plan, s, steps[0]), steps[1..]))
  }

  ghost function After(plan: Plan, s: State, steps: seq<Step>): State
    requires IsRun(plan, s, steps)
    decreases |steps|
  {
    if steps == [] then s else After(plan, Apply(plan, s, steps[0]), steps[1..])
  }

  /** Collection is over: nothing is sent, running, or unsettled, and discovery has answered. */
  ghost predicate Ended(plan: Plan, s: State) {
    && !s.sending && s.settled >= plan.walletFrom && !s.wallet.Discovering?
    && forall i :: 0 <= i < |s.status| ==> !s.status[i].Running?
  }

  // ---------- The invariant ----------

  ghost predicate WasReached(status: Status) {
    status.Running? || status.Read? || status.Skipped?
  }

  ghost predicate JobKeeps(plan: Plan, s: State, i: nat)
    requires i < |plan.jobs| == |s.status| == |s.reached|
  {
    var status := s.status[i];
    && s.reached[i] == (if WasReached(status) then 1 else 0)
    && (status.Read? ==> plan.jobs[i].active) && (status.Skipped? ==> !plan.jobs[i].active)
    && if i < plan.walletFrom
       then (if i < s.dispatched then WasReached(status)
             else if i < s.settled then status.Undispatched? else status.Pending?)
       else match s.wallet
            case Discovering => status.Pending?
            case Launched => WasReached(status)
            case LeftUnread => status.Unread?
  }

  /** Each tracked protocol counts its open deployments, and its probes have been cancelled once, and
      only once, if it has none. */
  ghost predicate LifetimesKeep(plan: Plan, s: State)
    requires |s.status| == |plan.jobs|
  {
    && s.lifetimes.cancelled.Keys == plan.tracked
    && forall p :: p in plan.tracked ==>
         var open := Open(plan.jobs, s.status, p);
         && (p in s.lifetimes.remaining <==> open > 0)
         && (open > 0 ==> s.lifetimes.remaining[p] == open)
         && s.lifetimes.cancelled[p] == (if open == 0 then 1 else 0)
  }

  ghost predicate LogKeeps(plan: Plan, s: State)
    requires |s.status| == |plan.jobs|
  {
    forall p :: multiset(s.doneLog)[p] + Open(plan.jobs, s.status, p) == Count(plan.jobs, p)
  }

  ghost predicate Inv(plan: Plan, s: State) {
    && |s.status| == |s.reached| == |plan.jobs|
    && s.dispatched <= s.settled <= plan.walletFrom && (s.sending ==> s.settled == s.dispatched)
    && (forall i :: 0 <= i < |plan.jobs| ==> JobKeeps(plan, s, i))
    && s.lifetimes.remaining.Keys <= plan.tracked
    && LifetimesKeep(plan, s) && LogKeeps(plan, s)
  }

  lemma {:induction false} AllOpen(jobs: seq<Deployment>, status: seq<Status>, p: string)
    requires |jobs| == |status| && forall i :: 0 <= i < |status| ==> status[i].Pending?
    ensures Open(jobs, status, p) == Count(jobs, p)
  {
    if jobs != [] {
      AllOpen(jobs[1..], status[1..], p);
    }
  }

  lemma {:induction false} CountPositive(jobs: seq<Deployment>, p: string)
    ensures Count(jobs, p) > 0 <==> exists job :: job in jobs && job.protocol == p
  {
    if jobs != [] {
      CountPositive(jobs[1..], p);
      assert jobs == [jobs[0]] + jobs[1..];
      assert jobs[0] in jobs;
    }
  }

  lemma InitialInv(plan: Plan)
    requires WellFormed(plan)
    ensures Inv(plan, Initial(plan))
  {
    var s := Initial(plan);
    forall p ensures Open(plan.jobs, s.status, p) == Count(plan.jobs, p) {
      AllOpen(plan.jobs, s.status, p);
    }
    forall p ensures p in Counts(plan.jobs) <==> Count(plan.jobs, p) > 0 {
      CountPositive(plan.jobs, p);
      if exists job :: job in plan.jobs && job.protocol == p {
        var job :| job in plan.jobs && job.protocol == p;
        assert p in Counts(plan.jobs);
      }
    }
  }

  /** Changing one status changes its protocol's open count by whether it settles the deployment. */
  lemma {:induction false} OpenAfter(jobs: seq<Deployment>, status: seq<Status>, i: nat, to: Status, p: string)
    requires |jobs| == |status| && i < |jobs| && !IsSettled(status[i])
    ensures Open(jobs, status[i := to], p)
         == Open(jobs, status, p) - (if jobs[i].protocol == p && IsSettled(to) then 1 else 0)
    ensures jobs[i].protocol == p ==> Open(jobs, status, p) > 0
  {
    if i > 0 {
      OpenAfter(jobs[1..], status[1..], i - 1, to, p);
      assert status[i := to][1..] == status[1..][i - 1 := to];
    } else {
      assert status[i := to][1..] == status[1..];
    }
  }

  lemma {:induction false} OpenSame(jobs: seq<Deployment>, status: seq<Status>, status': seq<Status>, p: string)
    requires |jobs| == |status| == |status'|
    requires forall i :: 0 <= i < |jobs| ==> (IsSettled(status[i]) <==> IsSettled(status'[i]))
    ensures Open(jobs, status, p) == Open(jobs, status', p)
  {
    if jobs != [] {
      OpenSame(jobs[1..], status[1..], status'[1..], p);
    }
  }

  /** Reporting one deployment keeps the counts, the cancellations and the log. */
  lemma ReportKeeps(plan: Plan, s: State, i: nat, to: Status)
    requires Inv(plan, s) && i < |plan.jobs| && !IsSettled(s.status[i]) && IsSettled(to)
    ensures LifetimesKeep(plan, Reported(plan, s, i, to)) && LogKeeps(plan, Reported(plan, s, i, to))
    ensures Reported(plan, s, i, to).lifetimes.remaining.Keys <= plan.tracked
  {
    forall p
      ensures Open(plan.jobs, s.status[i := to], p)
              == Open(plan.jobs, s.status, p) - (if plan.jobs[i].protocol == p then 1 else 0)
      ensures plan.jobs[i].protocol == p ==> Open(plan.jobs, s.status, p) > 0
    {
      OpenAfter(plan.jobs, s.status, i, to, p);
    }
  }

  lemma UnsettledMovesKeep(plan: Plan, s: State, next: State)
    requires Inv(plan, s) && |next.status| == |s.status|
    requires next.lifetimes == s.lifetimes && next.doneLog == s.doneLog
    requires forall i :: 0 <= i < |s.status| ==> (IsSettled(s.status[i]) <==> IsSettled(next.status[i]))
    ensures LifetimesKeep(plan, next) && LogKeeps(plan, next)
  {
    forall p ensures Open(plan.jobs, next.status, p) == Open(plan.jobs, s.status, p) {
      OpenSame(plan.jobs, next.status, s.status, p);
    }
  }

  lemma StepKeepsJobs(plan: Plan, s: State, step: Step)
    requires WellFormed(plan) && Inv(plan, s) && Enabled(plan, s, step)
    ensures var next := Apply(plan, s, step);
            && |next.status| == |next.reached| == |plan.jobs|
            && next.dispatched <= next.settled <= plan.walletFrom && (next.sending ==> next.settled == next.dispatched)
            && forall i :: 0 <= i < |plan.jobs| ==> JobKeeps(plan, next, i)
  {
    var next := Apply(plan, s, step);
    forall i | 0 <= i < |plan.jobs| ensures JobKeeps(plan, next, i) {
      assert JobKeeps(plan, s, i);
    }
  }

  lemma StepKeepsInv(plan: Plan, s: State, step: Step)
    requires WellFormed(plan) && Inv(plan, s) && Enabled(plan, s, step)
    ensures Inv(plan, Apply(plan, s, step))
  {
    StepKeepsJobs(plan, s, step);
    var next := Apply(plan, s, step);
    match step
    case Finish(i) => ReportKeeps(plan, s, i, next.status[i]);
    case Settle =>
      assert JobKeeps(plan, s, s.settled);
      ReportKeeps(plan, s, s.settled, Undispatched);
    case _ =>
      forall i | 0 <= i < |s.status| ensures IsSettled(s.status[i]) <==> IsSettled(next.status[i]) {
        assert JobKeeps(plan, s, i);
      }
      UnsettledMovesKeep(plan, s, next);
  }

  lemma {:induction false} RunKeepsInv(plan: Plan, s: State, steps: seq<Step>)
    requires WellFormed(plan) && Inv(plan, s) && IsRun(plan, s, steps)
    ensures Inv(plan, After(plan, s, steps))
    decreases |steps|
  {
    if steps != [] {
      StepKeepsInv(plan, s, steps[0]);
      RunKeepsInv(plan, Apply(plan, s, steps[0]), steps[1..]);
    }
  }

  // ---------- What a scan reports as not read ----------

  function ActiveIn(jobs: seq<Deployment>, lo: nat, hi: nat): (r: seq<nat>)
    requires lo <= hi <= |jobs|
    decreases hi - lo
  {
    if lo == hi then [] else (if jobs[lo].active then [lo] else []) + ActiveIn(jobs, lo + 1, hi)
  }

  ghost predicate Ascending(s: seq<nat>) {
    forall a, b :: 0 <= a < b < |s| ==> s[a] < s[b]
  }

  lemma {:induction false} ActiveInExact(jobs: seq<Deployment>, lo: nat, hi: nat)
    requires lo <= hi <= |jobs|
    ensures forall i :: i in ActiveIn(jobs, lo, hi) <==> lo <= i < hi && jobs[i].active
    ensures Ascending(ActiveIn(jobs, lo, hi))
    decreases hi - lo
  {
    if lo < hi {
      ActiveInExact(jobs, lo + 1, hi);
      var rest := ActiveIn(jobs, lo + 1, hi);
      assert forall k :: 0 <= k < |rest| ==> rest[k] in rest;
    }
  }

  /** The deployments named incomplete once collection has ended: those never dispatched, then the
      wallet's if it was left unread, each only if it would have run at its pin. */
  function NotRead(plan: Plan, s: State): seq<nat>
    requires s.dispatched <= plan.walletFrom <= |plan.jobs|
  {
    ActiveIn(plan.jobs, s.dispatched, plan.walletFrom)
      + (if s.wallet.LeftUnread? then ActiveIn(plan.jobs, plan.walletFrom, |plan.jobs|) else [])
  }

  lemma AscendingJoin(low: seq<nat>, high: seq<nat>, mid: nat)
    requires Ascending(low) && Ascending(high)
    requires (forall i :: i in low ==> i < mid) && (forall i :: i in high ==> mid <= i)
    ensures Ascending(low + high)
  {
    var both := low + high;
    forall a, b | 0 <= a < b < |both| ensures both[a] < both[b] {
      if a < |low| <= b {
        assert low[a] in low && high[b - |low|] in high;
      }
    }
  }

  /** The report names, in order and without repetition, exactly the active deployments no reader reached. */
  lemma NotReadExact(plan: Plan, s: State)
    requires WellFormed(plan) && Inv(plan, s) && Ended(plan, s)
    ensures forall i :: 0 <= i < |plan.jobs| ==> (i in NotRead(plan, s) <==> s.reached[i] == 0 && plan.jobs[i].active)
    ensures Ascending(NotRead(plan, s))
  {
    ActiveInExact(plan.jobs, s.dispatched, plan.walletFrom);
    ActiveInExact(plan.jobs, plan.walletFrom, |plan.jobs|);
    var sent, wallet := ActiveIn(plan.jobs, s.dispatched, plan.walletFrom), ActiveIn(plan.jobs, plan.walletFrom, |plan.jobs|);
    AscendingJoin(sent, if s.wallet.LeftUnread? then wallet else [], plan.walletFrom);
    forall i | 0 <= i < |plan.jobs| ensures i in NotRead(plan, s) <==> s.reached[i] == 0 && plan.jobs[i].active {
      assert JobKeeps(plan, s, i);
    }
  }

  /** Wherever collection stops, every deployment is either handed to a reader exactly once or never
      reached, and exactly the unreached ones active at their pin are named incomplete, each once. */
  lemma EveryDeploymentAccounted(plan: Plan, steps: seq<Step>)
    requires WellFormed(plan) && IsRun(plan, Initial(plan), steps)
    requires Ended(plan, After(plan, Initial(plan), steps))
    ensures var s := After(plan, Initial(plan), steps);
            && |s.status| == |s.reached| == |plan.jobs| && s.dispatched <= plan.walletFrom
            && (forall i :: 0 <= i < |plan.jobs| ==>
                  && s.reached[i] <= 1
                  && (s.reached[i] == 1 <==> s.status[i] == if plan.jobs[i].active then Read else Skipped)
                  && (i in NotRead(plan, s) <==> s.reached[i] == 0 && plan.jobs[i].active))
            && Ascending(NotRead(plan, s))
  {
    InitialInv(plan);
    RunKeepsInv(plan, Initial(plan), steps);
    var s := After(plan, Initial(plan), steps);
    NotReadExact(plan, s);
    forall i | 0 <= i < |plan.jobs|
      ensures s.reached[i] <= 1
      ensures s.reached[i] == 1 <==> s.status[i] == if plan.jobs[i].active then Read else Skipped
    {
      assert JobKeeps(plan, s, i);
    }
  }

  // ---------- What only a stop can leave unread ----------

  /** Until a stop, every deployment is sent before sending ends and the wallet is never left unread. */
  ghost predicate Uncut(plan: Plan, s: State) {
    && !s.stopped && !s.wallet.LeftUnread? && (!s.sending ==> s.dispatched == plan.walletFrom)
  }

  lemma {:induction false} UncutWithoutStop(plan: Plan, s: State, steps: seq<Step>)
    requires IsRun(plan, s, steps) && Uncut(plan, s) && Stop !in steps
    ensures Uncut(plan, After(plan, s, steps))
    decreases |steps|
  {
    if steps != [] {
      UncutWithoutStop(plan, Apply(plan, s, steps[0]), steps[1..]);
    }
  }

  /** A scan that is never stopped reads every deployment active at its pin, skips every other, and names none
      incomplete. */
  lemma UnstoppedReadsEverything(plan: Plan, steps: seq<Step>)
    requires WellFormed(plan) && IsRun(plan, Initial(plan), steps) && Stop !in steps
    requires Ended(plan, After(plan, Initial(plan), steps))
    ensures var s := After(plan, Initial(plan), steps);
            && |s.status| == |s.reached| == |plan.jobs| && s.dispatched <= plan.walletFrom
            && (forall i :: 0 <= i < |plan.jobs| ==>
                  s.reached[i] == 1 && s.status[i] == if plan.jobs[i].active then Read else Skipped)
            && NotRead(plan, s) == []
  {
    InitialInv(plan);
    RunKeepsInv(plan, Initial(plan), steps);
    UncutWithoutStop(plan, Initial(plan), steps);
    var s := After(plan, Initial(plan), steps);
    forall i | 0 <= i < |plan.jobs|
      ensures s.reached[i] == 1 && s.status[i] == if plan.jobs[i].active then Read else Skipped
    {
      assert JobKeeps(plan, s, i);
    }
  }

  /** Discovery's answer leaves the wallet unread exactly when a stop came before it, and launches every one of
      the wallet's deployments otherwise. */
  lemma {:induction false} WalletUnreadAfterAStop(plan: Plan, s: State, steps: seq<Step>, k: nat)
    requires WellFormed(plan) && Inv(plan, s) && IsRun(plan, s, steps) && k < |steps| && steps[k] == WalletAnswered
    ensures After(plan, s, steps).wallet == if s.stopped || Stop in steps[..k] then LeftUnread else Launched
    decreases |steps|
  {
    var next := Apply(plan, s, steps[0]);
    StepKeepsInv(plan, s, steps[0]);
    if k == 0 {
      WalletStays(plan, next, steps[1..]);
    } else {
      WalletUnreadAfterAStop(plan, next, steps[1..], k - 1);
      assert steps[..k] == [steps[0]] + steps[1..][..k - 1];
    }
  }

  lemma {:induction false} WalletStays(plan: Plan, s: State, steps: seq<Step>)
    requires IsRun(plan, s, steps) && !s.wallet.Discovering?
    ensures After(plan, s, steps).wallet == s.wallet
    decreases |steps|
  {
    if steps != [] {
      WalletStays(plan, Apply(plan, s, steps[0]), steps[1..]);
    }
  }

  lemma {:induction false} NoneOpen(jobs: seq<Deployment>, status: seq<Status>, p: string)
    requires |jobs| == |status|
    ensures Open(jobs, status, p) == 0 <==> forall i :: 0 <= i < |jobs| && jobs[i].protocol == p ==> IsSettled(status[i])
  {
    if jobs != [] {
      NoneOpen(jobs[1..], status[1..], p);
      forall i | 0 <= i < |jobs| && jobs[i].protocol == p && Open(jobs, status, p) == 0 ensures IsSettled(status[i]) {
        if i > 0 {
          assert jobs[1..][i - 1].protocol == p;
        }
      }
      if forall i :: 0 <= i < |jobs| && jobs[i].protocol == p ==> IsSettled(status[i]) {
        forall i | 0 <= i < |jobs[1..]| && jobs[1..][i].protocol == p ensures IsSettled(status[1..][i]) {
          assert jobs[i + 1].protocol == p;
        }
      }
    }
  }

  /** At every moment of every run a protocol's probes are cancelled at most once, and only when each of its
      deployments has finished, been skipped, or will never be dispatched. */
  lemma NeverCancelledEarly(plan: Plan, steps: seq<Step>, p: string)
    requires WellFormed(plan) && IsRun(plan, Initial(plan), steps) && p in plan.tracked
    ensures var s := After(plan, Initial(plan), steps);
            && |s.status| == |plan.jobs| && p in s.lifetimes.cancelled && s.lifetimes.cancelled[p] <= 1
            && (s.lifetimes.cancelled[p] == 1
                <==> forall i :: 0 <= i < |plan.jobs| && plan.jobs[i].protocol == p ==> IsSettled(s.status[i]))
  {
    InitialInv(plan);
    RunKeepsInv(plan, Initial(plan), steps);
    NoneOpen(plan.jobs, After(plan, Initial(plan), steps).status, p);
  }

  /** When collection has ended, every tracked protocol has reported each of its deployments done exactly
      once and its probes have been cancelled exactly once, unless it is the wallet's and the wallet was
      left unread: that path reports none of the wallet's deployments done and cancels nothing. */
  lemma CancelledExactlyOnce(plan: Plan, steps: seq<Step>, p: string)
    requires WellFormed(plan) && IsRun(plan, Initial(plan), steps) && p in plan.tracked
    requires Ended(plan, After(plan, Initial(plan), steps))
    ensures var s := After(plan, Initial(plan), steps);
            var unreported := p == WALLET && s.wallet.LeftUnread? && plan.walletFrom < |plan.jobs|;
            && p in s.lifetimes.cancelled
            && (s.lifetimes.cancelled[p] == 1 <==> !unreported)
            && (s.lifetimes.cancelled[p] == 0 <==> unreported)
            && (multiset(s.doneLog)[p] == Count(plan.jobs, p) <==> !unreported)
            && (unreported ==> multiset(s.doneLog)[p] == 0)
  {
    InitialInv(plan);
    RunKeepsInv(plan, Initial(plan), steps);
    var s := After(plan, Initial(plan), steps);
    NoneOpen(plan.jobs, s.status, p);
    forall i | 0 <= i < |plan.jobs| ensures IsSettled(s.status[i]) || (plan.walletFrom <= i && s.wallet.LeftUnread?) {
      assert JobKeeps(plan, s, i);
    }
    if p == WALLET && s.wallet.LeftUnread? && plan.walletFrom < |plan.jobs| {
      forall i | 0 <= i < |plan.jobs| && plan.jobs[i].protocol == p ensures !IsSettled(s.status[i]) {
        assert JobKeeps(plan, s, i);
      }
      AllUnsettled(plan.jobs, s.status, p);
      assert plan.jobs[plan.walletFrom].protocol == p;
    }
  }

  /** A scan of one wallet deployment and nothing else. */
  const LoneWallet: Plan := Plan([Deployment(WALLET, true)], 0, {WALLET}, 1)

  lemma LoneWalletStarts()
    ensures Initial(LoneWallet)
         == State([Pending], [0], 0, 0, true, false, Discovering, Lifetimes(map[WALLET := 1], map[WALLET := 0]), [])
  {
    var jobs := LoneWallet.jobs;
    assert jobs[1..] == [] && Count(jobs, WALLET) == 1 && jobs[0] in jobs;
    assert Counts(jobs) == map[WALLET := 1];
  }

  /** The exception is real: a scan of one wallet deployment stopped during discovery ends with a tracked
      wallet's probes never cancelled. */
  lemma UnreadWalletCancelsNothing()
    ensures var steps := [EndSending, Stop, WalletAnswered];
            && WellFormed(LoneWallet) && IsRun(LoneWallet, Initial(LoneWallet), steps)
            && var s := After(LoneWallet, Initial(LoneWallet), steps);
               Ended(LoneWallet, s) && s.lifetimes.cancelled == map[WALLET := 0] && NotRead(LoneWallet, s) == [0]
  {
    LoneWalletStarts();
    var s0 := Initial(LoneWallet);
    var s1 := Apply(LoneWallet, s0, EndSending);
    var s2 := Apply(LoneWallet, s1, Stop);
    var s3 := Apply(LoneWallet, s2, WalletAnswered);
    assert s3.status == [Unread];
    OneMoreStep(LoneWallet, s2, WalletAnswered, []);
    OneMoreStep(LoneWallet, s1, Stop, [WalletAnswered]);
    OneMoreStep(LoneWallet, s0, EndSending, [Stop, WalletAnswered]);
  }

  lemma OneMoreStep(plan: Plan, s: State, step: Step, rest: seq<Step>)
    requires Enabled(plan, s, step) && IsRun(plan, Apply(plan, s, step), rest)
    ensures IsRun(plan, s, [step] + rest)
    ensures After(plan, s, [step] + rest) == After(plan, Apply(plan, s, step), rest)
  {
  }

  lemma {:induction false} AllUnsettled(jobs: seq<Deployment>, status: seq<Status>, p: string)
    requires |jobs| == |status|
    requires forall i :: 0 <= i < |jobs| && jobs[i].protocol == p ==> !IsSettled(status[i])
    ensures Open(jobs, status, p) == Count(jobs, p)
  {
    if jobs != [] {
      forall i | 0 <= i < |jobs[1..]| && jobs[1..][i].protocol == p ensures !IsSettled(status[1..][i]) {
        assert jobs[i + 1].protocol == p;
      }
      AllUnsettled(jobs[1..], status[1..], p);
    }
  }

  /** A scan whose collection has not ended always has a step to take, and never more than its workers'
      number of deployments run on the workers at once. */
  lemma DispatchNeverSticks(plan: Plan, steps: seq<Step>) returns (step: Step)
    requires WellFormed(plan) && IsRun(plan, Initial(plan), steps)
    ensures var s := After(plan, Initial(plan), steps);
            && |set i | 0 <= i < plan.walletFrom && i < |s.status| && s.status[i].Running?| <= plan.workers
            && (!Ended(plan, s) ==> Enabled(plan, s, step) && !step.Stop?)
  {
    InitialInv(plan);
    RunKeepsInv(plan, Initial(plan), steps);
    BusyWithinWorkers(plan, Initial(plan), steps);
    var s := After(plan, Initial(plan), steps);
    assert (set i | 0 <= i < plan.walletFrom && i < |s.status| && s.status[i].Running?) == Busy(plan, s);
    if exists i :: 0 <= i < |s.status| && s.status[i].Running? {
      var i :| 0 <= i < |s.status| && s.status[i].Running?;
      step := Finish(i);
    } else {
      assert Busy(plan, s) == {};
      step := if s.sending then (if s.dispatched < plan.walletFrom then Send else EndSending)
              else if s.settled < plan.walletFrom then Settle else WalletAnswered;
    }
  }

  lemma OnlySendingAdds(plan: Plan, s: State, step: Step, i: nat)
    requires Enabled(plan, s, step) && i in Busy(plan, Apply(plan, s, step))
    ensures i in Busy(plan, s) || (step.Send? && i == s.dispatched)
  {
    if step.WalletAnswered? {
      assert Apply(plan, s, step).status[i] == s.status[i];
    }
  }

  lemma BusyAfter(plan: Plan, s: State, step: Step)
    requires WellFormed(plan) && Inv(plan, s) && Enabled(plan, s, step) && |Busy(plan, s)| <= plan.workers
    ensures |Busy(plan, Apply(plan, s, step))| <= plan.workers
  {
    var before, after := Busy(plan, s), Busy(plan, Apply(plan, s, step));
    forall i | i in after ensures i in before || (step.Send? && i == s.dispatched) {
      OnlySendingAdds(plan, s, step, i);
    }
    if step.Send? {
      SubsetSize(after, before + {s.dispatched});
    } else {
      SubsetSize(after, before);
    }
  }

  lemma {:induction false} SubsetSize(a: set<nat>, b: set<nat>)
    requires a <= b
    ensures |a| <= |b|
  {
    assert |b| == |a| + |b - a| by { assert b == a + (b - a); }
  }

  lemma {:induction false} BusyWithinWorkers(plan: Plan, s: State, steps: seq<Step>)
    requires WellFormed(plan) && Inv(plan, s) && IsRun(plan, s, steps) && |Busy(plan, s)| <= plan.workers
    ensures |Busy(plan, After(plan, s, steps))| <= plan.workers
    decreases |steps|
  {
    if steps != [] {
      BusyAfter(plan, s, steps[0]);
      StepKeepsInv(plan, s, steps[0]);
      BusyWithinWorkers(plan, Apply(plan, s, steps[0]), steps[1..]);
    }
  }
}
