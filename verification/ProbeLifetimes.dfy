/** How long each protocol's prefetched presence probes are kept: until the last of its deployments is done. */
module ProbeLifetimes {

  /** How many deployments each tracked protocol has left, and how often its probes were cancelled. */
  datatype Lifetimes = Lifetimes(remaining: map<string, nat>, cancelled: map<string, nat>)

  function NewLifetimes(tracked: set<string>, counts: map<string, nat>): Lifetimes {
    Lifetimes(map p | p in tracked && p in counts && counts[p] > 0 :: counts[p],
              map p | p in tracked :: if p in counts && counts[p] > 0 then 0 else 1)
  }

  function Done(l: Lifetimes, p: string): Lifetimes {
    if p !in l.remaining then l else
    if l.remaining[p] > 1 then l.(remaining := l.remaining[p := l.remaining[p] - 1]) else
    Lifetimes(l.remaining - {p}, l.cancelled[p := (if p in l.cancelled then l.cancelled[p] else 0) + 1])
  }

  // ---------- What reports amount to ----------

  /** How many reports a protocol still lacks. */
  ghost function Lacks(counts: map<string, nat>, reports: multiset<string>, p: string): nat {
    if p in counts && reports[p] < counts[p] then counts[p] - reports[p] else 0
  }

  /** Each tracked protocol misses as many reports as it still lacks, and has been cancelled once, and only
      once, if it lacks none; no other protocol is known. */
  ghost predicate Reflects(l: Lifetimes, tracked: set<string>, counts: map<string, nat>, reports: multiset<string>) {
    && l.cancelled.Keys == tracked && l.remaining.Keys <= tracked
    && forall p :: p in tracked ==>
         var open := Lacks(counts, reports, p);
         && (p in l.remaining <==> open > 0)
         && (open > 0 ==> l.remaining[p] == open)
         && l.cancelled[p] == (if open == 0 then 1 else 0)
  }

  lemma NothingReported(tracked: set<string>, counts: map<string, nat>)
    ensures Reflects(NewLifetimes(tracked, counts), tracked, counts, multiset{})
  {
  }

  /** A report counts its own protocol down, cancels it with the last, and is ignored afterwards. */
  lemma OneMoreReport(l: Lifetimes, tracked: set<string>, counts: map<string, nat>, reports: multiset<string>, p: string)
    requires Reflects(l, tracked, counts, reports)
    ensures Reflects(Done(l, p), tracked, counts, reports + multiset{p})
  {
  }

  // ---------- The lifetimes, in place ----------

  /** What the engine's mutex guards: each protocol's count runs down and its probes end with the last. */
  class PresenceLifetimes {
    ghost const tracked: set<string>
    ghost const counts: map<string, nat>
    ghost var reports: multiset<string>
    var remaining: map<string, nat>
    var cancelled: map<string, nat>

    ghost function View(): Lifetimes
      reads this
    {
      Lifetimes(remaining, cancelled)
    }

    ghost predicate Valid()
      reads this
    {
      Reflects(View(), tracked, counts, reports)
    }

    constructor (tracked: set<string>, counts: map<string, nat>)
      ensures Valid() && this.tracked == tracked && this.counts == counts && reports == multiset{}
      ensures View() == NewLifetimes(tracked, counts)
    {
      this.tracked, this.counts, reports := tracked, counts, multiset{};
      remaining := map p | p in tracked && p in counts && counts[p] > 0 :: counts[p];
      cancelled := map p | p in tracked :: if p in counts && counts[p] > 0 then 0 else 1;
      NothingReported(tracked, counts);
    }

    /** Records that one deployment of a protocol will not use its probes again. */
    method ReportDone(p: string)
      requires Valid()
      modifies this
      ensures Valid() && reports == old(reports) + multiset{p}
      ensures View() == Done(old(View()), p)
    {
      OneMoreReport(View(), tracked, counts, reports, p);
      reports := reports + multiset{p};
      if p !in remaining {
        return;
      }
      if remaining[p] > 1 {
        remaining := remaining[p := remaining[p] - 1];
        return;
      }
      remaining := remaining - {p};
      cancelled := cancelled[p := (if p in cancelled then cancelled[p] else 0) + 1];
    }
  }
}
