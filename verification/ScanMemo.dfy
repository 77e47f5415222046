/** The per-scan memo: the first caller of a key computes its value, in the foreground (`once`) or in the
    background (`start`), and every other caller waits for that one value or for its own context to end. */
module ScanMemo {
  import opened Wrappers

  type Value = string

  /** A claimed key: who computes it, the value once stored, and whether its channel has closed. */
  datatype Entry = Entry(owner: nat, value: Option<Value>, closed: bool)

  /** Where a caller stands: before its claim, computing, about to close the entry, waiting on it,
      returned with the value, or gone with none. */
  datatype Place = Arriving | Computing | Closing | Waiting | Returned(value: Value) | GaveUp

  datatype Caller = Caller(key: string, background: bool, place: Place)

  datatype State = State(entries: map<string, Entry>, callers: seq<Caller>)

  datatype Step =
    | Call(key: string, background: bool)
    | Claim(caller: nat)
    | Compute(caller: nat, value: Value)
    | Close(caller: nat)
    | Wake(caller: nat)
    | Leave(caller: nat)

  const Initial: State := State(map[], [])

  predicate At(s: State, c: nat, place: Place) {
    c < |s.callers| && s.callers[c].place == place
  }

  predicate Enabled(s: State, step: Step) {
    match step
    case Call(_, _) => true
    case Claim(c) => At(s, c, Arriving)
    case Compute(c, _) => At(s, c, Computing) && s.callers[c].key in s.entries
    case Close(c) => At(s, c, Closing) && s.callers[c].key in s.entries && s.entries[s.callers[c].key].value.Some?
    case Wake(c) => At(s, c, Waiting) && s.callers[c].key in s.entries && s.entries[s.callers[c].key].closed
                    && s.entries[s.callers[c].key].value.Some?
    case Leave(c) => At(s, c, Waiting)
  }

  function Move(s: State, c: nat, place: Place): seq<Caller>
    requires c < |s.callers|
  {
    s.callers[c := s.callers[c].(place := place)]
  }

  function Apply(s: State, step: Step): State
    requires Enabled(s, step)
  {
    match step
    case Call(key, background) => s.(callers := s.callers + [Caller(key, background, Arriving)])
    case Claim(c) =>
      var key := s.callers[c].key;
      if key !in s.entries then State(s.entries[key := Entry(c, None, false)], Move(s, c, Computing))
      else s.(callers := Move(s, c, if s.callers[c].background then GaveUp else Waiting))
    case Compute(c, value) =>
      var key := s.callers[c].key;
      State(s.entries[key := s.entries[key].(value := Some(value))], Move(s, c, Closing))
    case Close(c) =>
      var key := s.callers[c].key;
      State(s.entries[key := s.entries[key].(closed := true)], Move(s, c, Returned(s.entries[key].value.value)))
    case Wake(c) => s.(callers := Move(s, c, Returned(s.entries[s.callers[c].key].value.value)))
    case Leave(c) => s.(callers := Move(s, c, GaveUp))
  }

  ghost predicate IsRun(s: State, steps: seq<Step>)
    decreases |steps|
  {
    steps == [] || (Enabled(s, steps[0]) && IsRun(Apply(s, steps[0]), steps[1..]))
  }

  ghost function After(s: State, steps: seq<Step>): State
    requires IsRun(s, steps)
    decreases |steps|
  {
    if steps == [] then s else After(Apply(s, steps[0]), steps[1..])
  }

  // ---------- The invariant ----------

  ghost predicate EntryKeeps(s: State, key: string)
    requires key in s.entries
  {
    var entry := s.entries[key];
    && entry.owner < |s.callers| && s.callers[entry.owner].key == key
    && (entry.closed ==> entry.value.Some?)
    && match s.callers[entry.owner].place
       case Computing => entry.value.None? && !entry.closed
       case Closing => entry.value.Some? && !entry.closed
       case Returned(value) => entry.value == Some(value) && entry.closed
       case _ => false
  }

  ghost predicate CallerKeeps(s: State, c: nat)
    requires c < |s.callers|
  {
    var caller := s.callers[c];
    match caller.place
    case Arriving => true
    case GaveUp => caller.key in s.entries && s.entries[caller.key].owner != c
    case Computing => caller.key in s.entries && s.entries[caller.key].owner == c
    case Closing => caller.key in s.entries && s.entries[caller.key].owner == c
    case Waiting => !caller.background && caller.key in s.entries && s.entries[caller.key].owner != c
    case Returned(value) => caller.key in s.entries && s.entries[caller.key].value == Some(value)
                            && s.entries[caller.key].closed
  }

  ghost predicate Inv(s: State) {
    && (forall key :: key in s.entries ==> EntryKeeps(s, key))
    && forall c :: 0 <= c < |s.callers| ==> CallerKeeps(s, c)
  }

  lemma StepKeepsEntries(s: State, step: Step)
    requires Inv(s) && Enabled(s, step)
    ensures forall key :: key in Apply(s, step).entries ==> EntryKeeps(Apply(s, step), key)
  {
    var next := Apply(s, step);
    forall key | key in next.entries ensures EntryKeeps(next, key) {
      if key in s.entries {
        assert EntryKeeps(s, key);
        assert CallerKeeps(s, s.entries[key].owner);
      }
      if step.Compute? || step.Close? {
        assert CallerKeeps(s, step.caller);
      }
    }
  }

  lemma StepKeepsCallers(s: State, step: Step)
    requires Inv(s) && Enabled(s, step)
    ensures forall c :: 0 <= c < |Apply(s, step).callers| ==> CallerKeeps(Apply(s, step), c)
  {
    var next := Apply(s, step);
    forall c | 0 <= c < |next.callers| ensures CallerKeeps(next, c) {
      if c < |s.callers| {
        assert CallerKeeps(s, c);
        if s.callers[c].key in s.entries {
          assert EntryKeeps(s, s.callers[c].key);
        }
      }
      if step.Compute? || step.Close? {
        assert CallerKeeps(s, step.caller);
        assert EntryKeeps(s, s.callers[step.caller].key);
      }
    }
  }

  lemma {:induction false} RunKeepsInv(s: State, steps: seq<Step>)
    requires Inv(s) && IsRun(s, steps)
    ensures Inv(After(s, steps))
    decreases |steps|
  {
    if steps != [] {
      StepKeepsEntries(s, steps[0]);
      StepKeepsCallers(s, steps[0]);
      RunKeepsInv(Apply(s, steps[0]), steps[1..]);
    }
  }

  // ---------- What every run guarantees ----------

  /** How often a run computed a key. */
  ghost function Computations(s: State, steps: seq<Step>, key: string): nat
    requires IsRun(s, steps)
    decreases |steps|
  {
    if steps == [] then 0 else
    (if steps[0].Compute? && s.callers[steps[0].caller].key == key then 1 else 0)
      + Computations(Apply(s, steps[0]), steps[1..], key)
  }

  /** From any reachable state a key is computed at most once more, and not at all once it has a value. */
  lemma {:induction false} ComputedAtMostOnce(s: State, steps: seq<Step>, key: string)
    requires Inv(s) && IsRun(s, steps)
    ensures Computations(s, steps, key) <= 1
    ensures key in s.entries && s.entries[key].value.Some? ==> Computations(s, steps, key) == 0
    ensures Computations(s, steps, key) == 1 ==> key in After(s, steps).entries && After(s, steps).entries[key].value.Some?
    decreases |steps|
  {
    if steps != [] {
      var next := Apply(s, steps[0]);
      StepKeepsEntries(s, steps[0]);
      StepKeepsCallers(s, steps[0]);
      if steps[0].Compute? {
        assert CallerKeeps(s, steps[0].caller);
        assert EntryKeeps(s, s.callers[steps[0].caller].key);
      }
      ComputedAtMostOnce(next, steps[1..], key);
      ValuesStay(next, steps[1..], key);
    }
  }

  lemma {:induction false} ValuesStay(s: State, steps: seq<Step>, key: string)
    requires Inv(s) && IsRun(s, steps)
    ensures key in s.entries && s.entries[key].value.Some? ==>
              && key in After(s, steps).entries && After(s, steps).entries[key].owner == s.entries[key].owner
              && After(s, steps).entries[key].value == s.entries[key].value
    decreases |steps|
  {
    if steps != [] {
      StepKeepsEntries(s, steps[0]);
      StepKeepsCallers(s, steps[0]);
      if steps[0].Compute? {
        assert CallerKeeps(s, steps[0].caller);
        assert EntryKeeps(s, s.callers[steps[0].caller].key);
      }
      ValuesStay(Apply(s, steps[0]), steps[1..], key);
    }
  }

  lemma {:induction false} CallersStay(s: State, steps: seq<Step>, c: nat)
    requires IsRun(s, steps) && c < |s.callers|
    ensures c < |After(s, steps).callers| && After(s, steps).callers[c].key == s.callers[c].key
    ensures After(s, steps).callers[c].background == s.callers[c].background
    decreases |steps|
  {
    if steps != [] {
      CallersStay(Apply(s, steps[0]), steps[1..], c);
    }
  }

  /** Only a caller that left, or a background one that found its key taken, ends up without the value. */
  lemma {:induction false} GivingUpHasAReason(s: State, steps: seq<Step>, c: nat)
    requires IsRun(s, steps) && c < |After(s, steps).callers| && After(s, steps).callers[c].place.GaveUp?
    requires c < |s.callers| ==> !s.callers[c].place.GaveUp?
    ensures Leave(c) in steps || After(s, steps).callers[c].background
    decreases |steps|
  {
    var next := Apply(s, steps[0]);
    if c < |next.callers| && next.callers[c].place.GaveUp? {
      CallersStay(next, steps[1..], c);
    } else {
      GivingUpHasAReason(next, steps[1..], c);
    }
  }

  /** What a computation brought stays its key's value. */
  lemma {:induction false} ComputationStays(s: State, steps: seq<Step>, c: nat, value: Value)
    requires Inv(s) && IsRun(s, steps) && Compute(c, value) in steps
    ensures var after := After(s, steps);
            && c < |after.callers| && after.callers[c].key in after.entries
            && after.entries[after.callers[c].key].value == Some(value)
    decreases |steps|
  {
    var next := Apply(s, steps[0]);
    StepKeepsEntries(s, steps[0]);
    StepKeepsCallers(s, steps[0]);
    if steps[0] == Compute(c, value) {
      CallersStay(next, steps[1..], c);
      ValuesStay(next, steps[1..], s.callers[c].key);
    } else {
      ComputationStays(next, steps[1..], c, value);
    }
  }

  /** A key's value was computed, by the caller that owns the key. */
  lemma {:induction false} ValueWasComputed(s: State, steps: seq<Step>, key: string)
    requires Inv(s) && IsRun(s, steps)
    requires key in After(s, steps).entries && After(s, steps).entries[key].value.Some?
    requires key in s.entries ==> s.entries[key].value.None?
    ensures Compute(After(s, steps).entries[key].owner, After(s, steps).entries[key].value.value) in steps
    decreases |steps|
  {
    var next := Apply(s, steps[0]);
    StepKeepsEntries(s, steps[0]);
    StepKeepsCallers(s, steps[0]);
    if key in next.entries && next.entries[key].value.Some? {
      ValuesStay(next, steps[1..], key);
      assert EntryKeeps(s, key);
      assert CallerKeeps(s, steps[0].caller);
    } else {
      ValueWasComputed(next, steps[1..], key);
    }
  }

  /** Whoever returns a value returns what the run computed for its key: the caller that owns the key computed
      it, and no computation for that key brought anything else. */
  lemma ReturnedIsComputed(steps: seq<Step>, c: nat)
    requires IsRun(Initial, steps)
    requires c < |After(Initial, steps).callers| && After(Initial, steps).callers[c].place.Returned?
    ensures var s := After(Initial, steps);
            var key, value := s.callers[c].key, s.callers[c].place.value;
            && key in s.entries && Compute(s.entries[key].owner, value) in steps
            && s.entries[key].owner < |s.callers| && s.callers[s.entries[key].owner].key == key
            && forall owner: nat, other :: Compute(owner, other) in steps && owner < |s.callers| && s.callers[owner].key == key ==>
                 other == value
  {
    RunKeepsInv(Initial, steps);
    var s := After(Initial, steps);
    var key := s.callers[c].key;
    assert CallerKeeps(s, c);
    assert EntryKeeps(s, key);
    ValueWasComputed(Initial, steps, key);
    forall owner: nat, other | Compute(owner, other) in steps && owner < |s.callers| && s.callers[owner].key == key
      ensures other == s.callers[c].place.value
    {
      ComputationStays(Initial, steps, owner, other);
    }
  }

  /** In every interleaving a key's computation runs at most once, every caller that returns a value
      returns that one, and only a waiter whose own context ended, or a background start that found the
      key taken, returns without it. */
  lemma OneValuePerKey(steps: seq<Step>, key: string)
    requires IsRun(Initial, steps)
    ensures Computations(Initial, steps, key) <= 1
    ensures var s := After(Initial, steps);
            forall c :: 0 <= c < |s.callers| && s.callers[c].place.GaveUp? ==>
              && s.callers[c].key in s.entries && s.entries[s.callers[c].key].owner != c
              && (s.callers[c].background || Leave(c) in steps)
    ensures var s := After(Initial, steps);
            forall c :: 0 <= c < |s.callers| && s.callers[c].background ==> !s.callers[c].place.Waiting?
    ensures var s := After(Initial, steps);
            forall c :: 0 <= c < |s.callers| && s.callers[c].key == key && s.callers[c].place.Returned? ==>
              key in s.entries && s.entries[key].value == Some(s.callers[c].place.value)
  {
    RunKeepsInv(Initial, steps);
    ComputedAtMostOnce(Initial, steps, key);
    var s := After(Initial, steps);
    forall c | 0 <= c < |s.callers| && s.callers[c].background ensures !s.callers[c].place.Waiting? {
      assert CallerKeeps(s, c);
    }
    forall c | 0 <= c < |s.callers| && s.callers[c].place.GaveUp?
      ensures s.callers[c].key in s.entries && s.entries[s.callers[c].key].owner != c
      ensures s.callers[c].background || Leave(c) in steps
    {
      assert CallerKeeps(s, c);
      GivingUpHasAReason(Initial, steps, c);
    }
    forall c | 0 <= c < |s.callers| && s.callers[c].key == key && s.callers[c].place.Returned?
      ensures key in s.entries && s.entries[key].value == Some(s.callers[c].place.value)
    {
      assert CallerKeeps(s, c);
    }
  }

  /** A waiter is never stranded: while its entry is open, the one who owns it is still at work. */
  lemma WaitersHaveAnOwner(s: State, c: nat)
    requires Inv(s) && c < |s.callers| && s.callers[c].place.Waiting?
    ensures s.callers[c].key in s.entries
    ensures var entry := s.entries[s.callers[c].key];
            && entry.owner != c && entry.owner < |s.callers|
            && (Enabled(s, Wake(c)) || s.callers[entry.owner].place.Computing? || Enabled(s, Close(entry.owner)))
  {
    assert CallerKeeps(s, c);
    assert EntryKeeps(s, s.callers[c].key);
  }

  // ---------- Callers come and go ----------

  ghost function Calls(steps: seq<Step>): seq<Step> {
    if steps == [] then [] else (if steps[0].Call? then [steps[0]] else []) + Calls(steps[1..])
  }

  ghost function Roster(callers: seq<Caller>): seq<Step> {
    seq(|callers|, i requires 0 <= i < |callers| => Call(callers[i].key, callers[i].background))
  }

  lemma StepKeepsRoster(s: State, step: Step)
    requires Enabled(s, step)
    ensures Roster(Apply(s, step).callers) == Roster(s.callers) + if step.Call? then [step] else []
  {
  }

  /** The callers of a run are those that called, in order, each for its own key and in its own way. */
  lemma {:induction false} CallersAreTheCalls(s: State, steps: seq<Step>)
    requires IsRun(s, steps)
    ensures Roster(After(s, steps).callers) == Roster(s.callers) + Calls(steps)
    decreases |steps|
  {
    if steps != [] {
      StepKeepsRoster(s, steps[0]);
      CallersAreTheCalls(Apply(s, steps[0]), steps[1..]);
    }
  }

  /** Who leaves is gone for good. */
  lemma {:induction false} LeaversStayGone(s: State, steps: seq<Step>, c: nat)
    requires IsRun(s, steps) && (Leave(c) in steps || At(s, c, GaveUp))
    ensures At(After(s, steps), c, GaveUp)
    decreases |steps|
  {
    if steps != [] {
      LeaversStayGone(Apply(s, steps[0]), steps[1..], c);
    }
  }

  lemma OneMoreStep(s: State, step: Step, rest: seq<Step>)
    requires Enabled(s, step) && IsRun(Apply(s, step), rest)
    ensures IsRun(s, [step] + rest) && After(s, [step] + rest) == After(Apply(s, step), rest)
  {
  }

  /** Whoever owns a key can bring it to its value and close it. */
  lemma OwnersCanFinish(s: State, c: nat, value: Value) returns (steps: seq<Step>)
    requires Inv(s) && c < |s.callers| && (s.callers[c].place.Computing? || s.callers[c].place.Closing?)
    ensures IsRun(s, steps) && forall step :: step in steps ==> step == Compute(c, value) || step == Close(c)
    ensures var after := After(s, steps);
            && |after.callers| == |s.callers| && after.callers[c].place.Returned?
            && after.callers[c].key == s.callers[c].key && s.callers[c].key in after.entries
            && after.entries[s.callers[c].key].closed && after.entries[s.callers[c].key].value.Some?
            && forall d :: 0 <= d < |s.callers| && d != c ==> after.callers[d] == s.callers[d]
  {
    assert CallerKeeps(s, c);
    assert EntryKeeps(s, s.callers[c].key);
    var computed := if s.callers[c].place.Computing? then Apply(s, Compute(c, value)) else s;
    steps := [Close(c)];
    OneMoreStep(computed, Close(c), []);
    if s.callers[c].place.Computing? {
      OneMoreStep(s, Compute(c, value), steps);
      steps := [Compute(c, value)] + steps;
    }
  }

  /** A waiting caller can always be given its value, by its key's owner and itself. */
  lemma WaitersCanReturn(s: State, c: nat, value: Value) returns (steps: seq<Step>)
    requires Inv(s) && c < |s.callers| && s.callers[c].place.Waiting?
    ensures IsRun(s, steps) && c < |After(s, steps).callers| && After(s, steps).callers[c].place.Returned?
  {
    assert CallerKeeps(s, c);
    var key := s.callers[c].key;
    var owner := s.entries[key].owner;
    assert EntryKeeps(s, key);
    steps := [];
    if !s.entries[key].closed {
      steps := OwnersCanFinish(s, owner, value);
    }
    var done := After(s, steps);
    OneMoreStep(done, Wake(c), []);
    RunsJoin(s, steps, [Wake(c)]);
    steps := steps + [Wake(c)];
  }

  lemma {:induction false} RunsJoin(s: State, first: seq<Step>, rest: seq<Step>)
    requires IsRun(s, first) && IsRun(After(s, first), rest)
    ensures IsRun(s, first + rest) && After(s, first + rest) == After(After(s, first), rest)
    decreases |first|
  {
    if first == [] {
      assert first + rest == rest;
    } else {
      RunsJoin(Apply(s, first[0]), first[1..], rest);
      assert first + rest == [first[0]] + (first[1..] + rest);
      OneMoreStep(s, first[0], first[1..] + rest);
    }
  }

  /** A caller that arrives owns its key or waits for its value, and can return it either way; only a
      background one that finds its key taken goes at once, with nothing left to do. */
  lemma ArrivalsCanReturn(s: State, c: nat, value: Value) returns (steps: seq<Step>)
    requires Inv(s) && At(s, c, Arriving)
    ensures IsRun(s, steps) && c < |After(s, steps).callers|
    ensures if s.callers[c].background && s.callers[c].key in s.entries then At(After(s, steps), c, GaveUp)
            else After(s, steps).callers[c].place.Returned?
  {
    var next := Apply(s, Claim(c));
    StepKeepsEntries(s, Claim(c));
    StepKeepsCallers(s, Claim(c));
    steps := [];
    if next.callers[c].place.Computing? {
      steps := OwnersCanFinish(next, c, value);
    } else if next.callers[c].place.Waiting? {
      steps := WaitersCanReturn(next, c, value);
    }
    OneMoreStep(s, Claim(c), steps);
    steps := [Claim(c)] + steps;
  }

  // ---------- The claim, in place ----------

  /** The map the memo's mutex guards. */
  class Memo {
    var entries: map<string, Entry>

    constructor ()
      ensures entries == map[]
    {
      entries := map[];
    }

    /** Registers a key for the caller unless someone already has it. */
    method ClaimKey(key: string, caller: nat, ghost s: State) returns (owner: bool)
      requires At(s, caller, Arriving) && s.callers[caller].key == key && s.entries == entries
      modifies this
      ensures owner <==> key !in old(entries)
      ensures entries == Apply(s, Claim(caller)).entries
      ensures owner <==> Apply(s, Claim(caller)).callers[caller].place.Computing?
    {
      owner := key !in entries;
      if owner {
        entries := entries[key := Entry(caller, None, false)];
      }
    }
  }
}
