/** NAVI market discovery: a backward walk over the versions of the market counter, with the roots of
    an already walked version spliced in from a cache. Object versions and transactions are immutable,
    so a ledger answers the same question the same way at every scan. */
module NaviDiscovery {
  import opened Order
  import opened Wrappers

  const MAIN_STORAGE := "navi-main-storage"
  const STORAGE_TYPE := "navi-storage"
  const OBJECT_LIMIT: nat := 4096

  /** The market record a counter version holds, absent when the field is not the inventory's or its
      content does not decode. */
  datatype MarketRecord = MarketRecord(isMain: bool, marketId: nat, lastMarketId: nat)

  datatype SuiObject = SuiObject(id: string, version: nat, previousTransaction: string, record: Option<MarketRecord>)

  datatype Change = Change(
    id: string, objectType: string, ownerKind: string, inputVersion: nat, outputVersion: nat, created: bool)

  datatype CurrentState = CurrentState(objectType: string, ownerKind: string)

  /** What a node answers; an absent answer is a failed read. */
  datatype Ledger = Ledger(
    validDigest: string -> bool,
    transaction: string -> Option<seq<Change>>,
    objectAt: (string, nat) -> Option<SuiObject>,
    objects: seq<string> -> Option<map<string, CurrentState>>)

  datatype DiscoveryError =
    | InvalidRecord | InvalidDigest | TransactionUnread | BrokenLineage | VersionUnread | VersionMismatch
    | CounterDidNotDecrease | RootsUnread | CreationCountMismatch | IncompleteOrDuplicated

  function MarketCounter(counter: SuiObject): Option<nat> {
    match counter.record
    case None => None
    case Some(record) =>
      if !record.isMain || record.marketId != 0 || record.lastMarketId >= OBJECT_LIMIT then None
      else Some(record.lastMarketId)
  }

  // ---------- One hop back ----------

  predicate IsCandidate(change: Change) {
    change.created && change.ownerKind == "SHARED" && (change.objectType == "" || change.objectType == STORAGE_TYPE)
  }

  function Candidates(changes: seq<Change>): seq<string> {
    if changes == [] then [] else
    Candidates(changes[..|changes| - 1])
      + (if IsCandidate(changes[|changes| - 1]) then [changes[|changes| - 1].id] else [])
  }

  predicate IsRoot(objects: map<string, CurrentState>, id: string) {
    id in objects && objects[id] == CurrentState(STORAGE_TYPE, "SHARED")
  }

  function Roots(objects: map<string, CurrentState>, ids: seq<string>): seq<string> {
    if ids == [] then [] else
    Roots(objects, ids[..|ids| - 1]) + (if IsRoot(objects, ids[|ids| - 1]) then [ids[|ids| - 1]] else [])
  }

  function CreatedRoots(ledger: Ledger, changes: seq<Change>): Option<seq<string>> {
    var objects := ledger.objects(Candidates(changes));
    if objects.None? then None else Some(Roots(objects.value, Candidates(changes)))
  }

  /** The version the transaction replaced; the last matching change wins, and zero means none. */
  function InputVersion(changes: seq<Change>, current: SuiObject): nat {
    if changes == [] then 0 else
    var change := changes[|changes| - 1];
    if change.id == current.id && change.outputVersion == current.version && !change.created then change.inputVersion
    else InputVersion(changes[..|changes| - 1], current)
  }

  datatype Hop = Hop(created: seq<string>, previous: SuiObject, before: nat)

  /** One step of the walk: the roots the current version's transaction created, and the version before. */
  function Descend(ledger: Ledger, current: SuiObject, remaining: nat): (r: Result<Hop, DiscoveryError>)
    ensures r.Ok? ==> r.value.before < remaining && |r.value.created| == remaining - r.value.before
  {
    if !ledger.validDigest(current.previousTransaction) then Err(InvalidDigest) else
    var changes := ledger.transaction(current.previousTransaction);
    if changes.None? then Err(TransactionUnread) else
    var version := InputVersion(changes.value, current);
    if version == 0 || version >= current.version then Err(BrokenLineage) else
    var previous := ledger.objectAt(current.id, version);
    if previous.None? then Err(VersionUnread) else
    if previous.value.id != current.id || previous.value.version != version then Err(VersionMismatch) else
    var before := MarketCounter(previous.value);
    if before.None? then Err(InvalidRecord) else
    if before.value >= remaining then Err(CounterDidNotDecrease) else
    var created := CreatedRoots(ledger, changes.value);
    if created.None? then Err(RootsUnread) else
    if |created.value| != remaining - before.value then Err(CreationCountMismatch) else
    Ok(Hop(created.value, previous.value, before.value))
  }

  // ---------- The walk, with and without a cache ----------

  /** The whole walk from a version down to the first market. */
  function Walk(ledger: Ledger, current: SuiObject, remaining: nat): Result<seq<string>, DiscoveryError>
    decreases remaining
  {
    if remaining == 0 then Ok([MAIN_STORAGE]) else
    match Descend(ledger, current, remaining)
    case Err(e) => Err(e)
    case Ok(hop) => Prepend(hop.created, Walk(ledger, hop.previous, hop.before))
  }

  function Prepend(ids: seq<string>, rest: Result<seq<string>, DiscoveryError>): Result<seq<string>, DiscoveryError> {
    if rest.Ok? then Ok(ids + rest.value) else rest
  }

  function Certify(ids: seq<string>, count: nat): Result<seq<string>, DiscoveryError> {
    var sorted := Sort(ids);
    if |sorted| != count + 1 || |Compact(sorted)| != |sorted| then Err(IncompleteOrDuplicated) else Ok(sorted)
  }

  /** What a discovery with no cache answers for a head version. */
  function Inventory(ledger: Ledger, head: SuiObject): Result<seq<string>, DiscoveryError> {
    match MarketCounter(head)
    case None => Err(InvalidRecord)
    case Some(count) =>
      match Walk(ledger, head, count)
      case Err(e) => Err(e)
      case Ok(ids) => Certify(ids, count)
  }

  datatype Cached = Cached(version: nat, digest: string, ids: seq<string>)

  predicate Hit(cache: Cached, current: SuiObject) {
    current.version == cache.version && current.previousTransaction == cache.digest && |cache.ids| > 0
  }

  function CachedWalk(ledger: Ledger, cache: Cached, current: SuiObject,
                      remaining: nat): Result<seq<string>, DiscoveryError>
    decreases remaining
  {
    if Hit(cache, current) then Ok(cache.ids) else
    if remaining == 0 then Ok([MAIN_STORAGE]) else
    match Descend(ledger, current, remaining)
    case Err(e) => Err(e)
    case Ok(hop) => Prepend(hop.created, CachedWalk(ledger, cache, hop.previous, hop.before))
  }

  /** A discovery through the cache: its answer and the cache it leaves. */
  function Discover(ledger: Ledger, cache: Cached, head: SuiObject): (Result<seq<string>, DiscoveryError>, Cached) {
    match MarketCounter(head)
    case None => (Err(InvalidRecord), cache)
    case Some(count) =>
      match CachedWalk(ledger, cache, head, count)
      case Err(e) => (Err(e), cache)
      case Ok(ids) =>
        var r := Certify(ids, count);
        (r, if r.Ok? then Cached(head.version, head.previousTransaction, r.value) else cache)
  }

  // ---------- What the walk returns ----------

  /** The creations telescope: a finished walk has one root per market, whatever lineage it followed. */
  lemma {:induction false} WalkTelescopes(ledger: Ledger, current: SuiObject, remaining: nat)
    ensures var r := Walk(ledger, current, remaining);
            r.Ok? ==> |r.value| == remaining + 1 && r.value[remaining] == MAIN_STORAGE
    decreases remaining
  {
    if remaining > 0 && Descend(ledger, current, remaining).Ok? {
      var hop := Descend(ledger, current, remaining).value;
      WalkTelescopes(ledger, hop.previous, hop.before);
    }
  }

  lemma CertifyExact(ids: seq<string>, count: nat)
    ensures var r := Certify(ids, count);
            && (r.Ok? ==> r.value == Sort(ids) && |r.value| == count + 1 && Increasing(r.value)
                          && multiset(r.value) == multiset(ids))
            && (r.Ok? <==> |ids| == count + 1 && Increasing(Sort(ids)))
  {
    SortOrders(ids);
    assert |multiset(Sort(ids))| == |multiset(ids)|;
    CompactKeepsDistinct(Sort(ids));
  }

  /** A discovered inventory holds `last_market_id + 1` ids in strictly ascending order, the main
      storage among them; and once the walk finishes, only a repeated id can refuse it. */
  lemma InventoryIsComplete(ledger: Ledger, head: SuiObject)
    requires MarketCounter(head).Some?
    ensures var count, walk, r := MarketCounter(head).value, Walk(ledger, head, MarketCounter(head).value), Inventory(ledger, head);
            && (r.Ok? ==> |r.value| == count + 1 && Increasing(r.value) && MAIN_STORAGE in r.value)
            && (walk.Ok? && r.Err? ==> !Increasing(Sort(walk.value)))
            && (walk.Err? ==> r == walk)
  {
    var count := MarketCounter(head).value;
    WalkTelescopes(ledger, head, count);
    var walk := Walk(ledger, head, count);
    if walk.Ok? {
      CertifyExact(walk.value, count);
      assert walk.value[count] in multiset(walk.value);
      var r := Inventory(ledger, head);
      if r.Ok? {
        assert MAIN_STORAGE in multiset(r.value);
      }
    }
  }

  // ---------- What a discovery means ----------

  /** A node that answers every question about current objects from one state of the chain. */
  ghost predicate AnswersFrom(ledger: Ledger, chain: map<string, CurrentState>) {
    forall ids: seq<string> :: ledger.objects(ids).Some? && Agree(ledger.objects(ids).value, chain, ids)
  }

  ghost predicate Agree(reply: map<string, CurrentState>, chain: map<string, CurrentState>, ids: seq<string>) {
    forall id :: id in ids ==> (id in reply <==> id in chain) && (id in chain ==> reply[id] == chain[id])
  }

  /** The change created a market's storage: a shared object, of the storage type or of none stated, that the
      chain still holds as a shared storage. */
  ghost predicate MadeStorage(chain: map<string, CurrentState>, change: Change) {
    && change.created && change.ownerKind == "SHARED"
    && (change.objectType == "" || change.objectType == STORAGE_TYPE)
    && change.id in chain && chain[change.id].objectType == STORAGE_TYPE && chain[change.id].ownerKind == "SHARED"
  }

  /** The storages a transaction made, one for each change that made one. */
  ghost function StoragesMade(chain: map<string, CurrentState>, changes: seq<Change>): seq<string> {
    if changes == [] then [] else
    var last := changes[|changes| - 1];
    StoragesMade(chain, changes[..|changes| - 1]) + (if MadeStorage(chain, last) then [last.id] else [])
  }

  /** Some change made the storage of this id. */
  ghost predicate Made(chain: map<string, CurrentState>, changes: seq<Change>, id: string) {
    exists change :: change in changes && MadeStorage(chain, change) && change.id == id
  }

  lemma {:induction false} StoragesMadeAre(chain: map<string, CurrentState>, changes: seq<Change>)
    ensures forall id :: id in StoragesMade(chain, changes) <==> Made(chain, changes, id)
  {
    if changes != [] {
      var front, last := changes[..|changes| - 1], changes[|changes| - 1];
      StoragesMadeAre(chain, front);
      assert changes == front + [last];
    }
  }

  lemma {:induction false} RootsAreStorages(reply: map<string, CurrentState>, chain: map<string, CurrentState>,
                                            changes: seq<Change>)
    requires Agree(reply, chain, Candidates(changes))
    ensures Roots(reply, Candidates(changes)) == StoragesMade(chain, changes)
  {
    if changes != [] {
      var front, last := changes[..|changes| - 1], changes[|changes| - 1];
      RootsAreStorages(reply, chain, front);
      if IsCandidate(last) {
        assert Candidates(changes) == Candidates(front) + [last.id];
        assert Candidates(changes)[..|Candidates(changes)| - 1] == Candidates(front);
        assert last.id in Candidates(changes);
      } else {
        assert Candidates(changes) == Candidates(front);
      }
    }
  }

  /** Of the changes of a transaction, exactly those that made a storage are discovered, in order. */
  lemma CreatedRootsAreStorages(ledger: Ledger, chain: map<string, CurrentState>, changes: seq<Change>)
    requires AnswersFrom(ledger, chain)
    ensures CreatedRoots(ledger, changes) == Some(StoragesMade(chain, changes))
  {
    RootsAreStorages(ledger.objects(Candidates(changes)).value, chain, changes);
  }

  ghost predicate IsMarketRecord(counter: SuiObject) {
    && counter.record.Some? && counter.record.value.isMain && counter.record.value.marketId == 0
    && counter.record.value.lastMarketId < OBJECT_LIMIT
  }

  ghost predicate Updates(change: Change, counter: SuiObject) {
    change.id == counter.id && change.outputVersion == counter.version && !change.created
  }

  /** The last change that wrote this version of the counter took `version` as its input. */
  ghost predicate Replaced(changes: seq<Change>, counter: SuiObject, version: nat) {
    exists k :: 0 <= k < |changes| && Updates(changes[k], counter) && changes[k].inputVersion == version
                && forall j :: k < j < |changes| ==> !Updates(changes[j], counter)
  }

  lemma {:induction false} InputVersionIs(changes: seq<Change>, counter: SuiObject, version: nat)
    requires version > 0
    ensures InputVersion(changes, counter) == version <==> Replaced(changes, counter, version)
  {
    if changes != [] {
      var front, last := changes[..|changes| - 1], changes[|changes| - 1];
      InputVersionIs(front, counter, version);
      assert changes == front + [last];
      if Updates(last, counter) {
        assert InputVersion(changes, counter) == last.inputVersion;
        assert last.inputVersion == version ==> Replaced(changes, counter, version) by {
          assert Updates(changes[|changes| - 1], counter);
        }
      } else {
        if Replaced(front, counter, version) {
          var k :| 0 <= k < |front| && Updates(front[k], counter) && front[k].inputVersion == version
                   && forall j :: k < j < |front| ==> !Updates(front[j], counter);
          assert Updates(changes[k], counter) && forall j :: k < j < |changes| ==> !Updates(changes[j], counter);
        }
        if Replaced(changes, counter, version) {
          var k :| 0 <= k < |changes| && Updates(changes[k], counter) && changes[k].inputVersion == version
                   && forall j :: k < j < |changes| ==> !Updates(changes[j], counter);
          assert Updates(front[k], counter) && forall j :: k < j < |front| ==> !Updates(front[j], counter);
        }
      }
    }
  }

  /** `older` is the version of the counter that the recorded transaction behind `newer` replaced, and that
      transaction made as many storages as the counter grew by. */
  ghost predicate Precedes(ledger: Ledger, chain: map<string, CurrentState>, older: SuiObject, newer: SuiObject) {
    && IsMarketRecord(older) && IsMarketRecord(newer)
    && ledger.validDigest(newer.previousTransaction) && ledger.transaction(newer.previousTransaction).Some?
    && older.id == newer.id && 0 < older.version < newer.version
    && ledger.objectAt(newer.id, older.version) == Some(older)
    && var changes := ledger.transaction(newer.previousTransaction).value;
       && Replaced(changes, newer, older.version)
       && 0 < |StoragesMade(chain, changes)| == newer.record.value.lastMarketId - older.record.value.lastMarketId
  }

  /** Linked versions of the counter, from the one of the first market on. */
  ghost predicate Lineage(ledger: Ledger, chain: map<string, CurrentState>, versions: seq<SuiObject>) {
    && versions != [] && IsMarketRecord(versions[0]) && versions[0].record.value.lastMarketId == 0
    && forall i :: 0 < i < |versions| ==> Precedes(ledger, chain, versions[i - 1], versions[i])
  }

  /** The main storage and every storage the transactions of a lineage made, newest first. */
  ghost function Markets(ledger: Ledger, chain: map<string, CurrentState>, versions: seq<SuiObject>): seq<string> {
    if |versions| <= 1 then [MAIN_STORAGE] else
    var head := versions[|versions| - 1];
    var changes := ledger.transaction(head.previousTransaction);
    (if changes.Some? then StoragesMade(chain, changes.value) else []) + Markets(ledger, chain, versions[..|versions| - 1])
  }

  /** Every storage the lineage's transactions made, and the main one, is a market; nothing else is. */
  lemma {:induction false} MarketsAre(ledger: Ledger, chain: map<string, CurrentState>, versions: seq<SuiObject>)
    requires Lineage(ledger, chain, versions)
    ensures forall id :: id in Markets(ledger, chain, versions)
                         <==> || id == MAIN_STORAGE
                              || exists i :: 0 < i < |versions| && MadeIn(ledger, chain, versions[i], id)
  {
    if |versions| > 1 {
      var front, head := versions[..|versions| - 1], versions[|versions| - 1];
      MarketsAre(ledger, chain, front);
      assert Precedes(ledger, chain, versions[|versions| - 2], head);
      StoragesMadeAre(chain, ledger.transaction(head.previousTransaction).value);
      forall id
        ensures (exists i :: 0 < i < |versions| && MadeIn(ledger, chain, versions[i], id))
                <==> MadeIn(ledger, chain, head, id) || exists i :: 0 < i < |front| && MadeIn(ledger, chain, front[i], id)
      {
        assert forall i :: 0 < i < |front| ==> front[i] == versions[i];
      }
    }
  }

  ghost predicate MadeIn(ledger: Ledger, chain: map<string, CurrentState>, version: SuiObject, id: string) {
    && ledger.transaction(version.previousTransaction).Some?
    && Made(chain, ledger.transaction(version.previousTransaction).value, id)
  }

  /** One hop of the walk is one link of a lineage. */
  lemma DescendIsPrecedes(ledger: Ledger, chain: map<string, CurrentState>, older: SuiObject, newer: SuiObject)
    requires AnswersFrom(ledger, chain) && IsMarketRecord(newer)
    ensures var r := Descend(ledger, newer, newer.record.value.lastMarketId);
            && (Precedes(ledger, chain, older, newer) <==> r.Ok? && r.value.previous == older)
            && (r.Ok? ==> && IsMarketRecord(r.value.previous) && r.value.before == r.value.previous.record.value.lastMarketId
                          && ledger.transaction(newer.previousTransaction).Some?
                          && r.value.created == StoragesMade(chain, ledger.transaction(newer.previousTransaction).value))
  {
    if ledger.transaction(newer.previousTransaction).Some? {
      var changes := ledger.transaction(newer.previousTransaction).value;
      CreatedRootsAreStorages(ledger, chain, changes);
      if older.version > 0 {
        InputVersionIs(changes, newer, older.version);
      }
      if InputVersion(changes, newer) > 0 {
        InputVersionIs(changes, newer, InputVersion(changes, newer));
      }
    }
  }

  /** The walk from the head of a lineage finishes with its markets. */
  lemma {:induction false} WalkFollowsLineage(ledger: Ledger, chain: map<string, CurrentState>, versions: seq<SuiObject>)
    requires AnswersFrom(ledger, chain) && Lineage(ledger, chain, versions)
    ensures var head := versions[|versions| - 1];
            IsMarketRecord(head) && Walk(ledger, head, head.record.value.lastMarketId) == Ok(Markets(ledger, chain, versions))
  {
    if |versions| > 1 {
      var front, head := versions[..|versions| - 1], versions[|versions| - 1];
      WalkFollowsLineage(ledger, chain, front);
      assert Precedes(ledger, chain, front[|front| - 1], head);
      DescendIsPrecedes(ledger, chain, front[|front| - 1], head);
    }
  }

  /** A walk that finishes has followed a lineage. */
  lemma {:induction false} LineageOfWalk(ledger: Ledger, chain: map<string, CurrentState>, head: SuiObject)
    returns (versions: seq<SuiObject>)
    requires AnswersFrom(ledger, chain) && IsMarketRecord(head)
    requires Walk(ledger, head, head.record.value.lastMarketId).Ok?
    ensures Lineage(ledger, chain, versions) && versions[|versions| - 1] == head
    decreases head.record.value.lastMarketId
  {
    var count := head.record.value.lastMarketId;
    if count == 0 {
      versions := [head];
    } else {
      var hop := Descend(ledger, head, count).value;
      DescendIsPrecedes(ledger, chain, hop.previous, head);
      var older := LineageOfWalk(ledger, chain, hop.previous);
      versions := older + [head];
    }
  }

  /** Discovery succeeds exactly on the head of a lineage none of whose markets is repeated, and then returns
      exactly its markets: every storage its transactions made, and the main one. */
  lemma DiscoveryIsLineage(ledger: Ledger, chain: map<string, CurrentState>, head: SuiObject)
    requires AnswersFrom(ledger, chain)
    ensures Inventory(ledger, head).Ok?
            <==> exists versions :: && Lineage(ledger, chain, versions) && versions[|versions| - 1] == head
                                    && Distinct(Markets(ledger, chain, versions))
    ensures forall versions :: && Lineage(ledger, chain, versions) && versions[|versions| - 1] == head
                               && Distinct(Markets(ledger, chain, versions)) ==>
              && Increasing(Inventory(ledger, head).value)
              && forall id :: id in Inventory(ledger, head).value <==> id in Markets(ledger, chain, versions)
  {
    forall versions | && Lineage(ledger, chain, versions) && versions[|versions| - 1] == head
                      && Distinct(Markets(ledger, chain, versions))
      ensures Inventory(ledger, head).Ok? && Increasing(Inventory(ledger, head).value)
      ensures forall id :: id in Inventory(ledger, head).value <==> id in Markets(ledger, chain, versions)
    {
      LineageIsDiscovered(ledger, chain, versions);
    }
    if Inventory(ledger, head).Ok? {
      var versions := LineageOfWalk(ledger, chain, head);
      LineageIsDiscovered(ledger, chain, versions);
    }
  }

  lemma LineageIsDiscovered(ledger: Ledger, chain: map<string, CurrentState>, versions: seq<SuiObject>)
    requires AnswersFrom(ledger, chain) && Lineage(ledger, chain, versions)
    ensures var markets, r := Markets(ledger, chain, versions), Inventory(ledger, versions[|versions| - 1]);
            && (r.Ok? <==> Distinct(markets))
            && (r.Ok? ==> Increasing(r.value) && forall id :: id in r.value <==> id in markets)
  {
    var head, markets := versions[|versions| - 1], Markets(ledger, chain, versions);
    WalkFollowsLineage(ledger, chain, versions);
    WalkTelescopes(ledger, head, head.record.value.lastMarketId);
    CertifyExact(markets, head.record.value.lastMarketId);
    SortedWithoutRepeats(markets);
    var r := Inventory(ledger, head);
    if r.Ok? {
      forall id ensures id in r.value <==> id in markets {
        assert id in r.value <==> id in multiset(r.value);
        assert id in markets <==> id in multiset(markets);
      }
    }
  }

  // ---------- The cache changes nothing ----------

  /** An object the ledger records at its own version of the counter field. */
  ghost predicate Recorded(ledger: Ledger, field: string, recorded: SuiObject) {
    recorded.id == field && ledger.objectAt(field, recorded.version) == Some(recorded)
  }

  /** The cache is empty, or holds the full inventory of the version it is keyed by. */
  ghost predicate Sound(ledger: Ledger, field: string, cache: Cached) {
    |cache.ids| > 0 ==>
      var keyed := ledger.objectAt(field, cache.version);
      && keyed.Some? && Recorded(ledger, field, keyed.value)
      && keyed.value.version == cache.version && keyed.value.previousTransaction == cache.digest
      && Inventory(ledger, keyed.value) == Ok(cache.ids)
  }

  ghost predicate SameRoots(a: Result<seq<string>, DiscoveryError>, b: Result<seq<string>, DiscoveryError>) {
    if a.Ok? && b.Ok? then multiset(a.value) == multiset(b.value) else a == b
  }

  lemma {:induction false} CachedWalkAgrees(ledger: Ledger, field: string, cache: Cached, current: SuiObject,
                                            remaining: nat)
    requires Sound(ledger, field, cache) && Recorded(ledger, field, current)
    requires MarketCounter(current) == Some(remaining)
    ensures SameRoots(CachedWalk(ledger, cache, current, remaining), Walk(ledger, current, remaining))
    decreases remaining
  {
    if Hit(cache, current) {
      CertifyExact(Walk(ledger, current, remaining).value, remaining);
    } else if remaining > 0 && Descend(ledger, current, remaining).Ok? {
      var hop := Descend(ledger, current, remaining).value;
      CachedWalkAgrees(ledger, field, cache, hop.previous, hop.before);
    }
  }

  /** A discovery through any sound cache answers exactly what an uncached one would, failures
      included, and leaves the cache sound. */
  lemma DiscoverAgrees(ledger: Ledger, field: string, cache: Cached, head: SuiObject)
    requires Sound(ledger, field, cache) && Recorded(ledger, field, head)
    ensures Discover(ledger, cache, head).0 == Inventory(ledger, head)
    ensures Sound(ledger, field, Discover(ledger, cache, head).1)
  {
    if MarketCounter(head).Some? {
      var count := MarketCounter(head).value;
      CachedWalkAgrees(ledger, field, cache, head, count);
      var cached, full := CachedWalk(ledger, cache, head, count), Walk(ledger, head, count);
      if cached.Ok? {
        SortOrders(cached.value);
        SortOrders(full.value);
        OrderedUnique(Sort(cached.value), Sort(full.value));
      }
    }
  }

  /** Discovering the head a discovery has just remembered walks nothing: no ledger's answer matters to it. */
  lemma WarmHeadReadsNothing(ledger: Ledger, cache: Cached, head: SuiObject, other: Ledger)
    requires Discover(ledger, cache, head).0.Ok?
    ensures Discover(other, Discover(ledger, cache, head).1, head) == Discover(ledger, cache, head)
  {
    var count := MarketCounter(head).value;
    var ids := CachedWalk(ledger, cache, head, count).value;
    var r := Discover(ledger, cache, head).0.value;
    CertifyExact(ids, count);
    CertifyExact(r, count);
    SortOrders(r);
    forall i, j | 0 <= i < j < |r| ensures !Less(r[j], r[i]) {
      if Less(r[j], r[i]) {
        LessTransitive(r[i], r[j], r[i]);
        LessIrreflexive(r[i]);
      }
    }
    OrderedUnique(Sort(r), r);
  }

  /** A cache serves only the version it is keyed by, under the digest it is keyed by: where the ledger has no
      such version, the walk is the full one. */
  lemma {:induction false} ForeignCacheIsIgnored(ledger: Ledger, field: string, cache: Cached, current: SuiObject,
                                                 remaining: nat)
    requires current.id == field && !(current.version == cache.version && current.previousTransaction == cache.digest)
    requires forall version :: ledger.objectAt(field, version).Some? ==>
               var o := ledger.objectAt(field, version).value;
               !(o.version == cache.version && o.previousTransaction == cache.digest)
    ensures CachedWalk(ledger, cache, current, remaining) == Walk(ledger, current, remaining)
    decreases remaining
  {
    if remaining > 0 && Descend(ledger, current, remaining).Ok? {
      var hop := Descend(ledger, current, remaining).value;
      ForeignCacheIsIgnored(ledger, field, cache, hop.previous, hop.before);
    }
  }

  function DiscoverAll(ledger: Ledger, cache: Cached, heads: seq<SuiObject>): seq<Result<seq<string>, DiscoveryError>>
    decreases |heads|
  {
    if heads == [] then [] else
    var (r, next) := Discover(ledger, cache, heads[0]);
    [r] + DiscoverAll(ledger, next, heads[1..])
  }

  /** Any sequence of discoveries through one cache, newer and older heads in any order, answers each
      head as if there were no cache. */
  lemma {:induction false} DiscoveriesAgree(ledger: Ledger, field: string, cache: Cached, heads: seq<SuiObject>)
    requires Sound(ledger, field, cache)
    requires forall head :: head in heads ==> Recorded(ledger, field, head)
    ensures |DiscoverAll(ledger, cache, heads)| == |heads|
    ensures forall i :: 0 <= i < |heads| ==> DiscoverAll(ledger, cache, heads)[i] == Inventory(ledger, heads[i])
    decreases |heads|
  {
    if heads != [] {
      DiscoverAgrees(ledger, field, cache, heads[0]);
      DiscoveriesAgree(ledger, field, Discover(ledger, cache, heads[0]).1, heads[1..]);
    }
  }

  // ---------- The cache in place ----------

  /** The two filters of `createdSuiRoots`, as loops. */
  method ReadCreatedRoots(ledger: Ledger, changes: seq<Change>) returns (r: Option<seq<string>>)
    ensures r == CreatedRoots(ledger, changes)
    ensures forall chain :: AnswersFrom(ledger, chain) ==> r.Some? && forall id :: id in r.value <==> Made(chain, changes, id)
  {
    var candidates: seq<string> := [];
    for i := 0 to |changes|
      invariant candidates == Candidates(changes[..i])
    {
      assert changes[..i + 1][..i] == changes[..i];
      if IsCandidate(changes[i]) {
        candidates := candidates + [changes[i].id];
      }
    }
    assert changes[..|changes|] == changes;
    forall chain | AnswersFrom(ledger, chain)
      ensures CreatedRoots(ledger, changes).Some?
      ensures forall id :: id in CreatedRoots(ledger, changes).value <==> Made(chain, changes, id)
    {
      CreatedRootsAreStorages(ledger, chain, changes);
      StoragesMadeAre(chain, changes);
    }
    var objects := ledger.objects(candidates);
    if objects.None? {
      return None;
    }
    var ids: seq<string> := [];
    for i := 0 to |candidates|
      invariant ids == Roots(objects.value, candidates[..i])
    {
      assert candidates[..i + 1][..i] == candidates[..i];
      if IsRoot(objects.value, candidates[i]) {
        ids := ids + [candidates[i]];
      }
    }
    assert candidates[..|candidates|] == candidates;
    return Some(ids);
  }

  /** The root cache of one engine; its gate admits one discovery at a time. */
  class RootCache {
    var version: nat
    var digest: string
    var ids: seq<string>

    function View(): Cached
      reads this
    {
      Cached(version, digest, ids)
    }

    constructor ()
      ensures View() == Cached(0, "", [])
    {
      version, digest, ids := 0, "", [];
    }

    /** Returns the uncached inventory of `head` and remembers it; a failure leaves the cache alone. */
    method DiscoverMarkets(ledger: Ledger, ghost field: string, head: SuiObject)
      returns (r: Result<seq<string>, DiscoveryError>)
      requires Sound(ledger, field, View()) && Recorded(ledger, field, head)
      modifies this
      ensures r == Inventory(ledger, head)
      ensures Sound(ledger, field, View())
      ensures View() == if r.Ok? then Cached(head.version, head.previousTransaction, r.value) else old(View())
    {
      DiscoverAgrees(ledger, field, View(), head);
      var counter := MarketCounter(head);
      if counter.None? {
        return Err(InvalidRecord);
      }
      var count := counter.value;
      var current, remaining := head, count;
      var found: seq<string> := [];
      ghost var walk := CachedWalk(ledger, View(), head, count);
      assert walk.Ok? ==> [] + walk.value == walk.value;
      while !Hit(View(), current) && remaining > 0
        invariant View() == old(View())
        invariant walk == Prepend(found, CachedWalk(ledger, View(), current, remaining))
        decreases remaining
      {
        var hop := Descend(ledger, current, remaining);
        if hop.Err? {
          return Err(hop.error);
        }
        PrependTwice(found, hop.value.created, CachedWalk(ledger, View(), hop.value.previous, hop.value.before));
        found := found + hop.value.created;
        current, remaining := hop.value.previous, hop.value.before;
      }
      found := found + if Hit(View(), current) then ids else [MAIN_STORAGE];
      r := Certify(found, count);
      if r.Ok? {
        version, digest, ids := head.version, head.previousTransaction, r.value;
      }
    }
  }

  lemma PrependTwice(a: seq<string>, b: seq<string>, rest: Result<seq<string>, DiscoveryError>)
    ensures Prepend(a, Prepend(b, rest)) == Prepend(a + b, rest)
  {
    if rest.Ok? {
      assert a + (b + rest.value) == a + b + rest.value;
    }
  }
}
