/** The bounded walks over on-chain linked lists: Maker's vaults of an owner, and the Instadapp
    accounts of a wallet. Each contract read may fail, which is an absent answer here. */
module LinkedLists {
  import opened Wrappers

  // ---------- Zero-terminated lists ----------

  /** `path` is the list that `first` heads: non-zero nodes, each linked to the following one and the
      last to zero. */
  ghost predicate IsList(first: nat, next: nat -> Option<nat>, path: seq<nat>) {
    Visited(first, next, path, 0)
  }

  /** A walk that has visited `ids` and stands on `current`. */
  ghost predicate Visited(first: nat, next: nat -> Option<nat>, ids: seq<nat>, current: nat) {
    && first == At(ids, 0, current)
    && forall i :: 0 <= i < |ids| ==> ids[i] != 0 && next(ids[i]) == Some(At(ids, i + 1, current))
  }

  /** The `i`-th node of a walk, or where the walk stands. */
  ghost function At(ids: seq<nat>, i: nat, current: nat): nat {
    if i < |ids| then ids[i] else current
  }

  /** A walk is always the beginning of the list, if there is one. */
  lemma {:induction false} WalkFollowsList(first: nat, next: nat -> Option<nat>, ids: seq<nat>, current: nat,
                                           path: seq<nat>)
    requires Visited(first, next, ids, current) && IsList(first, next, path)
    ensures ids <= path && current == At(path, |ids|, 0)
  {
    if ids != [] {
      var k := |ids| - 1;
      assert Visited(first, next, ids[..k], ids[k]);
      WalkFollowsList(first, next, ids[..k], ids[k], path);
      assert ids[k] == path[k];
      assert next(ids[k]) == Some(current);
    }
  }

  lemma SuffixIsList(first: nat, next: nat -> Option<nat>, path: seq<nat>, i: nat)
    requires IsList(first, next, path) && i <= |path|
    ensures IsList(At(path, i, 0), next, path[i..])
  {
  }

  /** A zero-terminated list cannot revisit a node: from a node met twice it would have two ends. */
  lemma ListIsSimple(first: nat, next: nat -> Option<nat>, path: seq<nat>)
    requires IsList(first, next, path)
    ensures forall i, j :: 0 <= i < j < |path| ==> path[i] != path[j]
  {
    forall i, j | 0 <= i < j < |path| ensures path[i] != path[j] {
      if path[i] == path[j] {
        SuffixIsList(first, next, path, i);
        SuffixIsList(first, next, path, j);
        var long, short := path[i..], path[j..];
        assert Visited(path[i], next, long, 0);
        WalkFollowsList(path[i], next, long, 0, short);
      }
    }
  }

  // ---------- Maker vaults ----------

  const MAXIMUM_VAULTS_PER_OWNER: nat := 1_024

  datatype WalkError =
    | TooMany | EndedEarly | Cycle | ReadFailed | ExceedsCount
    | EmptyListWithEndpoints | MissingEndpoint | BackEdge | ZeroAddress | DuplicateAddress | WrongTail

  /** Succeeds exactly when the owner's list is zero-terminated and as long as declared, and then
      returns its nodes in order. */
  method OwnerCDPs(count: nat, first: nat, next: nat -> Option<nat>) returns (r: Result<seq<nat>, WalkError>)
    ensures r.Ok? <==> count <= MAXIMUM_VAULTS_PER_OWNER
                       && exists path :: IsList(first, next, path) && |path| == count
    ensures r.Ok? ==> IsList(first, next, r.value) && |r.value| == count
    ensures r.Ok? ==> forall i, j :: 0 <= i < j < count ==> r.value[i] != r.value[j]
  {
    if count > MAXIMUM_VAULTS_PER_OWNER {
      return Err(TooMany);
    }
    var ids: seq<nat>, seen: set<nat> := [], {};
    var current := first;
    var offset := 0;
    while offset < count
      invariant offset == |ids| <= count
      invariant Visited(first, next, ids, current)
      invariant seen == set id | id in ids
    {
      NoOtherList(count, first, next, ids, current);
      if current == 0 {
        return Err(EndedEarly);
      }
      if current in seen {
        return Err(Cycle);
      }
      seen := seen + {current};
      ids := ids + [current];
      var row := next(current);
      if row.None? {
        return Err(ReadFailed);
      }
      current := row.value;
      offset := offset + 1;
    }
    NoOtherList(count, first, next, ids, current);
    if current != 0 {
      return Err(ExceedsCount);
    }
    assert IsList(first, next, ids);
    ListIsSimple(first, next, ids);
    return Ok(ids);
  }

  /** What a walk's state says about every list of the declared length: each refusal of the walk
      contradicts one of these. */
  lemma NoOtherList(count: nat, first: nat, next: nat -> Option<nat>, ids: seq<nat>, current: nat)
    requires Visited(first, next, ids, current) && |ids| <= count
    ensures forall path :: IsList(first, next, path) && |path| == count ==>
              && current == At(path, |ids|, 0)
              && current !in ids
              && (|ids| < count ==> current != 0 && next(current).Some?)
  {
    forall path | IsList(first, next, path) && |path| == count
      ensures && current == At(path, |ids|, 0)
              && current !in ids
              && (|ids| < count ==> current != 0 && next(current).Some?)
    {
      WalkFollowsList(first, next, ids, current, path);
      ListIsSimple(first, next, path);
    }
  }

  // ---------- Instadapp accounts ----------

  type Address = nat
  const MAXIMUM_ACCOUNTS: nat := 256

  datatype Edge = Edge(previous: nat, next: nat)

  datatype Account = Account(address: Address, attribution: string, source: string)

  function Direct(owner: Address): Account {
    Account(owner, "wallet", "direct")
  }

  function Attributed(address: Address): Account {
    Account(address, "instadapp-dsa", "instadapp-list")
  }

  const ZERO_ADDRESS: Address := 0

  /** What the list contract answers about one owner: the declared ends and length, and each node's
      edges and address. */
  datatype Registry = Registry(
    owner: Address, first: nat, last: nat, count: nat, edges: nat -> Option<Edge>, addresses: nat -> Option<Address>)
  {
    function Next(): nat -> Option<nat> {
      id => if edges(id).Some? then Some(edges(id).value.next) else None
    }

    /** A node fits behind `ids`: it points back to the last of them, and its address is set, not the
        owner's and none of theirs. */
    ghost predicate Fits(ids: seq<nat>, node: nat) {
      && edges(node).Some? && edges(node).value.previous == Last(ids)
      && addresses(node).Some? && addresses(node).value != ZERO_ADDRESS && addresses(node).value != owner
      && addresses(node).value !in AddressesOf(ids)
    }

    ghost predicate AllFit(path: seq<nat>) {
      path == [] || (AllFit(Front(path)) && Fits(Front(path), Last(path)))
    }

    /** The registry declares exactly the list `path`. */
    ghost predicate Declares(path: seq<nat>) {
      IsList(first, Next(), path) && |path| == count && last == Last(path) && AllFit(path)
    }

    ghost predicate WellFormed() {
      exists path :: Declares(path)
    }

    ghost function AddressesOf(ids: seq<nat>): set<Address> {
      set id | id in ids && addresses(id).Some? :: addresses(id).value
    }

    ghost function AccountsOf(path: seq<nat>): seq<Account> {
      if path == [] then [Direct(owner)] else
      AccountsOf(Front(path))
        + (if addresses(Last(path)).Some? then [Attributed(addresses(Last(path)).value)] else [])
    }
  }

  ghost function IdsOf(ids: seq<nat>): set<nat> {
    set id | id in ids
  }

  ghost function Last(ids: seq<nat>): nat {
    if ids == [] then 0 else ids[|ids| - 1]
  }

  ghost function Front(ids: seq<nat>): seq<nat> {
    if ids == [] then [] else ids[..|ids| - 1]
  }

  /** Where the list contract is not deployed the wallet stands alone. Elsewhere the scope resolves
      exactly when the registry declares a well-formed list of at most 256 nodes, and is then the wallet
      followed by every account of that list, in order. */
  method ResolveAccountScope(deployed: bool, registry: Registry) returns (r: Result<seq<Account>, WalkError>)
    ensures !deployed ==> r == Ok([Direct(registry.owner)])
    ensures deployed ==> (r.Ok? <==> registry.count <= MAXIMUM_ACCOUNTS && registry.WellFormed())
    ensures deployed && r.Ok? ==> exists path :: registry.Declares(path) && r.value == registry.AccountsOf(path)
  {
    if !deployed {
      return Ok([Direct(registry.owner)]);
    }
    if registry.count > MAXIMUM_ACCOUNTS {
      return Err(TooMany);
    }
    if registry.count == 0 {
      if registry.first != 0 || registry.last != 0 {
        return Err(EmptyListWithEndpoints);
      }
      assert registry.Declares([]);
      return Ok([Direct(registry.owner)]);
    }
    if registry.first == 0 || registry.last == 0 {
      return Err(MissingEndpoint);
    }
    r := WalkRegistry(registry);
  }

  /** The variables of the walk behind the nodes `ids`. */
  ghost predicate Walked(
    registry: Registry, ids: seq<nat>, current: nat, previous: nat,
    seenIDs: set<nat>, seenAddresses: set<Address>, result: seq<Account>)
  {
    && Visited(registry.first, registry.Next(), ids, current)
    && registry.AllFit(ids)
    && previous == Last(ids)
    && seenIDs == IdsOf(ids)
    && seenAddresses == {registry.owner} + registry.AddressesOf(ids)
    && result == registry.AccountsOf(ids)
  }

  method WalkRegistry(registry: Registry) returns (r: Result<seq<Account>, WalkError>)
    requires registry.count > 0
    ensures r.Ok? <==> registry.WellFormed()
    ensures r.Ok? ==> exists path :: registry.Declares(path) && r.value == registry.AccountsOf(path)
  {
    var result := [Direct(registry.owner)];
    var seenIDs: set<nat>, seenAddresses := {}, {registry.owner};
    var current, previous := registry.first, 0;
    ghost var ids: seq<nat> := [];
    var offset := 0;
    while offset < registry.count
      invariant offset == |ids| <= registry.count
      invariant Walked(registry, ids, current, previous, seenIDs, seenAddresses, result)
    {
      MustFit(registry, ids, current);
      var checked := CheckNode(registry, current, previous, seenIDs, seenAddresses, ids);
      if checked.Err? {
        return Err(checked.error);
      }
      OneMore(registry, ids, current, previous, seenIDs, seenAddresses, result, checked.value.0, checked.value.1);
      seenIDs := seenIDs + {current};
      seenAddresses := seenAddresses + {checked.value.0};
      result := result + [Attributed(checked.value.0)];
      ids := ids + [current];
      previous := current;
      current := checked.value.1;
      offset := offset + 1;
    }
    MustEnd(registry, ids, current);
    if previous != registry.last || current != 0 {
      return Err(WrongTail);
    }
    assert registry.Declares(ids);
    return Ok(result);
  }

  /** The checks of one loop turn: the node's address and the next node, when the node fits. */
  method CheckNode(
    registry: Registry, current: nat, previous: nat, seenIDs: set<nat>, seenAddresses: set<Address>, ghost ids: seq<nat>)
    returns (r: Result<(Address, nat), WalkError>)
    requires previous == Last(ids) && seenIDs == IdsOf(ids)
    requires seenAddresses == {registry.owner} + registry.AddressesOf(ids)
    ensures r.Ok? <==> current != 0 && current !in ids && registry.Fits(ids, current)
    ensures r.Ok? ==> registry.addresses(current) == Some(r.value.0) && registry.Next()(current) == Some(r.value.1)
  {
    if current == 0 {
      return Err(EndedEarly);
    }
    if current in seenIDs {
      return Err(Cycle);
    }
    var address, edge := registry.addresses(current), registry.edges(current);
    if address.None? || edge.None? {
      return Err(ReadFailed);
    }
    if edge.value.previous != previous {
      return Err(BackEdge);
    }
    if address.value == ZERO_ADDRESS {
      return Err(ZeroAddress);
    }
    if address.value in seenAddresses {
      return Err(DuplicateAddress);
    }
    return Ok((address.value, edge.value.next));
  }

  lemma VisitedMore(first: nat, next: nat -> Option<nat>, ids: seq<nat>, current: nat, following: nat)
    requires Visited(first, next, ids, current) && current != 0 && next(current) == Some(following)
    ensures Visited(first, next, ids + [current], following)
  {
  }

  lemma OneMore(
    registry: Registry, ids: seq<nat>, current: nat, previous: nat,
    seenIDs: set<nat>, seenAddresses: set<Address>, result: seq<Account>, address: Address, next: nat)
    requires Walked(registry, ids, current, previous, seenIDs, seenAddresses, result)
    requires current != 0 && registry.Fits(ids, current)
    requires registry.addresses(current) == Some(address) && registry.Next()(current) == Some(next)
    ensures Walked(registry, ids + [current], next, current, seenIDs + {current}, seenAddresses + {address},
                   result + [Attributed(address)])
  {
    VisitedMore(registry.first, registry.Next(), ids, current, next);
    FitMore(registry, ids, current, address);
  }

  lemma FitMore(registry: Registry, ids: seq<nat>, node: nat, address: Address)
    requires registry.AllFit(ids) && registry.Fits(ids, node) && registry.addresses(node) == Some(address)
    ensures Last(ids + [node]) == node && IdsOf(ids + [node]) == IdsOf(ids) + {node} && registry.AllFit(ids + [node])
    ensures registry.AddressesOf(ids + [node]) == registry.AddressesOf(ids) + {address}
    ensures registry.AccountsOf(ids + [node]) == registry.AccountsOf(ids) + [Attributed(address)]
  {
  }

  lemma {:induction false} FitsAt(registry: Registry, path: seq<nat>, k: nat)
    requires registry.AllFit(path) && k < |path|
    ensures registry.Fits(path[..k], path[k])
  {
    if k < |path| - 1 {
      FitsAt(registry, Front(path), k);
      assert Front(path)[..k] == path[..k];
    }
  }

  /** A walk short of the declared length stands on a node that fits, if the registry is well formed. */
  lemma MustFit(registry: Registry, ids: seq<nat>, current: nat)
    requires Visited(registry.first, registry.Next(), ids, current) && |ids| < registry.count
    ensures registry.WellFormed() ==> current != 0 && current !in ids && registry.Fits(ids, current)
  {
    if registry.WellFormed() {
      var path :| registry.Declares(path);
      WalkFollowsList(registry.first, registry.Next(), ids, current, path);
      ListIsSimple(registry.first, registry.Next(), path);
      FitsAt(registry, path, |ids|);
      assert ids == path[..|ids|];
    }
  }

  lemma MustEnd(registry: Registry, ids: seq<nat>, current: nat)
    requires Visited(registry.first, registry.Next(), ids, current) && |ids| == registry.count
    ensures registry.WellFormed() ==> current == 0 && Last(ids) == registry.last
  {
    if registry.WellFormed() {
      var path :| registry.Declares(path);
      WalkFollowsList(registry.first, registry.Next(), ids, current, path);
      assert ids == path;
    }
  }

  /** A resolved scope names the owner first, then every node's account, and no address twice. */
  lemma {:induction false} ScopeHasNoDuplicates(registry: Registry, path: seq<nat>)
    requires registry.AllFit(path)
    ensures var scope := registry.AccountsOf(path);
            && |scope| == |path| + 1 && scope[0] == Direct(registry.owner)
            && (forall k :: 0 < k < |scope| ==> scope[k].address in registry.AddressesOf(path))
            && forall i, j :: 0 <= i < j < |scope| ==> scope[i].address != scope[j].address
  {
    if path != [] {
      ScopeHasNoDuplicates(registry, Front(path));
      assert path == Front(path) + [Last(path)];
      assert registry.AddressesOf(path) == registry.AddressesOf(Front(path)) + {registry.addresses(Last(path)).value};
    }
  }
}
