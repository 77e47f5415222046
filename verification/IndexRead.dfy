/** A whole index read: the processor status, the presence proof that may answer for every page, and the
    pages. The proof is a shortcut; what it must agree with is the paging reference. */
module IndexRead {
  import opened Wrappers
  import opened IndexCheckpoint
  import opened IndexWhere
  import opened IndexPages
  import opened IndexLoop

  // ---------- The probe ----------

  const PRESENCE_MIN_CHAINS: nat := 3
  const NO_ACCOUNT := ""

  /** One deployed index: its label, its endpoint, the chains it serves, and whether reads may be answered
      by a presence proof. */
  datatype Deployment = Deployment(name: string, url: string, chains: seq<ChainID>, probe: bool, standIn: StandIn)

  function Clauses(stream: Stream, chains: seq<ChainID>): (r: seq<string>)
    ensures |r| == |chains|
  {
    seq(|chains|, k requires 0 <= k < |chains| => Render(stream.where(chains[k]), ""))
  }

  /** The probe of a read, as the fields that name it: every stream's clause on every chain. */
  function ProbeFields(streams: seq<Stream>, chains: seq<ChainID>): (r: seq<Field>)
    ensures |r| == |streams|
  {
    seq(|streams|, i requires 0 <= i < |streams| => Field(streams[i].entity, Clauses(streams[i], chains)))
  }

  /** Whether a presence proof may answer the read: the deployment allows it, and its streams share one
      account and bound their ids by a prefix wherever the deployment is served. */
  predicate Provable(x: Deployment, streams: seq<Stream>) {
    && x.probe && streams != []
    && forall i :: 0 <= i < |streams| ==>
         && streams[i].account != NO_ACCOUNT && streams[i].account == streams[0].account
         && forall k :: 0 <= k < |x.chains| ==> streams[i].where(x.chains[k]).prefix != ""
  }

  function KeyOf(x: Deployment, streams: seq<Stream>): string
    requires streams != []
  {
    PresenceKey(x.name, ProbeFields(streams, x.chains), x.url, streams[0].account)
  }

  /** Every stream selects this account's rows, under a prefix on every chain served. */
  ghost predicate SelectsUnderPrefixes(x: Deployment, streams: seq<Stream>, account: string) {
    && account != NO_ACCOUNT
    && forall stream :: stream in streams ==>
         stream.account == account && forall chain :: chain in x.chains ==> stream.where(chain).prefix != ""
  }

  /** A read may be proven empty exactly when its deployment probes and its streams, one at least, all select
      some one account's rows under prefixes. */
  lemma WhoMayBeProven(x: Deployment, streams: seq<Stream>)
    ensures Provable(x, streams)
            <==> x.probe && streams != [] && exists account :: SelectsUnderPrefixes(x, streams, account)
  {
    if streams != [] {
      assert streams[0] in streams;
      assert Provable(x, streams) ==> SelectsUnderPrefixes(x, streams, streams[0].account);
    }
  }

  /** Names are plain words, so the memo key can be taken apart again. */
  ghost predicate WellNamedRead(x: Deployment, streams: seq<Stream>) {
    && Plain(x.name)
    && forall i :: 0 <= i < |streams| ==>
         Plain(streams[i].entity) && forall chain :: PlainTerms(streams[i].where(chain).terms)
  }

  // ---------- Targets and the request ----------

  datatype Target = Target(block: BlockRef, queryBlock: nat)

  predicate IsTarget(x: Deployment, pinned: map<ChainID, BlockRef>, statuses: Statuses, chain: ChainID) {
    && chain in x.chains && chain in pinned && chain in statuses
    && !statuses[chain].failed && statuses[chain].state == PROCESSING_LATEST
    && !(pinned[chain].isFixed && statuses[chain].processedBlock < pinned[chain].number)
  }

  /** The chains the probe can speak for, each at the block its own pages would ask at. */
  function Targets(x: Deployment, pinned: map<ChainID, BlockRef>, statuses: Statuses): map<ChainID, Target> {
    map chain | chain in pinned && IsTarget(x, pinned, statuses, chain) ::
      Target(pinned[chain], Min(pinned[chain].number, statuses[chain].processedBlock))
  }

  /** The probe speaks for exactly the pinned chains whose own read would accept the status, and asks each
      at the block that read would ask at. */
  lemma TargetsAreWhatReadsAccept(x: Deployment, pinned: map<ChainID, BlockRef>, statuses: Statuses, chain: ChainID)
    requires chain in pinned && pinned[chain].chain == chain
    ensures var own := QueryBlock(pinned[chain], StatusesForScan(x, chain, _ => Ok(statuses)));
            && (chain in Targets(x, pinned, statuses) <==> own.Ok?)
            && (own.Ok? ==> Targets(x, pinned, statuses)[chain] == Target(pinned[chain], own.value.1))
  {
    var read := StatusesForScan(x, chain, _ => Ok(statuses));
    assert read(false) == read(true)
           == if chain !in x.chains then Err(ChainNotConfigured) else ValidateStatuses(statuses, chain);
  }

  datatype FieldAsk = FieldAsk(entity: string, clause: string)

  datatype ChainAsk = ChainAsk(block: nat, fields: seq<FieldAsk>)

  type ProbeQuery = map<ChainID, ChainAsk>

  /** One reply for all chains; a checkpoint list or a field that is omitted or malformed is absent. */
  datatype ProbeReply = ProbeReply(checkpoints: map<ChainID, seq<CheckpointRow>>, rows: map<(nat, ChainID), seq<Row>>)

  type ProbeServer = ProbeQuery -> Option<ProbeReply>

  function FieldAsks(streams: seq<Stream>, chain: ChainID): (r: seq<FieldAsk>)
    ensures |r| == |streams|
  {
    seq(|streams|, i requires 0 <= i < |streams| => FieldAsk(streams[i].entity, Render(streams[i].where(chain), "")))
  }

  function QueryFor(streams: seq<Stream>, targets: map<ChainID, Target>): ProbeQuery {
    map chain | chain in targets :: ChainAsk(targets[chain].queryBlock, FieldAsks(streams, chain))
  }

  datatype Proof = Proof(queryBlock: nat, checkpoint: nat, checkpointMs: nat)

  /** One chain's verdict: a written checkpoint that certifies the pin without a note, and no row in any field. */
  function ChainEmpty(fields: nat, reply: ProbeReply, chain: ChainID, target: Target): Option<Proof> {
    if chain !in reply.checkpoints then None else
    var parsed := ParseCheckpoint(Some(reply.checkpoints[chain]));
    if parsed.Err? || !parsed.value.written || parsed.value.block > target.queryBlock then None else
    if CheckCheckpoint(target.block, parsed.value.block, parsed.value.ms) != Ok(None) then None else
    if forall i :: 0 <= i < fields ==> (i, chain) in reply.rows && reply.rows[(i, chain)] == []
    then Some(Proof(target.queryBlock, parsed.value.block, parsed.value.ms)) else None
  }

  /** The chains a probe finds empty, each with its proof: none at all below the smallest worthwhile
      number of targets, or when the request fails. */
  function Presence(x: Deployment, streams: seq<Stream>, pinned: map<ChainID, BlockRef>, statuses: Statuses,
                    server: ProbeServer): map<ChainID, Proof>
  {
    var targets := Targets(x, pinned, statuses);
    if |targets| < PRESENCE_MIN_CHAINS then map[] else
    var reply := server(QueryFor(streams, targets));
    if reply.None? then map[] else
    map chain | chain in targets && ChainEmpty(|streams|, reply.value, chain, targets[chain]).Some? ::
      ChainEmpty(|streams|, reply.value, chain, targets[chain]).value
  }

  /** A probe server that answers every chain's question from the index. */
  ghost predicate HonestProbe(index: TimeTravel, server: ProbeServer) {
    forall query: ProbeQuery :: server(query).Some? ==> ProbeAnswered(index, query, server(query).value)
  }

  ghost predicate ProbeAnswered(index: TimeTravel, query: ProbeQuery, reply: ProbeReply) {
    forall chain :: chain in query ==>
      && (chain in reply.checkpoints ==>
            reply.checkpoints[chain] == CheckpointRows(index.checkpoint(chain, query[chain].block)))
      && forall i :: 0 <= i < |query[chain].fields| && (i, chain) in reply.rows ==>
           reply.rows[(i, chain)]
           == Take(index.rows(chain, query[chain].block, query[chain].fields[i].entity, query[chain].fields[i].clause), 1)
  }

  // ---------- What a proof means ----------

  /** The proof is a fact about the index: at its block, which the pin allows, every clause the read asks
      selects nothing, and the checkpoint certifies the pin without a note. */
  ghost predicate Holds(index: TimeTravel, fields: seq<Field>, chains: seq<ChainID>, pin: BlockRef, chain: ChainID,
                        proof: Proof) {
    && proof.queryBlock <= pin.number && (pin.isFixed ==> proof.queryBlock == pin.number)
    && index.checkpoint(chain, proof.queryBlock) == Checkpoint(true, proof.checkpoint, proof.checkpointMs)
    && proof.checkpoint <= proof.queryBlock
    && CheckCheckpoint(pin, proof.checkpoint, proof.checkpointMs) == Ok(None)
    && forall i, k :: 0 <= i < |fields| && 0 <= k < |fields[i].clauses| && k < |chains| && chains[k] == chain ==>
         index.rows(chain, proof.queryBlock, fields[i].entity, fields[i].clauses[k]) == []
  }

  /** Every verdict against an honest server is sound. */
  lemma PresenceIsSound(index: TimeTravel, x: Deployment, streams: seq<Stream>, pinned: map<ChainID, BlockRef>,
                        statuses: Statuses, server: ProbeServer)
    requires Regular(index) && HonestProbe(index, server)
    ensures var proofs := Presence(x, streams, pinned, statuses, server);
            forall chain :: chain in proofs ==>
              && chain in x.chains && chain in pinned
              && Holds(index, ProbeFields(streams, x.chains), x.chains, pinned[chain], chain, proofs[chain])
  {
    var targets := Targets(x, pinned, statuses);
    var query := QueryFor(streams, targets);
    var proofs := Presence(x, streams, pinned, statuses, server);
    forall chain | chain in proofs
      ensures Holds(index, ProbeFields(streams, x.chains), x.chains, pinned[chain], chain, proofs[chain])
    {
      assert ProbeAnswered(index, query, server(query).value);
      assert query[chain].fields == FieldAsks(streams, chain);
      ChainEmptyIsSound(index, x, streams, targets[chain], server(query).value, chain);
    }
  }

  lemma ChainEmptyIsSound(index: TimeTravel, x: Deployment, streams: seq<Stream>, target: Target, reply: ProbeReply,
                          chain: ChainID)
    requires Regular(index) && ChainEmpty(|streams|, reply, chain, target).Some?
    requires target.queryBlock <= target.block.number && (target.block.isFixed ==> target.queryBlock == target.block.number)
    requires chain in reply.checkpoints ==>
               reply.checkpoints[chain] == CheckpointRows(index.checkpoint(chain, target.queryBlock))
    requires forall i :: 0 <= i < |streams| && (i, chain) in reply.rows ==>
               reply.rows[(i, chain)]
               == Take(index.rows(chain, target.queryBlock, streams[i].entity, Render(streams[i].where(chain), "")), 1)
    ensures Holds(index, ProbeFields(streams, x.chains), x.chains, target.block, chain,
                  ChainEmpty(|streams|, reply, chain, target).value)
  {
  }

  /** A probe server whose reply never leaves out anything it was asked for. */
  ghost predicate CompleteProbe(server: ProbeServer) {
    forall query: ProbeQuery :: server(query).Some? && NothingOmitted(query, server(query).value)
  }

  ghost predicate NothingOmitted(query: ProbeQuery, reply: ProbeReply) {
    forall chain :: chain in query ==>
      && chain in reply.checkpoints
      && forall i :: 0 <= i < |query[chain].fields| ==> (i, chain) in reply.rows
  }

  /** The proof an index offers for a chain at a block. */
  ghost function ProofAt(index: TimeTravel, chain: ChainID, block: nat): Proof {
    Proof(block, index.checkpoint(chain, block).block, index.checkpoint(chain, block).ms)
  }

  /** Against an honest server that omits nothing, a probe of enough chains proves exactly those at whose
      block the index selects nothing and has a checkpoint that certifies the pin. */
  lemma PresenceIsExact(index: TimeTravel, x: Deployment, streams: seq<Stream>, pinned: map<ChainID, BlockRef>,
                        statuses: Statuses, server: ProbeServer, chain: ChainID)
    requires Regular(index) && HonestProbe(index, server) && CompleteProbe(server)
    ensures var targets, proofs := Targets(x, pinned, statuses), Presence(x, streams, pinned, statuses, server);
            && (chain in proofs <==>
                  && |targets| >= PRESENCE_MIN_CHAINS && chain in targets
                  && Holds(index, ProbeFields(streams, x.chains), x.chains, pinned[chain], chain,
                           ProofAt(index, chain, targets[chain].queryBlock)))
            && (chain in proofs ==> proofs[chain] == ProofAt(index, chain, targets[chain].queryBlock))
  {
    var targets := Targets(x, pinned, statuses);
    if |targets| >= PRESENCE_MIN_CHAINS && chain in targets {
      var query := QueryFor(streams, targets);
      var reply := server(query).value;
      assert ProbeAnswered(index, query, reply) && NothingOmitted(query, reply);
      assert query[chain].fields == FieldAsks(streams, chain);
      ChainEmptyIsExact(index, x, streams, targets[chain], reply, chain);
    }
  }

  lemma ChainEmptyIsExact(index: TimeTravel, x: Deployment, streams: seq<Stream>, target: Target, reply: ProbeReply,
                          chain: ChainID)
    requires Regular(index) && chain in x.chains && chain in reply.checkpoints
    requires target.queryBlock <= target.block.number && (target.block.isFixed ==> target.queryBlock == target.block.number)
    requires reply.checkpoints[chain] == CheckpointRows(index.checkpoint(chain, target.queryBlock))
    requires forall i :: 0 <= i < |streams| ==>
               && (i, chain) in reply.rows
               && reply.rows[(i, chain)]
                  == Take(index.rows(chain, target.queryBlock, streams[i].entity, Render(streams[i].where(chain), "")), 1)
    ensures var proof := ProofAt(index, chain, target.queryBlock);
            ChainEmpty(|streams|, reply, chain, target)
            == if Holds(index, ProbeFields(streams, x.chains), x.chains, target.block, chain, proof) then Some(proof) else None
  {
    var proof := ProofAt(index, chain, target.queryBlock);
    var fields := ProbeFields(streams, x.chains);
    if Holds(index, fields, x.chains, target.block, chain, proof) {
      var k :| 0 <= k < |x.chains| && x.chains[k] == chain;
      forall i | 0 <= i < |streams| ensures reply.rows[(i, chain)] == [] {
        assert fields[i].clauses[k] == Render(streams[i].where(chain), "");
      }
    } else if ChainEmpty(|streams|, reply, chain, target).Some? {
      ChainEmptyIsSound(index, x, streams, target, reply, chain);
    }
  }

  /** At a proof's block no stream has anything to page. */
  lemma NothingToPage(index: TimeTravel, x: Deployment, streams: seq<Stream>, pin: BlockRef, proof: Proof)
    requires Regular(index) && pin.chain in x.chains
    requires Holds(index, ProbeFields(streams, x.chains), x.chains, pin, pin.chain, proof)
    ensures forall i :: 0 <= i < |streams| ==> Paged(index, At(pin, proof.queryBlock), streams[i]) == []
  {
    var k :| 0 <= k < |x.chains| && x.chains[k] == pin.chain;
    var fields := ProbeFields(streams, x.chains);
    forall i | 0 <= i < |streams| ensures Paged(index, At(pin, proof.queryBlock), streams[i]) == [] {
      assert fields[i].clauses[k] == Render(streams[i].where(pin.chain), "");
      assert index.rows(pin.chain, proof.queryBlock, fields[i].entity, fields[i].clauses[k]) == [];
      assert Selected(index, At(pin, proof.queryBlock), streams[i]) == [];
    }
  }

  /** A chain whose clauses select nothing is answered by its pages exactly as by the proof, as long as
      the read's streams are well declared. */
  lemma ProofAgreesWithPages(index: TimeTravel, x: Deployment, streams: seq<Stream>, pin: BlockRef, proof: Proof)
    requires Regular(index) && pin.chain in x.chains
    requires Holds(index, ProbeFields(streams, x.chains), x.chains, pin, pin.chain, proof)
    ensures var at := At(pin, proof.queryBlock);
            && (Answerable(index, x.standIn, at, streams, None) <==> WellFormed(streams))
            && (WellFormed(streams) ==>
                  Reference(index, x.standIn, at, streams, None)
                  == Answer(Checkpoint(true, proof.checkpoint, proof.checkpointMs), None, NoRows(streams)))
  {
    NothingToPage(index, x, streams, pin, proof);
    if WellFormed(streams) {
      var at := At(pin, proof.queryBlock);
      assert forall i :: 0 <= i < |streams| ==> Fits(streams[i], pin.chain, []);
      assert Answerable(index, x.standIn, at, streams, None);
      assert Reference(index, x.standIn, at, streams, None).rows == NoRows(streams);
    }
  }

  function NoRows(streams: seq<Stream>): seq<seq<Taken>> {
    seq(|streams|, i requires 0 <= i < |streams| => [])
  }

  // ---------- The scan's memo ----------

  /** What a scan carries for its probes: the pins, the chains it reads each account on (absent reads every
      account on every pinned chain), and the verdicts already computed, by key. */
  datatype Scope = Scope(
    pinned: map<ChainID, BlockRef>, accountChains: Option<map<string, seq<ChainID>>>, memo: map<string, map<ChainID, Proof>>)
  {
    function PinnedFor(account: string): map<ChainID, BlockRef> {
      if accountChains.None? then pinned else
      if account !in accountChains.value then map[] else
      map chain | chain in pinned && chain in accountChains.value[account] :: pinned[chain]
    }
  }

  /** The scan reads the account on the chain. */
  ghost predicate ReadsOn(scope: Scope, account: string, chain: ChainID) {
    && chain in scope.pinned
    && (scope.accountChains.Some? ==>
          account in scope.accountChains.value && chain in scope.accountChains.value[account])
  }

  /** A probe is given the pins of exactly the chains its account is read on. */
  lemma PinnedWhereRead(scope: Scope, account: string)
    ensures forall chain :: chain in scope.PinnedFor(account) <==> ReadsOn(scope, account, chain)
    ensures forall chain :: ReadsOn(scope, account, chain) ==> scope.PinnedFor(account)[chain] == scope.pinned[chain]
  {
  }

  /** Whoever reads under a key finds proofs that hold for the read it makes: for every probe of `x` with
      that key, whichever read computed the verdict. */
  ghost predicate MemoSound(index: TimeTravel, x: Deployment, scope: Scope) {
    forall streams: seq<Stream> ::
      streams != [] && WellNamedRead(x, streams) && KeyOf(x, streams) in scope.memo ==>
        VerdictHolds(index, x, streams, scope.pinned, scope.memo[KeyOf(x, streams)])
  }

  ghost predicate VerdictHolds(
    index: TimeTravel, x: Deployment, streams: seq<Stream>, pinned: map<ChainID, BlockRef>, verdict: map<ChainID, Proof>)
  {
    forall chain :: chain in verdict ==>
      && chain in x.chains && chain in pinned
      && Holds(index, ProbeFields(streams, x.chains), x.chains, pinned[chain], chain, verdict[chain])
  }

  lemma NamedFields(x: Deployment, streams: seq<Stream>)
    requires WellNamedRead(x, streams)
    ensures WellNamed(ProbeFields(streams, x.chains), |x.chains|)
  {
    var fields := ProbeFields(streams, x.chains);
    forall field | field in fields
      ensures Plain(field.entity) && |field.clauses| == |x.chains| && forall clause :: clause in field.clauses ==> Closed(clause)
    {
      var i :| 0 <= i < |fields| && fields[i] == field;
      forall clause | clause in field.clauses ensures Closed(clause) {
        var k :| 0 <= k < |field.clauses| && field.clauses[k] == clause;
        RenderIsClosed(streams[i].where(x.chains[k]), "");
      }
    }
  }

  /** Two reads share a key only if they are of one name, ask the same fields the same way, and for one account. */
  lemma KeysTellReadsApart(x: Deployment, streams: seq<Stream>, other: seq<Stream>)
    requires streams != [] && other != [] && WellNamedRead(x, streams) && WellNamedRead(x, other)
    requires KeyOf(x, streams) == KeyOf(x, other)
    ensures ProbeFields(streams, x.chains) == ProbeFields(other, x.chains) && streams[0].account == other[0].account
  {
    NamedFields(x, streams);
    NamedFields(x, other);
    PresenceKeyIsInjective(x.name, ProbeFields(streams, x.chains), x.url, streams[0].account,
                           x.name, ProbeFields(other, x.chains), x.url, other[0].account, |x.chains|);
  }

  /** A verdict may be kept under its key: every read that finds it there asks for the same rows. */
  lemma RememberedVerdictHolds(index: TimeTravel, x: Deployment, streams: seq<Stream>, scope: Scope,
                               verdict: map<ChainID, Proof>)
    requires streams != [] && WellNamedRead(x, streams) && MemoSound(index, x, scope)
    requires VerdictHolds(index, x, streams, scope.pinned, verdict)
    ensures MemoSound(index, x, scope.(memo := scope.memo[KeyOf(x, streams) := verdict]))
  {
    forall other: seq<Stream> | other != [] && WellNamedRead(x, other) && KeyOf(x, other) == KeyOf(x, streams)
      ensures VerdictHolds(index, x, other, scope.pinned, verdict)
    {
      KeysTellReadsApart(x, streams, other);
    }
  }

  /** A verdict kept for one deployment is never found by a differently named one. */
  lemma OtherDeploymentUnmoved(index: TimeTravel, x: Deployment, scope: Scope, y: Deployment, streams: seq<Stream>,
                               verdict: map<ChainID, Proof>)
    requires Plain(x.name) && Plain(y.name) && x.name != y.name && streams != [] && MemoSound(index, x, scope)
    ensures MemoSound(index, x, scope.(memo := scope.memo[KeyOf(y, streams) := verdict]))
  {
    forall other: seq<Stream> | other != [] && WellNamedRead(x, other)
      ensures KeyOf(x, other) != KeyOf(y, streams)
    {
      if KeyOf(x, other) == KeyOf(y, streams) {
        NamedFields(x, other);
        PresenceKeyIsInjective(x.name, ProbeFields(other, x.chains), x.url, other[0].account,
                               y.name, ProbeFields(streams, y.chains), y.url, streams[0].account, |x.chains|);
      }
    }
  }

  // ---------- One memo, several deployments ----------

  /** Deployments with plain names, no two of them alike. */
  ghost predicate TellApart(deployments: set<Deployment>) {
    && (forall x :: x in deployments ==> Plain(x.name))
    && forall x, y :: x in deployments && y in deployments && x.name == y.name ==> x == y
  }

  /** Every deployment reads a sound memo of its own index. */
  ghost predicate ScanSound(world: Deployment -> TimeTravel, deployments: set<Deployment>, scope: Scope) {
    forall x :: x in deployments ==> MemoSound(world(x), x, scope)
  }

  /** The memo once a read of `streams` has asked it: the probe's verdict stays under its key, unless one
      was there; a probe that cannot learn the status proves nothing. */
  function AfterProbe(x: Deployment, streams: seq<Stream>, statuses: Result<Statuses, IndexError>, scope: Scope,
                      server: ProbeServer): Scope
  {
    if streams == [] || |scope.pinned| == 0 || KeyOf(x, streams) in scope.memo then scope else
    var verdict := if statuses.Err? then map[] else
                   Presence(x, streams, scope.PinnedFor(streams[0].account), statuses.value, server);
    scope.(memo := scope.memo[KeyOf(x, streams) := verdict])
  }

  /** The proof the memo holds for the read of `block`'s chain, if it suits that read's own pin. */
  function ProofFor(x: Deployment, streams: seq<Stream>, block: BlockRef, scope: Scope): Option<Proof>
    requires streams != []
  {
    var key := KeyOf(x, streams);
    if |scope.pinned| == 0 || key !in scope.memo || block.chain !in scope.memo[key] then None else
    var proof := scope.memo[key][block.chain];
    if proof.queryBlock > block.number || (block.isFixed && proof.queryBlock != block.number) then None else Some(proof)
  }

  /** A first probe that reaches enough chains answers each of their reads exactly when the index holds
      nothing for it there. */
  lemma EmptyReadIsProven(index: TimeTravel, x: Deployment, streams: seq<Stream>, statuses: Statuses, scope: Scope,
                          server: ProbeServer, block: BlockRef)
    requires Regular(index) && HonestProbe(index, server) && CompleteProbe(server)
    requires streams != [] && KeyOf(x, streams) !in scope.memo
    requires var pinned := scope.PinnedFor(streams[0].account);
             && block.chain in pinned && pinned[block.chain] == block
             && |Targets(x, pinned, statuses)| >= PRESENCE_MIN_CHAINS && block.chain in Targets(x, pinned, statuses)
    ensures var target := Targets(x, scope.PinnedFor(streams[0].account), statuses)[block.chain];
            var proof := ProofAt(index, block.chain, target.queryBlock);
            ProofFor(x, streams, block, AfterProbe(x, streams, Ok(statuses), scope, server))
            == if Holds(index, ProbeFields(streams, x.chains), x.chains, block, block.chain, proof) then Some(proof) else None
  {
    assert block.chain in scope.pinned;
    PresenceIsExact(index, x, streams, scope.PinnedFor(streams[0].account), statuses, server, block.chain);
  }

  lemma ProbeKeepsMemoSound(index: TimeTravel, x: Deployment, streams: seq<Stream>,
                            statuses: Result<Statuses, IndexError>, scope: Scope, server: ProbeServer)
    requires Regular(index) && HonestProbe(index, server) && streams != [] && WellNamedRead(x, streams)
    requires MemoSound(index, x, scope)
    ensures MemoSound(index, x, AfterProbe(x, streams, statuses, scope, server))
  {
    if |scope.pinned| > 0 && KeyOf(x, streams) !in scope.memo {
      if statuses.Ok? {
        PresenceIsSound(index, x, streams, scope.PinnedFor(streams[0].account), statuses.value, server);
        RememberedVerdictHolds(index, x, streams, scope,
                               Presence(x, streams, scope.PinnedFor(streams[0].account), statuses.value, server));
      } else {
        RememberedVerdictHolds(index, x, streams, scope, map[]);
      }
    }
  }

  /** A read or prefetch of one deployment in a scan: its probe, with the status and the server it would meet. */
  datatype Probing = Probing(x: Deployment, streams: seq<Stream>, statuses: Result<Statuses, IndexError>, server: ProbeServer)

  ghost predicate HonestProbing(world: Deployment -> TimeTravel, deployments: set<Deployment>, probing: Probing) {
    && probing.x in deployments && probing.streams != [] && WellNamedRead(probing.x, probing.streams)
    && Regular(world(probing.x)) && HonestProbe(world(probing.x), probing.server)
  }

  function AfterProbes(scope: Scope, probings: seq<Probing>): Scope
    decreases |probings|
  {
    if probings == [] then scope else
    AfterProbes(AfterProbe(probings[0].x, probings[0].streams, probings[0].statuses, scope, probings[0].server), probings[1..])
  }

  lemma ProbeKeepsScanSound(world: Deployment -> TimeTravel, deployments: set<Deployment>, scope: Scope, probing: Probing)
    requires TellApart(deployments) && HonestProbing(world, deployments, probing) && ScanSound(world, deployments, scope)
    ensures ScanSound(world, deployments,
                      AfterProbe(probing.x, probing.streams, probing.statuses, scope, probing.server))
  {
    var y, streams := probing.x, probing.streams;
    var after := AfterProbe(y, streams, probing.statuses, scope, probing.server);
    forall x | x in deployments ensures MemoSound(world(x), x, after) {
      if x.name == y.name {
        ProbeKeepsMemoSound(world(y), y, streams, probing.statuses, scope, probing.server);
      } else if after != scope {
        OtherDeploymentUnmoved(world(x), x, scope, y, streams, after.memo[KeyOf(y, streams)]);
      }
    }
  }

  /** Whatever probes of whatever deployments a scan makes, in any order, every read finds only proofs that
      hold of its own index, pins and streams. */
  lemma {:induction false} ScanMemoStaysSound(world: Deployment -> TimeTravel, deployments: set<Deployment>, scope: Scope,
                                              probings: seq<Probing>)
    requires TellApart(deployments) && ScanSound(world, deployments, scope)
    requires forall i :: 0 <= i < |probings| ==> HonestProbing(world, deployments, probings[i])
    ensures ScanSound(world, deployments, AfterProbes(scope, probings))
    decreases |probings|
  {
    if probings != [] {
      var first := probings[0];
      ProbeKeepsScanSound(world, deployments, scope, first);
      ScanMemoStaysSound(world, deployments, AfterProbe(first.x, first.streams, first.statuses, scope, first.server),
                         probings[1..]);
    }
  }

  /** What a probe learned is kept, under its key, for the rest of the scan. */
  lemma {:induction false} ProbesAreRemembered(scope: Scope, probings: seq<Probing>, key: string)
    requires scope.pinned != map[]
    ensures key in scope.memo ==> key in AfterProbes(scope, probings).memo
                                  && AfterProbes(scope, probings).memo[key] == scope.memo[key]
    ensures forall i :: 0 <= i < |probings| && probings[i].streams != [] ==>
              KeyOf(probings[i].x, probings[i].streams) in AfterProbes(scope, probings).memo
    decreases |probings|
  {
    if probings != [] {
      var first := probings[0];
      var after := AfterProbe(first.x, first.streams, first.statuses, scope, first.server);
      ProbesAreRemembered(after, probings[1..], key);
      if first.streams != [] {
        ProbesAreRemembered(after, probings[1..], KeyOf(first.x, first.streams));
      }
    }
  }

  /** A fresh memo is sound, so every scan's memo is. */
  lemma ScanReadsOnlyProofs(world: Deployment -> TimeTravel, deployments: set<Deployment>, pinned: map<ChainID, BlockRef>,
                            accountChains: Option<map<string, seq<ChainID>>>, probings: seq<Probing>)
    requires TellApart(deployments)
    requires forall i :: 0 <= i < |probings| ==> HonestProbing(world, deployments, probings[i])
    ensures ScanSound(world, deployments, AfterProbes(Scope(pinned, accountChains, map[]), probings))
  {
    ScanMemoStaysSound(world, deployments, Scope(pinned, accountChains, map[]), probings);
  }

  /** Asks the memo, or the probe on the first call, whether the read of `block`'s chain is proven empty;
      a proof must suit the caller's own pin. */
  method ChainProvenEmpty(x: Deployment, streams: seq<Stream>, block: BlockRef, statuses: Statuses, scope: Scope,
                          server: ProbeServer, ghost index: TimeTravel)
    returns (proof: Option<Proof>, after: Scope)
    requires streams != []
    ensures after == AfterProbe(x, streams, Ok(statuses), scope, server)
    ensures proof == ProofFor(x, streams, block, after)
    ensures Regular(index) && HonestProbe(index, server) && WellNamedRead(x, streams) && MemoSound(index, x, scope) ==>
              && MemoSound(index, x, after)
              && (proof.Some? && (block.chain in scope.pinned ==> scope.pinned[block.chain] == block) ==>
                    block.chain in x.chains
                    && Holds(index, ProbeFields(streams, x.chains), x.chains, block, block.chain, proof.value))
  {
    after := scope;
    if |scope.pinned| == 0 {
      return None, after;
    }
    var key := KeyOf(x, streams);
    if key !in scope.memo {
      var pinned := scope.PinnedFor(streams[0].account);
      var verdict := Presence(x, streams, pinned, statuses, server);
      after := scope.(memo := scope.memo[key := verdict]);
    }
    if Regular(index) && HonestProbe(index, server) && WellNamedRead(x, streams) && MemoSound(index, x, scope) {
      ProbeKeepsMemoSound(index, x, streams, Ok(statuses), scope, server);
    }
    var proofs := after.memo[key];
    if block.chain !in proofs {
      return None, after;
    }
    var found := proofs[block.chain];
    if found.queryBlock > block.number || (block.isFixed && found.queryBlock != block.number) {
      return None, after;
    }
    return Some(found), after;
  }

  /** Starts a probe ahead of the reads that may use it, when the account is read on enough of the
      deployment's chains; its verdict may come from any later status. */
  method PrefetchPresence(x: Deployment, streams: seq<Stream>, scope: Scope, statuses: Result<Statuses, IndexError>,
                          server: ProbeServer, ghost index: TimeTravel)
    returns (after: Scope)
    ensures after == if Provable(x, streams)
                        && |set chain | chain in x.chains && ReadsOn(scope, streams[0].account, chain)| >= PRESENCE_MIN_CHAINS
                     then AfterProbe(x, streams, statuses, scope, server) else scope
    ensures forall key :: key in scope.memo ==> key in after.memo && after.memo[key] == scope.memo[key]
    ensures Regular(index) && HonestProbe(index, server) && WellNamedRead(x, streams) && MemoSound(index, x, scope) ==>
              MemoSound(index, x, after)
  {
    after := scope;
    if !Provable(x, streams) || |scope.pinned| == 0 {
      return;
    }
    var pinned := scope.PinnedFor(streams[0].account);
    PinnedWhereRead(scope, streams[0].account);
    ghost var readOn := set chain | chain in x.chains && ReadsOn(scope, streams[0].account, chain);
    assert (set chain | chain in x.chains && chain in pinned) == readOn;
    if |set chain | chain in x.chains && chain in pinned| < PRESENCE_MIN_CHAINS {
      return;
    }
    var key := KeyOf(x, streams);
    if key !in scope.memo {
      var verdict := if statuses.Err? then map[] else Presence(x, streams, pinned, statuses.value, server);
      after := scope.(memo := scope.memo[key := verdict]);
    }
    if Regular(index) && HonestProbe(index, server) && WellNamedRead(x, streams) && MemoSound(index, x, scope) {
      ProbeKeepsMemoSound(index, x, streams, statuses, scope, server);
    }
  }

  // ---------- The read ----------

  datatype ReadAnswer = ReadAnswer(at: At, answer: Answer, byProof: bool)

  function ValidateStatuses(statuses: Statuses, chain: ChainID): Result<Statuses, IndexError> {
    if chain !in statuses then Err(ChainOmitted) else if statuses[chain].failed then Err(ChainFailed) else Ok(statuses)
  }

  /** The status read of a scan's one chain: refused for a chain the index is not configured for. */
  function StatusesForScan(x: Deployment, chain: ChainID,
                           api: bool -> Result<Statuses, IndexError>): bool -> Result<Statuses, IndexError> {
    force =>
      if chain !in x.chains then Err(ChainNotConfigured) else
      var statuses := api(force);
      if statuses.Err? then statuses else ValidateStatuses(statuses.value, chain)
  }

  /** A status reply names the block's chain, short of its fixed pin: the one case that is read again. */
  ghost predicate NamesShort(block: BlockRef, reply: Result<Statuses, IndexError>) {
    ShortOfFixedPin(block, reply) && !reply.value[block.chain].failed
  }

  /** A status reply lets the read go ahead: the deployment serves the chain, and the reply names it as neither
      failed nor backfilling, and past a fixed pin. */
  ghost predicate Admits(x: Deployment, block: BlockRef, reply: Result<Statuses, IndexError>) {
    block.chain in x.chains && Accepts(block, reply) && !reply.value[block.chain].failed
  }

  /** The reply that decides a read: the forced one when the first names the chain short of its fixed pin,
      and the first otherwise. */
  ghost function Deciding(block: BlockRef, api: bool -> Result<Statuses, IndexError>): Result<Statuses, IndexError> {
    api(NamesShort(block, api(false)))
  }

  /** A read has a block to ask at exactly when the deciding reply admits it, and takes both from that reply. */
  lemma DecidedByReply(x: Deployment, block: BlockRef, api: bool -> Result<Statuses, IndexError>)
    ensures var status, reply := QueryBlock(block, StatusesForScan(x, block.chain, api)), Deciding(block, api);
            && (status.Ok? <==> Admits(x, block, reply))
            && (status.Ok? ==> && status.value.0 == reply.value
                               && AskedAt(block, reply.value[block.chain], status.value.1))
  {
    var read := StatusesForScan(x, block.chain, api);
    QueryBlockExact(block, read);
    assert read(false) == if block.chain !in x.chains then Err(ChainNotConfigured) else
                          if api(false).Err? then api(false) else ValidateStatuses(api(false).value, block.chain);
    assert read(true) == if block.chain !in x.chains then Err(ChainNotConfigured) else
                         if api(true).Err? then api(true) else ValidateStatuses(api(true).value, block.chain);
  }

  /** What is assumed of the probes a read may use: an honest server, a sound memo, and the scan's own pin. */
  ghost predicate HonestProbes(index: TimeTravel, x: Deployment, streams: seq<Stream>, block: BlockRef, scope: Scope,
                               probeServer: ProbeServer)
  {
    && Regular(index) && HonestProbe(index, probeServer)
    && WellNamedRead(x, streams) && MemoSound(index, x, scope)
    && (block.chain in scope.pinned ==> scope.pinned[block.chain] == block)
  }

  /** Everything assumed of the world an index read runs in. */
  ghost predicate HonestWorld(index: TimeTravel, x: Deployment, streams: seq<Stream>, block: BlockRef, scope: Scope,
                              server: Server, probeServer: ProbeServer)
  {
    Honest(index, server) && HonestProbes(index, x, streams, block, scope, probeServer)
  }

  /** The memo proves the read empty. */
  predicate Proven(x: Deployment, block: BlockRef, streams: seq<Stream>, scope: Scope) {
    Provable(x, streams) && ProofFor(x, streams, block, scope).Some?
  }

  /** The answer a proof stands for. */
  function ProofAnswer(x: Deployment, block: BlockRef, streams: seq<Stream>, scope: Scope): ReadAnswer
    requires Proven(x, block, streams, scope)
  {
    var proof := ProofFor(x, streams, block, scope).value;
    ReadAnswer(At(block, proof.queryBlock),
               Answer(Checkpoint(true, proof.checkpoint, proof.checkpointMs), None, NoRows(streams)), true)
  }

  /** The answer is what paging at its own block gives. */
  ghost predicate IsReference(index: TimeTravel, x: Deployment, streams: seq<Stream>, read: ReadAnswer) {
    && Answerable(index, x.standIn, read.at, streams, None)
    && read.answer == Reference(index, x.standIn, read.at, streams, None)
  }

  /** The proof's answer, when the memo or the probe has one for this read. */
  method ReadByProof(x: Deployment, block: BlockRef, streams: seq<Stream>, scope: Scope, statuses: Statuses,
                     probeServer: ProbeServer, ghost index: TimeTravel)
    returns (read: Option<ReadAnswer>, after: Scope)
    ensures after == if Provable(x, streams) then AfterProbe(x, streams, Ok(statuses), scope, probeServer) else scope
    ensures read == if Proven(x, block, streams, after) then Some(ProofAnswer(x, block, streams, after)) else None
    ensures HonestProbes(index, x, streams, block, scope, probeServer) ==>
              && MemoSound(index, x, after)
              && (read.Some? ==>
                    && (WellFormed(streams) <==> Answerable(index, x.standIn, read.value.at, streams, None))
                    && (WellFormed(streams) ==> IsReference(index, x, streams, read.value))
                    && block.timestamp <= read.value.answer.checkpoint.ms / 1000
                                          + (if block.isFixed then BACKFILL_MAX_LAG else MAX_LAG))
  {
    after := scope;
    if !Provable(x, streams) {
      return None, after;
    }
    var proof;
    proof, after := ChainProvenEmpty(x, streams, block, statuses, scope, probeServer, index);
    if proof.None? {
      return None, after;
    }
    var p := proof.value;
    if HonestProbes(index, x, streams, block, scope, probeServer) {
      ProofAgreesWithPages(index, x, streams, block, p);
      CertifiedWithoutNote(block, p.checkpoint, p.checkpointMs);
    }
    var answer := Answer(Checkpoint(true, p.checkpoint, p.checkpointMs), None, NoRows(streams));
    return Some(ReadAnswer(At(block, p.queryBlock), answer, true)), after;
  }

  /** Reads `streams` on `block`'s chain. A status reply that does not admit the read refuses it and leaves
      the memo alone. Otherwise a proof answers exactly when the memo holds one for the read, and pages do if
      not, at the block the reply allows, and soundly whatever the server replies. In an honest world, and for
      well declared streams:
      an answer is always the paging reference at the block it says it holds at, and that block never
      passes the pin;
      the read succeeds exactly when its reply admits it and it is proven empty or the index can answer at the
      block asked, and at a fixed pin the proof makes no difference to that;
      a proof's checkpoint trails a live pin by at most an hour and carries no note. */
  method Read(x: Deployment, block: BlockRef, streams: seq<Stream>, scope: Scope,
              api: bool -> Result<Statuses, IndexError>,
              server: Server, probeServer: ProbeServer, ghost index: TimeTravel)
    returns (r: Result<ReadAnswer, IndexError>, after: Scope)
    ensures var reply := Deciding(block, api);
            if !Admits(x, block, reply) then r.Err? && after == scope else
            && after == (if Provable(x, streams) then AfterProbe(x, streams, reply, scope, probeServer) else scope)
            && (r.Ok? && r.value.byProof <==> Proven(x, block, streams, after))
            && (r.Ok? && r.value.byProof ==> r.value == ProofAnswer(x, block, streams, after))
            && (r.Ok? && !r.value.byProof ==>
                  && r.value.at.pin == block && AskedAt(block, reply.value[block.chain], r.value.at.queryBlock)
                  && exists sent :: SoundAnswer(server, x.standIn, r.value.at, streams, None, sent, r.value.answer))
    ensures r.Ok? ==> r.value.at.pin == block && r.value.at.queryBlock <= block.number
                      && (block.isFixed ==> r.value.at.queryBlock == block.number)
    ensures HonestWorld(index, x, streams, block, scope, server, probeServer) ==> MemoSound(index, x, after)
    ensures HonestWorld(index, x, streams, block, scope, server, probeServer) && WellFormed(streams) ==>
              var reply := Deciding(block, api);
              && (r.Ok? ==> IsReference(index, x, streams, r.value))
              && (Admits(x, block, reply) ==> forall asked :: AskedAt(block, reply.value[block.chain], asked) ==>
                    (r.Ok? <==> || Proven(x, block, streams, after)
                                || Answerable(index, x.standIn, At(block, asked), streams, None)))
              && (block.isFixed ==>
                    (r.Ok? <==> && Admits(x, block, reply)
                                && Answerable(index, x.standIn, At(block, block.number), streams, None)))
    ensures HonestWorld(index, x, streams, block, scope, server, probeServer) && r.Ok? && r.value.byProof ==>
              && block.timestamp <= r.value.answer.checkpoint.ms / 1000 + (if block.isFixed then BACKFILL_MAX_LAG else MAX_LAG)
              && (WellFormed(streams) <==> Answerable(index, x.standIn, r.value.at, streams, None))
  {
    after := scope;
    DecidedByReply(x, block, api);
    var status := QueryBlock(block, StatusesForScan(x, block.chain, api));
    if status.Err? {
      return Err(status.error), after;
    }
    QueryBlockAtPin(block, StatusesForScan(x, block.chain, api));
    var (statuses, queryBlock) := status.value;
    var proven;
    proven, after := ReadByProof(x, block, streams, scope, statuses, probeServer, index);
    if proven.Some? {
      return Ok(proven.value), after;
    }
    var paged, sent := Pages(server, x.standIn, At(block, queryBlock), streams, None, index);
    if paged.Err? {
      return Err(paged.error), after;
    }
    assert SoundAnswer(server, x.standIn, At(block, queryBlock), streams, None, sent, paged.value);
    return Ok(ReadAnswer(At(block, queryBlock), paged.value, false)), after;
  }

  /** A dependent lookup asks at the block of the read it follows. Whatever the server replies, it succeeds
      only with pages that all carry that read's checkpoint; against an honest index it sees the index
      state the read saw. `sent` is every request answered with an admitted page. */
  method Lookup(x: Deployment, read: ReadAnswer, streams: seq<Stream>, server: Server, ghost index: TimeTravel)
    returns (r: Result<seq<seq<Taken>>, IndexError>, sent: seq<PageQuery>)
    ensures r.Ok? ==> var checkpoint := read.answer.checkpoint;
              SoundAnswer(server, StandIn(x.standIn.start, None), read.at, streams, Some(checkpoint), sent,
                          Answer(checkpoint, None, r.value))
    ensures Regular(index) && Honest(index, server) ==>
              var want := Some(read.answer.checkpoint);
              && (r.Ok? <==> Answerable(index, StandIn(x.standIn.start, None), read.at, streams, want))
              && (r.Ok? ==> index.checkpoint(read.at.pin.chain, read.at.queryBlock) == read.answer.checkpoint
                            && r.value == Reference(index, StandIn(x.standIn.start, None), read.at, streams, want).rows)
  {
    var want := Some(read.answer.checkpoint);
    var answer;
    answer, sent := Pages(server, StandIn(x.standIn.start, None), read.at, streams, want, index);
    return if answer.Ok? then Ok(answer.value.rows) else Err(answer.error), sent;
  }
}
