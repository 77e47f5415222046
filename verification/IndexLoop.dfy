/** The loop that reads every stream to its end: what any server lets it do, and what it returns from an
    honest one. */
module IndexLoop {
  import opened Order
  import opened Wrappers
  import opened IndexCheckpoint
  import opened IndexWhere
  import opened IndexPages

  /** What a read returns: its checkpoint, the note for a lagging one, and each stream's rows. */
  datatype Answer = Answer(checkpoint: Checkpoint, lag: Option<LagNote>, rows: seq<seq<Taken>>)

  // ---------- The reference: no pages at all ----------

  /** What an index can answer at a block: the streams are well declared, its checkpoint is admitted, and
      every stream fits. */
  ghost predicate Answerable(index: TimeTravel, standIn: StandIn, at: At, streams: seq<Stream>,
                             want: Option<Checkpoint>) {
    && WellFormed(streams)
    && Admit(standIn, at, want, index.checkpoint(at.pin.chain, at.queryBlock)).Ok?
    && AllFit(index, at, streams)
  }

  ghost predicate AllFit(index: TimeTravel, at: At, streams: seq<Stream>) {
    forall i :: 0 <= i < |streams| ==> Fits(streams[i], at.pin.chain, Paged(index, at, streams[i]))
  }

  /** The answer itself: each stream's rows at the block, decoded, in id order. */
  ghost function Reference(index: TimeTravel, standIn: StandIn, at: At, streams: seq<Stream>,
                           want: Option<Checkpoint>): Answer
    requires Answerable(index, standIn, at, streams, want)
  {
    var checkpoint := index.checkpoint(at.pin.chain, at.queryBlock);
    Answer(checkpoint, Admit(standIn, at, want, checkpoint).value,
           seq(|streams|, i requires 0 <= i < |streams| => Decoded(streams[i], at.pin.chain, Paged(index, at, streams[i]))))
  }

  /** The answer holds, for every row a stream pages, that row's id and what the caller's parsing makes of it. */
  lemma AnswerHoldsTheRows(index: TimeTravel, standIn: StandIn, at: At, streams: seq<Stream>, want: Option<Checkpoint>,
                           i: nat)
    requires Answerable(index, standIn, at, streams, want) && i < |streams|
    ensures var answer, rows := Reference(index, standIn, at, streams, want), Paged(index, at, streams[i]);
            && |answer.rows| == |streams| && |answer.rows[i]| == |rows| <= streams[i].maxRows
            && forall k :: 0 <= k < |rows| ==>
                 && answer.rows[i][k].id == rows[k].id
                 && streams[i].decode(at.pin.chain, rows[k]) == Some(answer.rows[i][k].value)
  {
    assert Fits(streams[i], at.pin.chain, Paged(index, at, streams[i]));
  }

  // ---------- Cursors between rounds ----------

  /** Every round an open cursor has taken one full page. */
  ghost predicate Between(cursors: seq<Cursor>, streams: seq<Stream>, chain: ChainID, round: nat) {
    && |cursors| == |streams| && AllSound(cursors)
    && forall i :: 0 <= i < |cursors| ==>
         && cursors[i].stream == streams[i] && cursors[i].where == streams[i].where(chain)
         && (!cursors[i].done ==> |cursors[i].taken| == PAGE_SIZE * round)
  }

  lemma RoundKeepsPace(cursors: seq<Cursor>, streams: seq<Stream>, chain: ChainID, round: nat, page: Page,
                       next: seq<Cursor>)
    requires Between(cursors, streams, chain, round) && RoundFits(cursors, chain, page)
    requires AllSound(next) && |next| == |cursors|
    requires forall i :: 0 <= i < |cursors| ==> next[i] == AfterRound(cursors[i], chain, page)
    ensures Between(next, streams, chain, round + 1)
  {
  }

  ghost predicate FollowAll(index: TimeTravel, at: At, cursors: seq<Cursor>) {
    forall i :: 0 <= i < |cursors| ==> Follows(cursors[i], at.pin.chain, Paged(index, at, cursors[i].stream))
  }

  /** An honest page for every open cursor. */
  ghost predicate HonestForAll(index: TimeTravel, at: At, cursors: seq<Cursor>, page: Page)
    requires AllSound(cursors)
  {
    forall i :: 0 <= i < |cursors| && !cursors[i].done ==> HonestFor(index, at, cursors[i], page)
  }

  lemma AskedHonestly(index: TimeTravel, at: At, streams: seq<Stream>, cursors: seq<Cursor>, round: nat, page: Page)
    requires Between(cursors, streams, at.pin.chain, round)
    requires AnswersHonestly(index, PageQuery(at.pin.chain, at.queryBlock, Asks(cursors)), page)
    ensures HonestForAll(index, at, cursors, page)
  {
    forall i | 0 <= i < |cursors| && !cursors[i].done ensures HonestFor(index, at, cursors[i], page) {
      OpenIsAsked(cursors, i);
    }
  }

  /** If every stream fits, an honest round admits every page. */
  lemma HonestRoundAdmitted(index: TimeTravel, at: At, streams: seq<Stream>, cursors: seq<Cursor>, round: nat,
                            page: Page)
    requires Regular(index) && Between(cursors, streams, at.pin.chain, round) && FollowAll(index, at, cursors)
    requires HonestForAll(index, at, cursors, page) && AllFit(index, at, streams)
    ensures RoundFits(cursors, at.pin.chain, page)
  {
    forall i | 0 <= i < |cursors| && !cursors[i].done ensures Admissible(cursors[i], at.pin.chain, page) {
      assert Fits(streams[i], at.pin.chain, Paged(index, at, streams[i]));
      HonestPageAdmitted(index, at, cursors[i], page);
    }
  }

  lemma HonestRoundFollowed(index: TimeTravel, at: At, streams: seq<Stream>, cursors: seq<Cursor>, round: nat,
                            page: Page,
                            next: seq<Cursor>)
    requires Regular(index) && Between(cursors, streams, at.pin.chain, round) && FollowAll(index, at, cursors)
    requires HonestForAll(index, at, cursors, page) && RoundFits(cursors, at.pin.chain, page) && |next| == |cursors|
    requires forall i :: 0 <= i < |cursors| ==> next[i] == AfterRound(cursors[i], at.pin.chain, page)
    ensures FollowAll(index, at, next)
  {
    forall i | 0 <= i < |next| ensures Follows(next[i], at.pin.chain, Paged(index, at, next[i].stream)) {
      if !cursors[i].done {
        HonestPageFollowed(index, at, cursors[i], page);
      }
    }
  }

  function MaxOf(streams: seq<Stream>): nat {
    if streams == [] then 0 else
    var rest := MaxOf(streams[1..]);
    if streams[0].maxRows > rest then streams[0].maxRows else rest
  }

  lemma {:induction false} MaxBounds(streams: seq<Stream>)
    ensures forall i :: 0 <= i < |streams| ==> streams[i].maxRows <= MaxOf(streams)
  {
    if streams != [] {
      MaxBounds(streams[1..]);
      assert streams == [streams[0]] + streams[1..];
    }
  }

  // ---------- The methods ----------

  method CheckStreams(streams: seq<Stream>) returns (refused: Option<IndexError>)
    ensures refused == None <==> WellFormed(streams)
  {
    if streams == [] {
      return Some(NoStream);
    }
    var entities: set<string> := {};
    for i := 0 to |streams|
      invariant entities == set k | 0 <= k < i :: streams[k].entity
      invariant forall k :: 0 <= k < i ==> streams[k].maxRows > 0
      invariant forall j, k :: 0 <= j < k < i ==> streams[j].entity != streams[k].entity
    {
      if streams[i].entity in entities {
        return Some(EntityTwice);
      }
      entities := entities + {streams[i].entity};
      if streams[i].maxRows <= 0 {
        return Some(NoRowBound);
      }
    }
    return None;
  }

  function Start(stream: Stream, chain: ChainID): Cursor {
    Cursor(stream, stream.where(chain), stream.where(chain).prefix, [], false)
  }

  method RequestPage(server: Server, n: nat, query: PageQuery, ghost index: TimeTravel)
    returns (r: Result<(Checkpoint, Page), IndexError>)
    ensures r.Ok? ==> IsRound(server, n, query, r.value.0) && server(n, query) == Some(r.value.1)
    ensures Regular(index) && Honest(index, server) && DistinctEntities(query.asks) ==>
              && r.Ok? && r.value.0 == index.checkpoint(query.chain, query.block)
              && AnswersHonestly(index, query, r.value.1)
  {
    var reply := server(n, query);
    if reply.None? {
      return Err(RequestFailed);
    }
    var checkpoint := ParseCheckpoint(reply.value.checkpoints);
    if checkpoint.Err? {
      return Err(checkpoint.error);
    }
    return Ok((checkpoint.value, reply.value));
  }

  function AllDone(cursors: seq<Cursor>): bool {
    cursors == [] || (cursors[0].done && AllDone(cursors[1..]))
  }

  lemma {:induction false} AllDoneMeans(cursors: seq<Cursor>)
    ensures AllDone(cursors) <==> forall i :: 0 <= i < |cursors| ==> cursors[i].done
  {
    if cursors != [] {
      AllDoneMeans(cursors[1..]);
      assert cursors == [cursors[0]] + cursors[1..];
    }
  }

  /** What any successful read guarantees, whatever the server answered: rows in order and in bounds, and
      one checkpoint shared by every request, all of them asked at the same block. */
  ghost predicate SoundAnswer(
    server: Server, standIn: StandIn, at: At, streams: seq<Stream>, want: Option<Checkpoint>, sent: seq<PageQuery>, answer: Answer)
  {
    && WellFormed(streams) && |answer.rows| == |streams|
    && (forall i :: 0 <= i < |streams| ==>
          && |answer.rows[i]| <= streams[i].maxRows
          && (forall k :: 0 <= k < |answer.rows[i]| ==>
                answer.rows[i][k].id != "" && streams[i].where(at.pin.chain).prefix <= answer.rows[i][k].id)
          && forall j, k :: 0 <= j < k < |answer.rows[i]| ==> Less(answer.rows[i][j].id, answer.rows[i][k].id))
    && sent != [] && Shared(server, at, sent, answer.checkpoint)
    && Admit(standIn, at, want, answer.checkpoint) == Ok(answer.lag)
  }

  ghost predicate Shared(server: Server, at: At, sent: seq<PageQuery>, checkpoint: Checkpoint) {
    forall n :: 0 <= n < |sent| ==>
      sent[n].chain == at.pin.chain && sent[n].block == at.queryBlock && IsRound(server, n, sent[n], checkpoint)
  }

  ghost function TakenOf(cursors: seq<Cursor>): seq<seq<Taken>> {
    seq(|cursors|, i requires 0 <= i < |cursors| => cursors[i].taken)
  }

  lemma DoneIsReference(index: TimeTravel, standIn: StandIn, at: At, streams: seq<Stream>, want: Option<Checkpoint>,
                        cursors: seq<Cursor>, round: nat, lag: Option<LagNote>)
    requires WellFormed(streams) && Between(cursors, streams, at.pin.chain, round) && FollowAll(index, at, cursors)
    requires forall i :: 0 <= i < |cursors| ==> cursors[i].done
    requires Admit(standIn, at, want, index.checkpoint(at.pin.chain, at.queryBlock)) == Ok(lag)
    ensures Answerable(index, standIn, at, streams, want)
    ensures Reference(index, standIn, at, streams, want)
         == Answer(index.checkpoint(at.pin.chain, at.queryBlock), lag, TakenOf(cursors))
  {
    forall i | 0 <= i < |streams|
      ensures Fits(streams[i], at.pin.chain, Paged(index, at, streams[i]))
      ensures cursors[i].taken == Decoded(streams[i], at.pin.chain, Paged(index, at, streams[i]))
    {
      var rows := Paged(index, at, streams[i]);
      assert cursors[i].stream == streams[i] && Follows(cursors[i], at.pin.chain, rows);
      assert rows[..|rows|] == rows;
    }
  }

  /** The variables of the loop: the cursors, the checkpoint the read is held to, its note, and the
      requests sent so far. */
  datatype Loop = Loop(cursors: seq<Cursor>, held: Option<Checkpoint>, lag: Option<LagNote>, sent: seq<PageQuery>)

  /** What the loop keeps against any server. */
  ghost predicate Keeps(server: Server, standIn: StandIn, at: At, streams: seq<Stream>, want: Option<Checkpoint>,
                        s: Loop) {
    && Between(s.cursors, streams, at.pin.chain, |s.sent|)
    && Holding(standIn, at, want, s)
    && (s.sent != [] ==> Shared(server, at, s.sent, s.held.value))
  }

  /** The checkpoint a read is held to: none but the wanted one before its first page, and an admitted one after. */
  ghost predicate Holding(standIn: StandIn, at: At, want: Option<Checkpoint>, s: Loop) {
    if s.sent == [] then s.held == want && s.lag == None
    else s.held.Some? && Admit(standIn, at, want, s.held.value) == Ok(s.lag)
  }

  /** What it keeps besides against an honest one. */
  ghost predicate Tracks(index: TimeTravel, at: At, s: Loop) {
    && FollowAll(index, at, s.cursors)
    && (s.sent != [] ==> s.held == Some(index.checkpoint(at.pin.chain, at.queryBlock)))
  }

  /** One request and its page's checkpoint: admitted, or refused for a reason the reference shares. */
  method AdmitReply(server: Server, standIn: StandIn, at: At, want: Option<Checkpoint>, s: Loop, query: PageQuery,
                    ghost index: TimeTravel)
    returns (r: Result<(Page, Loop), IndexError>)
    requires Holding(standIn, at, want, s)
    ensures r.Ok? ==> var (page, after) := r.value;
              && server(|s.sent|, query) == Some(page)
              && after.cursors == s.cursors && after.sent == s.sent + [query] && after.held.Some?
              && IsRound(server, |s.sent|, query, after.held.value)
              && (s.sent != [] ==> after.held == s.held)
              && Admit(standIn, at, want, after.held.value) == Ok(after.lag)
    ensures var checkpoint := index.checkpoint(query.chain, query.block);
            Regular(index) && Honest(index, server) && DistinctEntities(query.asks)
            && (s.sent != [] ==> s.held == Some(checkpoint)) ==>
              if r.Err? then Admit(standIn, at, want, checkpoint).Err?
              else r.value.1.held == Some(checkpoint) && AnswersHonestly(index, query, r.value.0)
  {
    var reply := RequestPage(server, |s.sent|, query, index);
    if reply.Err? {
      return Err(reply.error);
    }
    var (checkpoint, page) := reply.value;
    var after := HoldCheckpoint(standIn, at, want, s, checkpoint, query);
    if after.Err? {
      return Err(after.error);
    }
    return Ok((page, after.value));
  }

  /** Holds the read to the page's checkpoint: the first is validated, a later one must be the same. */
  method HoldCheckpoint(standIn: StandIn, at: At, want: Option<Checkpoint>, s: Loop, checkpoint: Checkpoint,
                        query: PageQuery)
    returns (r: Result<Loop, IndexError>)
    requires Holding(standIn, at, want, s)
    ensures r.Ok? <==> Admit(standIn, at, want, checkpoint).Ok? && (s.sent != [] ==> s.held == Some(checkpoint))
    ensures r.Ok? ==> && r.value.cursors == s.cursors && r.value.sent == s.sent + [query]
                      && r.value.held == Some(checkpoint) && Admit(standIn, at, want, checkpoint) == Ok(r.value.lag)
  {
    var admitted := Admit(standIn, at, s.held, checkpoint);
    if admitted.Err? {
      return Err(admitted.error);
    }
    var after := s.(sent := s.sent + [query]);
    if s.held.None? {
      after := after.(held := Some(checkpoint), lag := admitted.value);
    }
    return Ok(after);
  }

  /** One page for every open cursor: they keep pace, and against an honest page they follow their streams
      and are refused only when one does not fit. */
  method RoundPages(at: At, streams: seq<Stream>, cursors: seq<Cursor>, ghost round: nat, page: Page,
                    ghost index: TimeTravel)
    returns (r: Result<seq<Cursor>, IndexError>)
    requires Between(cursors, streams, at.pin.chain, round)
    ensures r.Ok? ==> Between(r.value, streams, at.pin.chain, round + 1)
    ensures Regular(index) && FollowAll(index, at, cursors)
            && AnswersHonestly(index, PageQuery(at.pin.chain, at.queryBlock, Asks(cursors)), page) ==>
              if r.Ok? then FollowAll(index, at, r.value) else !AllFit(index, at, streams)
  {
    r := AdmitRound(cursors, at.pin.chain, page);
    if r.Ok? {
      RoundKeepsPace(cursors, streams, at.pin.chain, round, page, r.value);
    }
    if Regular(index) && FollowAll(index, at, cursors)
       && AnswersHonestly(index, PageQuery(at.pin.chain, at.queryBlock, Asks(cursors)), page)
    {
      AskedHonestly(index, at, streams, cursors, round, page);
      if r.Ok? {
        HonestRoundFollowed(index, at, streams, cursors, round, page, r.value);
      } else if AllFit(index, at, streams) {
        HonestRoundAdmitted(index, at, streams, cursors, round, page);
      }
    }
  }

  method Round(server: Server, standIn: StandIn, at: At, streams: seq<Stream>, want: Option<Checkpoint>, s: Loop,
               ghost index: TimeTravel)
    returns (r: Result<Loop, IndexError>)
    requires WellFormed(streams) && Keeps(server, standIn, at, streams, want, s)
    ensures r.Ok? ==> Keeps(server, standIn, at, streams, want, r.value) && |r.value.sent| == |s.sent| + 1
    ensures Regular(index) && Honest(index, server) && Tracks(index, at, s) ==>
              if r.Ok? then Tracks(index, at, r.value) else !Answerable(index, standIn, at, streams, want)
  {
    AsksAreDistinct(s.cursors);
    var query := PageQuery(at.pin.chain, at.queryBlock, Asks(s.cursors));
    var reply := AdmitReply(server, standIn, at, want, s, query, index);
    if reply.Err? {
      return Err(reply.error);
    }
    var (page, after) := reply.value;
    var next := RoundPages(at, streams, s.cursors, |s.sent|, page, index);
    if next.Err? {
      return Err(next.error);
    }
    return Ok(after.(cursors := next.value));
  }

  /** Reads `streams` to their ends. Against any server it ends within one request per full page of the
      longest stream and one more, and succeeds only soundly; against an honest one it succeeds exactly when the
      index can answer, and returns the reference answer. `sent` is every request that was answered with
      an admitted page. */
  method Pages(server: Server, standIn: StandIn, at: At, streams: seq<Stream>, want: Option<Checkpoint>,
               ghost index: TimeTravel)
    returns (r: Result<Answer, IndexError>, sent: seq<PageQuery>)
    ensures |sent| <= MaxOf(streams) / PAGE_SIZE + if r.Ok? then 1 else 0
    ensures r.Ok? ==> SoundAnswer(server, standIn, at, streams, want, sent, r.value)
    ensures Regular(index) && Honest(index, server) ==>
              && (r.Ok? <==> Answerable(index, standIn, at, streams, want))
              && (r.Ok? ==> r.value == Reference(index, standIn, at, streams, want))
  {
    var refused := CheckStreams(streams);
    if refused.Some? {
      return Err(refused.value), [];
    }
    var s, failure := AllRounds(server, standIn, at, streams, want, index);
    if failure.Some? {
      return Err(failure.value), s.sent;
    }
    if Regular(index) && Honest(index, server) {
      DoneIsReference(index, standIn, at, streams, want, s.cursors, |s.sent|, s.lag);
    }
    var answer := Answer(s.held.value, s.lag, seq(|s.cursors|, i requires 0 <= i < |s.cursors| => s.cursors[i].taken));
    DoneIsSound(server, standIn, at, streams, want, s, answer);
    return Ok(answer), s.sent;
  }

  function Opening(streams: seq<Stream>, chain: ChainID, want: Option<Checkpoint>): Loop {
    Loop(seq(|streams|, i requires 0 <= i < |streams| => Start(streams[i], chain)), want, None, [])
  }

  lemma OpeningKeeps(server: Server, standIn: StandIn, at: At, streams: seq<Stream>, want: Option<Checkpoint>,
                     index: TimeTravel)
    requires WellFormed(streams)
    ensures var s := Opening(streams, at.pin.chain, want);
            Keeps(server, standIn, at, streams, want, s) && Tracks(index, at, s) && !AllDone(s.cursors)
  {
    AllDoneMeans(Opening(streams, at.pin.chain, want).cursors);
  }

  /** The loop: a round for as long as a cursor is open. */
  method AllRounds(server: Server, standIn: StandIn, at: At, streams: seq<Stream>, want: Option<Checkpoint>,
                   ghost index: TimeTravel)
    returns (s: Loop, failure: Option<IndexError>)
    requires WellFormed(streams)
    ensures |s.sent| <= MaxOf(streams) / PAGE_SIZE + if failure.None? then 1 else 0
    ensures failure.None? ==> Keeps(server, standIn, at, streams, want, s) && s.sent != []
                              && forall i :: 0 <= i < |s.cursors| ==> s.cursors[i].done
    ensures Regular(index) && Honest(index, server) ==>
              if failure.None? then Tracks(index, at, s) else !Answerable(index, standIn, at, streams, want)
  {
    failure := None;
    s := Opening(streams, at.pin.chain, want);
    OpeningKeeps(server, standIn, at, streams, want, index);
    while !AllDone(s.cursors)
      invariant Keeps(server, standIn, at, streams, want, s)
      invariant |s.sent| <= MaxOf(streams) / PAGE_SIZE + 1
      invariant s.sent == [] ==> !AllDone(s.cursors)
      invariant Regular(index) && Honest(index, server) ==> Tracks(index, at, s)
      decreases MaxOf(streams) / PAGE_SIZE + 1 - |s.sent|
    {
      AllDoneMeans(s.cursors);
      OpenWithinBound(s.cursors, streams, at.pin.chain, |s.sent|);
      var next := Round(server, standIn, at, streams, want, s, index);
      if next.Err? {
        return s, Some(next.error);
      }
      s := next.value;
    }
    AllDoneMeans(s.cursors);
  }

  lemma DoneIsSound(server: Server, standIn: StandIn, at: At, streams: seq<Stream>, want: Option<Checkpoint>, s: Loop,
                    answer: Answer)
    requires WellFormed(streams) && Keeps(server, standIn, at, streams, want, s) && s.sent != []
    requires answer == Answer(s.held.value, s.lag, TakenOf(s.cursors))
    ensures SoundAnswer(server, standIn, at, streams, want, s.sent, answer)
  {
  }

  lemma OpenWithinBound(cursors: seq<Cursor>, streams: seq<Stream>, chain: ChainID, round: nat)
    requires Between(cursors, streams, chain, round) && exists i :: 0 <= i < |cursors| && !cursors[i].done
    ensures round <= MaxOf(streams) / PAGE_SIZE
  {
    MaxBounds(streams);
    var i :| 0 <= i < |cursors| && !cursors[i].done;
    assert PAGE_SIZE * round <= cursors[i].stream.maxRows == streams[i].maxRows;
  }
}
