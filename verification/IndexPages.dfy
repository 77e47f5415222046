/** Paging several entity streams of a time-travel index to their ends under one checkpoint. */
module IndexPages {
  import opened Order
  import opened Wrappers
  import opened IndexCheckpoint
  import opened IndexWhere

  const PAGE_SIZE: nat := 500

  // ---------- What a server answers ----------

  datatype Row = Row(id: string, body: string)

  datatype CheckpointRow = CheckpointRow(block: Option<nat>, ms: Option<nat>)

  /** The checkpoint rows one query returned; a processor may have written none yet. */
  datatype Checkpoint = Checkpoint(written: bool, block: nat, ms: nat)

  datatype Ask = Ask(entity: string, first: nat, clause: string, after: string)

  datatype PageQuery = PageQuery(chain: ChainID, block: nat, asks: seq<Ask>)

  /** One reply. A checkpoint list or an entity that is omitted or malformed is absent. */
  datatype Page = Page(checkpoints: Option<seq<CheckpointRow>>, rows: map<string, seq<Row>>)

  /** The reply to the n-th request of a read; no reply is a failed request. */
  type Server = (nat, PageQuery) -> Option<Page>

  function ParseCheckpoint(raw: Option<seq<CheckpointRow>>): Result<Checkpoint, IndexError> {
    if raw.None? then Err(CheckpointMalformed) else
    if |raw.value| == 0 then Ok(Checkpoint(false, 0, 0)) else
    if |raw.value| > 1 then Err(CheckpointMalformed) else
    match raw.value[0]
    case CheckpointRow(Some(block), Some(ms)) => Ok(Checkpoint(true, block, ms))
    case _ => Err(CheckpointMalformed)
  }

  // ---------- What a caller declares ----------

  /** One entity stream. `decode` stands for the caller's own parsing of a row, absent when it refuses one. */
  datatype Stream = Stream(
    entity: string, account: string, where: ChainID -> Where, maxRows: int, decode: (ChainID, Row) -> Option<string>)

  /** A decoded row, with the id it had. */
  datatype Taken = Taken(id: string, value: string)

  ghost predicate WellFormed(streams: seq<Stream>) {
    && streams != []
    && (forall i :: 0 <= i < |streams| ==> streams[i].maxRows > 0)
    && forall i, j :: 0 <= i < j < |streams| ==> streams[i].entity != streams[j].entity
  }

  /** Where a read asks: the pin, and the block every request asks at. */
  datatype At = At(pin: BlockRef, queryBlock: nat)

  /** The block standing in for a checkpoint the processor has not written, and how a caller can read
      its time: zero when the index has no such block, and absent when no node is at hand. */
  datatype StandIn = StandIn(start: ChainID -> nat, header: Option<nat -> Option<nat>>)

  function Certify(standIn: StandIn, at: At, checkpoint: Checkpoint): Result<Option<LagNote>, IndexError> {
    if checkpoint.written then CertifyAt(at, checkpoint.block, checkpoint.ms) else
    var start := standIn.start(at.pin.chain);
    if start == 0 || standIn.header.None? then Err(CheckpointsAbsent) else
    var timestamp := standIn.header.value(start);
    if timestamp.None? then Err(StartUnread) else CertifyAt(at, start, timestamp.value * 1000)
  }

  function CertifyAt(at: At, block: nat, ms: nat): Result<Option<LagNote>, IndexError> {
    if block > at.queryBlock then Err(CheckpointAheadOfQuery) else CheckCheckpoint(at.pin, block, ms)
  }

  /** A page's checkpoint against the one the read is held to, or against the pin on its first page. */
  function Admit(standIn: StandIn, at: At, want: Option<Checkpoint>,
                 checkpoint: Checkpoint): Result<Option<LagNote>, IndexError> {
    if want.None? then Certify(standIn, at, checkpoint) else
    if checkpoint == want.value then Ok(None) else Err(CheckpointChanged)
  }

  /** A checkpoint list reads as written exactly when it is one row with both its numbers, and as unwritten
      exactly when it is empty; any other list, or none, is refused. */
  lemma ParsedExactly(raw: Option<seq<CheckpointRow>>, block: nat, ms: nat)
    ensures ParseCheckpoint(raw) == Ok(Checkpoint(true, block, ms)) <==> raw == Some([CheckpointRow(Some(block), Some(ms))])
    ensures ParseCheckpoint(raw) == Ok(Checkpoint(false, 0, 0)) <==> raw == Some([])
    ensures ParseCheckpoint(raw).Ok? && !ParseCheckpoint(raw).value.written ==> raw == Some([])
  {
    if raw.Some? && |raw.value| == 1 {
      assert raw.value == [raw.value[0]];
    }
  }

  /** What certifies a read: the checkpoint's own block and second, or, while none is written, the index's
      start block and the second its header gives. */
  ghost predicate Witness(standIn: StandIn, at: At, checkpoint: Checkpoint, block: nat, second: nat) {
    if checkpoint.written then block == checkpoint.block && second == checkpoint.ms / 1000
    else && block == standIn.start(at.pin.chain) && block > 0
         && standIn.header.Some? && standIn.header.value(block) == Some(second)
  }

  /** A first page is admitted exactly when its witness is neither ahead of the query nor of the pin, nor more
      than a minute in the pin's future, nor too old for a fixed pin; past an hour it is noted at a live one. */
  lemma CertifiedExactly(standIn: StandIn, at: At, checkpoint: Checkpoint, block: nat, second: nat)
    requires Witness(standIn, at, checkpoint, block, second)
    ensures var r, lag := Certify(standIn, at, checkpoint), at.pin.timestamp - second;
            && (r.Ok? <==> && block <= at.queryBlock && block <= at.pin.number && lag >= -60
                           && (at.pin.isFixed ==> lag <= BACKFILL_MAX_LAG))
            && (r.Ok? ==> r.value == if !at.pin.isFixed && lag > MAX_LAG then Some(LagNote(block, lag)) else None)
  {
    assert second * 1000 / 1000 == second;
  }

  /** Without a witness nothing is admitted. */
  lemma UncertifiedWithoutWitness(standIn: StandIn, at: At, checkpoint: Checkpoint)
    requires Certify(standIn, at, checkpoint).Ok?
    ensures exists block: nat, second: nat :: Witness(standIn, at, checkpoint, block, second)
  {
    var start := standIn.start(at.pin.chain);
    if checkpoint.written {
      assert Witness(standIn, at, checkpoint, checkpoint.block, checkpoint.ms / 1000);
    } else {
      assert Witness(standIn, at, checkpoint, start, standIn.header.value(start).value);
    }
  }

  // ---------- One stream's progress ----------

  datatype Cursor = Cursor(stream: Stream, where: Where, after: string, taken: seq<Taken>, done: bool) {
    /** A page, or one row past what the stream may hold. */
    function First(): int {
      if stream.maxRows + 1 - |taken| < PAGE_SIZE then stream.maxRows + 1 - |taken| else PAGE_SIZE
    }
  }

  /** The ids a cursor has taken ascend inside its prefix, and it asks after the last of them. */
  ghost predicate InOrder(c: Cursor) {
    && (forall k :: 0 <= k < |c.taken| ==> c.taken[k].id != "" && c.where.prefix <= c.taken[k].id)
    && (forall j, k :: 0 <= j < k < |c.taken| ==> Less(c.taken[j].id, c.taken[k].id))
    && c.after == (if c.taken == [] then c.where.prefix else c.taken[|c.taken| - 1].id)
  }

  /** What every cursor keeps, whatever the server answers: its ids in order, and no more rows than the
      stream may hold. */
  ghost predicate Sound(c: Cursor) {
    InOrder(c) && |c.taken| <= c.stream.maxRows
  }

  /** A page asks for what is left of the bound and one row more, or for a full page where that is less. */
  lemma PagesAreFull(c: Cursor)
    requires |c.taken| <= c.stream.maxRows
    ensures 1 <= c.First() <= PAGE_SIZE && c.First() <= c.stream.maxRows + 1 - |c.taken|
    ensures c.First() == PAGE_SIZE || c.First() == c.stream.maxRows + 1 - |c.taken|
  {
  }

  function Decode(stream: Stream, chain: ChainID, row: Row): Taken {
    var value := stream.decode(chain, row);
    Taken(row.id, if value.Some? then value.value else "")
  }

  ghost function Decoded(stream: Stream, chain: ChainID, rows: seq<Row>): (r: seq<Taken>)
    ensures |r| == |rows|
  {
    seq(|rows|, k requires 0 <= k < |rows| => Decode(stream, chain, rows[k]))
  }

  ghost predicate AllDecode(stream: Stream, chain: ChainID, rows: seq<Row>) {
    forall k :: 0 <= k < |rows| ==> stream.decode(chain, rows[k]).Some?
  }

  ghost function LastId(rows: seq<Row>, after: string): string {
    if rows == [] then after else rows[|rows| - 1].id
  }

  /** A row a cursor admits behind `after`: in its prefix, later than `after`, and decoding. */
  ghost predicate RowFits(c: Cursor, chain: ChainID, after: string, row: Row) {
    row.id != "" && c.where.prefix <= row.id && Less(after, row.id) && c.stream.decode(chain, row).Some?
  }

  ghost predicate RowsFit(c: Cursor, chain: ChainID, rows: seq<Row>) {
    rows == [] ||
    var front := rows[..|rows| - 1];
    RowsFit(c, chain, front) && RowFits(c, chain, LastId(front, c.after), rows[|rows| - 1])
  }

  ghost function Progress(c: Cursor, chain: ChainID, rows: seq<Row>): Cursor {
    c.(taken := c.taken + Decoded(c.stream, chain, rows), after := LastId(rows, c.after))
  }

  ghost predicate Admissible(c: Cursor, chain: ChainID, page: Page) {
    && c.stream.entity in page.rows
    && var rows := page.rows[c.stream.entity];
       |rows| <= c.First() && RowsFit(c, chain, rows) && |c.taken| + |rows| <= c.stream.maxRows
  }

  ghost function Advanced(c: Cursor, chain: ChainID, page: Page): Cursor
    requires c.stream.entity in page.rows
  {
    var rows := page.rows[c.stream.entity];
    Progress(c, chain, rows).(done := |rows| < c.First())
  }

  lemma {:induction false} RowsFitPrefix(c: Cursor, chain: ChainID, rows: seq<Row>, k: nat)
    requires RowsFit(c, chain, rows) && k < |rows|
    ensures RowsFit(c, chain, rows[..k]) && RowFits(c, chain, LastId(rows[..k], c.after), rows[k])
  {
    if k < |rows| - 1 {
      RowsFitPrefix(c, chain, rows[..|rows| - 1], k);
      assert rows[..|rows| - 1][..k] == rows[..k];
    }
  }

  /** The rows before the i-th fit, and `next` has taken them. */
  ghost predicate Admitted(c: Cursor, chain: ChainID, rows: seq<Row>, i: nat, next: Cursor)
    requires i <= |rows|
  {
    next == Progress(c, chain, rows[..i]) && InOrder(next) && RowsFit(c, chain, rows[..i])
  }

  lemma OneMoreRow(c: Cursor, chain: ChainID, rows: seq<Row>, i: nat, next: Cursor)
    requires i < |rows| && Admitted(c, chain, rows, i, next) && RowFits(c, chain, next.after, rows[i])
    ensures Admitted(c, chain, rows, i + 1,
                     next.(taken := next.taken + [Decode(c.stream, chain, rows[i])], after := rows[i].id))
  {
    var before, more, taken := rows[..i], rows[..i + 1], Decode(c.stream, chain, rows[i]);
    assert more[..|more| - 1] == before;
    assert Decoded(c.stream, chain, more) == Decoded(c.stream, chain, before) + [taken];
    assert Progress(c, chain, more).taken == next.taken + [taken];
    StaysInOrder(next, taken);
  }

  lemma StaysInOrder(p: Cursor, taken: Taken)
    requires InOrder(p) && taken.id != "" && p.where.prefix <= taken.id && Less(p.after, taken.id)
    ensures InOrder(p.(taken := p.taken + [taken], after := taken.id))
  {
    forall j | 0 <= j < |p.taken| ensures Less(p.taken[j].id, taken.id) {
      if j < |p.taken| - 1 {
        LessTransitive(p.taken[j].id, p.after, taken.id);
      }
    }
  }

  /** Admits one page of the cursor's rows, row by row, and advances the cursor past them. */
  method AdmitPage(c: Cursor, chain: ChainID, page: Page) returns (r: Result<Cursor, IndexError>)
    requires Sound(c)
    ensures r.Ok? <==> Admissible(c, chain, page)
    ensures r.Ok? ==> r.value == Advanced(c, chain, page) && Sound(r.value)
  {
    if c.stream.entity !in page.rows {
      return Err(EntityOmitted);
    }
    var rows := page.rows[c.stream.entity];
    var first := c.First();
    if |rows| > first {
      return Err(PageTooLong);
    }
    var admitted := AdmitRows(c, chain, rows);
    if admitted.Err? {
      return admitted;
    }
    var next := admitted.value;
    if |next.taken| > c.stream.maxRows {
      return Err(TooManyRows);
    }
    return Ok(next.(done := |rows| < first));
  }

  method AdmitRows(c: Cursor, chain: ChainID, rows: seq<Row>) returns (r: Result<Cursor, IndexError>)
    requires InOrder(c)
    ensures r.Ok? <==> RowsFit(c, chain, rows)
    ensures r.Ok? ==> r.value == Progress(c, chain, rows) && InOrder(r.value)
  {
    var next := c;
    assert next == Progress(c, chain, []);
    for i := 0 to |rows|
      invariant Admitted(c, chain, rows, i, next)
    {
      var checked := CheckRow(c, chain, next.after, rows[i]);
      if checked.Err? {
        if RowsFit(c, chain, rows) {
          RowsFitPrefix(c, chain, rows, i);
        }
        return Err(checked.error);
      }
      OneMoreRow(c, chain, rows, i, next);
      next := next.(taken := next.taken + [checked.value], after := rows[i].id);
    }
    assert rows[..|rows|] == rows;
    return Ok(next);
  }

  method CheckRow(c: Cursor, chain: ChainID, after: string, row: Row) returns (r: Result<Taken, IndexError>)
    ensures r.Ok? <==> RowFits(c, chain, after, row)
    ensures r.Ok? ==> r.value == Decode(c.stream, chain, row)
  {
    if row.id == "" {
      return Err(RowWithoutID);
    }
    if !(c.where.prefix <= row.id) {
      return Err(ForeignRow);
    }
    if !Less(after, row.id) {
      return Err(RowsNotOrdered);
    }
    if c.stream.decode(chain, row).None? {
      return Err(RowUndecoded);
    }
    return Ok(Decode(c.stream, chain, row));
  }

  // ---------- An honest index ----------

  /** An immutable time-travel store: at every block, the rows each clause selects, and the checkpoint. */
  datatype TimeTravel = TimeTravel(
    rows: (ChainID, nat, string, string) -> seq<Row>, checkpoint: (ChainID, nat) -> Checkpoint)

  ghost predicate AscendingIds(rows: seq<Row>) {
    && (forall k :: 0 <= k < |rows| ==> rows[k].id != "")
    && forall j, k :: 0 <= j < k < |rows| ==> Less(rows[j].id, rows[k].id)
  }

  /** Rows come in ascending id order, each with an id that starts with its clause's prefix, and an
      unwritten checkpoint says nothing. */
  ghost predicate Regular(index: TimeTravel) {
    && (forall chain, block, entity, where: Where ::
          var rows := index.rows(chain, block, entity, Render(where, ""));
          AscendingIds(rows) && forall k :: 0 <= k < |rows| ==> where.prefix <= rows[k].id)
    && forall chain, block :: var c := index.checkpoint(chain, block); !c.written ==> c.block == 0 && c.ms == 0
  }

  function After(rows: seq<Row>, id: string): seq<Row> {
    if rows == [] then [] else (if Less(id, rows[0].id) then [rows[0]] else []) + After(rows[1..], id)
  }

  function Beyond(rows: seq<Row>, after: string): seq<Row> {
    if after == "" then rows else After(rows, after)
  }

  function Take(rows: seq<Row>, n: nat): seq<Row> {
    if n < |rows| then rows[..n] else rows
  }

  function CheckpointRows(checkpoint: Checkpoint): seq<CheckpointRow> {
    if checkpoint.written then [CheckpointRow(Some(checkpoint.block), Some(checkpoint.ms))] else []
  }

  ghost predicate AnswersHonestly(index: TimeTravel, query: PageQuery, page: Page) {
    && page.checkpoints == Some(CheckpointRows(index.checkpoint(query.chain, query.block)))
    && forall ask :: ask in query.asks ==>
         && ask.entity in page.rows
         && page.rows[ask.entity]
            == Take(Beyond(index.rows(query.chain, query.block, ask.entity, ask.clause), ask.after), ask.first)
  }

  /** A server that answers every well-posed query from the index. */
  ghost predicate Honest(index: TimeTravel, server: Server) {
    forall n: nat, query: PageQuery :: DistinctEntities(query.asks) ==>
      server(n, query).Some? && AnswersHonestly(index, query, server(n, query).value)
  }

  ghost predicate DistinctEntities(asks: seq<Ask>) {
    forall i, j :: 0 <= i < j < |asks| ==> asks[i].entity != asks[j].entity
  }

  /** The rows a stream's clause selects at a block, and those of them a read pages: the ones after the
      prefix itself. */
  function Selected(index: TimeTravel, at: At, stream: Stream): seq<Row> {
    index.rows(at.pin.chain, at.queryBlock, stream.entity, Render(stream.where(at.pin.chain), ""))
  }

  function Paged(index: TimeTravel, at: At, stream: Stream): seq<Row> {
    Beyond(Selected(index, at, stream), stream.where(at.pin.chain).prefix)
  }

  // ---------- Cursors in an ascending stream ----------

  lemma {:induction false} AfterIsTail(rows: seq<Row>, k: nat)
    requires AscendingIds(rows) && k < |rows|
    ensures After(rows, rows[k].id) == rows[k + 1..]
  {
    LessIrreflexive(rows[k].id);
    if k > 0 {
      if Less(rows[k].id, rows[0].id) {
        LessTransitive(rows[0].id, rows[k].id, rows[0].id);
        LessIrreflexive(rows[0].id);
      }
      AfterIsTail(rows[1..], k - 1);
      assert rows[1..][k..] == rows[k + 1..];
    } else {
      AfterKeepsLarger(rows[1..], rows[0].id);
    }
  }

  lemma {:induction false} AfterKeepsLarger(rows: seq<Row>, id: string)
    requires forall k :: 0 <= k < |rows| ==> Less(id, rows[k].id)
    ensures After(rows, id) == rows
  {
    if rows != [] {
      AfterKeepsLarger(rows[1..], id);
    }
  }

  lemma {:induction false} AfterAfter(rows: seq<Row>, low: string, high: string)
    requires Less(low, high)
    ensures After(After(rows, low), high) == After(rows, high)
  {
    if rows != [] {
      var rest := After(rows[1..], low);
      AfterAfter(rows[1..], low, high);
      if Less(low, rows[0].id) {
        assert ([rows[0]] + rest)[1..] == rest;
      } else {
        assert [] + rest == rest;
        if Less(high, rows[0].id) {
          LessTransitive(low, high, rows[0].id);
        }
      }
    }
  }

  lemma {:induction false} AfterIsSubsequence(rows: seq<Row>, id: string)
    requires AscendingIds(rows)
    ensures AscendingIds(After(rows, id))
    ensures forall k :: 0 <= k < |After(rows, id)| ==> After(rows, id)[k] in rows && Less(id, After(rows, id)[k].id)
  {
    if rows != [] {
      AfterIsSubsequence(rows[1..], id);
      var rest := After(rows[1..], id);
      assert forall k :: 0 <= k < |rest| ==> rest[k] in rows[1..];
      forall k | 0 <= k < |rest| ensures Less(rows[0].id, rest[k].id) {
        var j :| 0 <= j < |rows[1..]| && rows[1..][j] == rest[k];
        assert rows[j + 1] == rest[k];
      }
    }
  }

  /** A paged read leaves out exactly the row whose id is the prefix itself, which sorts first; without
      such a row it pages everything the clause selects. */
  lemma PagedLeavesOutThePrefix(index: TimeTravel, at: At, stream: Stream)
    requires Regular(index)
    ensures var prefix, all := stream.where(at.pin.chain).prefix, Selected(index, at, stream);
            && (Paged(index, at, stream) == all <==> prefix == "" || forall row :: row in all ==> row.id != prefix)
            && (prefix != "" && (exists row :: row in all && row.id == prefix) ==>
                  Paged(index, at, stream) == all[1..] && all[0].id == prefix)
  {
    var where := stream.where(at.pin.chain);
    var prefix, all := where.prefix, Selected(index, at, stream);
    assert AscendingIds(all) && forall k :: 0 <= k < |all| ==> prefix <= all[k].id;
    if prefix != "" {
      forall k | 0 <= k < |all| ensures all[k].id == prefix || Less(prefix, all[k].id) {
        if all[k].id != prefix {
          PrefixLess(prefix, all[k].id);
        }
      }
      if exists row :: row in all && row.id == prefix {
        var k :| 0 <= k < |all| && all[k].id == prefix;
        if k > 0 {
          LessIrreflexive(prefix);
          LessTransitive(prefix, all[0].id, prefix);
        }
        AfterIsTail(all, 0);
      } else {
        AfterKeepsLarger(all, prefix);
      }
    }
  }

  /** Such a row is lost: a clause that selects one row, named by its own prefix, pages nothing. */
  lemma PrefixRowIsLost(index: TimeTravel, at: At, stream: Stream)
    requires stream.where(at.pin.chain).prefix == "1:" && Selected(index, at, stream) == [Row("1:", "row")]
    ensures Paged(index, at, stream) == []
  {
    LessIrreflexive("1:");
    assert After([Row("1:", "row")], "1:") == After([], "1:");
  }

  /** The rows a read pages ascend, lie in the prefix, and start after the first cursor. */
  lemma PagedIsRegular(index: TimeTravel, at: At, stream: Stream)
    requires Regular(index)
    ensures var where, rows := stream.where(at.pin.chain), Paged(index, at, stream);
            AscendingIds(rows)
            && forall k :: 0 <= k < |rows| ==> where.prefix <= rows[k].id && Less(where.prefix, rows[k].id)
  {
    var where, all := stream.where(at.pin.chain), Selected(index, at, stream);
    assert AscendingIds(all) && forall k :: 0 <= k < |all| ==> where.prefix <= all[k].id;
    AfterIsSubsequence(all, where.prefix);
    var rows := Paged(index, at, stream);
    forall k | 0 <= k < |rows| ensures where.prefix <= rows[k].id && Less(where.prefix, rows[k].id) {
      if where.prefix != "" {
        assert rows[k] in all;
      }
    }
  }

  /** The page an honest server gives a cursor that has taken the first `k` rows: the next ones. */
  lemma HonestPage(index: TimeTravel, at: At, stream: Stream, k: nat)
    requires Regular(index)
    requires k <= |Paged(index, at, stream)|
    ensures var rows, prefix := Paged(index, at, stream), stream.where(at.pin.chain).prefix;
            Beyond(Selected(index, at, stream), if k == 0 then prefix else rows[k - 1].id) == rows[k..]
  {
    PagedIsRegular(index, at, stream);
    var rows, prefix := Paged(index, at, stream), stream.where(at.pin.chain).prefix;
    if k > 0 {
      AfterIsTail(rows, k - 1);
      if prefix != "" {
        AfterAfter(Selected(index, at, stream), prefix, rows[k - 1].id);
      }
    }
  }

  /** The stream holds no more rows than it declares, and the protocol accepts them all. */
  ghost predicate Fits(stream: Stream, chain: ChainID, rows: seq<Row>) {
    |rows| <= stream.maxRows && AllDecode(stream, chain, rows)
  }

  /** The cursor has taken the first rows of the stream, and is done only with all of them. */
  ghost predicate Follows(c: Cursor, chain: ChainID, rows: seq<Row>) {
    && |c.taken| <= |rows|
    && AllDecode(c.stream, chain, rows[..|c.taken|])
    && c.taken == Decoded(c.stream, chain, rows[..|c.taken|])
    && (c.done ==> |c.taken| == |rows|)
  }

  /** The entity's rows in an honest page for the cursor. */
  ghost predicate HonestFor(index: TimeTravel, at: At, c: Cursor, page: Page)
    requires Sound(c)
  {
    && c.stream.entity in page.rows
    && page.rows[c.stream.entity] == Take(Beyond(Selected(index, at, c.stream), c.after), c.First())
  }

  /** A stream that fits never has an honest page refused. */
  lemma HonestPageAdmitted(index: TimeTravel, at: At, c: Cursor, page: Page)
    requires Regular(index) && Sound(c) && c.where == c.stream.where(at.pin.chain)
    requires Follows(c, at.pin.chain, Paged(index, at, c.stream)) && HonestFor(index, at, c, page)
    requires Fits(c.stream, at.pin.chain, Paged(index, at, c.stream))
    ensures Admissible(c, at.pin.chain, page)
  {
    var rows := page.rows[c.stream.entity];
    HonestRows(index, at, c, rows);
    PagedIsRegular(index, at, c.stream);
    NextRowsFit(c, at.pin.chain, Paged(index, at, c.stream), rows);
  }

  lemma NextRowsFit(c: Cursor, chain: ChainID, all: seq<Row>, rows: seq<Row>)
    requires AscendingIds(all) && Fits(c.stream, chain, all)
    requires forall i :: 0 <= i < |all| ==> c.where.prefix <= all[i].id && Less(c.where.prefix, all[i].id)
    requires |c.taken| + |rows| <= |all| && rows == all[|c.taken|..|c.taken| + |rows|]
    requires c.after == LastId(all[..|c.taken|], c.where.prefix)
    ensures RowsFit(c, chain, rows) && |c.taken| + |rows| <= c.stream.maxRows
  {
    StretchFits(c, chain, all, |c.taken|, |c.taken| + |rows|);
  }

  /** An admitted honest page moves a following cursor on. */
  lemma HonestPageFollowed(index: TimeTravel, at: At, c: Cursor, page: Page)
    requires Regular(index) && Sound(c) && c.where == c.stream.where(at.pin.chain)
    requires Follows(c, at.pin.chain, Paged(index, at, c.stream)) && HonestFor(index, at, c, page)
    requires Admissible(c, at.pin.chain, page)
    ensures Follows(Advanced(c, at.pin.chain, page), at.pin.chain, Paged(index, at, c.stream))
  {
    HonestRows(index, at, c, page.rows[c.stream.entity]);
    FollowsOn(c, at.pin.chain, Paged(index, at, c.stream), page.rows[c.stream.entity]);
  }

  /** The rows an honest page holds: the cursor's next ones, and fewer than asked only at the end. */
  lemma HonestRows(index: TimeTravel, at: At, c: Cursor, rows: seq<Row>)
    requires Regular(index) && Sound(c) && c.where == c.stream.where(at.pin.chain)
    requires Follows(c, at.pin.chain, Paged(index, at, c.stream))
    requires rows == Take(Beyond(Selected(index, at, c.stream), c.after), c.First())
    ensures var all, k := Paged(index, at, c.stream), |c.taken|;
            && k + |rows| <= |all| && rows == all[k..k + |rows|] && |rows| <= c.First()
            && (|rows| < c.First() ==> k + |rows| == |all|)
            && c.after == LastId(all[..k], c.where.prefix)
  {
    var all, k := Paged(index, at, c.stream), |c.taken|;
    if k > 0 {
      assert c.taken[k - 1] == Decode(c.stream, at.pin.chain, all[..k][k - 1]);
    }
    HonestPage(index, at, c.stream, k);
  }

  /** A stretch of an ascending stream, all of it decoding, fits behind the rows before it. */
  lemma {:induction false} StretchFits(c: Cursor, chain: ChainID, all: seq<Row>, k: nat, end: nat)
    requires k <= end <= |all| && AscendingIds(all) && AllDecode(c.stream, chain, all)
    requires forall i :: 0 <= i < |all| ==> c.where.prefix <= all[i].id && Less(c.where.prefix, all[i].id)
    requires c.after == LastId(all[..k], c.where.prefix)
    ensures RowsFit(c, chain, all[k..end])
  {
    if k < end {
      StretchFits(c, chain, all, k, end - 1);
      StretchExtends(all, k, end, c.after, c.where.prefix);
    }
  }

  lemma StretchExtends(all: seq<Row>, k: nat, end: nat, after: string, prefix: string)
    requires k < end <= |all| && after == LastId(all[..k], prefix)
    ensures var rows := all[k..end]; rows[..|rows| - 1] == all[k..end - 1] && rows[|rows| - 1] == all[end - 1]
    ensures LastId(all[k..end - 1], after) == if end == 1 then prefix else all[end - 2].id
  {
  }

  lemma {:induction false} RowsFitDecode(c: Cursor, chain: ChainID, rows: seq<Row>)
    requires RowsFit(c, chain, rows)
    ensures AllDecode(c.stream, chain, rows)
  {
    forall k | 0 <= k < |rows| ensures c.stream.decode(chain, rows[k]).Some? {
      RowsFitPrefix(c, chain, rows, k);
    }
  }

  lemma FollowsOn(c: Cursor, chain: ChainID, all: seq<Row>, rows: seq<Row>)
    requires Follows(c, chain, all) && RowsFit(c, chain, rows)
    requires |c.taken| + |rows| <= |all| && rows == all[|c.taken|..|c.taken| + |rows|]
    requires |rows| < c.First() ==> |c.taken| + |rows| == |all|
    ensures Follows(Progress(c, chain, rows).(done := |rows| < c.First()), chain, all)
  {
    RowsFitDecode(c, chain, rows);
    var k := |c.taken|;
    assert all[..k + |rows|] == all[..k] + rows;
    assert Decoded(c.stream, chain, all[..k + |rows|]) == Decoded(c.stream, chain, all[..k]) + Decoded(c.stream, chain, rows);
  }

  // ---------- A round: every open cursor's page ----------

  ghost predicate IsRound(server: Server, n: nat, query: PageQuery, checkpoint: Checkpoint) {
    var page := server(n, query);
    page.Some? && ParseCheckpoint(page.value.checkpoints) == Ok(checkpoint)
  }

  function AskOf(c: Cursor): Ask
    requires c.First() >= 0
  {
    Ask(c.stream.entity, c.First(), Render(c.where, ""), c.after)
  }

  ghost predicate AllSound(cursors: seq<Cursor>) {
    forall i :: 0 <= i < |cursors| ==> Sound(cursors[i])
  }

  function Asks(cursors: seq<Cursor>): seq<Ask>
    requires AllSound(cursors)
  {
    if cursors == [] then [] else
    (if cursors[0].done then [] else [AskOf(cursors[0])]) + Asks(cursors[1..])
  }

  lemma {:induction false} OpenIsAsked(cursors: seq<Cursor>, i: nat)
    requires AllSound(cursors) && i < |cursors| && !cursors[i].done
    ensures AskOf(cursors[i]) in Asks(cursors)
  {
    if i > 0 {
      OpenIsAsked(cursors[1..], i - 1);
    }
  }

  lemma AsksSplit(cursors: seq<Cursor>)
    requires AllSound(cursors) && cursors != []
    ensures AllSound(cursors[1..])
    ensures Asks(cursors) == (if cursors[0].done then [] else [AskOf(cursors[0])]) + Asks(cursors[1..])
  {
  }

  ghost function Entities(cursors: seq<Cursor>): set<string> {
    if cursors == [] then {} else {cursors[0].stream.entity} + Entities(cursors[1..])
  }

  lemma {:induction false} EntityOf(cursors: seq<Cursor>)
    ensures forall entity :: entity in Entities(cursors) ==> exists i :: 0 <= i < |cursors| && cursors[i].stream.entity == entity
  {
    if cursors != [] {
      EntityOf(cursors[1..]);
    }
  }

  lemma {:induction false} AskedEntities(cursors: seq<Cursor>)
    requires AllSound(cursors)
    ensures forall k :: 0 <= k < |Asks(cursors)| ==> Asks(cursors)[k].entity in Entities(cursors)
  {
    if cursors != [] {
      AsksSplit(cursors);
      AskedEntities(cursors[1..]);
    }
  }

  lemma {:induction false} AsksAreDistinct(cursors: seq<Cursor>)
    requires AllSound(cursors)
    requires forall i, j :: 0 <= i < j < |cursors| ==> cursors[i].stream.entity != cursors[j].stream.entity
    ensures DistinctEntities(Asks(cursors))
  {
    if cursors != [] {
      var rest := cursors[1..];
      AsksSplit(cursors);
      AsksAreDistinct(rest);
      AskedEntities(rest);
      EntityOf(rest);
    }
  }

  ghost predicate RoundFits(cursors: seq<Cursor>, chain: ChainID, page: Page) {
    forall i :: 0 <= i < |cursors| && !cursors[i].done ==> Admissible(cursors[i], chain, page)
  }

  ghost function AfterRound(c: Cursor, chain: ChainID, page: Page): Cursor {
    if c.done || c.stream.entity !in page.rows then c else Advanced(c, chain, page)
  }

  method AdmitRound(cursors: seq<Cursor>, chain: ChainID, page: Page) returns (r: Result<seq<Cursor>, IndexError>)
    requires AllSound(cursors)
    ensures r.Ok? <==> RoundFits(cursors, chain, page)
    ensures r.Ok? ==> AllSound(r.value) && |r.value| == |cursors|
                      && forall i :: 0 <= i < |cursors| ==> r.value[i] == AfterRound(cursors[i], chain, page)
  {
    var next := cursors;
    for i := 0 to |cursors|
      invariant |next| == |cursors| && AllSound(next)
      invariant forall k :: 0 <= k < i ==> next[k] == AfterRound(cursors[k], chain, page)
      invariant forall k :: i <= k < |cursors| ==> next[k] == cursors[k]
      invariant forall k :: 0 <= k < i && !cursors[k].done ==> Admissible(cursors[k], chain, page)
    {
      if !cursors[i].done {
        var advanced := AdmitPage(cursors[i], chain, page);
        if advanced.Err? {
          return Err(advanced.error);
        }
        next := next[i := advanced.value];
      }
    }
    return Ok(next);
  }
}
