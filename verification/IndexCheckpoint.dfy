/** Where an index read asks, and which checkpoint certifies what it reads. */
module IndexCheckpoint {
  import opened Wrappers

  type ChainID = nat

  /** A chain's pin; timestamps are in seconds. */
  datatype BlockRef = BlockRef(chain: ChainID, number: nat, timestamp: nat, isFixed: bool)

  datatype ChainStatus = ChainStatus(state: string, processedBlock: nat, failed: bool)

  type Statuses = map<ChainID, ChainStatus>

  const PROCESSING_LATEST := "PROCESSING_LATEST"
  const MAX_LAG: nat := 60 * 60
  const BACKFILL_MAX_LAG: nat := 7 * 24 * 60 * 60 + 30 * 60

  datatype IndexError =
    | StatusUnread | ChainNotConfigured | ChainOmitted | ChainFailed | BackfillIncomplete | ShortOfPin
    | NoStream | EntityTwice | NoRowBound | RequestFailed | CheckpointMalformed | CheckpointsAbsent | StartUnread
    | CheckpointAheadOfQuery | CheckpointAheadOfPin | CheckpointInFuture | CheckpointStale | CheckpointChanged
    | EntityOmitted | PageTooLong | RowWithoutID | ForeignRow | RowsNotOrdered | RowUndecoded | TooManyRows

  function Min(a: nat, b: nat): nat {
    if a < b then a else b
  }

  /** The block a read for `block` queries at, from a status read that is repeated, forced, when the
      first finds the processor short of a fixed pin. */
  function QueryBlock(block: BlockRef, read: bool -> Result<Statuses, IndexError>): Result<(Statuses, nat), IndexError> {
    var first := read(false);
    if first.Err? then Err(first.error) else
    var stale := block.chain in first.value && block.isFixed && first.value[block.chain].processedBlock < block.number;
    var latest := if stale then read(true) else first;
    if latest.Err? then Err(latest.error) else
    if block.chain !in latest.value then Err(ChainOmitted) else
    var status := latest.value[block.chain];
    if status.state != PROCESSING_LATEST then Err(BackfillIncomplete) else
    if block.isFixed && status.processedBlock < block.number then Err(ShortOfPin) else
    Ok((latest.value, Min(block.number, status.processedBlock)))
  }

  datatype LagNote = LagNote(checkpoint: nat, lag: nat)

  function CheckCheckpoint(block: BlockRef, checkpoint: nat, checkpointMs: nat): Result<Option<LagNote>, IndexError> {
    if checkpoint > block.number then Err(CheckpointAheadOfPin) else
    var seconds := checkpointMs / 1000;
    if seconds > block.timestamp + 60 then Err(CheckpointInFuture) else
    if block.timestamp <= seconds then Ok(None) else
    var lag := block.timestamp - seconds;
    if block.isFixed then (if lag > BACKFILL_MAX_LAG then Err(CheckpointStale) else Ok(None)) else
    if lag > MAX_LAG then Ok(Some(LagNote(checkpoint, lag))) else Ok(None)
  }

  /** A reading names the chain short of a fixed pin. */
  ghost predicate ShortOfFixedPin(block: BlockRef, reading: Result<Statuses, IndexError>) {
    && block.isFixed && reading.Ok? && block.chain in reading.value
    && reading.value[block.chain].processedBlock < block.number
  }

  /** A reading lets the pin be read: it names the chain, no longer backfilling, and past a fixed pin. */
  ghost predicate Accepts(block: BlockRef, reading: Result<Statuses, IndexError>) {
    && reading.Ok? && block.chain in reading.value
    && reading.value[block.chain].state == PROCESSING_LATEST
    && (block.isFixed ==> reading.value[block.chain].processedBlock >= block.number)
  }

  /** The later of the pin's and the processor's block that both allow. */
  ghost predicate AskedAt(block: BlockRef, status: ChainStatus, queryBlock: nat) {
    && queryBlock <= block.number && queryBlock <= status.processedBlock
    && (queryBlock == block.number || queryBlock == status.processedBlock)
  }

  /** The forced reading decides exactly when the first one names the chain short of a fixed pin, and the
      first decides otherwise; a query has a block exactly when the deciding reading accepts the pin, and
      then carries that reading. A reading that failed passes its own error on. */
  lemma QueryBlockExact(block: BlockRef, read: bool -> Result<Statuses, IndexError>)
    ensures var deciding := read(ShortOfFixedPin(block, read(false)));
            && (QueryBlock(block, read).Ok? <==> Accepts(block, deciding))
            && (QueryBlock(block, read).Ok? ==>
                  && QueryBlock(block, read).value.0 == deciding.value
                  && AskedAt(block, deciding.value[block.chain], QueryBlock(block, read).value.1))
            && (deciding.Err? ==> QueryBlock(block, read) == Err(deciding.error))
  {
  }

  /** A query never asks past the pin; at a fixed pin it asks at the pin itself, of a processor that has
      passed it; and it never asks a processor that is still backfilling. */
  lemma QueryBlockAtPin(block: BlockRef, read: bool -> Result<Statuses, IndexError>)
    requires QueryBlock(block, read).Ok?
    ensures var (statuses, queryBlock) := QueryBlock(block, read).value;
            && queryBlock <= block.number
            && block.chain in statuses && statuses[block.chain].state == PROCESSING_LATEST
            && queryBlock <= statuses[block.chain].processedBlock
            && (block.isFixed ==> queryBlock == block.number)
            && (queryBlock < block.number ==> !block.isFixed && queryBlock == statuses[block.chain].processedBlock)
            && (read(false) == Ok(statuses) || (block.isFixed && read(true) == Ok(statuses)))
  {
  }

  /** A checkpoint certifies a read without a note exactly when it is not ahead of the pin, not more than
      a minute in its future, and within the lag its kind of pin allows. */
  lemma CertifiedWithoutNote(block: BlockRef, checkpoint: nat, checkpointMs: nat)
    ensures CheckCheckpoint(block, checkpoint, checkpointMs) == Ok(None)
            <==> && checkpoint <= block.number
                 && checkpointMs / 1000 <= block.timestamp + 60
                 && block.timestamp <= checkpointMs / 1000 + (if block.isFixed then BACKFILL_MAX_LAG else MAX_LAG)
    ensures block.isFixed && CheckCheckpoint(block, checkpoint, checkpointMs).Ok?
            ==> CheckCheckpoint(block, checkpoint, checkpointMs) == Ok(None)
  {
  }

  /** A checkpoint is refused exactly when it is ahead of the pin, more than a minute in its future, or, at
      a fixed pin, older than the backfill allows. At a live pin an old one is never refused: past an hour
      it is noted, with how far it trails. */
  lemma LagIsNoted(block: BlockRef, checkpoint: nat, checkpointMs: nat)
    ensures var lag, r := block.timestamp - checkpointMs / 1000, CheckCheckpoint(block, checkpoint, checkpointMs);
            && (r.Err? <==> checkpoint > block.number || lag < -60 || (block.isFixed && lag > BACKFILL_MAX_LAG))
            && (r.Ok? && r.value.Some? <==> r.Ok? && !block.isFixed && lag > MAX_LAG)
            && (r.Ok? && r.value.Some? ==> r.value == Some(LagNote(checkpoint, lag)))
  {
  }
}
