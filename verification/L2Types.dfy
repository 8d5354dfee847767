/** Outcomes of operations that may return nothing or raise an error. */
module Results {

  datatype Option<+T> = None | Some(value: T)

  datatype Result<+T, +E> = Ok(value: T) | Err(error: E)

  datatype Unit = Unit
}

/** Real arithmetic used by more than one component. */
module Reals {

  function MaxZero(x: real): real { if x > 0.0 then x else 0.0 }
}

/**
 Fixed-point Level-2 entities. Their constructors reject out-of-range fields, so the ranges are
 part of the types.
 */
module L2Types {

  const UINT64_MAX: int := 0xFFFF_FFFF_FFFF_FFFF
  const INT64_MAX: int := 0x7FFF_FFFF_FFFF_FFFF

  /** Prices and quantities are integers in units of ten to the minus eight. */
  const PRICE_SCALE: nat := 100_000_000
  const QUANTITY_SCALE: nat := 100_000_000

  type U64 = x: int | 0 <= x <= UINT64_MAX

  /** Positive unsigned 64-bit values: receipt timestamps and update identifiers. */
  type PosU64 = x: int | 1 <= x <= UINT64_MAX witness 1

  type Price = x: int | 1 <= x <= INT64_MAX witness 1

  /** One price level; quantity zero is the exchange's deletion command. */
  datatype Level = Level(price: Price, quantity: U64)

  datatype Snapshot = Snapshot(receipt: PosU64, lastUpdateId: PosU64, bids: seq<Level>, asks: seq<Level>)

  datatype DepthFields = DepthFields(
    receipt: PosU64, eventTimeMs: U64, firstUpdateId: PosU64, finalUpdateId: PosU64,
    bids: seq<Level>, asks: seq<Level>)

  /** Incremental changes covering the inclusive range firstUpdateId..finalUpdateId. */
  type DepthUpdate = u: DepthFields | u.firstUpdateId <= u.finalUpdateId
    witness DepthFields(1, 0, 1, 1, [], [])

  datatype Trade = Trade(
    receipt: PosU64, eventTimeMs: U64, aggregateTradeId: PosU64,
    price: Price, quantity: PosU64, buyerIsMaker: bool)

  datatype BoundaryReason =
    | ConnectionStart
    | SequenceGap
    | SnapshotRetry
    | UserStop
    | QueueOverflow
    | ConnectionEnd

  /** Everything a Level-2 recording can contain, in arrival order. */
  datatype Event =
    | SnapshotEvent(snapshot: Snapshot)
    | DepthEvent(update: DepthUpdate)
    | TradeEvent(trade: Trade)
    | BoundaryEvent(receipt: PosU64, reason: BoundaryReason)
}
