/** The dictionary order book: its value, its updates and the audit run after every mutation. */
module OrderBook {
  import opened Results
  import opened L2Types

  type BookSide = map<Price, U64>

  datatype Book = Book(bids: BookSide, asks: BookSide, lastUpdateId: U64)

  const EMPTY := Book(map[], map[], 0)

  function QuantityAt(side: BookSide, price: Price): U64 {
    if price in side then side[price] else 0
  }

  /** Quantity zero deletes; anything else overwrites. */
  function SetLevel(side: BookSide, level: Level): BookSide {
    if level.quantity == 0 then side - {level.price} else side[level.price := level.quantity]
  }

  function SetLevels(side: BookSide, levels: seq<Level>): BookSide
    decreases levels
  {
    if levels == [] then side else SetLevels(SetLevel(side, levels[0]), levels[1..])
  }

  function Installed(snapshot: Snapshot): Book {
    Book(SetLevels(map[], snapshot.bids), SetLevels(map[], snapshot.asks), snapshot.lastUpdateId)
  }

  function Applied(book: Book, update: DepthUpdate): Book {
    Book(SetLevels(book.bids, update.bids), SetLevels(book.asks, update.asks), update.finalUpdateId)
  }

  predicate Positive(side: BookSide) {
    forall p | p in side :: side[p] > 0
  }

  /** What validate() accepts: two-sided, positive and not crossed or locked. */
  predicate Sound(book: Book) {
    && book.bids != map[] && book.asks != map[]
    && Positive(book.bids) && Positive(book.asks)
    && (forall p, q | p in book.bids && q in book.asks :: p < q)
  }

  // ----- extreme prices

  lemma {:induction false} Largest(prices: set<Price>) returns (p: Price)
    requires prices != {}
    ensures p in prices && forall q | q in prices :: q <= p
  {
    var x :| x in prices;
    var rest := prices - {x};
    assert prices == rest + {x};
    if rest == {} {
      p := x;
    } else {
      p := Largest(rest);
      p := if p >= x then p else x;
    }
  }

  lemma {:induction false} Smallest(prices: set<Price>) returns (p: Price)
    requires prices != {}
    ensures p in prices && forall q | q in prices :: p <= q
  {
    var x :| x in prices;
    var rest := prices - {x};
    assert prices == rest + {x};
    if rest == {} {
      p := x;
    } else {
      p := Smallest(rest);
      p := if p <= x then p else x;
    }
  }

  lemma HasExtremes(side: BookSide)
    requires side != map[]
    ensures exists p :: p in side && forall q | q in side :: q <= p
    ensures exists p :: p in side && forall q | q in side :: p <= q
  {
    var high := Largest(side.Keys);
    var low := Smallest(side.Keys);
  }

  function MaxPrice(side: BookSide): (p: Price)
    requires side != map[]
    ensures p in side && forall q | q in side :: q <= p
  {
    HasExtremes(side);
    var p :| p in side && forall q | q in side :: q <= p;
    p
  }

  function MinPrice(side: BookSide): (p: Price)
    requires side != map[]
    ensures p in side && forall q | q in side :: p <= q
  {
    HasExtremes(side);
    var p :| p in side && forall q | q in side :: p <= q;
    p
  }

  // ----- what a list of level commands does to one side

  /** The quantity the last command for this price carries. */
  function LastListed(levels: seq<Level>, price: Price): Option<U64> {
    if levels == [] then None
    else
      match LastListed(levels[1..], price)
      case Some(q) => Some(q)
      case None => if levels[0].price == price then Some(levels[0].quantity) else None
  }

  /** Of several commands for one price the last wins, and no other price moves. */
  lemma {:induction false} SetLevelsAt(side: BookSide, levels: seq<Level>, price: Price)
    ensures QuantityAt(SetLevels(side, levels), price) ==
            match LastListed(levels, price) case Some(q) => q case None => QuantityAt(side, price)
    decreases levels
  {
    if levels != [] {
      SetLevelsAt(SetLevel(side, levels[0]), levels[1..], price);
    }
  }

  lemma {:induction false} SetLevelsPositive(side: BookSide, levels: seq<Level>)
    requires Positive(side)
    ensures Positive(SetLevels(side, levels))
    decreases levels
  {
    if levels != [] {
      SetLevelsPositive(SetLevel(side, levels[0]), levels[1..]);
    }
  }

  /** Sides without zero quantities are equal when every price has the same quantity. */
  lemma SidesEqual(a: BookSide, b: BookSide)
    requires Positive(a) && Positive(b)
    requires forall p: Price :: QuantityAt(a, p) == QuantityAt(b, p)
    ensures a == b
  {
    forall p: Price
      ensures p in a <==> p in b
      ensures p in a ==> a[p] == b[p]
    {
      assert QuantityAt(a, p) == QuantityAt(b, p);
    }
    assert a.Keys == b.Keys;
  }

  // ----- the mutable book

  class L2OrderBook {
    var bids: BookSide
    var asks: BookSide
    var lastUpdateId: U64

    ghost function View(): Book
      reads this
    {
      Book(bids, asks, lastUpdateId)
    }

    constructor ()
      ensures View() == EMPTY
    {
      bids, asks, lastUpdateId := map[], map[], 0;
    }

    method Clear()
      modifies this
      ensures View() == EMPTY
    {
      bids, asks, lastUpdateId := map[], map[], 0;
    }

    /** The new image is stored before it is audited, so a refused snapshot stays in place. */
    method InstallSnapshot(snapshot: Snapshot) returns (ok: bool)
      modifies this
      ensures View() == Installed(snapshot)
      ensures ok <==> Sound(Installed(snapshot))
    {
      bids := SetAll(map[], snapshot.bids);
      asks := SetAll(map[], snapshot.asks);
      lastUpdateId := snapshot.lastUpdateId;
      ok := Validate();
    }

    method Apply(update: DepthUpdate) returns (ok: bool)
      modifies this
      ensures View() == Applied(old(View()), update)
      ensures ok <==> Sound(View())
    {
      bids := SetAll(bids, update.bids);
      asks := SetAll(asks, update.asks);
      lastUpdateId := update.finalUpdateId;
      ok := Validate();
    }

    static method SetAll(start: BookSide, levels: seq<Level>) returns (side: BookSide)
      ensures side == SetLevels(start, levels)
    {
      side := start;
      for i := 0 to |levels|
        invariant SetLevels(side, levels[i..]) == SetLevels(start, levels)
      {
        assert levels[i..][1..] == levels[i + 1..];
        side := if levels[i].quantity == 0 then side - {levels[i].price}
                else side[levels[i].price := levels[i].quantity];
      }
    }

    method Validate() returns (ok: bool)
      ensures ok <==> Sound(View())
    {
      if bids == map[] || asks == map[] {
        return false;
      }
      if exists p | p in bids :: bids[p] <= 0 {
        return false;
      }
      if exists p | p in asks :: asks[p] <= 0 {
        return false;
      }
      return MaxPrice(bids) < MinPrice(asks);
    }
  }
}
