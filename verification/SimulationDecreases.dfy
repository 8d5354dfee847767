/** What a depth update takes from the queues: the displayed decreases and the share of them the model uses. */
module SimulationDecreases {
  import opened L2Types
  import opened OrderBook
  import opened Simulation

  /** The last level of the list at this price that shows less than what was displayed. */
  predicate LastShrunk(levels: seq<Level>, price: Price, displayed: int, i: nat) {
    && i < |levels| && levels[i].price == price && levels[i].quantity < displayed
    && forall j | i < j < |levels| && levels[j].price == price :: levels[j].quantity >= displayed
  }

  predicate Shrinks(levels: seq<Level>, price: Price, displayed: int) {
    exists i | 0 <= i < |levels| :: levels[i].price == price && levels[i].quantity < displayed
  }

  lemma {:induction false} SideDecreasesAt(
    book: Book, side: BookSideName, levels: seq<Level>, found: Shadow, key: LevelKey)
    ensures var n, displayed := SideDecreases(book, side, levels, found), Displayed(book, key);
            && (key.side == side && Shrinks(levels, key.price, displayed) ==>
                  key in n && exists i: nat :: LastShrunk(levels, key.price, displayed, i) && n[key] == displayed - levels[i].quantity)
            && (key.side != side || !Shrinks(levels, key.price, displayed) ==>
                  (key in n <==> key in found) && (key in n ==> n[key] == found[key]))
    decreases levels
  {
    hide Displayed;
    if levels != [] {
      var first, rest := levels[0], levels[1..];
      var at := LevelKey(side, first.price);
      var was: int := Displayed(book, at);
      var next := if first.quantity < was then found[at := was - first.quantity] else found;
      SideDecreasesAt(book, side, rest, next, key);
      var displayed := Displayed(book, key);
      if key.side == side && Shrinks(rest, key.price, displayed) {
        var i: nat :| LastShrunk(rest, key.price, displayed, i)
                 && SideDecreases(book, side, rest, next)[key] == displayed - rest[i].quantity;
        LaterShrunk(levels, key.price, displayed, i);
        assert levels[i + 1] == rest[i];
      } else if key.side == side && Shrinks(levels, key.price, displayed) {
        OnlyFirstShrinks(levels, key.price, displayed);
        assert key == at;
      } else if key.side == side {
        assert key == at ==> levels[0].quantity >= displayed;
      }
    }
  }

  lemma LaterShrunk(levels: seq<Level>, price: Price, displayed: int, i: nat)
    requires levels != [] && LastShrunk(levels[1..], price, displayed, i)
    ensures LastShrunk(levels, price, displayed, i + 1) && Shrinks(levels, price, displayed)
  {
    assert levels[i + 1] == levels[1..][i];
    forall j | i + 1 < j < |levels| && levels[j].price == price ensures levels[j].quantity >= displayed {
      assert levels[j] == levels[1..][j - 1];
    }
  }

  lemma OnlyFirstShrinks(levels: seq<Level>, price: Price, displayed: int)
    requires levels != [] && Shrinks(levels, price, displayed) && !Shrinks(levels[1..], price, displayed)
    ensures levels[0].price == price && levels[0].quantity < displayed && LastShrunk(levels, price, displayed, 0)
  {
    forall j | 0 < j < |levels| && levels[j].price == price ensures levels[j].quantity >= displayed {
      assert levels[j] == levels[1..][j - 1];
    }
  }

  /**
   The decreases of an update are exactly the levels of which some listed quantity is below the
   displayed one, each with the difference to the last such quantity.
   */
  lemma DecreasesAre(book: Book, u: DepthUpdate, key: LevelKey)
    ensures var found, displayed := Decreases(book, u), QuantityAt(if key.side.BidSide? then book.bids else book.asks, key.price);
            var levels := if key.side.BidSide? then u.bids else u.asks;
            && (key in found <==> Shrinks(levels, key.price, displayed))
            && (key in found ==>
                  exists i: nat :: LastShrunk(levels, key.price, displayed, i) && found[key] == displayed - levels[i].quantity)
  {
    hide SideDecreases, Shrinks;
    var bids := SideDecreases(book, BidSide, u.bids, map[]);
    SideDecreasesAt(book, BidSide, u.bids, map[], key);
    SideDecreasesAt(book, AskSide, u.asks, bids, key);
  }

  /** A level whose quantity did not go down reaches nobody, whatever the update lists besides. */
  lemma NothingWithoutDecrease(book: Book, u: DepthUpdate, key: LevelKey, cfg: Config)
    requires var displayed := QuantityAt(if key.side.BidSide? then book.bids else book.asks, key.price);
             var levels := if key.side.BidSide? then u.bids else u.asks;
             forall i | 0 <= i < |levels| && levels[i].price == key.price :: levels[i].quantity >= displayed
    ensures Depletion(Decreases(book, u), key, cfg) == 0.0
  {
    hide Decreases, DepletionFraction;
    DecreasesAre(book, u, key);
  }

  /** The optimistic model uses the whole decrease, the pro rata model its fraction, the trade model none. */
  lemma DepletionIs(found: Shadow, key: LevelKey, cfg: Config)
    requires key in found
    ensures cfg.queueModel == OptimisticDepth ==> Depletion(found, key, cfg) == found[key] as real
    ensures cfg.queueModel == ProRataDepth ==> Depletion(found, key, cfg) == found[key] as real * cfg.depletionFraction
  {
  }

  lemma TradeModelIgnoresDepth(s: Sim, u: DepthUpdate, cfg: Config)
    requires cfg.queueModel == TradeOnly
    ensures ProcessDepletion(s, u, cfg) == s
  {
  }
}
