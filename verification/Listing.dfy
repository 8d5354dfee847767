/** One side of a book as the strictly ordered list of its levels. */
module Listing {
  import opened L2Types
  import opened OrderBook

  /** Bids are listed from the highest price down, asks from the lowest up. */
  predicate Before(descending: bool, p: Price, q: Price) {
    if descending then p > q else p < q
  }

  ghost predicate StrictlyOrdered(levels: seq<Level>, descending: bool) {
    forall i, j | 0 <= i < j < |levels| :: Before(descending, levels[i].price, levels[j].price)
  }

  /** The list holds exactly the side's levels. */
  ghost predicate Lists(levels: seq<Level>, side: BookSide) {
    && (forall l | l in levels :: l.price in side && side[l.price] == l.quantity)
    && (forall p | p in side :: Level(p, side[p]) in levels)
  }

  function First(side: BookSide, descending: bool): (p: Price)
    requires side != map[]
    ensures p in side && forall q | q in side && q != p :: Before(descending, p, q)
  {
    if descending then MaxPrice(side) else MinPrice(side)
  }

  function Listed(side: BookSide, descending: bool): seq<Level>
    decreases |side|
  {
    if side == map[] then []
    else
      var p := First(side, descending);
      Shrinks(side, p);
      [Level(p, side[p])] + Listed(side - {p}, descending)
  }

  lemma Shrinks(side: BookSide, p: Price)
    requires p in side
    ensures |side - {p}| < |side|
  {
    assert (side - {p}).Keys == side.Keys - {p};
    assert |side.Keys - {p}| == |side.Keys| - 1;
  }

  lemma {:induction false} ListedIsListing(side: BookSide, descending: bool)
    ensures StrictlyOrdered(Listed(side, descending), descending) && Lists(Listed(side, descending), side)
    decreases |side|
  {
    if side != map[] {
      hide Before, First;
      var p := First(side, descending);
      var rest := side - {p};
      Shrinks(side, p);
      ListedIsListing(rest, descending);
      FirstInFront(side, p, Listed(rest, descending), descending);
      assert Listed(side, descending) == [Level(p, side[p])] + Listed(rest, descending);
    }
  }

  /** The first level of a side in front of a listing of the others. */
  lemma FirstInFront(side: BookSide, p: Price, tail: seq<Level>, descending: bool)
    requires p in side && forall q | q in side && q != p :: Before(descending, p, q)
    requires StrictlyOrdered(tail, descending) && Lists(tail, side - {p})
    ensures var all := [Level(p, side[p])] + tail; StrictlyOrdered(all, descending) && Lists(all, side)
  {
    hide Before;
    var all, rest := [Level(p, side[p])] + tail, side - {p};
    forall i, j | 0 <= i < j < |all| ensures Before(descending, all[i].price, all[j].price) {
      assert all[j] == tail[j - 1] && all[j] in tail;
      assert i > 0 ==> all[i] == tail[i - 1];
    }
    forall q | q in side ensures Level(q, side[q]) in all {
      assert q == p ==> all[0] == Level(q, side[q]);
      assert q != p ==> q in rest && Level(q, rest[q]) in tail;
    }
  }

  /** A side has one strictly ordered listing. */
  lemma {:induction false} ListingIsUnique(a: seq<Level>, b: seq<Level>, side: BookSide, descending: bool)
    requires StrictlyOrdered(a, descending) && Lists(a, side)
    requires StrictlyOrdered(b, descending) && Lists(b, side)
    ensures a == b
    decreases |a|
  {
    EmptyListsNothing(a, side);
    EmptyListsNothing(b, side);
    if a != [] {
      FirstIsFirst(a, b, side, descending);
      FirstIsFirst(b, a, side, descending);
      assert a[0] == b[0];
      var rest := side - {a[0].price};
      TailLists(a, side, descending);
      TailLists(b, side, descending);
      ListingIsUnique(a[1..], b[1..], rest, descending);
      assert a == [a[0]] + a[1..] && b == [b[0]] + b[1..];
    }
  }

  lemma EmptyListsNothing(levels: seq<Level>, side: BookSide)
    requires Lists(levels, side)
    ensures levels == [] <==> side == map[]
  {
    assert levels != [] ==> levels[0] in levels;
    if levels == [] {
      assert forall p :: p !in side;
    }
  }

  lemma FirstIsFirst(a: seq<Level>, b: seq<Level>, side: BookSide, descending: bool)
    requires a != [] && StrictlyOrdered(a, descending) && Lists(a, side)
    requires b != [] && Lists(b, side)
    ensures a[0].price == b[0].price || Before(descending, a[0].price, b[0].price)
    ensures side[a[0].price] == a[0].quantity
  {
    assert a[0] in a && b[0] in b;
    assert Level(b[0].price, side[b[0].price]) in a;
  }

  lemma TailLists(a: seq<Level>, side: BookSide, descending: bool)
    requires a != [] && StrictlyOrdered(a, descending) && Lists(a, side)
    ensures StrictlyOrdered(a[1..], descending) && Lists(a[1..], side - {a[0].price})
  {
    var rest := side - {a[0].price};
    forall l | l in a[1..] ensures l.price in rest && rest[l.price] == l.quantity {
      var i :| 0 <= i < |a[1..]| && a[1..][i] == l;
      assert a[i + 1] == l && l in a;
      assert Before(descending, a[0].price, a[i + 1].price);
    }
    forall p | p in rest ensures Level(p, rest[p]) in a[1..] {
      assert Level(p, side[p]) in a;
    }
  }
}
