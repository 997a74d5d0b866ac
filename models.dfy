/**
  The persistent entities of the auction site and the rule that guards a bid.

  Money is a count of cents: every amount in the store is a decimal with two
  fractional places, so an integer number of hundredths represents it exactly.
  A listing's related rows (its bids and its comments) and its watchers are
  held on the listing itself, in the order they were written.
*/
module Models {

  datatype Option<+T> = None | Some(value: T)

  datatype Result<+T, +E> = Success(value: T) | Failure(error: E)

  /** A user, by primary key. */
  type UserId = nat

  /** A two-decimal amount, in hundredths. */
  type Cents = int

  datatype Bid = Bid(user: UserId, amount: Cents)

  datatype Comment = Comment(user: UserId, content: string)

  /** The validation error `Bid.clean` raises; it quotes the price it compared with. */
  datatype ValidationError = BidNotHigher(currentPrice: Cents)

  /** The value of one listing together with its bids, watchers and comments. */
  datatype ListingState = ListingState(
    title: string,
    description: string,
    startingBid: Cents,
    currentPrice: Option<Cents>,
    seller: UserId,
    active: bool,
    winner: Option<UserId>,
    watchers: set<UserId>,
    bids: seq<Bid>,
    comments: seq<Comment>)

  /** An auction listing as stored; the web layer and `Save` update it in place. */
  class AuctionListing {
    var title: string
    var description: string
    var startingBid: Cents
    var currentPrice: Option<Cents>
    var seller: UserId
    var active: bool
    var winner: Option<UserId>
    var watchers: set<UserId>
    var bids: seq<Bid>
    var comments: seq<Comment>

    /** The listing's current value. */
    function State(): ListingState
      reads this
    {
      ListingState(title, description, startingBid, currentPrice, seller,
                   active, winner, watchers, bids, comments)
    }

    /** A new listing is open, has no price yet, no winner and no related rows. */
    constructor (title: string, description: string, startingBid: Cents, seller: UserId)
      ensures State() == ListingState(title, description, startingBid, None, seller,
                                      true, None, {}, [], [])
      ensures Consistent(State())
    {
      this.title := title;
      this.description := description;
      this.startingBid := startingBid;
      this.currentPrice := None;
      this.seller := seller;
      this.active := true;
      this.winner := None;
      this.watchers := {};
      this.bids := [];
      this.comments := [];
    }
  }

  /**
    `Bid.clean`: a bid is refused exactly when the listing already has a price
    and the amount does not exceed it. Without a price there is no lower bound:
    the starting bid is not an input.
  */
  function Clean(currentPrice: Option<Cents>, amount: Cents): (r: Option<ValidationError>)
    ensures r.None? <==> currentPrice.None? || currentPrice.value < amount
    ensures r.Some? ==> r.value == BidNotHigher(currentPrice.value)
  {
    if currentPrice.Some? && amount <= currentPrice.value then
      Some(BidNotHigher(currentPrice.value))
    else
      None
  }

  /**
    `Bid.save` on values: the guard runs first, so a refused bid yields no new
    state at all; an accepted one moves the price to its amount and is recorded.
  */
  function SaveBid(s: ListingState, bid: Bid): (r: Result<ListingState, ValidationError>)
    ensures r.Failure? <==> Clean(s.currentPrice, bid.amount).Some?
    ensures r.Failure? ==> s.currentPrice.Some? && r.error == BidNotHigher(s.currentPrice.value)
    ensures r.Success? ==> r.value == s.(currentPrice := Some(bid.amount), bids := s.bids + [bid])
    ensures r.Success? && s.currentPrice.Some? ==> s.currentPrice.value < r.value.currentPrice.value
  {
    match Clean(s.currentPrice, bid.amount)
    case Some(e) => Failure(e)
    case None => Success(s.(currentPrice := Some(bid.amount), bids := s.bids + [bid]))
  }

  /**
    `Bid.save`: validate, then write the listing's new price, then write the bid.
    A refused bid returns its error before anything is written.
  */
  method Save(bid: Bid, listing: AuctionListing) returns (err: Option<ValidationError>)
    modifies listing
    ensures err == Clean(old(listing.currentPrice), bid.amount)
    ensures err.Some? ==> listing.State() == old(listing.State())
    ensures err.None? ==> SaveBid(old(listing.State()), bid) == Success(listing.State())
  {
    err := Clean(listing.currentPrice, bid.amount);
    if err.Some? {
      return;
    }
    listing.currentPrice := Some(bid.amount);
    listing.bids := listing.bids + [bid];
  }

  /** Every accepted amount is higher than all amounts accepted before it. */
  ghost predicate StrictlyIncreasing(bids: seq<Bid>) {
    forall i, j :: 0 <= i < j < |bids| ==> bids[i].amount < bids[j].amount
  }

  /** The amount of the most recently recorded bid, if any. */
  function LastAmount(bids: seq<Bid>): Option<Cents> {
    if bids == [] then None else Some(bids[|bids| - 1].amount)
  }

  /**
    What the bid guard maintains for a listing created without a price: the
    accepted amounts increase strictly and the stored price is the last of them
    (and is unset while there is none).
  */
  ghost predicate Consistent(s: ListingState) {
    StrictlyIncreasing(s.bids) && s.currentPrice == LastAmount(s.bids)
  }

  /**
    The position of a highest-amount bid; among equal highest amounts, the
    earliest one.
  */
  function HighestBidIndex(bids: seq<Bid>): (k: nat)
    requires bids != []
    ensures k < |bids|
    ensures forall i :: 0 <= i < |bids| ==> bids[i].amount <= bids[k].amount
    ensures forall i :: 0 <= i < k ==> bids[i].amount < bids[k].amount
    decreases |bids|
  {
    if |bids| == 1 then
      0
    else
      var k := HighestBidIndex(bids[..|bids| - 1]);
      if bids[k].amount < bids[|bids| - 1].amount then |bids| - 1 else k
  }

  /** The highest amount ever bid, or none while there is no bid. */
  function HighestAmount(bids: seq<Bid>): (m: Option<Cents>)
    ensures m.None? <==> bids == []
    ensures m.Some? ==> exists i :: 0 <= i < |bids| && bids[i].amount == m.value
    ensures m.Some? ==> forall i :: 0 <= i < |bids| ==> bids[i].amount <= m.value
  {
    if bids == [] then None else Some(bids[HighestBidIndex(bids)].amount)
  }

  /** With strictly increasing amounts the highest bid is the last one. */
  lemma IncreasingHighestIsLast(bids: seq<Bid>)
    requires bids != [] && StrictlyIncreasing(bids)
    ensures HighestBidIndex(bids) == |bids| - 1
  {
  }

  /** An accepted bid keeps the invariant. */
  lemma SavePreservesConsistency(s: ListingState, bid: Bid)
    requires Consistent(s)
    ensures SaveBid(s, bid).Success? ==> Consistent(SaveBid(s, bid).value)
  {
    if SaveBid(s, bid).Success? && s.bids != [] {
      var t := SaveBid(s, bid).value;
      var n := |s.bids|;
      forall i, j | 0 <= i < j < |t.bids|
        ensures t.bids[i].amount < t.bids[j].amount
      {
        if j == n {
          assert i == n - 1 || s.bids[i].amount < s.bids[n - 1].amount;
        }
      }
    }
  }

  /** Under the invariant the stored price is the highest amount ever accepted. */
  lemma PriceIsHighestAccepted(s: ListingState)
    requires Consistent(s)
    ensures s.currentPrice == HighestAmount(s.bids)
  {
    if s.bids != [] {
      IncreasingHighestIsLast(s.bids);
    }
  }

  /**
    Under the invariant, comparing with the stored price is the same as
    comparing with every bid on record: a bid passes exactly when it beats
    them all.
  */
  lemma CleanAgreesWithHistory(s: ListingState, amount: Cents)
    requires Consistent(s)
    ensures Clean(s.currentPrice, amount).None? <==>
            forall i :: 0 <= i < |s.bids| ==> s.bids[i].amount < amount
  {
    PriceIsHighestAccepted(s);
    if s.bids != [] {
      var last := |s.bids| - 1;
      assert s.currentPrice.value == s.bids[last].amount;
    }
  }

  /** The listing after offering each bid of `offers` in turn; refused ones leave no trace. */
  function SaveAll(s: ListingState, offers: seq<Bid>): ListingState
    decreases |offers|
  {
    if offers == [] then
      s
    else
      var next := match SaveBid(s, offers[0]) case Success(t) => t case Failure(_) => s;
      SaveAll(next, offers[1..])
  }

  /**
    Over any sequence of saves the recorded bids only grow, every new one comes
    from the offers, the invariant survives, and the price is the last and the
    highest accepted amount.
  */
  lemma {:induction false} SaveAllKeepsConsistency(s: ListingState, offers: seq<Bid>)
    requires Consistent(s)
    ensures var t := SaveAll(s, offers);
            && Consistent(t)
            && t.currentPrice == HighestAmount(t.bids)
            && s.bids <= t.bids
            && forall i :: |s.bids| <= i < |t.bids| ==> t.bids[i] in offers
    decreases |offers|
  {
    if offers == [] {
      PriceIsHighestAccepted(s);
    } else {
      SavePreservesConsistency(s, offers[0]);
      var next := match SaveBid(s, offers[0]) case Success(t) => t case Failure(_) => s;
      SaveAllKeepsConsistency(next, offers[1..]);
      var t := SaveAll(s, offers);
      assert t == SaveAll(next, offers[1..]);
      forall i | |next.bids| <= i < |t.bids|
        ensures t.bids[i] in offers
      {
        assert t.bids[i] in offers[1..];
      }
      if next != s {
        assert t.bids[|s.bids|] == next.bids[|s.bids|] == offers[0];
      }
    }
  }

  /**
    A listing without a price takes any amount, however it compares with the
    starting bid; the starting bid never decides a save.
  */
  lemma UnpricedListingTakesAnyBid(s: ListingState, bid: Bid, otherStart: Cents)
    requires s.currentPrice.None?
    ensures SaveBid(s, bid).Success?
    ensures SaveBid(s.(startingBid := otherStart), bid).Success?
  {
  }
}
