/**
  The listing page's form handling: a signed-in user's POST adds the listing to
  or removes it from their watchlist, places a bid, closes the auction or posts
  a comment. Only the first of these whose field is present is carried out.
*/
module Views {
  import opened Models

  datatype HttpMethod = Get | Post

  /**
    A request to a listing's page: the signed-in user (none for an anonymous
    visitor), the method, the names of the submitted form fields, and the values
    of `bid_amount` and `comment` (none when the field is missing or, for the
    amount, not a decimal number).
  */
  datatype Request = Request(
    user: Option<UserId>,
    verb: HttpMethod,
    fields: set<string>,
    bidAmount: Option<Cents>,
    comment: Option<string>)

  /** The rendered page's flags and message, or the failure of an uncaught exception. */
  datatype Response =
    | Page(isOwner: bool, onWatchlist: bool, errorMessage: string)
    | ServerError

  datatype Outcome = Outcome(state: ListingState, response: Response)

  datatype Action = AddWatchlist | RemoveWatchlist | PlaceBid | CloseAuction | PostComment | NoAction

  const BidTooLowMessage: string := "Bid must be higher than the current price."

  /** The action the form fields ask for: the first present of the five, in the page's order. */
  function SelectAction(fields: set<string>): (a: Action)
    ensures a == AddWatchlist <==> "add_watchlist" in fields
    ensures a == RemoveWatchlist <==> "add_watchlist" !in fields && "remove_watchlist" in fields
    ensures a == PlaceBid <==>
              "add_watchlist" !in fields && "remove_watchlist" !in fields && "place_bid" in fields
    ensures a == CloseAuction <==>
              "add_watchlist" !in fields && "remove_watchlist" !in fields && "place_bid" !in fields
              && "close_auction" in fields
    ensures a == PostComment <==>
              "add_watchlist" !in fields && "remove_watchlist" !in fields && "place_bid" !in fields
              && "close_auction" !in fields && "post_comment" in fields
  {
    if "add_watchlist" in fields then AddWatchlist
    else if "remove_watchlist" in fields then RemoveWatchlist
    else if "place_bid" in fields then PlaceBid
    else if "close_auction" in fields then CloseAuction
    else if "post_comment" in fields then PostComment
    else NoAction
  }

  /** What a request may do: nothing unless it is a POST by a signed-in user. */
  function RequestedAction(req: Request): (a: Action)
    ensures a != NoAction ==> req.user.Some? && req.verb == Post
    ensures req.user.Some? && req.verb == Post ==> a == SelectAction(req.fields)
  {
    if req.user.Some? && req.verb == Post then SelectAction(req.fields) else NoAction
  }

  /**
    `t` differs from `s` at most in the part of the listing that action `a`
    owns; the item itself (title, description, starting bid, seller) never changes.
  */
  ghost predicate OnlyTouches(s: ListingState, t: ListingState, a: Action) {
    && t.title == s.title && t.description == s.description
    && t.startingBid == s.startingBid && t.seller == s.seller
    && (a != AddWatchlist && a != RemoveWatchlist ==> t.watchers == s.watchers)
    && (a != PlaceBid ==> t.currentPrice == s.currentPrice && t.bids == s.bids)
    && (a != CloseAuction ==> t.active == s.active && t.winner == s.winner)
    && (a != PostComment ==> t.comments == s.comments)
  }

  /**
    Closing: the listing becomes inactive; when it has bids the winner becomes
    the bidder of a highest bid, otherwise the winner is left as it was.
  */
  function Close(s: ListingState): (r: ListingState)
    ensures !r.active
    ensures r == s.(active := false, winner := r.winner)
    ensures s.bids == [] ==> r.winner == s.winner
    ensures s.bids != [] ==>
              exists i :: 0 <= i < |s.bids| && r.winner == Some(s.bids[i].user)
                          && forall j :: 0 <= j < |s.bids| ==> s.bids[j].amount <= s.bids[i].amount
  {
    if s.bids == [] then
      s.(active := false)
    else
      s.(active := false, winner := Some(s.bids[HighestBidIndex(s.bids)].user))
  }

  /**
    One request to a listing's page. The watchlist flag is read before the
    action runs. A bid is compared with the stored price (with no price, any
    amount passes); the listing's `active` flag is not consulted, and neither is
    ownership when closing. A missing or unreadable field raises before anything
    is written.
  */
  function ListingOutcome(s: ListingState, req: Request): (r: Outcome)
    ensures OnlyTouches(s, r.state, RequestedAction(req))
    ensures RequestedAction(req) == NoAction ==> r.state == s
    ensures r.response.ServerError? <==>
              || (RequestedAction(req) == PlaceBid && req.bidAmount.None?)
              || (RequestedAction(req) == PostComment && req.comment.None?)
    ensures r.response.ServerError? ==> r.state == s
    ensures RequestedAction(req) == NoAction ==> r.response.Page? && r.response.errorMessage == ""
    ensures r.response.Page? && r.response.errorMessage != "" ==> r.state == s
    ensures r.response.Page? ==>
              && r.response.isOwner == (req.user == Some(s.seller))
              && r.response.onWatchlist == (req.user.Some? && req.user.value in s.watchers)
    ensures s.bids <= r.state.bids && |r.state.bids| <= |s.bids| + 1
    ensures s.comments <= r.state.comments && |r.state.comments| <= |s.comments| + 1
    ensures s.currentPrice.Some? ==>
              r.state.currentPrice.Some? && s.currentPrice.value <= r.state.currentPrice.value
  {
    var isOwner := req.user == Some(s.seller);
    if req.user.None? then
      Outcome(s, Page(isOwner, false, ""))
    else
      var user := req.user.value;
      var page := Page(isOwner, user in s.watchers, "");
      if req.verb == Get then
        Outcome(s, page)
      else
        match SelectAction(req.fields)
        case AddWatchlist => Outcome(s.(watchers := s.watchers + {user}), page)
        case RemoveWatchlist => Outcome(s.(watchers := s.watchers - {user}), page)
        case PlaceBid =>
          if req.bidAmount.None? then
            Outcome(s, ServerError)
          else
            var bid := Bid(user, req.bidAmount.value);
            if Clean(s.currentPrice, bid.amount).Some? then
              Outcome(s, page.(errorMessage := BidTooLowMessage))
            else
              Outcome(SaveBid(s, bid).value.(currentPrice := Some(bid.amount)), page)
        case CloseAuction => Outcome(Close(s), page)
        case PostComment =>
          if req.comment.None? then
            Outcome(s, ServerError)
          else
            Outcome(s.(comments := s.comments + [Comment(user, req.comment.value)]), page)
        case NoAction => Outcome(s, page)
  }

  /**
    The `listing` view's form handling, on the stored listing: the same branches
    in the same order, writing the listing's fields in place.
  */
  method ListingView(listing: AuctionListing, req: Request) returns (response: Response)
    modifies listing
    ensures Outcome(listing.State(), response) == ListingOutcome(old(listing.State()), req)
  {
    var isOwner := req.user == Some(listing.seller);
    var onWatchlist := false;
    var errorMessage := "";
    if req.user.Some? {
      var user := req.user.value;
      onWatchlist := user in listing.watchers;
      if req.verb == Post {
        if "add_watchlist" in req.fields {
          listing.watchers := listing.watchers + {user};
        } else if "remove_watchlist" in req.fields {
          listing.watchers := listing.watchers - {user};
        } else if "place_bid" in req.fields {
          if req.bidAmount.None? {
            return ServerError;
          }
          var amount := req.bidAmount.value;
          if listing.currentPrice.Some? && amount <= listing.currentPrice.value {
            errorMessage := BidTooLowMessage;
          } else {
            var _ := Save(Bid(user, amount), listing);
            listing.currentPrice := Some(amount);
          }
        } else if "close_auction" in req.fields {
          listing.active := false;
          if listing.bids != [] {
            var highest := HighestBidIndex(listing.bids);
            listing.winner := Some(listing.bids[highest].user);
          }
        } else if "post_comment" in req.fields {
          if req.comment.None? {
            return ServerError;
          }
          listing.comments := listing.comments + [Comment(user, req.comment.value)];
        }
      }
    }
    response := Page(isOwner, onWatchlist, errorMessage);
  }

  /** Every request keeps the bid invariant of a listing. */
  lemma ViewPreservesConsistency(s: ListingState, req: Request)
    requires Consistent(s)
    ensures Consistent(ListingOutcome(s, req).state)
  {
    if RequestedAction(req) == PlaceBid && req.bidAmount.Some? {
      SavePreservesConsistency(s, Bid(req.user.value, req.bidAmount.value));
    }
  }

  /**
    A bid that does not exceed the stored price is refused with the page's
    message; no bid is recorded and the price stays.
  */
  lemma LowBidRejected(s: ListingState, req: Request)
    requires RequestedAction(req) == PlaceBid && req.bidAmount.Some?
    requires s.currentPrice.Some? && req.bidAmount.value <= s.currentPrice.value
    ensures var r := ListingOutcome(s, req);
            r.state == s && r.response.Page? && r.response.errorMessage == BidTooLowMessage
  {
  }

  /**
    A bid above the stored price (or any bid while there is none) is recorded
    for the requesting user and becomes the price, whether or not the listing
    is still active.
  */
  lemma HighBidAccepted(s: ListingState, req: Request)
    requires RequestedAction(req) == PlaceBid && req.bidAmount.Some?
    requires s.currentPrice.None? || s.currentPrice.value < req.bidAmount.value
    ensures var r := ListingOutcome(s, req);
            && r.state == s.(currentPrice := Some(req.bidAmount.value),
                             bids := s.bids + [Bid(req.user.value, req.bidAmount.value)])
            && r.response.Page? && r.response.errorMessage == ""
  {
  }

  /**
    Any signed-in user may close a listing, open or already closed, and the
    page shows no error message either way.
  */
  lemma AnyUserCloses(s: ListingState, req: Request)
    requires RequestedAction(req) == CloseAuction
    ensures ListingOutcome(s, req).state == Close(s)
    ensures ListingOutcome(s, req).response.Page? && ListingOutcome(s, req).response.errorMessage == ""
  {
  }

  /** Closing twice in a row is the same as closing once. */
  lemma CloseIdempotent(s: ListingState)
    ensures Close(Close(s)) == Close(s)
  {
  }

  /**
    Because accepted amounts strictly increase, the bidder of the highest bid
    is the bidder of the most recent one.
  */
  lemma WinnerIsLatestBidder(s: ListingState)
    requires Consistent(s) && s.bids != []
    ensures Close(s).winner == Some(s.bids[|s.bids| - 1].user)
  {
    IncreasingHighestIsLast(s.bids);
  }

  /** An add-to-watchlist request inserts the requesting user into the watchers and changes nothing else. */
  lemma AddWatchInserts(s: ListingState, req: Request)
    requires RequestedAction(req) == AddWatchlist
    ensures var r := ListingOutcome(s, req);
            && r.state == s.(watchers := s.watchers + {req.user.value})
            && r.response.Page? && r.response.errorMessage == ""
  {
  }

  /**
    A remove-from-watchlist request deletes the requesting user from the
    watchers and changes nothing else; for a user who is not watching, nothing
    changes at all.
  */
  lemma RemoveWatchDeletes(s: ListingState, req: Request)
    requires RequestedAction(req) == RemoveWatchlist
    ensures var r := ListingOutcome(s, req);
            && r.state == s.(watchers := s.watchers - {req.user.value})
            && (req.user.value !in s.watchers ==> r.state == s)
            && r.response.Page? && r.response.errorMessage == ""
  {
  }

  /** Adding then removing the same user leaves the watchers without that user. */
  lemma WatchAddThenRemove(s: ListingState, u: UserId)
    ensures var add := Request(Some(u), Post, {"add_watchlist"}, None, None);
            var remove := Request(Some(u), Post, {"remove_watchlist"}, None, None);
            var added := ListingOutcome(s, add).state;
            && added == s.(watchers := s.watchers + {u})
            && ListingOutcome(added, remove).state == s.(watchers := s.watchers - {u})
  {
    var add := Request(Some(u), Post, {"add_watchlist"}, None, None);
    var remove := Request(Some(u), Post, {"remove_watchlist"}, None, None);
    AddWatchInserts(s, add);
    RemoveWatchDeletes(ListingOutcome(s, add).state, remove);
  }

  /**
    A comment request with its text appends a comment by the requesting user
    with that text, after the earlier ones, and changes nothing else.
  */
  lemma CommentPosted(s: ListingState, req: Request)
    requires RequestedAction(req) == PostComment && req.comment.Some?
    ensures var r := ListingOutcome(s, req);
            && r.state == s.(comments := s.comments + [Comment(req.user.value, req.comment.value)])
            && r.response.Page? && r.response.errorMessage == ""
  {
  }

  /** A bid request without a readable amount fails before anything is written. */
  lemma BidAmountMissingFails(s: ListingState, req: Request)
    requires RequestedAction(req) == PlaceBid && req.bidAmount.None?
    ensures ListingOutcome(s, req) == Outcome(s, ServerError)
  {
  }

  /** A comment request without its text fails before anything is written. */
  lemma CommentMissingFails(s: ListingState, req: Request)
    requires RequestedAction(req) == PostComment && req.comment.None?
    ensures ListingOutcome(s, req) == Outcome(s, ServerError)
  {
  }

  /**
    Since bidding ignores `active`, a closed listing can take a higher bid from
    someone else, after which the recorded winner is not the highest bidder.
  */
  lemma WinnerCanGoStale()
    ensures var open := ListingState("lamp", "", 500, Some(1000), 0, true, None, {}, [Bid(1, 1000)], []);
            var closed := ListingOutcome(open, Request(Some(0), Post, {"close_auction"}, None, None)).state;
            var after := ListingOutcome(closed, Request(Some(2), Post, {"place_bid"}, Some(2000), None)).state;
            && closed.winner == Some(1)
            && !after.active && after.winner == Some(1)
            && after.bids[HighestBidIndex(after.bids)].user == 2
  {
    var open := ListingState("lamp", "", 500, Some(1000), 0, true, None, {}, [Bid(1, 1000)], []);
    var closed := Close(open);
    assert HighestBidIndex(open.bids) == 0;
    var after := closed.(currentPrice := Some(2000), bids := [Bid(1, 1000), Bid(2, 2000)]);
    assert HighestBidIndex(after.bids) == 1;
  }
}
