# Auction listing: bids, closing, watchlist and comments

This project models the one piece of logic in a small auction site: what
happens to a single listing when users act on it. The model covers:

- the listing record: title, description, starting bid, a price that may be
  unset, seller, an `active` flag, a winner, its watchers, its bids and its
  comments;
- the bid guard `Bid.clean`, and `Bid.save`, which checks the guard, then
  moves the listing's price, then records the bid;
- the form branches of the `listing` page. A signed-in user's POST either adds
  the listing to their watchlist, removes it, places a bid, closes the auction
  or posts a comment. Only the first of these whose form field is present runs.

Amounts are decimals with two fractional places, held as whole cents (`Cents`).
The listing's bids and comments are the rows that point at it, in the order
they were written. Its watchers are a set of user ids.

Every operation that changes state has two forms:

- a pure function on the value `ListingState`: `SaveBid`, `Close` and
  `ListingOutcome`;
- an imperative method on the class `AuctionListing` that writes its fields in
  place: `Save` and `ListingView`.

Each method's postcondition says that it does exactly what its function does.
The lemmas prove the properties on the functions.

The central invariant is `Consistent`: accepted amounts strictly increase, and
the stored price is the last accepted amount (unset while there is none). The
constructor's postcondition says a new listing satisfies it, and every save and
every request preserves it. `SaveBid`'s postcondition gives the whole new
state, so a save changes nothing but the price and the bids. For a sequence of
bids, `SaveAll` offers each bid in turn through `SaveBid`; a refused bid leaves
the listing as it was. From the invariant follow these results:

- the price is the highest amount ever accepted;
- checking against the stored price is the same as checking against every
  recorded bid;
- the winner chosen at close is the most recent bidder.

## Reading the code, where it slips

The `listing` view does not match the model definitions in five places. The
model follows what the code evidently means:

- `views.py:112` calls `listing.current_price()`, but `current_price` is a
  field, not a method (`models.py:14`). The model compares with the field.
- When the price is unset, that comparison would fail. The model follows the
  model-level guard (`models.py:33`): with no price, any amount passes, and
  the starting bid is never consulted.
- `views.py:121-122` use `bid_set`, but the bids' related name is `bids`
  (`models.py:27`).
- `views.py:123` reads `.bidder`, but the bid's field is `user` (`models.py:26`).
- `winner` and `watchers` are not declared on `AuctionListing`. The model
  gives the listing a `winner` field (an optional user) and a `watchers` set.

The code also differs from a stricter auction design, and the model keeps the
code's behaviour:

- The price is stored, not derived from the bids. It matches the bids only
  because of `Consistent`.
- A listing with no bids has an unset price. The price is not the starting bid.
- Bidding does not check `active`. Closing checks neither ownership nor
  whether the listing is already closed.
- Closing again picks the winner again. `WinnerCanGoStale` shows that a closed
  listing can take a higher bid, after which the stored winner is not the
  highest bidder.
- A seller may bid on their own listing.
- Neither the bid guard nor the view requires an amount to be positive. While a
  listing has no price, a first bid of zero or a negative amount is accepted;
  `Cents` is an unbounded integer, so the model accepts it too.
- `on_watchlist` is read before the POST action runs, so the page shows the
  watchlist state from before the request.

## Model

| member | source | states |
|---|---|---|
| `Models.AuctionListing.constructor` | auctions/models.py:10-19 | a new listing is active, has no price, no winner, no watchers, bids or comments, and satisfies the bid invariant |
| `Models.Clean` | auctions/models.py:31-34 | a bid passes exactly when the listing has no price or the amount exceeds it; a refusal quotes the current price |
| `Models.SaveBid` | auctions/models.py:36-42 | the guard decides first: a refused bid yields the error and no new state; an accepted bid sets the price to its amount and appends the bid, and a set price strictly rises |
| `Models.Save` | auctions/models.py:36-42 | the imperative save validates before writing; a refused bid leaves the listing unchanged; an accepted one leaves exactly the state `SaveBid` gives |
| `Models.HighestBidIndex` | auctions/views.py:122 | the position of a bid whose amount is at least every other amount, and the earliest such |
| `Models.HighestAmount` | auctions/views.py:121-122 | the reference highest amount: unset exactly when there are no bids, otherwise an amount some bid has and no bid exceeds |
| `Models.IncreasingHighestIsLast` | auctions/models.py:33-40 | with strictly increasing amounts the highest bid is the last one |
| `Models.SavePreservesConsistency` | auctions/models.py:31-42 | an accepted save keeps amounts strictly increasing and the price equal to the last amount |
| `Models.PriceIsHighestAccepted` | auctions/models.py:31-42 | under the invariant the stored price is the highest amount ever accepted, and unset exactly when there is no bid |
| `Models.CleanAgreesWithHistory` | auctions/models.py:31-34 | under the invariant a bid passes the price check exactly when it exceeds every recorded bid |
| `Models.SaveAllKeepsConsistency` | auctions/models.py:31-42 | over any sequence of offered bids: earlier bids stay as a prefix, every new bid comes from the offers, amounts strictly increase, and the price is both the last and the highest accepted amount |
| `Models.UnpricedListingTakesAnyBid` | auctions/models.py:13-33 | a listing without a price accepts any amount, whatever its starting bid |
| `Views.SelectAction` | auctions/views.py:106-129 | the action is the first present of add_watchlist, remove_watchlist, place_bid, close_auction, post_comment, in that order; each holds exactly when the earlier fields are absent |
| `Views.Close` | auctions/views.py:119-124 | closing makes the listing inactive; with bids the winner becomes the bidder of a highest bid; with none the winner is unchanged; nothing else changes |
| `Views.ListingOutcome` | auctions/views.py:95-129 | an anonymous request or a GET changes nothing and renders the page without an error message; the response is a server error exactly when a bid request lacks a readable amount or a comment request lacks its text; a POST changes at most the part its selected action owns; title, description, starting bid and seller never change; a server error or an error message means no change; bids and comments only grow, by at most one; a set price never falls; the owner and watchlist flags are computed from the state before the action |
| `Views.RequestedAction` | auctions/views.py:102-106 | a request carries an action only when a signed-in user sends a POST, and then it is the action its form fields select |
| `Views.ListingView` | auctions/views.py:95-129 | the view's if/elif branches on the stored listing leave exactly the state and response `ListingOutcome` gives |
| `Views.ViewPreservesConsistency` | auctions/views.py:106-129 | every request keeps the bid invariant |
| `Views.LowBidRejected` | auctions/views.py:112-113 | a bid not above the price sets the message "Bid must be higher than the current price." and changes nothing |
| `Views.HighBidAccepted` | auctions/views.py:110-118 | a bid above the price, or any bid when there is no price, is recorded for the requesting user and becomes the price, whether or not the listing is active |
| `Views.AnyUserCloses` | auctions/views.py:119-124 | any signed-in user's close request closes the listing, whoever the seller is and even when it is already closed, and renders the page with no error message |
| `Views.CloseIdempotent` | auctions/views.py:119-124 | closing twice gives the same listing as closing once |
| `Views.WinnerIsLatestBidder` | auctions/views.py:121-123 | under the invariant the winner chosen at close is the user of the most recent bid |
| `Views.WatchAddThenRemove` | auctions/views.py:106-109 | adding inserts the user into the watchers; removing afterwards leaves the watchers without that user and otherwise as before |
| `Views.AddWatchInserts` | auctions/views.py:106-107 | an add request puts the requesting user into the watchers and changes nothing else |
| `Views.RemoveWatchDeletes` | auctions/views.py:108-109 | a remove request takes the requesting user out of the watchers and changes nothing else; for a user who is not watching, nothing changes |
| `Views.CommentPosted` | auctions/views.py:126-129 | a comment request appends a comment by the requesting user with the submitted text after the earlier comments, and changes nothing else |
| `Views.BidAmountMissingFails` | auctions/views.py:110-111 | a bid request without a readable amount fails before anything is written |
| `Views.CommentMissingFails` | auctions/views.py:127 | a comment request without the comment field fails before anything is written |
| `Views.WinnerCanGoStale` | auctions/views.py:110-124 | a closed listing with one bid takes a higher bid from another user, and the winner is then not the highest bidder |

## Left out

- Parsing the raw `bid_amount` string with `Decimal` is not modelled. The amount arrives as whole cents. A missing or unreadable amount is a `ServerError`, because the parse raises before anything is written.
- The database's `max_digits=10` limit on amounts is not modelled. Amounts are unbounded integers.
- The fields `image_url`, `category` and `created_at` are left out. No modelled operation reads or writes them. Bid and comment timestamps are left out for the same reason.
- The `save()` calls that write rows to the database are not modelled separately. The listing object is the store, so each write is an update of its fields.
- Models.HighestBidIndex picks the earliest of equal highest bids. The source's `order_by("-amount").first()` leaves that order to the database. Under the invariant no two bids tie, so this never matters.
- Rendering, flash messages, and the comment list passed to the template are left out. The page is modelled only as its owner flag, watchlist flag and error message.
- The listing lookup by id is left out. The listing is given, so the case of an unknown id does not arise.
- The authentication views (login, logout, register), the index page and listing creation are left out. They are form handling and queries with no rules of their own.
- The listing form, the admin registration and the category seeding command are left out. They are declarations and a database script.
- Transactions, locking and concurrent requests are left out. The source has none, and each request is modelled as one sequential step.
