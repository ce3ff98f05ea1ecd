/** The consistency rules that tie the marketplace tables together, the
    queries over the rating table, and the cascade rules for deletions. */
module Ledger {
  import opened Wrappers
  import opened Tables
  import opened Entities
  import opened ImageRules

  // ---- purchases and ratings ----

  /** `u` is the buyer or the seller of `t`. */
  predicate Participant(t: Transaction, u: int) {
    u == t.buyer || u == t.seller
  }

  /** The party a participant rates: the buyer rates the seller, anyone else
      rates the buyer. */
  function Ratee(t: Transaction, rater: int): (r: int)
    ensures Participant(t, r)
    ensures Participant(t, rater) && t.buyer != t.seller ==> r != rater
  {
    if rater == t.buyer then t.seller else t.buyer
  }

  /** The rater has already rated transaction `tx`. */
  predicate HasRated(ratings: map<int, Rating>, tx: int, rater: int) {
    exists k :: k in ratings && ratings[k].transaction == tx && ratings[k].rater == rater
  }

  /** An advertisement that can be bought by `buyer`: it exists, is open and
      belongs to someone else. */
  predicate Purchasable(ads: map<int, Advertisement>, buyer: int, ad: int) {
    ad in ads && ads[ad].status == Open && ads[ad].owner != buyer
  }

  /** One rating row as the rating queries return it. */
  datatype RatingRow = RatingRow(id: int, rating: Rating)

  function ReceivedFrom(ids: seq<int>, ratings: map<int, Rating>, user: int): seq<RatingRow>
    requires forall i :: 0 <= i < |ids| ==> ids[i] in ratings
  {
    if ids == [] then []
    else
      (if ratings[ids[0]].ratee == user then [RatingRow(ids[0], ratings[ids[0]])] else [])
      + ReceivedFrom(ids[1..], ratings, user)
  }

  lemma {:induction false} ReceivedFromMembers(ids: seq<int>, ratings: map<int, Rating>, user: int, row: RatingRow)
    requires forall i :: 0 <= i < |ids| ==> ids[i] in ratings
    ensures row in ReceivedFrom(ids, ratings, user) <==>
      row.id in ids && row.id in ratings && row.rating == ratings[row.id] && row.rating.ratee == user
  {
    if ids != [] {
      ReceivedFromMembers(ids[1..], ratings, user, row);
      assert row.id in ids <==> row.id == ids[0] || row.id in ids[1..];
    }
  }

  /** Rows taken from ids in ascending order keep that order. */
  lemma {:induction false} ReceivedFromAscending(ids: seq<int>, ratings: map<int, Rating>, user: int)
    requires forall i :: 0 <= i < |ids| ==> ids[i] in ratings
    requires forall i, j :: 0 <= i < j < |ids| ==> ids[i] < ids[j]
    ensures forall i, j :: 0 <= i < j < |ReceivedFrom(ids, ratings, user)| ==>
      ReceivedFrom(ids, ratings, user)[i].id < ReceivedFrom(ids, ratings, user)[j].id
  {
    if ids != [] {
      var rest := ReceivedFrom(ids[1..], ratings, user);
      ReceivedFromAscending(ids[1..], ratings, user);
      forall j | 0 <= j < |rest| ensures ids[0] < rest[j].id {
        ReceivedFromMembers(ids[1..], ratings, user, rest[j]);
        var k :| 0 <= k < |ids[1..]| && ids[1..][k] == rest[j].id;
        assert ids[k + 1] == rest[j].id;
      }
    }
  }

  /** The ratings whose ratee is `user`, each once, in table order. */
  function RatingsReceived(ratings: map<int, Rating>, user: int): (r: seq<RatingRow>)
    ensures forall row :: row in r <==> row.id in ratings && row.rating == ratings[row.id] && row.rating.ratee == user
    ensures forall i, j :: 0 <= i < j < |r| ==> r[i].id < r[j].id
  {
    var ids := KeysAscending(ratings.Keys);
    forall row ensures row in ReceivedFrom(ids, ratings, user) <==>
      row.id in ratings && row.rating == ratings[row.id] && row.rating.ratee == user
    {
      ReceivedFromMembers(ids, ratings, user, row);
    }
    ReceivedFromAscending(ids, ratings, user);
    ReceivedFrom(ids, ratings, user)
  }

  /** A user nobody has rated gets an empty list, and only such a user. */
  lemma RatingsReceivedEmpty(ratings: map<int, Rating>, user: int)
    ensures RatingsReceived(ratings, user) == [] <==> forall k :: k in ratings ==> ratings[k].ratee != user
  {
    var r := RatingsReceived(ratings, user);
    if r == [] {
      forall k | k in ratings ensures ratings[k].ratee != user {
        assert RatingRow(k, ratings[k]) !in r;
      }
    } else {
      var row := r[0];
      assert row in r;
      assert row.id in ratings && ratings[row.id].ratee == user;
    }
  }

  // ---- users ----

  /** The first user registered with `email`. */
  function UserWithEmail(users: map<int, User>, email: string): (u: Option<int>)
    ensures u.Some? ==> u.value in users && users[u.value].email == email
    ensures u.None? <==> forall k :: k in users ==> users[k].email != email
  {
    var s := set k | k in users && users[k].email == email;
    assert forall k :: k in users && users[k].email == email ==> k in s;
    First(s)
  }

  /** With unique emails, the user found for an email is the one holding it. */
  lemma UserWithEmailUnique(users: map<int, User>, email: string, k: int)
    requires EmailsUnique(users)
    requires k in users && users[k].email == email
    ensures UserWithEmail(users, email) == Some(k)
  {
  }

  // ---- the table invariants ----

  /** Every id in use is below the next fresh id. */
  predicate IdsBelow(keys: set<int>, next: int) {
    forall k :: k in keys ==> k < next
  }

  ghost predicate EmailsUnique(users: map<int, User>) {
    forall a, b :: a in users && b in users && a != b ==> users[a].email != users[b].email
  }

  /** Advertisements belong to a user, sit in a known category and have a
      positive price. */
  ghost predicate AdsWellFormed(ads: map<int, Advertisement>, users: set<int>, categories: set<int>) {
    forall k :: k in ads ==> ads[k].owner in users && ads[k].category in categories && ads[k].price > 0.0
  }

  /** Pictures belong to an advertisement, are stored under the upload
      directory and hold positions within 1..5. Positions need not be
      distinct: the swap as written can give two pictures of one
      advertisement the same position. */
  ghost predicate ImagesWellFormed(images: map<int, Image>, ads: set<int>) {
    && (forall k :: k in images ==> images[k].advertisement in ads)
    && (forall k :: k in images ==> images[k].imagePath == UploadPath(images[k].imageName))
    && OrdersInRange(images)
  }

  /** A transaction refers to an advertisement, its seller is the owner and
      its buyer is another, registered user. */
  ghost predicate TransactionsWellFormed(txs: map<int, Transaction>, ads: map<int, Advertisement>, users: set<int>) {
    forall k :: k in txs ==>
      && txs[k].advertisement in ads
      && txs[k].seller == ads[txs[k].advertisement].owner
      && txs[k].buyer in users
      && txs[k].buyer != txs[k].seller
  }

  /** A rating refers to a transaction, its rater took part and its ratee is
      the other party. */
  ghost predicate RatingsWellFormed(ratings: map<int, Rating>, txs: map<int, Transaction>) {
    forall k :: k in ratings ==>
      && ratings[k].transaction in txs
      && Participant(txs[ratings[k].transaction], ratings[k].rater)
      && ratings[k].ratee == Ratee(txs[ratings[k].transaction], ratings[k].rater)
  }

  /** No rater has rated the same transaction twice. */
  ghost predicate OneRatingPerRater(ratings: map<int, Rating>) {
    forall a, b :: a in ratings && b in ratings && a != b ==>
      ratings[a].transaction != ratings[b].transaction || ratings[a].rater != ratings[b].rater
  }

  /** Every purchased advertisement is no longer open, and no advertisement
      was purchased twice. */
  ghost predicate OnePurchasePerAd(ads: map<int, Advertisement>, txs: map<int, Transaction>) {
    && (forall k :: k in txs && txs[k].advertisement in ads ==> ads[txs[k].advertisement].status != Open)
    && (forall a, b :: a in txs && b in txs && a != b ==> txs[a].advertisement != txs[b].advertisement)
  }

  /** The consistency every endpoint maintains between the six tables;
      `nextId` is above every id in use. */
  ghost predicate Consistent(users: map<int, User>, categories: map<int, Category>, ads: map<int, Advertisement>,
                             images: map<int, Image>, txs: map<int, Transaction>, ratings: map<int, Rating>,
                             nextId: int)
  {
    && IdsBelow(users.Keys, nextId) && IdsBelow(categories.Keys, nextId) && IdsBelow(ads.Keys, nextId)
    && IdsBelow(images.Keys, nextId) && IdsBelow(txs.Keys, nextId) && IdsBelow(ratings.Keys, nextId)
    && EmailsUnique(users)
    && AdsWellFormed(ads, users.Keys, categories.Keys)
    && ImagesWellFormed(images, ads.Keys)
    && TransactionsWellFormed(txs, ads, users.Keys)
    && RatingsWellFormed(ratings, txs)
    && OneRatingPerRater(ratings)
  }

  /** In a consistent ledger the ratee of a rating is never its rater. */
  lemma NoSelfRating(ratings: map<int, Rating>, txs: map<int, Transaction>, ads: map<int, Advertisement>,
                     users: set<int>, k: int)
    requires TransactionsWellFormed(txs, ads, users) && RatingsWellFormed(ratings, txs)
    requires k in ratings
    ensures ratings[k].ratee != ratings[k].rater
  {
    var t := txs[ratings[k].transaction];
    assert t.buyer != t.seller;
  }

  // ---- cascades ----

  /** The ids of the advertisements `u` owns. */
  function AdsOf(ads: map<int, Advertisement>, u: int): (s: set<int>)
    ensures forall k :: k in s <==> k in ads && ads[k].owner == u
  {
    set k | k in ads && ads[k].owner == u
  }

  /** The pictures left when the advertisements in `gone` are deleted. */
  function ImagesKept(images: map<int, Image>, gone: set<int>): (r: map<int, Image>)
    ensures forall k :: k in r <==> k in images && images[k].advertisement !in gone
    ensures forall k :: k in r ==> r[k] == images[k]
  {
    map k | k in images && images[k].advertisement !in gone :: images[k]
  }

  /** The transactions deleted with the advertisements in `gone` and with
      user `u`'s purchases and sales (none for u = None). */
  function TxsGone(txs: map<int, Transaction>, gone: set<int>, u: Option<int>): (s: set<int>)
    ensures forall k :: k in s <==> (k in txs &&
      (txs[k].advertisement in gone || (u.Some? && Participant(txs[k], u.value))))
  {
    set k | k in txs && (txs[k].advertisement in gone || (u.Some? && Participant(txs[k], u.value)))
  }

  /** The ratings deleted with the transactions in `gone` and with the ratings
      user `u` gave or received. */
  function RatingsGone(ratings: map<int, Rating>, gone: set<int>, u: Option<int>): (s: set<int>)
    ensures forall k :: k in s <==> (k in ratings &&
      (ratings[k].transaction in gone || (u.Some? && (ratings[k].rater == u.value || ratings[k].ratee == u.value))))
  {
    set k | k in ratings && (ratings[k].transaction in gone || (u.Some? && (ratings[k].rater == u.value || ratings[k].ratee == u.value)))
  }

  /** Deleting an advertisement with its pictures, its transactions and their
      ratings keeps the tables consistent. */
  lemma ConsistentAfterAdDelete(users: map<int, User>, categories: map<int, Category>, ads: map<int, Advertisement>,
                                images: map<int, Image>, txs: map<int, Transaction>, ratings: map<int, Rating>,
                                nextId: int, id: int)
    requires Consistent(users, categories, ads, images, txs, ratings, nextId)
    ensures var goneTxs := TxsGone(txs, {id}, None);
      Consistent(users, categories, ads - {id}, ImagesKept(images, {id}), txs - goneTxs,
                 ratings - RatingsGone(ratings, goneTxs, None), nextId)
  {
    var goneTxs := TxsGone(txs, {id}, None);
    var txs' := txs - goneTxs;
    var ratings' := ratings - RatingsGone(ratings, goneTxs, None);
    assert TransactionsWellFormed(txs', ads - {id}, users.Keys);
    assert RatingsWellFormed(ratings', txs');
  }

  /** Deleting a user with everything that cascades from them keeps the
      tables consistent. */
  lemma ConsistentAfterUserDelete(users: map<int, User>, categories: map<int, Category>, ads: map<int, Advertisement>,
                                  images: map<int, Image>, txs: map<int, Transaction>, ratings: map<int, Rating>,
                                  nextId: int, u: int)
    requires Consistent(users, categories, ads, images, txs, ratings, nextId)
    ensures var goneAds := AdsOf(ads, u);
      var goneTxs := TxsGone(txs, goneAds, Some(u));
      Consistent(users - {u}, categories, ads - goneAds, ImagesKept(images, goneAds), txs - goneTxs,
                 ratings - RatingsGone(ratings, goneTxs, Some(u)), nextId)
  {
    var goneAds := AdsOf(ads, u);
    var goneTxs := TxsGone(txs, goneAds, Some(u));
    var ads' := ads - goneAds;
    var txs' := txs - goneTxs;
    var ratings' := ratings - RatingsGone(ratings, goneTxs, Some(u));
    assert AdsWellFormed(ads', (users - {u}).Keys, categories.Keys);
    assert ImagesWellFormed(ImagesKept(images, goneAds), ads'.Keys);
    assert TransactionsWellFormed(txs', ads', (users - {u}).Keys);
    assert RatingsWellFormed(ratings', txs');
  }

  /** Replacing an advertisement by one with the same owner, a known category
      and a positive price keeps the tables consistent. */
  lemma ConsistentAfterAdUpdate(users: map<int, User>, categories: map<int, Category>, ads: map<int, Advertisement>,
                                images: map<int, Image>, txs: map<int, Transaction>, ratings: map<int, Rating>,
                                nextId: int, id: int, ad: Advertisement)
    requires Consistent(users, categories, ads, images, txs, ratings, nextId)
    requires id in ads && ad.owner == ads[id].owner && ad.category in categories && ad.price > 0.0
    ensures Consistent(users, categories, ads[id := ad], images, txs, ratings, nextId)
  {
    assert ads[id := ad].Keys == ads.Keys;
  }

  /** Storing a picture at a position within range for an existing
      advertisement, under the upload directory, keeps the tables consistent. */
  lemma ConsistentAfterImageAdd(users: map<int, User>, categories: map<int, Category>, ads: map<int, Advertisement>,
                                images: map<int, Image>, txs: map<int, Transaction>, ratings: map<int, Rating>,
                                nextId: int, image: Image)
    requires Consistent(users, categories, ads, images, txs, ratings, nextId)
    requires image.advertisement in ads && image.imagePath == UploadPath(image.imageName)
    requires 1 <= image.order <= MaxImages
    ensures Consistent(users, categories, ads, images[nextId := image], txs, ratings, nextId + 1)
  {
  }

  /** Moving a picture to another position within range, swapping with the
      first picture of any advertisement there, keeps the tables consistent. */
  lemma ConsistentAfterSwap(users: map<int, User>, categories: map<int, Category>, ads: map<int, Advertisement>,
                            images: map<int, Image>, txs: map<int, Transaction>, ratings: map<int, Rating>,
                            nextId: int, id: int, newOrder: int)
    requires Consistent(users, categories, ads, images, txs, ratings, nextId)
    requires id in images && images[id].order != newOrder && 1 <= newOrder <= MaxImages
    ensures Consistent(users, categories, ads, SwapAsWritten(images, id, newOrder), txs, ratings, nextId)
  {
    var p := PartnerAnyAd(images, newOrder);
    ReorderChangesOnlyPositions(images, id, newOrder, p);
    ReorderKeepsRange(images, id, newOrder, p);
  }

  /** Registering a user under an email nobody has keeps the tables
      consistent. */
  lemma ConsistentAfterUserAdd(users: map<int, User>, categories: map<int, Category>, ads: map<int, Advertisement>,
                               images: map<int, Image>, txs: map<int, Transaction>, ratings: map<int, Rating>,
                               nextId: int, user: User)
    requires Consistent(users, categories, ads, images, txs, ratings, nextId)
    requires forall k :: k in users ==> users[k].email != user.email
    ensures Consistent(users[nextId := user], categories, ads, images, txs, ratings, nextId + 1)
  {
    var users' := users[nextId := user];
    assert nextId !in users;
    assert EmailsUnique(users');
  }

  /** Recording a sale of an existing advertisement to another user keeps the
      tables consistent, whatever the advertisement's new status. */
  lemma ConsistentAfterSale(users: map<int, User>, categories: map<int, Category>, ads: map<int, Advertisement>,
                            images: map<int, Image>, txs: map<int, Transaction>, ratings: map<int, Rating>,
                            nextId: int, t: Transaction, status: Status)
    requires Consistent(users, categories, ads, images, txs, ratings, nextId)
    requires t.advertisement in ads && t.seller == ads[t.advertisement].owner
    requires t.buyer in users && t.buyer != t.seller
    ensures Consistent(users, categories, ads[t.advertisement := ads[t.advertisement].(status := status)],
                       images, txs[nextId := t], ratings, nextId + 1)
  {
    var ads' := ads[t.advertisement := ads[t.advertisement].(status := status)];
    var txs' := txs[nextId := t];
    assert ads'.Keys == ads.Keys;
    assert nextId !in txs;
    assert TransactionsWellFormed(txs', ads', users.Keys);
    assert RatingsWellFormed(ratings, txs');
  }

  /** A participant's first rating of a completed transaction, of the other
      party, keeps the tables consistent. */
  lemma ConsistentAfterRatingAdd(users: map<int, User>, categories: map<int, Category>, ads: map<int, Advertisement>,
                                 images: map<int, Image>, txs: map<int, Transaction>, ratings: map<int, Rating>,
                                 nextId: int, rating: Rating)
    requires Consistent(users, categories, ads, images, txs, ratings, nextId)
    requires rating.transaction in txs && Participant(txs[rating.transaction], rating.rater)
    requires rating.ratee == Ratee(txs[rating.transaction], rating.rater)
    requires !HasRated(ratings, rating.transaction, rating.rater)
    ensures Consistent(users, categories, ads, images, txs, ratings[nextId := rating], nextId + 1)
  {
    assert nextId !in ratings;
    assert OneRatingPerRater(ratings[nextId := rating]);
  }
}
