/** The marketplace database: one object holding the six tables, and one
    method per endpoint that checks a request in the order the endpoint does,
    then either answers with an HTTP error code and leaves every table as it
    was, or commits exactly the rows the endpoint writes. */
module Marketplace {
  import opened Wrappers
  import opened Tables
  import opened Entities
  import opened Credentials
  import opened Listings
  import opened ImageRules
  import opened Ledger

  /** A row of the category listing. */
  datatype CategoryRow = CategoryRow(id: int, category: Category)

  /** `get_all` on the category table: its rows in table order. */
  function CategoryRows(ids: seq<int>, categories: map<int, Category>): (r: seq<CategoryRow>)
    requires forall i :: 0 <= i < |ids| ==> ids[i] in categories
    ensures |r| == |ids|
    ensures forall i :: 0 <= i < |r| ==> r[i] == CategoryRow(ids[i], categories[ids[i]])
    ensures forall k :: k in ids ==> CategoryRow(k, categories[k]) in r
    ensures forall row :: row in r ==> row.id in ids && row.category == categories[row.id]
  {
    if ids == [] then [] else [CategoryRow(ids[0], categories[ids[0]])] + CategoryRows(ids[1..], categories)
  }

  /** Rewrites each listed picture's path to its public address, leaving the
      order and every other field as they are. The rewritten paths are not
      written back to the table. */
  method WithUrls(rows: seq<ImageRow>) returns (out: seq<ImageRow>)
    ensures |out| == |rows|
    ensures forall i :: 0 <= i < |rows| ==> out[i] == Published(rows[i])
  {
    out := [];
    var i := 0;
    while i < |rows|
      invariant 0 <= i <= |rows| && |out| == i
      invariant forall j :: 0 <= j < i ==> out[j] == Published(rows[j])
    {
      var row := rows[i];
      out := out + [ImageRow(row.id, row.image.(imagePath := ImageUrl(row.image.imageName)))];
      i := i + 1;
    }
  }

  /** An advertisement's gallery as the image endpoints return it: its
      pictures, lowest position first, each with its public address. */
  method PublishGallery(images: map<int, Image>, ad: int) returns (out: seq<ImageRow>)
    ensures out == PublishedGallery(images, ad)
  {
    out := WithUrls(Gallery(images, ad));
    PublishedIsGallery(out, images, ad);
  }

  class Store {
    var users: map<int, User>
    var categories: map<int, Category>
    var ads: map<int, Advertisement>
    var images: map<int, Image>
    var txs: map<int, Transaction>
    var ratings: map<int, Rating>
    /** The id the next inserted row receives, in whichever table. */
    var nextId: int

    /** The consistency the endpoints maintain between the tables. */
    ghost predicate Valid()
      reads this
    {
      Consistent(users, categories, ads, images, txs, ratings, nextId)
    }

    /** An empty database. */
    constructor ()
      ensures Valid()
      ensures users == map[] && categories == map[] && ads == map[]
      ensures images == map[] && txs == map[] && ratings == map[]
    {
      users, categories, ads := map[], map[], map[];
      images, txs, ratings := map[], map[], map[];
      nextId := 1;
    }

    // ---- purchases ----

    /** `purchase_advertisement`: 404 for an unknown advertisement, 400 when
        it is not open, 400 when the buyer owns it; otherwise a transaction
        from the buyer to the owner is inserted and the advertisement is marked
        sold in the same commit. */
    method Purchase(buyer: int, req: TransactionCreate, now: int) returns (r: Result<TransactionRead>)
      requires Valid() && buyer in users
      modifies this
      ensures Valid()
      ensures req.advertisement !in old(ads) ==> r == Err(NotFound)
      ensures req.advertisement in old(ads) && old(ads)[req.advertisement].status != Open ==> r == Err(BadRequest)
      ensures (req.advertisement in old(ads) && old(ads)[req.advertisement].status == Open
               && old(ads)[req.advertisement].owner == buyer) ==> r == Err(BadRequest)
      ensures r.Ok? <==> Purchasable(old(ads), buyer, req.advertisement)
      ensures r.Err? ==> unchanged(this)
      ensures r.Ok? ==>
        var ad := old(ads)[req.advertisement];
        var t := Transaction(buyer, ad.owner, req.completed, now, req.advertisement);
        && old(nextId) !in old(txs)
        && txs == old(txs)[old(nextId) := t]
        && r.value == ReadOf(old(nextId), t)
        && ads == old(ads)[req.advertisement := ad.(status := Sold)]
        && users == old(users) && categories == old(categories)
        && images == old(images) && ratings == old(ratings)
      ensures r.Ok? ==> r.value.buyer == buyer && r.value.buyer != r.value.seller
      ensures r.Ok? ==> forall b :: !Purchasable(ads, b, req.advertisement)
      ensures OnePurchasePerAd(old(ads), old(txs)) ==> OnePurchasePerAd(ads, txs)
    {
      var id := req.advertisement;
      if id !in ads {
        return Err(NotFound);
      }
      var ad := ads[id];
      if ad.status != Open {
        return Err(BadRequest);
      }
      if ad.owner == buyer {
        return Err(BadRequest);
      }
      var t := Transaction(buyer, ad.owner, req.completed, now, id);
      ConsistentAfterSale(users, categories, ads, images, txs, ratings, nextId, t, Sold);
      txs := txs[nextId := t];
      ads := ads[id := ad.(status := Sold)];
      r := Ok(ReadOf(nextId, t));
      nextId := nextId + 1;
    }

    /** `get_transaction`: 404 for an unknown transaction, 403 unless the
        caller bought or sold; a read that changes nothing. */
    function GetTransaction(caller: int, id: int): (r: Result<TransactionRead>)
      reads this
      ensures id !in txs ==> r == Err(NotFound)
      ensures id in txs && !Participant(txs[id], caller) ==> r == Err(Forbidden)
      ensures r.Ok? ==> r.value.id == id && (r.value.buyer == caller || r.value.seller == caller)
      ensures r.Ok? <==> id in txs && Participant(txs[id], caller)
      ensures r.Ok? ==> id in txs && r.value == ReadOf(id, txs[id])
    {
      if id !in txs then Err(NotFound)
      else if !Participant(txs[id], caller) then Err(Forbidden)
      else Ok(ReadOf(id, txs[id]))
    }

    // ---- ratings ----

    /** `create_rating`: 404 for an unknown transaction, 400 when it is not
        completed, 403 for a caller who neither bought nor sold, 400 when the
        caller already rated it; otherwise one rating by the caller of the
        other party is inserted with the request's score and comment. */
    method CreateRating(caller: int, req: RatingCreate) returns (r: Result<Rating>)
      requires Valid()
      modifies this
      ensures Valid()
      ensures req.transaction !in old(txs) ==> r == Err(NotFound)
      ensures req.transaction in old(txs) && !old(txs)[req.transaction].completed ==> r == Err(BadRequest)
      ensures (req.transaction in old(txs) && old(txs)[req.transaction].completed
               && !Participant(old(txs)[req.transaction], caller)) ==> r == Err(Forbidden)
      ensures (req.transaction in old(txs) && old(txs)[req.transaction].completed
               && Participant(old(txs)[req.transaction], caller)
               && HasRated(old(ratings), req.transaction, caller)) ==> r == Err(BadRequest)
      ensures r.Ok? <==> (req.transaction in old(txs) && old(txs)[req.transaction].completed
                          && Participant(old(txs)[req.transaction], caller)
                          && !HasRated(old(ratings), req.transaction, caller))
      ensures r.Err? ==> unchanged(this)
      ensures r.Ok? ==>
        var t := old(txs)[req.transaction];
        && t.completed && Participant(t, caller) && !HasRated(old(ratings), req.transaction, caller)
        && r.value == Rating(req.transaction, caller, Ratee(t, caller), req.score, req.comment)
        && r.value.ratee != caller
        && old(nextId) !in old(ratings)
        && ratings == old(ratings)[old(nextId) := r.value]
        && users == old(users) && categories == old(categories) && ads == old(ads)
        && images == old(images) && txs == old(txs)
      ensures r.Ok? ==> HasRated(ratings, req.transaction, caller)
    {
      var id := req.transaction;
      if id !in txs {
        return Err(NotFound);
      }
      var t := txs[id];
      if !t.completed {
        return Err(BadRequest);
      }
      if caller != t.buyer && caller != t.seller {
        return Err(Forbidden);
      }
      if HasRated(ratings, id, caller) {
        return Err(BadRequest);
      }
      var rater, ratee;
      if caller == t.buyer {
        ratee, rater := t.seller, t.buyer;
      } else {
        ratee, rater := t.buyer, t.seller;
      }
      var rating := Rating(id, rater, ratee, req.score, req.comment);
      ConsistentAfterRatingAdd(users, categories, ads, images, txs, ratings, nextId, rating);
      ratings := ratings[nextId := rating];
      assert ratings[nextId].transaction == id && ratings[nextId].rater == caller;
      nextId := nextId + 1;
      r := Ok(rating);
    }

    /** `get_ratings_for_user`: the ratings the user received, each once. */
    function GetRatingsForUser(user: int): (r: seq<RatingRow>)
      reads this
      ensures forall row :: row in r <==> row.id in ratings && row.rating == ratings[row.id] && row.rating.ratee == user
      ensures forall i, j :: 0 <= i < j < |r| ==> r[i].id != r[j].id
      ensures r == [] <==> forall k :: k in ratings ==> ratings[k].ratee != user
    {
      RatingsReceivedEmpty(ratings, user);
      RatingsReceived(ratings, user)
    }

    // ---- advertisements ----

    /** `create_advertisement`: 404 for an unknown category, then 400 for a
        price that is not positive; otherwise the request's fields are stored
        as a new advertisement owned by the caller. */
    method CreateAdvertisement(caller: int, req: AdvertisementBase) returns (r: Result<int>)
      requires Valid() && caller in users
      modifies this
      ensures Valid()
      ensures req.category !in old(categories) ==> r == Err(NotFound)
      ensures req.category in old(categories) && req.price <= 0.0 ==> r == Err(BadRequest)
      ensures r.Ok? <==> req.category in old(categories) && req.price > 0.0
      ensures r.Err? ==> unchanged(this)
      ensures r.Ok? ==>
        && r.value == old(nextId) && r.value !in old(ads)
        && ads == old(ads)[r.value := Advertisement(req.title, req.content, req.price, req.status,
                                                     req.createdAt, caller, req.category)]
        && users == old(users) && categories == old(categories)
        && images == old(images) && txs == old(txs) && ratings == old(ratings)
      ensures OnePurchasePerAd(old(ads), old(txs)) ==> OnePurchasePerAd(ads, txs)
    {
      if req.category !in categories {
        return Err(NotFound);
      }
      if req.price <= 0.0 {
        return Err(BadRequest);
      }
      var ad := Advertisement(req.title, req.content, req.price, req.status, req.createdAt, caller, req.category);
      ads := ads[nextId := ad];
      r := Ok(nextId);
      nextId := nextId + 1;
    }

    /** `get_one_advertisement`: the stored row, or 404. */
    function GetOneAdvertisement(id: int): (r: Result<Advertisement>)
      reads this
      ensures r.Ok? <==> id in ads
      ensures r.Err? ==> r.status == NotFound
      ensures r.Ok? ==> r.value == ads[id]
    {
      if id in ads then Ok(ads[id]) else Err(NotFound)
    }

    /** `edit_advertisement`: 404 for an unknown advertisement and 404 for a
        caller who does not own it; then the supplied fields are applied in
        declaration order, a changed category that does not exist or a
        changed price that is not positive aborting the whole edit with 404. */
    method EditAdvertisement(caller: int, id: int, e: AdvertisementEdit) returns (r: Result<Advertisement>)
      requires Valid()
      modifies this
      ensures Valid()
      ensures id !in old(ads) ==> r == Err(NotFound)
      ensures id in old(ads) && old(ads)[id].owner != caller ==> r == Err(NotFound)
      ensures id in old(ads) && old(ads)[id].owner == caller && EditRejected(old(ads)[id], e, old(categories).Keys)
        ==> r == Err(NotFound)
      ensures r.Ok? <==>
        id in old(ads) && old(ads)[id].owner == caller && !EditRejected(old(ads)[id], e, old(categories).Keys)
      ensures r.Err? ==> unchanged(this)
      ensures r.Ok? ==>
        && r.value == Merged(old(ads)[id], e)
        && ads == old(ads)[id := r.value]
        && users == old(users) && categories == old(categories) && images == old(images)
        && txs == old(txs) && ratings == old(ratings) && nextId == old(nextId)
      ensures r.Ok? && e.status == Some(Open) ==> forall b :: b != caller ==> Purchasable(ads, b, id)
      ensures e.status != Some(Open) && OnePurchasePerAd(old(ads), old(txs)) ==> OnePurchasePerAd(ads, txs)
    {
      if id !in ads {
        return Err(NotFound);
      }
      var ad := ads[id];
      if ad.owner != caller {
        return Err(NotFound);
      }
      EditOutcome(ad, e, categories.Keys);
      r := RunEdits(ad, UpdateData(e), categories.Keys);
      if r.Err? {
        return;
      }
      ConsistentAfterAdUpdate(users, categories, ads, images, txs, ratings, nextId, id, r.value);
      ads := ads[id := r.value];
    }

    /** `delete_advertisement`: 404 for an unknown advertisement and 404 for a
        caller who does not own it; otherwise the advertisement goes, and with
        it its pictures, its transactions and their ratings. */
    method DeleteAdvertisement(caller: int, id: int) returns (r: Result<()>)
      requires Valid()
      modifies this
      ensures Valid()
      ensures id !in old(ads) ==> r == Err(NotFound)
      ensures id in old(ads) && old(ads)[id].owner != caller ==> r == Err(NotFound)
      ensures r.Ok? <==> id in old(ads) && old(ads)[id].owner == caller
      ensures r.Err? ==> unchanged(this)
      ensures r.Ok? ==>
        var goneTxs := TxsGone(old(txs), {id}, None);
        && ads == old(ads) - {id}
        && images == ImagesKept(old(images), {id})
        && txs == old(txs) - goneTxs
        && ratings == old(ratings) - RatingsGone(old(ratings), goneTxs, None)
        && users == old(users) && categories == old(categories) && nextId == old(nextId)
      ensures OnePurchasePerAd(old(ads), old(txs)) ==> OnePurchasePerAd(ads, txs)
    {
      if id !in ads {
        return Err(NotFound);
      }
      if ads[id].owner != caller {
        return Err(NotFound);
      }
      ConsistentAfterAdDelete(users, categories, ads, images, txs, ratings, nextId, id);
      var goneTxs := TxsGone(txs, {id}, None);
      ratings := ratings - RatingsGone(ratings, goneTxs, None);
      txs := txs - goneTxs;
      images := ImagesKept(images, {id});
      ads := ads - {id};
      r := Ok(());
    }

    /** `status_advertisement`: 404 for an unknown advertisement and 404 for a
        caller who does not own it; otherwise only the status changes, to
        SOLD or RESERVED. */
    method StatusAdvertisement(caller: int, id: int, c: StatusChange) returns (r: Result<Advertisement>)
      requires Valid()
      modifies this
      ensures Valid()
      ensures id !in old(ads) ==> r == Err(NotFound)
      ensures id in old(ads) && old(ads)[id].owner != caller ==> r == Err(NotFound)
      ensures r.Ok? <==> id in old(ads) && old(ads)[id].owner == caller
      ensures r.Err? ==> unchanged(this)
      ensures r.Ok? ==>
        && r.value == old(ads)[id].(status := ToStatus(c))
        && ads == old(ads)[id := r.value]
        && users == old(users) && categories == old(categories) && images == old(images)
        && txs == old(txs) && ratings == old(ratings) && nextId == old(nextId)
      ensures r.Ok? ==> r.value.status != Open
      ensures OnePurchasePerAd(old(ads), old(txs)) ==> OnePurchasePerAd(ads, txs)
    {
      if id !in ads {
        return Err(NotFound);
      }
      var ad := ads[id];
      if ad.owner != caller {
        return Err(NotFound);
      }
      ad := ad.(status := ToStatus(c));
      ConsistentAfterAdUpdate(users, categories, ads, images, txs, ratings, nextId, id, ad);
      ads := ads[id := ad];
      r := Ok(ad);
    }

    // ---- categories ----

    /** `create_category`: any title is stored, duplicates included. */
    method CreateCategory(title: string) returns (id: int)
      requires Valid()
      modifies this
      ensures Valid()
      ensures id == old(nextId) && id !in old(categories)
      ensures categories == old(categories)[id := Category(title)]
      ensures users == old(users) && ads == old(ads) && images == old(images)
      ensures txs == old(txs) && ratings == old(ratings)
    {
      id := nextId;
      categories := categories[id := Category(title)];
      nextId := nextId + 1;
    }

    /** `get_all` on categories: every stored category, once each. */
    function GetAllCategories(): (r: seq<CategoryRow>)
      reads this
      ensures |r| == |categories|
      ensures forall k :: k in categories ==> CategoryRow(k, categories[k]) in r
      ensures forall row :: row in r ==> row.id in categories && row.category == categories[row.id]
    {
      CategoryRows(KeysAscending(categories.Keys), categories)
    }

    // ---- images ----

    /** `add_image`: 404 for an unknown advertisement, 403 for a caller who
        does not own it, 400 for an extension outside the allowed ones, 400
        once the advertisement's highest position reaches the cap; otherwise
        the picture is stored under a fresh name at the next position. */
    method AddImage(caller: int, adId: int, upload: Upload, token: string) returns (r: Result<int>)
      requires Valid()
      modifies this
      ensures Valid()
      ensures adId !in old(ads) ==> r == Err(NotFound)
      ensures adId in old(ads) && old(ads)[adId].owner != caller ==> r == Err(Forbidden)
      ensures adId in old(ads) && old(ads)[adId].owner == caller && !ExtensionAllowed(upload.filename)
        ==> r == Err(BadRequest)
      ensures (adId in old(ads) && old(ads)[adId].owner == caller && ExtensionAllowed(upload.filename)
               && BaseOrder(old(images), adId) >= MaxImages) ==> r == Err(BadRequest)
      ensures r.Ok? <==> (adId in old(ads) && old(ads)[adId].owner == caller && ExtensionAllowed(upload.filename)
                          && BaseOrder(old(images), adId) < MaxImages)
      ensures r.Err? ==> unchanged(this)
      ensures r.Ok? ==>
        var parts := SplitExt(upload.filename);
        var name := parts.0 + "_" + token + parts.1;
        && r.value == old(nextId) && r.value !in old(images)
        && images == old(images)[r.value := Image(NextOrder(old(images), adId), upload.filename, name,
                                                   UploadPath(name), upload.contentType, adId)]
        && users == old(users) && categories == old(categories) && ads == old(ads)
        && txs == old(txs) && ratings == old(ratings)
      ensures r.Ok? ==> 1 <= images[r.value].order <= MaxImages
    {
      if adId !in ads {
        return Err(NotFound);
      }
      if ads[adId].owner != caller {
        return Err(Forbidden);
      }
      if !ExtensionAllowed(upload.filename) {
        return Err(BadRequest);
      }
      var base := BaseOrder(images, adId);
      if base >= MaxImages {
        return Err(BadRequest);
      }
      NextOrderInRange(images, adId);
      var parts := SplitExt(upload.filename);
      var name := parts.0 + "_" + token + parts.1;
      var image := Image(NextOrder(images, adId), upload.filename, name, UploadPath(name), upload.contentType, adId);
      ConsistentAfterImageAdd(users, categories, ads, images, txs, ratings, nextId, image);
      images := images[nextId := image];
      r := Ok(nextId);
      nextId := nextId + 1;
    }

    /** `get_one_image`: the file under the upload directory named after the
        stored picture, or 404. For a stored name that is not an absolute path
        this is the path the picture was written to. */
    function GetOneImage(id: int): (r: Result<string>)
      reads this
      ensures r.Ok? <==> id in images
      ensures r.Err? ==> r.status == NotFound
      ensures r.Ok? ==> r.value == UploadDir + "/" + images[id].imageName
      ensures r.Ok? && Valid() && (|images[id].imageName| == 0 || images[id].imageName[0] != '/') ==>
        r.value == images[id].imagePath
    {
      if id in images then Ok(UploadDir + "/" + images[id].imageName) else Err(NotFound)
    }

    /** `get_all_images`: 404 for an unknown advertisement or one without
        pictures; otherwise its pictures, lowest position first, each with its
        public address. */
    method GetAllImages(adId: int) returns (r: Result<seq<ImageRow>>)
      ensures adId !in ads ==> r == Err(NotFound)
      ensures adId in ads && (forall k :: k in images ==> images[k].advertisement != adId) ==> r == Err(NotFound)
      ensures r.Ok? <==> adId in ads && exists k :: k in images && images[k].advertisement == adId
      ensures r.Ok? ==> r.value == PublishedGallery(images, adId) && r.value != []
    {
      if adId !in ads {
        return Err(NotFound);
      }
      var rows := Gallery(images, adId);
      GalleryEmpty(images, adId);
      if rows == [] {
        return Err(NotFound);
      }
      var out := PublishGallery(images, adId);
      r := Ok(out);
    }

    /** `change_image_order`: 404 for an unknown picture, 403 for a caller
        who does not own its advertisement, 406 when the position is already
        the picture's, 406 for a position outside 1..highest; otherwise the
        first picture of any advertisement at that position, if any, takes the
        moved picture's old position, and the gallery is returned. */
    method ChangeImageOrder(caller: int, imageId: int, newOrder: int) returns (r: Result<seq<ImageRow>>)
      requires Valid()
      modifies this`images
      ensures Valid()
      ensures imageId !in old(images) ==> r == Err(NotFound)
      ensures (imageId in old(images) && old(images)[imageId].advertisement in old(ads)
               && old(ads)[old(images)[imageId].advertisement].owner != caller) ==> r == Err(Forbidden)
      ensures (imageId in old(images) && old(images)[imageId].advertisement in old(ads)
               && old(ads)[old(images)[imageId].advertisement].owner == caller
               && old(images)[imageId].order == newOrder) ==> r == Err(NotAcceptable)
      ensures (imageId in old(images) && old(images)[imageId].advertisement in old(ads)
               && old(ads)[old(images)[imageId].advertisement].owner == caller
               && old(images)[imageId].order != newOrder
               && (newOrder <= 0 || newOrder > BaseOrder(old(images), old(images)[imageId].advertisement)))
              ==> r == Err(NotAcceptable)
      ensures r.Ok? <==> (imageId in old(images) && old(images)[imageId].advertisement in old(ads)
                          && old(ads)[old(images)[imageId].advertisement].owner == caller
                          && old(images)[imageId].order != newOrder
                          && 1 <= newOrder <= BaseOrder(old(images), old(images)[imageId].advertisement))
      ensures r.Err? ==> unchanged(this)
      ensures r.Ok? ==>
        && imageId in old(images)
        && images == SwapAsWritten(old(images), imageId, newOrder)
        && r.value == PublishedGallery(images, old(images)[imageId].advertisement)
    {
      if imageId !in images {
        return Err(NotFound);
      }
      var image := images[imageId];
      var adId := image.advertisement;
      if ads[adId].owner != caller {
        return Err(Forbidden);
      }
      if image.order == newOrder {
        return Err(NotAcceptable);
      }
      var maxOrder := BaseOrder(images, adId);
      if newOrder <= 0 || newOrder > maxOrder {
        return Err(NotAcceptable);
      }
      BaseOrderInRange(images, adId);
      CommitSwap(imageId, newOrder);
      var out := PublishGallery(images, adId);
      r := Ok(out);
    }

    /** The commit of `change_image_order`: both position updates of the swap
        as written, in one transaction. */
    method CommitSwap(imageId: int, newOrder: int)
      requires Valid()
      requires imageId in images && images[imageId].order != newOrder && 1 <= newOrder <= MaxImages
      modifies this`images
      ensures Valid()
      ensures images == SwapAsWritten(old(images), imageId, newOrder)
    {
      ConsistentAfterSwap(users, categories, ads, images, txs, ratings, nextId, imageId, newOrder);
      images := SwapAsWritten(images, imageId, newOrder);
    }

    /** `delete_image`: 404 for an unknown picture, 403 for a caller who does
        not own its advertisement; otherwise exactly that row is removed and
        the remaining positions are left as they are. */
    method DeleteImage(caller: int, imageId: int) returns (r: Result<()>)
      requires Valid()
      modifies this
      ensures Valid()
      ensures imageId !in old(images) ==> r == Err(NotFound)
      ensures (imageId in old(images) && old(images)[imageId].advertisement in old(ads)
               && old(ads)[old(images)[imageId].advertisement].owner != caller) ==> r == Err(Forbidden)
      ensures r.Ok? <==> (imageId in old(images) && old(images)[imageId].advertisement in old(ads)
                          && old(ads)[old(images)[imageId].advertisement].owner == caller)
      ensures r.Err? ==> unchanged(this)
      ensures r.Ok? ==>
        && imageId in old(images)
        && images == old(images) - {imageId}
        && users == old(users) && categories == old(categories) && ads == old(ads)
        && txs == old(txs) && ratings == old(ratings) && nextId == old(nextId)
    {
      if imageId !in images {
        return Err(NotFound);
      }
      if ads[images[imageId].advertisement].owner != caller {
        return Err(Forbidden);
      }
      images := images - {imageId};
      r := Ok(());
    }

    // ---- users ----

    /** `register`: 400 for a malformed email, then 400 for a weak password,
        then 400 for an email already registered; otherwise a user is stored
        with the hash of the password. */
    method Register(req: UserCreate, hash: string -> string) returns (r: Result<int>)
      requires Valid()
      modifies this
      ensures Valid()
      ensures !ValidateEmail(req.email) ==> r == Err(BadRequest)
      ensures ValidatePassword(req.password).Some? ==> r == Err(BadRequest)
      ensures UserWithEmail(old(users), req.email).Some? ==> r == Err(BadRequest)
      ensures r.Ok? <==> (ValidateEmail(req.email) && ValidatePassword(req.password).None?
                          && forall k :: k in old(users) ==> old(users)[k].email != req.email)
      ensures r.Err? ==> unchanged(this)
      ensures r.Ok? ==>
        && r.value == old(nextId) && r.value !in old(users)
        && users == old(users)[r.value := User(req.username, req.email, hash(req.password), None, None)]
        && categories == old(categories) && ads == old(ads) && images == old(images)
        && txs == old(txs) && ratings == old(ratings)
    {
      if !ValidateEmail(req.email) {
        return Err(BadRequest);
      }
      if ValidatePassword(req.password).Some? {
        return Err(BadRequest);
      }
      if UserWithEmail(users, req.email).Some? {
        return Err(BadRequest);
      }
      var user := User(req.username, req.email, hash(req.password), None, None);
      ConsistentAfterUserAdd(users, categories, ads, images, txs, ratings, nextId, user);
      users := users[nextId := user];
      r := Ok(nextId);
      nextId := nextId + 1;
    }

    /** `login`: 401 for an unknown email or a password the stored hash does
        not verify; otherwise a token whose subject is the email. */
    function Login(email: string, password: string, verify: (string, string) -> bool,
                   encode: string -> string): (r: Result<string>)
      reads this
      ensures (forall k :: k in users ==> users[k].email != email) ==> r == Err(Unauthorized)
      ensures r.Err? ==> r.status == Unauthorized
      ensures r.Ok? ==> r.value == encode(email)
      ensures r.Ok? ==> exists k :: k in users && users[k].email == email && verify(password, users[k].hashedPassword)
      ensures EmailsUnique(users) ==>
        (r.Ok? <==> exists k :: k in users && users[k].email == email && verify(password, users[k].hashedPassword))
    {
      match UserWithEmail(users, email)
      case None => Err(Unauthorized)
      case Some(k) => if verify(password, users[k].hashedPassword) then Ok(encode(email)) else Err(Unauthorized)
    }

    /** `get_current_user`: a token that does not decode, or has no subject,
        gives 401; a subject naming no user gives 404; otherwise that user's
        id. Revoked tokens are not looked at. */
    function GetCurrentUser(token: string, decode: string -> Option<Option<string>>): (r: Result<int>)
      reads this
      ensures decode(token).None? || decode(token) == Some(None) ==> r == Err(Unauthorized)
      ensures (decode(token).Some? && decode(token).value.Some?
               && forall k :: k in users ==> users[k].email != decode(token).value.value) ==> r == Err(NotFound)
      ensures r.Ok? ==> r.value in users && decode(token) == Some(Some(users[r.value].email))
      ensures forall k :: k in users && decode(token) == Some(Some(users[k].email)) ==>
        r.Ok? && (EmailsUnique(users) ==> r.value == k)
    {
      match decode(token)
      case None => Err(Unauthorized)
      case Some(sub) =>
        match sub
        case None => Err(Unauthorized)
        case Some(email) =>
          match UserWithEmail(users, email)
          case None => Err(NotFound)
          case Some(k) => Ok(k)
    }

    /** Deleting a user, as the table relationships cascade it: their
        advertisements with those advertisements' pictures and transactions,
        their purchases and sales, the ratings they gave or received, and the
        ratings of every deleted transaction. */
    method DeleteUser(u: int)
      requires Valid() && u in users
      modifies this
      ensures Valid()
      ensures
        var goneAds := AdsOf(old(ads), u);
        var goneTxs := TxsGone(old(txs), goneAds, Some(u));
        && users == old(users) - {u}
        && ads == old(ads) - goneAds
        && images == ImagesKept(old(images), goneAds)
        && txs == old(txs) - goneTxs
        && ratings == old(ratings) - RatingsGone(old(ratings), goneTxs, Some(u))
        && categories == old(categories) && nextId == old(nextId)
    {
      ConsistentAfterUserDelete(users, categories, ads, images, txs, ratings, nextId, u);
      var goneAds := AdsOf(ads, u);
      var goneTxs := TxsGone(txs, goneAds, Some(u));
      ratings := ratings - RatingsGone(ratings, goneTxs, Some(u));
      txs := txs - goneTxs;
      images := ImagesKept(images, goneAds);
      ads := ads - goneAds;
      users := users - {u};
    }
  }
}
