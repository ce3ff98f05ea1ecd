/** The rules behind an advertisement's pictures: which uploads are accepted,
    the position a new picture takes, how two positions are swapped, and the
    ordered gallery the image endpoints return. */
module ImageRules {
  import opened Wrappers
  import opened Tables
  import opened Sorting
  import opened Text
  import opened Entities

  /** The directory uploads are stored in. */
  const UploadDir := "uploaded_images"
  /** Positions run from 1 up to this cap. */
  const MaxImages := 5
  /** The accepted extensions, compared after lower-casing. */
  const AllowedExtensions: set<string> := {".jpg", ".jpeg", ".png", ".gif"}
  /** The address prefix the gallery reports instead of the stored path. */
  const UrlPrefix := "http://127.0.0.1:8000/images/"

  /** Where an upload is stored: `os.path.join(UPLOAD_DIR, name)` on a POSIX
      path, which drops the directory when `name` is itself absolute. */
  function UploadPath(name: string): (path: string)
    ensures |name| > 0 && name[0] == '/' ==> path == name
    ensures (|name| == 0 || name[0] != '/') ==> path == UploadDir + "/" + name
  {
    if |name| > 0 && name[0] == '/' then name else UploadDir + "/" + name
  }

  /** The address the gallery reports for a stored picture. */
  function ImageUrl(name: string): string {
    UrlPrefix + name
  }

  // ---- the extension check ----

  /** Some character of p[from..to] is not a dot. */
  predicate HasNonDot(p: string, from: int, to: int)
    requires 0 <= from <= to <= |p|
  {
    exists i :: from <= i < to && p[i] != '.'
  }

  /** `os.path.splitext` on a POSIX path: the extension starts at the last dot
      of the last path segment, unless that segment has only dots before it. */
  function SplitExt(p: string): (r: (string, string))
    ensures r.0 + r.1 == p
    ensures r.1 != [] ==> r.1[0] == '.' && forall i :: 1 <= i < |r.1| ==> r.1[i] != '.' && r.1[i] != '/'
  {
    var sep := LastIndexOf(p, '/');
    var dot := LastIndexOf(p, '.');
    if dot > sep && HasNonDot(p, sep + 1, dot) then
      assert p[..dot] + p[dot..] == p;
      (p[..dot], p[dot..])
    else
      assert p + [] == p;
      (p, [])
  }

  lemma LastIndexOfIs(s: string, c: char, r: int)
    requires -1 <= r < |s| && (r >= 0 ==> s[r] == c)
    requires forall k :: r < k < |s| ==> s[k] != c
    ensures LastIndexOf(s, c) == r
  {
  }

  /** A file name ending in a dot and a dot-free suffix splits off exactly that
      suffix, provided its last segment has a character that is not a dot. */
  lemma SplitExtOfJoin(root: string, ext: string)
    requires forall i :: 0 <= i < |ext| ==> ext[i] != '/'
    requires ext != [] && ext[0] == '.' && forall i :: 1 <= i < |ext| ==> ext[i] != '.'
    requires exists i :: LastIndexOf(root, '/') < i < |root| && root[i] != '.'
    ensures SplitExt(root + ext) == (root, ext)
  {
    var p := root + ext;
    var a := LastIndexOf(root, '/');
    var sep := LastIndexOf(p, '/');
    var dot := LastIndexOf(p, '.');
    assert forall j :: |root| <= j < |p| ==> p[j] == ext[j - |root|];
    assert forall j :: 0 <= j < |root| ==> p[j] == root[j];
    LastIndexOfIs(p, '.', |root|);
    LastIndexOfIs(p, '/', a);
    var i :| a < i < |root| && root[i] != '.';
    assert p[i] != '.';
    assert p[..dot] == root && p[dot..] == ext;
  }

  /** A name made of dots and one extension, such as `.png`, has no extension. */
  lemma HiddenFileHasNoExtension()
    ensures SplitExt(".png") == (".png", "")
  {
    var p := ".png";
    assert p[0] == '.' && p[1] == 'p' && p[2] == 'n' && p[3] == 'g';
    assert LastIndexOf(p, '/') == -1;
    assert LastIndexOf(p, '.') == 0;
    assert !HasNonDot(p, 0, 0);
  }

  /** `ext.lower() in ALLOWED_EXTENSIONS` for the upload's file name. */
  function ExtensionAllowed(filename: string): (ok: bool)
    ensures ok ==> SplitExt(filename).1 != [] && |SplitExt(filename).1| <= 5
  {
    LowerStr(SplitExt(filename).1) in AllowedExtensions
  }

  /** A name with a proper extension is accepted exactly when that
      extension, lower-cased, is one of the allowed ones. */
  lemma ExtensionAllowedOfJoin(root: string, ext: string)
    requires forall i :: 0 <= i < |ext| ==> ext[i] != '/'
    requires ext != [] && ext[0] == '.' && forall i :: 1 <= i < |ext| ==> ext[i] != '.'
    requires exists i :: LastIndexOf(root, '/') < i < |root| && root[i] != '.'
    ensures ExtensionAllowed(root + ext) <==> LowerStr(ext) in AllowedExtensions
  {
    SplitExtOfJoin(root, ext);
  }

  // ---- positions ----

  /** The positions taken by the pictures of advertisement `ad`. */
  function OrdersOf(images: map<int, Image>, ad: int): (s: set<int>)
    ensures forall k :: k in images && images[k].advertisement == ad ==> images[k].order in s
    ensures forall o :: o in s ==> exists k :: k in images && images[k].advertisement == ad && images[k].order == o
  {
    set k | k in images && images[k].advertisement == ad :: images[k].order
  }

  /** `max(order_id)` over the advertisement's pictures; None (SQL NULL) when
      it has none. */
  function MaxOrder(images: map<int, Image>, ad: int): (m: Option<int>)
    ensures m.None? <==> forall k :: k in images ==> images[k].advertisement != ad
    ensures m.Some? ==> forall k :: k in images && images[k].advertisement == ad ==> images[k].order <= m.value
    ensures m.Some? ==> exists k :: k in images && images[k].advertisement == ad && images[k].order == m.value
  {
    var s := OrdersOf(images, ad);
    if s == {} then None else Some(MaxOf(s))
  }

  /** `max_order`, with a missing or zero maximum read as 0. */
  function BaseOrder(images: map<int, Image>, ad: int): (b: int)
    ensures forall k :: k in images && images[k].advertisement == ad ==> images[k].order <= b
    ensures (forall k :: k in images ==> images[k].advertisement != ad) ==> b == 0
  {
    MaxOrder(images, ad).GetOr(0)
  }

  /** The position a new picture takes: past every position the
      advertisement already uses, and 1 for its first picture. */
  function NextOrder(images: map<int, Image>, ad: int): (n: int)
    ensures forall k :: k in images && images[k].advertisement == ad ==> images[k].order < n
    ensures (forall k :: k in images ==> images[k].advertisement != ad) ==> n == 1
  {
    BaseOrder(images, ad) + 1
  }

  /** Every stored position lies in 1..MaxImages. */
  ghost predicate OrdersInRange(images: map<int, Image>) {
    forall k :: k in images ==> 1 <= images[k].order <= MaxImages
  }

  /** Within one advertisement no two pictures share a position. */
  ghost predicate DistinctOrders(images: map<int, Image>) {
    forall a, b :: a in images && b in images && a != b && images[a].advertisement == images[b].advertisement
      ==> images[a].order != images[b].order
  }

  /** The highest position of an advertisement is within range. */
  lemma BaseOrderInRange(images: map<int, Image>, ad: int)
    requires OrdersInRange(images)
    ensures 0 <= BaseOrder(images, ad) <= MaxImages
  {
    var m := MaxOrder(images, ad);
    if m.Some? {
      var k :| k in images && images[k].advertisement == ad && images[k].order == m.value;
    }
  }

  /** An upload passing the cap check gets a position within 1..MaxImages. */
  lemma NextOrderInRange(images: map<int, Image>, ad: int)
    requires OrdersInRange(images)
    requires BaseOrder(images, ad) < MaxImages
    ensures 1 <= NextOrder(images, ad) <= MaxImages
  {
    var m := MaxOrder(images, ad);
    if m.Some? {
      var k :| k in images && images[k].advertisement == ad && images[k].order == m.value;
    }
  }

  // ---- swapping positions ----

  /** The first row (lowest id) of a query result, if any. */
  function First(ids: set<int>): (r: Option<int>)
    ensures r.None? <==> ids == {}
    ensures r.Some? ==> r.value in ids && forall j :: j in ids ==> r.value <= j
  {
    if ids == {} then None else Some(MinKey(ids))
  }

  /** The swap partner as the code looks it up: the first picture, of any
      advertisement, holding position `newOrder`. */
  function PartnerAnyAd(images: map<int, Image>, newOrder: int): (p: Option<int>)
    ensures p.Some? ==> p.value in images && images[p.value].order == newOrder
    ensures p.None? <==> forall k :: k in images ==> images[k].order != newOrder
  {
    var s := set k | k in images && images[k].order == newOrder;
    assert forall k :: k in images && images[k].order == newOrder ==> k in s;
    First(s)
  }

  /** The swap partner restricted to the moved picture's own advertisement. */
  function PartnerInAd(images: map<int, Image>, ad: int, newOrder: int): (p: Option<int>)
    ensures p.Some? ==> p.value in images && images[p.value].order == newOrder && images[p.value].advertisement == ad
    ensures p.None? <==> forall k :: k in images && images[k].advertisement == ad ==> images[k].order != newOrder
  {
    var s := set k | k in images && images[k].advertisement == ad && images[k].order == newOrder;
    assert forall k :: k in images && images[k].advertisement == ad && images[k].order == newOrder ==> k in s;
    First(s)
  }

  /** The two assignments of a swap: the partner, if any, takes the moved
      picture's old position, and the moved picture takes `newOrder`. */
  function Reorder(images: map<int, Image>, id: int, newOrder: int, partner: Option<int>): map<int, Image>
    requires id in images && (partner.Some? ==> partner.value in images)
  {
    var moved := images[id].(order := newOrder);
    match partner
    case None => images[id := moved]
    case Some(p) => images[p := images[p].(order := images[id].order)][id := moved]
  }

  /** The swap as written: the moved picture takes `newOrder`, the first
      picture of any advertisement holding `newOrder` takes the moved
      picture's old position, and no other row changes. */
  function SwapAsWritten(images: map<int, Image>, id: int, newOrder: int): (r: map<int, Image>)
    requires id in images
    ensures r.Keys == images.Keys && r[id] == images[id].(order := newOrder)
    ensures var p := PartnerAnyAd(images, newOrder);
      p.Some? && p.value != id ==> r[p.value] == images[p.value].(order := images[id].order)
    ensures forall k :: k in images && k != id && Some(k) != PartnerAnyAd(images, newOrder) ==> r[k] == images[k]
  {
    Reorder(images, id, newOrder, PartnerAnyAd(images, newOrder))
  }

  /** The swap with the partner looked up among the same advertisement's
      pictures: as above, and no other advertisement's picture changes. */
  function SwapWithinAd(images: map<int, Image>, id: int, newOrder: int): (r: map<int, Image>)
    requires id in images
    ensures r.Keys == images.Keys && r[id] == images[id].(order := newOrder)
    ensures var p := PartnerInAd(images, images[id].advertisement, newOrder);
      p.Some? && p.value != id ==> r[p.value] == images[p.value].(order := images[id].order)
    ensures var p := PartnerInAd(images, images[id].advertisement, newOrder);
      forall k :: k in images && k != id && Some(k) != p ==> r[k] == images[k]
    ensures forall k :: k in images && images[k].advertisement != images[id].advertisement ==> r[k] == images[k]
  {
    Reorder(images, id, newOrder, PartnerInAd(images, images[id].advertisement, newOrder))
  }

  /** A swap changes positions only: same rows, every other field kept, the
      moved picture at `newOrder`, and positions drawn from the old ones. */
  lemma ReorderChangesOnlyPositions(images: map<int, Image>, id: int, newOrder: int, partner: Option<int>)
    requires id in images && (partner.Some? ==> partner.value in images && partner.value != id)
    ensures var r := Reorder(images, id, newOrder, partner);
      && r.Keys == images.Keys
      && r[id].order == newOrder
      && (forall k :: k in r ==> r[k] == images[k].(order := r[k].order))
      && (partner.Some? ==> r[partner.value].order == images[id].order)
      && (forall k :: k in r && k != id && (partner.None? || k != partner.value) ==> r[k] == images[k])
  {
  }

  /** A swap into a position within range keeps every position within range. */
  lemma ReorderKeepsRange(images: map<int, Image>, id: int, newOrder: int, partner: Option<int>)
    requires id in images && (partner.Some? ==> partner.value in images && partner.value != id)
    requires OrdersInRange(images) && 1 <= newOrder <= MaxImages
    ensures OrdersInRange(Reorder(images, id, newOrder, partner))
  {
    ReorderChangesOnlyPositions(images, id, newOrder, partner);
  }

  /** The corrected swap keeps the positions of an advertisement distinct. */
  lemma SwapWithinAdKeepsDistinct(images: map<int, Image>, id: int, newOrder: int)
    requires id in images && DistinctOrders(images)
    requires images[id].order != newOrder
    ensures DistinctOrders(SwapWithinAd(images, id, newOrder))
  {
    var ad := images[id].advertisement;
    var p := PartnerInAd(images, ad, newOrder);
    var r := SwapWithinAd(images, id, newOrder);
    ReorderChangesOnlyPositions(images, id, newOrder, p);
    forall a, b | a in r && b in r && a != b && r[a].advertisement == r[b].advertisement
      ensures r[a].order != r[b].order
    {
      if r[a].advertisement == ad {
        assert images[a].advertisement == ad && images[b].advertisement == ad;
      }
    }
  }

  /** Both swaps, given a picture of another advertisement at the first
      position and a picture at the second, before any change. */
  lemma {:induction false} SwapAsWrittenTouchesAnotherAd()
    ensures var before := map[
              1 := Image(1, "a.png", "a_1.png", "uploaded_images/a_1.png", None, 1),
              2 := Image(2, "b.png", "b_2.png", "uploaded_images/b_2.png", None, 1),
              3 := Image(1, "c.png", "c_3.png", "uploaded_images/c_3.png", None, 2),
              4 := Image(2, "d.png", "d_4.png", "uploaded_images/d_4.png", None, 2)];
      && DistinctOrders(before)
      && SwapAsWritten(before, 4, 1)[1] != before[1]
      && !DistinctOrders(SwapAsWritten(before, 4, 1))
      && SwapWithinAd(before, 4, 1)[1] == before[1]
      && DistinctOrders(SwapWithinAd(before, 4, 1))
  {
    var before := map[
      1 := Image(1, "a.png", "a_1.png", "uploaded_images/a_1.png", None, 1),
      2 := Image(2, "b.png", "b_2.png", "uploaded_images/b_2.png", None, 1),
      3 := Image(1, "c.png", "c_3.png", "uploaded_images/c_3.png", None, 2),
      4 := Image(2, "d.png", "d_4.png", "uploaded_images/d_4.png", None, 2)];
    assert (set k | k in before && before[k].order == 1) == {1, 3};
    assert PartnerAnyAd(before, 1) == Some(1);
    var w := SwapAsWritten(before, 4, 1);
    assert w[1].order == 2 && w[2].order == 2 && w[1].advertisement == w[2].advertisement;
    assert (set k | k in before && before[k].advertisement == 2 && before[k].order == 1) == {3};
    assert PartnerInAd(before, 2, 1) == Some(3);
    SwapWithinAdKeepsDistinct(before, 4, 1);
  }

  // ---- how many pictures an advertisement can hold ----

  /** The ids of advertisement `ad`'s pictures. */
  function ImageIdsOf(images: map<int, Image>, ad: int): (ids: set<int>)
    ensures forall k :: k in ids <==> k in images && images[k].advertisement == ad
  {
    set k | k in images && images[k].advertisement == ad
  }

  lemma {:induction false} SubsetCard(a: set<int>, b: set<int>)
    requires a <= b
    ensures |a| <= |b|
    decreases b
  {
    if a != {} {
      if forall x :: x !in a { assert false; }
      var x :| x in a;
      SubsetCard(a - {x}, b - {x});
    }
  }

  lemma {:induction false} DistinctOrdersCard(images: map<int, Image>, ids: set<int>)
    requires forall k :: k in ids ==> k in images
    requires forall a, b :: a in ids && b in ids && a != b ==> images[a].order != images[b].order
    ensures |ids| == |set k | k in ids :: images[k].order|
    decreases ids
  {
    if ids != {} {
      if forall x :: x !in ids { assert false; }
      var x :| x in ids;
      var rest := ids - {x};
      DistinctOrdersCard(images, rest);
      var os := set k | k in ids :: images[k].order;
      var ors := set k | k in rest :: images[k].order;
      assert images[x].order !in ors;
      assert os == ors + {images[x].order};
    }
  }

  /** A stored picture of advertisement `ad` at position `order`. */
  function Pic(ad: int, order: int): Image {
    Image(order, "p.png", "p.png", "uploaded_images/p.png", None, ad)
  }

  /** Advertisement 1 with a full gallery, and advertisement 2 with
      pictures at positions 1 and 5 (the others deleted). */
  const FullGallery: map<int, Image> :=
    map[1 := Pic(1, 1), 2 := Pic(1, 2), 3 := Pic(1, 3), 4 := Pic(1, 4), 5 := Pic(1, 5),
        6 := Pic(2, 1), 7 := Pic(2, 5)]

  /** The starting gallery keeps positions in range and distinct. */
  lemma FullGalleryIsWellFormed()
    ensures OrdersInRange(FullGallery) && DistinctOrders(FullGallery)
    ensures FullGallery.Keys == {1, 2, 3, 4, 5, 6, 7}
  {
  }

  /** A picture whose position bounds every other picture of its
      advertisement sets that advertisement's highest position. */
  lemma BaseOrderIs(images: map<int, Image>, ad: int, k: int)
    requires k in images && images[k].advertisement == ad
    requires forall j :: j in images && images[j].advertisement == ad ==> images[j].order <= images[k].order
    ensures BaseOrder(images, ad) == images[k].order
  {
    var m := MaxOrder(images, ad);
    var j :| j in images && images[j].advertisement == ad && images[j].order == m.value;
  }

  /** Advertisement 1 has five pictures and both advertisements reach the
      last position, so an upload to advertisement 1 is refused. */
  lemma FullGalleryIsFull()
    ensures |ImageIdsOf(FullGallery, 1)| == MaxImages
    ensures BaseOrder(FullGallery, 1) == MaxImages && BaseOrder(FullGallery, 2) == MaxImages
  {
    FullGalleryIsWellFormed();
    FullGalleryIds();
    assert FullGallery[5].order == MaxImages && FullGallery[7].order == MaxImages;
    BaseOrderIs(FullGallery, 1, 5);
    BaseOrderIs(FullGallery, 2, 7);
  }

  lemma FullGalleryIds()
    ensures ImageIdsOf(FullGallery, 1) == {1, 2, 3, 4, 5}
    ensures |ImageIdsOf(FullGallery, 1)| == 5
  {
    FullGalleryIsWellFormed();
    var ids := ImageIdsOf(FullGallery, 1);
    assert ids == {1, 2, 3, 4, 5};
    assert |{1, 2, 3, 4, 5}| == 5;
  }

  /** Moving picture 6 to the last position takes picture 5 as partner. */
  lemma FullGallerySwap()
    ensures var after := SwapAsWritten(FullGallery, 6, MaxImages);
      forall k :: k in after && after[k].advertisement == 1 ==> after[k].order <= MaxImages - 1
  {
    assert (set k | k in FullGallery && FullGallery[k].order == MaxImages) == {5, 7};
    assert PartnerAnyAd(FullGallery, MaxImages) == Some(5);
    var after := SwapAsWritten(FullGallery, 6, MaxImages);
    assert after[5].order == 1;
  }

  /** An advertisement whose pictures all sit below the cap passes the cap
      check. */
  lemma BelowCap(images: map<int, Image>, ad: int)
    requires forall k :: k in images && images[k].advertisement == ad ==> images[k].order <= MaxImages - 1
    ensures BaseOrder(images, ad) < MaxImages
  {
    var m := MaxOrder(images, ad);
    if m.Some? {
      var k :| k in images && images[k].advertisement == ad && images[k].order == m.value;
    }
  }

  /** On a full gallery, after the swap as written advertisement 1 still has
      five pictures but passes the cap check, so an upload (which adds one
      picture, `UploadAddsPicture`) leaves it with six. */
  lemma SwapAsWrittenAllowsSixthPicture()
    ensures var after := SwapAsWritten(FullGallery, 6, MaxImages);
      BaseOrder(after, 1) < MaxImages && |ImageIdsOf(after, 1)| == MaxImages
  {
    FullGalleryIsFull();
    FullGallerySwap();
    var after := SwapAsWritten(FullGallery, 6, MaxImages);
    BelowCap(after, 1);
    ReorderKeepsPictures(FullGallery, 6, MaxImages, PartnerAnyAd(FullGallery, MaxImages), 1);
  }

  /** A swap keeps the set of pictures of every advertisement. */
  lemma ReorderKeepsPictures(images: map<int, Image>, id: int, newOrder: int, partner: Option<int>, ad: int)
    requires id in images && (partner.Some? ==> partner.value in images && partner.value != id)
    ensures ImageIdsOf(Reorder(images, id, newOrder, partner), ad) == ImageIdsOf(images, ad)
  {
    ReorderChangesOnlyPositions(images, id, newOrder, partner);
  }

  /** Storing a new picture adds exactly that picture to its advertisement. */
  lemma UploadAddsPicture(images: map<int, Image>, id: int, image: Image)
    requires id !in images
    ensures ImageIdsOf(images[id := image], image.advertisement) == ImageIdsOf(images, image.advertisement) + {id}
    ensures |ImageIdsOf(images[id := image], image.advertisement)| == |ImageIdsOf(images, image.advertisement)| + 1
  {
    assert ImageIdsOf(images[id := image], image.advertisement) == ImageIdsOf(images, image.advertisement) + {id};
  }

  /** With distinct positions in 1..MaxImages an advertisement has at most
      MaxImages pictures. */
  lemma AtMostMaxImages(images: map<int, Image>, ad: int)
    requires OrdersInRange(images) && DistinctOrders(images)
    ensures |ImageIdsOf(images, ad)| <= MaxImages
  {
    var ids := ImageIdsOf(images, ad);
    DistinctOrdersCard(images, ids);
    var os := set k | k in ids :: images[k].order;
    assert os <= {1, 2, 3, 4, 5};
    SubsetCard(os, {1, 2, 3, 4, 5});
  }

  // ---- the gallery ----

  /** One picture as the gallery lists it. */
  datatype ImageRow = ImageRow(id: int, image: Image)

  /** `ORDER BY order_id ASC`. */
  predicate OrderFirst(x: ImageRow, y: ImageRow) {
    x.image.order <= y.image.order
  }

  lemma OrderFirstIsTotalPreorder()
    ensures TotalPreorder(OrderFirst)
  {
  }

  function RowsOf(ids: seq<int>, images: map<int, Image>, ad: int): seq<ImageRow>
    requires forall i :: 0 <= i < |ids| ==> ids[i] in images
  {
    if ids == [] then []
    else
      (if images[ids[0]].advertisement == ad then [ImageRow(ids[0], images[ids[0]])] else [])
      + RowsOf(ids[1..], images, ad)
  }

  /** A row of advertisement `ad`'s gallery as stored. */
  predicate IsGalleryRow(row: ImageRow, images: map<int, Image>, ad: int) {
    row.id in images && row.image == images[row.id] && row.image.advertisement == ad
  }

  lemma {:induction false} RowsOfMembers(ids: seq<int>, images: map<int, Image>, ad: int, row: ImageRow)
    requires forall i :: 0 <= i < |ids| ==> ids[i] in images
    ensures row in RowsOf(ids, images, ad) <==> row.id in ids && IsGalleryRow(row, images, ad)
  {
    if ids != [] {
      RowsOfMembers(ids[1..], images, ad, row);
      assert row.id in ids <==> row.id == ids[0] || row.id in ids[1..];
    }
  }

  /** Rows taken from ids in ascending order keep that order. */
  lemma {:induction false} RowsOfAscending(ids: seq<int>, images: map<int, Image>, ad: int)
    requires forall i :: 0 <= i < |ids| ==> ids[i] in images
    requires forall i, j :: 0 <= i < j < |ids| ==> ids[i] < ids[j]
    ensures var rows := RowsOf(ids, images, ad);
      forall i, j :: 0 <= i < j < |rows| ==> rows[i].id < rows[j].id
    ensures NoDuplicates(RowsOf(ids, images, ad))
  {
    if ids != [] {
      var rest := RowsOf(ids[1..], images, ad);
      RowsOfAscending(ids[1..], images, ad);
      forall j | 0 <= j < |rest| ensures ids[0] < rest[j].id {
        RowsOfMembers(ids[1..], images, ad, rest[j]);
        var k :| 0 <= k < |ids[1..]| && ids[1..][k] == rest[j].id;
        assert ids[k + 1] == rest[j].id;
      }
    }
  }

  /** The advertisement's pictures, each once, lowest position first. */
  function Gallery(images: map<int, Image>, ad: int): (r: seq<ImageRow>)
    ensures SortedBy(r, OrderFirst)
    ensures forall row :: row in r <==> IsGalleryRow(row, images, ad)
    ensures forall i, j :: 0 <= i < j < |r| ==> r[i].id != r[j].id
  {
    OrderFirstIsTotalPreorder();
    var ids := KeysAscending(images.Keys);
    var rows := RowsOf(ids, images, ad);
    var r := SortBy(rows, OrderFirst);
    forall row ensures row in r <==> IsGalleryRow(row, images, ad) {
      SortByMembers(rows, OrderFirst, row);
      RowsOfMembers(ids, images, ad, row);
    }
    RowsOfAscending(ids, images, ad);
    SortByNoDuplicates(rows, OrderFirst);
    GalleryRowsOnce(r, images, ad);
    r
  }

  /** Stored rows that are all different have different ids. */
  lemma GalleryRowsOnce(r: seq<ImageRow>, images: map<int, Image>, ad: int)
    requires NoDuplicates(r)
    requires forall row :: row in r ==> IsGalleryRow(row, images, ad)
    ensures forall i, j :: 0 <= i < j < |r| ==> r[i].id != r[j].id
  {
    forall i, j | 0 <= i < j < |r| ensures r[i].id != r[j].id {
      assert IsGalleryRow(r[i], images, ad) && IsGalleryRow(r[j], images, ad);
    }
  }

  /** The gallery is empty exactly when the advertisement has no pictures. */
  lemma GalleryEmpty(images: map<int, Image>, ad: int)
    ensures Gallery(images, ad) == [] <==> forall k :: k in images ==> images[k].advertisement != ad
  {
    var g := Gallery(images, ad);
    if g == [] {
      forall k | k in images ensures images[k].advertisement != ad {
        assert ImageRow(k, images[k]) !in g;
      }
    } else {
      assert g[0] in g;
    }
  }

  /** A new picture at the next position, within range, keeps positions in
      range and distinct. */
  lemma AddKeepsPositions(images: map<int, Image>, id: int, image: Image)
    requires OrdersInRange(images) && DistinctOrders(images)
    requires id !in images
    requires image.order == NextOrder(images, image.advertisement) && 1 <= image.order <= MaxImages
    ensures OrdersInRange(images[id := image]) && DistinctOrders(images[id := image])
  {
    var r := images[id := image];
    forall a, b | a in r && b in r && a != b && r[a].advertisement == r[b].advertisement
      ensures r[a].order != r[b].order
    {
      if a == id {
        assert images[b].order < image.order;
      } else if b == id {
        assert images[a].order < image.order;
      }
    }
  }

  /** The corrected swap into a position within range keeps positions in
      range and distinct. */
  lemma SwapKeepsPositions(images: map<int, Image>, id: int, newOrder: int)
    requires OrdersInRange(images) && DistinctOrders(images)
    requires id in images && images[id].order != newOrder && 1 <= newOrder <= MaxImages
    ensures OrdersInRange(SwapWithinAd(images, id, newOrder)) && DistinctOrders(SwapWithinAd(images, id, newOrder))
  {
    var p := PartnerInAd(images, images[id].advertisement, newOrder);
    ReorderKeepsRange(images, id, newOrder, p);
    SwapWithinAdKeepsDistinct(images, id, newOrder);
  }

  /** A gallery row with its public address instead of its stored path. */
  function Published(row: ImageRow): ImageRow {
    ImageRow(row.id, row.image.(imagePath := ImageUrl(row.image.imageName)))
  }

  /** A published gallery is still ordered by position. */
  lemma PublishedOrdered(rows: seq<ImageRow>, out: seq<ImageRow>, images: map<int, Image>, ad: int)
    requires rows == Gallery(images, ad)
    requires |out| == |rows| && forall i :: 0 <= i < |rows| ==> out[i] == Published(rows[i])
    ensures forall i, j :: 0 <= i < j < |out| ==> out[i].image.order <= out[j].image.order
  {
    forall i, j | 0 <= i < j < |out| ensures out[i].image.order <= out[j].image.order {
      assert OrderFirst(rows[i], rows[j]);
    }
  }

  /** Every row of a published gallery is a picture of the advertisement,
      with its public address. */
  lemma PublishedRows(rows: seq<ImageRow>, out: seq<ImageRow>, images: map<int, Image>, ad: int)
    requires rows == Gallery(images, ad)
    requires |out| == |rows| && forall i :: 0 <= i < |rows| ==> out[i] == Published(rows[i])
    ensures forall row :: row in out ==>
      row.id in images && row.image == images[row.id].(imagePath := ImageUrl(images[row.id].imageName))
      && row.image.advertisement == ad
  {
    forall row | row in out
      ensures row.id in images && row.image == images[row.id].(imagePath := ImageUrl(images[row.id].imageName))
      && row.image.advertisement == ad
    {
      var i :| 0 <= i < |out| && out[i] == row;
      assert rows[i] in rows;
    }
  }

  /** Every picture of the advertisement appears in its published gallery. */
  lemma PublishedComplete(rows: seq<ImageRow>, out: seq<ImageRow>, images: map<int, Image>, ad: int)
    requires rows == Gallery(images, ad)
    requires |out| == |rows| && forall i :: 0 <= i < |rows| ==> out[i].id == rows[i].id
    ensures forall k :: k in images && images[k].advertisement == ad ==>
      exists i :: 0 <= i < |out| && out[i].id == k
  {
    forall k | k in images && images[k].advertisement == ad
      ensures exists i :: 0 <= i < |out| && out[i].id == k
    {
      var row := ImageRow(k, images[k]);
      assert IsGalleryRow(row, images, ad);
      assert row in rows;
      var i :| 0 <= i < |rows| && rows[i] == row;
      assert out[i].id == k;
    }
  }

  /** Each row with its public address, in the same order. */
  function PublishRows(rows: seq<ImageRow>): (r: seq<ImageRow>)
    ensures |r| == |rows|
    ensures forall i :: 0 <= i < |r| ==> r[i] == Published(rows[i])
  {
    if rows == [] then [] else [Published(rows[0])] + PublishRows(rows[1..])
  }

  /** What `get_all_images` and `change_image_order` answer: the gallery with
      public addresses. */
  function PublishedGallery(images: map<int, Image>, ad: int): seq<ImageRow>
  {
    PublishRows(Gallery(images, ad))
  }

  /** The published gallery lists the advertisement's pictures lowest position
      first, every one of them once, each with its public address, and is
      empty exactly when the advertisement has no picture. */
  lemma PublishedGalleryListsPictures(images: map<int, Image>, ad: int)
    ensures var r := PublishedGallery(images, ad);
      && (forall i, j :: 0 <= i < j < |r| ==> r[i].image.order <= r[j].image.order)
      && (forall row :: row in r ==>
            row.id in images && row.image == images[row.id].(imagePath := ImageUrl(images[row.id].imageName))
            && row.image.advertisement == ad)
      && (forall k :: k in images && images[k].advertisement == ad ==> exists i :: 0 <= i < |r| && r[i].id == k)
      && (forall i, j :: 0 <= i < j < |r| ==> r[i].id != r[j].id)
      && (r == [] <==> forall k :: k in images ==> images[k].advertisement != ad)
  {
    var rows := Gallery(images, ad);
    var out := PublishedGallery(images, ad);
    PublishedOrdered(rows, out, images, ad);
    PublishedRows(rows, out, images, ad);
    PublishedComplete(rows, out, images, ad);
    GalleryEmpty(images, ad);
  }

  /** Rows rewritten one by one to their public address are the published
      gallery. */
  lemma PublishedIsGallery(out: seq<ImageRow>, images: map<int, Image>, ad: int)
    requires |out| == |Gallery(images, ad)|
    requires forall i :: 0 <= i < |out| ==> out[i] == Published(Gallery(images, ad)[i])
    ensures out == PublishedGallery(images, ad)
  {
  }
}
