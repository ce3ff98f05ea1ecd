/** The listing rules of the advertisement store: the seller average, the
    search and browse query, and what an edit request does to a row. */
module Listings {
  import opened Wrappers
  import opened Tables
  import opened Sorting
  import opened Text
  import opened Entities

  // ---- the seller average ----

  /** A rating counts towards `seller`'s average when it rates the seller side
      of a transaction on one of `seller`'s advertisements. */
  predicate CountsForSeller(r: Rating, txs: map<int, Transaction>, ads: map<int, Advertisement>, seller: int) {
    && r.transaction in txs
    && txs[r.transaction].advertisement in ads
    && ads[txs[r.transaction].advertisement].owner == seller
    && r.ratee == txs[r.transaction].seller
  }

  function ScoresFrom(ids: seq<int>, ratings: map<int, Rating>, txs: map<int, Transaction>,
                      ads: map<int, Advertisement>, seller: int): seq<int>
    requires forall i :: 0 <= i < |ids| ==> ids[i] in ratings
  {
    if ids == [] then []
    else
      var r := ratings[ids[0]];
      (if CountsForSeller(r, txs, ads, seller) then [r.score] else [])
        + ScoresFrom(ids[1..], ratings, txs, ads, seller)
  }

  lemma {:induction false} ScoresFromEmpty(ids: seq<int>, ratings: map<int, Rating>, txs: map<int, Transaction>,
                                           ads: map<int, Advertisement>, seller: int)
    requires forall i :: 0 <= i < |ids| ==> ids[i] in ratings
    ensures ScoresFrom(ids, ratings, txs, ads, seller) == [] <==>
      forall i :: 0 <= i < |ids| ==> !CountsForSeller(ratings[ids[i]], txs, ads, seller)
  {
    if ids != [] {
      ScoresFromEmpty(ids[1..], ratings, txs, ads, seller);
      assert forall i :: 1 <= i < |ids| ==> ids[i] == ids[1..][i - 1];
    }
  }

  lemma {:induction false} ScoresFromBounds(ids: seq<int>, ratings: map<int, Rating>, txs: map<int, Transaction>,
                                            ads: map<int, Advertisement>, seller: int, lo: int, hi: int)
    requires forall i :: 0 <= i < |ids| ==> ids[i] in ratings
    requires forall k :: k in ratings && CountsForSeller(ratings[k], txs, ads, seller) ==> lo <= ratings[k].score <= hi
    ensures forall x :: x in ScoresFrom(ids, ratings, txs, ads, seller) ==> lo <= x <= hi
  {
    if ids != [] {
      ScoresFromBounds(ids[1..], ratings, txs, ads, seller, lo, hi);
      assert ids[0] in ratings;
    }
  }

  /** The scores of the ratings that count for `seller`, in table order. */
  function SellerScores(ratings: map<int, Rating>, txs: map<int, Transaction>,
                        ads: map<int, Advertisement>, seller: int): seq<int>
  {
    ScoresFrom(KeysAscending(ratings.Keys), ratings, txs, ads, seller)
  }

  function Sum(s: seq<int>): int {
    if s == [] then 0 else s[0] + Sum(s[1..])
  }

  /** A seller has counting scores exactly when some rating counts for them. */
  lemma SellerScoresEmpty(ratings: map<int, Rating>, txs: map<int, Transaction>,
                          ads: map<int, Advertisement>, seller: int)
    ensures SellerScores(ratings, txs, ads, seller) != [] <==>
      exists k :: k in ratings && CountsForSeller(ratings[k], txs, ads, seller)
  {
    var ids := KeysAscending(ratings.Keys);
    ScoresFromEmpty(ids, ratings, txs, ads, seller);
    if exists k :: k in ratings && CountsForSeller(ratings[k], txs, ads, seller) {
      var k :| k in ratings && CountsForSeller(ratings[k], txs, ads, seller);
      var i :| 0 <= i < |ids| && ids[i] == k;
    }
  }

  /** The ids of the ratings that count for `seller`. */
  function CountingIds(ratings: map<int, Rating>, txs: map<int, Transaction>,
                       ads: map<int, Advertisement>, seller: int): set<int>
  {
    set k | k in ratings && CountsForSeller(ratings[k], txs, ads, seller)
  }

  /** The total score of the ratings with ids `ks`, added up from the lowest id. */
  function ScoreTotal(ks: set<int>, ratings: map<int, Rating>): int
    requires ks <= ratings.Keys
    decreases |ks|
  {
    if ks == {} then 0
    else
      var m := MinKey(ks);
      ratings[m].score + ScoreTotal(ks - {m}, ratings)
  }

  /** The counting ratings among the ids `ids`. */
  function CountingAmong(ids: seq<int>, ratings: map<int, Rating>, txs: map<int, Transaction>,
                         ads: map<int, Advertisement>, seller: int): set<int>
  {
    set k | k in ids && k in ratings && CountsForSeller(ratings[k], txs, ads, seller)
  }

  lemma CountingAmongCons(ids: seq<int>, ratings: map<int, Rating>, txs: map<int, Transaction>,
                          ads: map<int, Advertisement>, seller: int)
    requires ids != []
    requires forall i, j :: 0 <= i < j < |ids| ==> ids[i] < ids[j]
    ensures forall k :: k in CountingAmong(ids[1..], ratings, txs, ads, seller) ==> ids[0] < k
    ensures CountingAmong(ids, ratings, txs, ads, seller)
         == (if ids[0] in ratings && CountsForSeller(ratings[ids[0]], txs, ads, seller) then {ids[0]} else {})
            + CountingAmong(ids[1..], ratings, txs, ads, seller)
  {
    var t := ids[1..];
    forall k | k in t ensures ids[0] < k {
      var i :| 0 <= i < |t| && t[i] == k;
      assert ids[i + 1] == k;
    }
    assert ids == [ids[0]] + t;
  }

  /** Taking the lowest id first is how ScoreTotal adds up. */
  lemma ScoreTotalLeast(ks: set<int>, ratings: map<int, Rating>, m: int)
    requires ks <= ratings.Keys
    requires m in ks && forall k :: k in ks ==> m <= k
    ensures ScoreTotal(ks, ratings) == ratings[m].score + ScoreTotal(ks - {m}, ratings)
  {
    assert MinKey(ks) == m;
  }

  /** The first of ascending ids either is the lowest counting rating, and the
      rest are the others, or does not count and the rest are all of them. */
  lemma CountingStep(ids: seq<int>, ratings: map<int, Rating>, txs: map<int, Transaction>,
                     ads: map<int, Advertisement>, seller: int)
    requires ids != [] && ids[0] in ratings
    requires forall i, j :: 0 <= i < j < |ids| ==> ids[i] < ids[j]
    ensures CountsForSeller(ratings[ids[0]], txs, ads, seller) ==>
      && ids[0] in CountingAmong(ids, ratings, txs, ads, seller)
      && (forall k :: k in CountingAmong(ids, ratings, txs, ads, seller) ==> ids[0] <= k)
      && CountingAmong(ids, ratings, txs, ads, seller) - {ids[0]} == CountingAmong(ids[1..], ratings, txs, ads, seller)
      && |CountingAmong(ids, ratings, txs, ads, seller)| == 1 + |CountingAmong(ids[1..], ratings, txs, ads, seller)|
    ensures !CountsForSeller(ratings[ids[0]], txs, ads, seller) ==>
      CountingAmong(ids, ratings, txs, ads, seller) == CountingAmong(ids[1..], ratings, txs, ads, seller)
  {
    CountingAmongCons(ids, ratings, txs, ads, seller);
    var rest := CountingAmong(ids[1..], ratings, txs, ads, seller);
    assert ids[0] !in rest;
  }

  /** Over ascending ids, the collected scores are one per counting rating
      and add up to their total score. */
  lemma {:induction false} ScoresFromCounting(ids: seq<int>, ratings: map<int, Rating>, txs: map<int, Transaction>,
                                              ads: map<int, Advertisement>, seller: int)
    requires forall i :: 0 <= i < |ids| ==> ids[i] in ratings
    requires forall i, j :: 0 <= i < j < |ids| ==> ids[i] < ids[j]
    ensures |ScoresFrom(ids, ratings, txs, ads, seller)| == |CountingAmong(ids, ratings, txs, ads, seller)|
    ensures Sum(ScoresFrom(ids, ratings, txs, ads, seller))
         == ScoreTotal(CountingAmong(ids, ratings, txs, ads, seller), ratings)
  {
    if ids == [] {
      assert CountingAmong(ids, ratings, txs, ads, seller) == {};
    } else {
      var h, t := ids[0], ids[1..];
      ScoresFromCounting(t, ratings, txs, ads, seller);
      CountingStep(ids, ratings, txs, ads, seller);
      var tail := ScoresFrom(t, ratings, txs, ads, seller);
      if CountsForSeller(ratings[h], txs, ads, seller) {
        ScoreTotalLeast(CountingAmong(ids, ratings, txs, ads, seller), ratings, h);
        var s := [ratings[h].score] + tail;
        assert ScoresFrom(ids, ratings, txs, ads, seller) == s;
        assert s[1..] == tail;
      } else {
        assert ScoresFrom(ids, ratings, txs, ads, seller) == tail;
      }
    }
  }

  /** The counting scores are one per counting rating, with their total. */
  lemma SellerScoresCounting(ratings: map<int, Rating>, txs: map<int, Transaction>,
                             ads: map<int, Advertisement>, seller: int)
    ensures |SellerScores(ratings, txs, ads, seller)| == |CountingIds(ratings, txs, ads, seller)|
    ensures Sum(SellerScores(ratings, txs, ads, seller))
         == ScoreTotal(CountingIds(ratings, txs, ads, seller), ratings)
  {
    var ids := KeysAscending(ratings.Keys);
    ScoresFromCounting(ids, ratings, txs, ads, seller);
    assert CountingAmong(ids, ratings, txs, ads, seller) == CountingIds(ratings, txs, ads, seller);
  }

  /** SQL avg() over the counting ratings: their total score divided by their
      number; None (SQL NULL) exactly when no rating counts for the seller. */
  function SellerAverage(ratings: map<int, Rating>, txs: map<int, Transaction>,
                         ads: map<int, Advertisement>, seller: int): (r: Option<real>)
    ensures r.Some? <==> exists k :: k in ratings && CountsForSeller(ratings[k], txs, ads, seller)
    ensures r.Some? ==> r.value == ScoreTotal(CountingIds(ratings, txs, ads, seller), ratings) as real
                                   / |CountingIds(ratings, txs, ads, seller)| as real
  {
    SellerScoresEmpty(ratings, txs, ads, seller);
    SellerScoresCounting(ratings, txs, ads, seller);
    var scores := SellerScores(ratings, txs, ads, seller);
    if |scores| == 0 then None else Some(Sum(scores) as real / |scores| as real)
  }

  lemma {:induction false} SumBounds(s: seq<int>, lo: int, hi: int)
    requires forall x :: x in s ==> lo <= x <= hi
    ensures |s| * lo <= Sum(s) <= |s| * hi
  {
    if s != [] {
      assert s[0] in s;
      assert forall x :: x in s[1..] ==> x in s;
      SumBounds(s[1..], lo, hi);
      MulSucc(|s| - 1, lo);
      MulSucc(|s| - 1, hi);
    }
  }

  lemma MulSucc(m: int, x: int)
    ensures (m + 1) * x == x + m * x
  {
  }

  lemma MeanBounds(sum: int, n: int, lo: int, hi: int)
    requires n > 0 && n * lo <= sum <= n * hi
    ensures lo as real <= sum as real / n as real <= hi as real
  {
    var avg := sum as real / n as real;
    assert avg * n as real == sum as real;
    assert (n * lo) as real == n as real * lo as real;
    assert (n * hi) as real == n as real * hi as real;
  }

  /** The average lies between the least and the greatest counting score. */
  lemma SellerAverageBounds(ratings: map<int, Rating>, txs: map<int, Transaction>,
                            ads: map<int, Advertisement>, seller: int, lo: int, hi: int)
    requires forall k :: k in ratings && CountsForSeller(ratings[k], txs, ads, seller) ==> lo <= ratings[k].score <= hi
    requires SellerAverage(ratings, txs, ads, seller).Some?
    ensures lo as real <= SellerAverage(ratings, txs, ads, seller).value <= hi as real
  {
    var scores := SellerScores(ratings, txs, ads, seller);
    ScoresFromBounds(KeysAscending(ratings.Keys), ratings, txs, ads, seller, lo, hi);
    SumBounds(scores, lo, hi);
    MeanBounds(Sum(scores), |scores|, lo, hi);
  }

  // ---- the search and browse query ----

  /** One search result: the advertisement and its seller's average. */
  datatype Listing = Listing(id: int, advertisement: Advertisement, sellerAverage: Option<real>)

  /** The `average_rating` a result reports: `avg_score or 0`. */
  function ReportedAverage(l: Listing): (a: real)
    ensures l.sellerAverage.None? ==> a == 0.0
    ensures l.sellerAverage.Some? ==> a == l.sellerAverage.value
  {
    l.sellerAverage.GetOr(0.0)
  }

  /** `avg DESC NULLS LAST`: higher averages first, sellers without one last. */
  predicate AverageFirst(a: Option<real>, b: Option<real>) {
    match a
    case None => b.None?
    case Some(x) => b.None? || b.value <= x
  }

  /** `ORDER BY created_at DESC, avg DESC NULLS LAST`: x may be listed before y. */
  predicate ListedBefore(x: Listing, y: Listing) {
    || x.advertisement.createdAt > y.advertisement.createdAt
    || (x.advertisement.createdAt == y.advertisement.createdAt && AverageFirst(x.sellerAverage, y.sellerAverage))
  }

  lemma ListedBeforeIsTotalPreorder()
    ensures TotalPreorder(ListedBefore)
  {
    forall a: Listing, b: Listing ensures ListedBefore(a, b) || ListedBefore(b, a) {
    }
    forall a: Listing, b: Listing, c: Listing | ListedBefore(a, b) && ListedBefore(b, c)
      ensures ListedBefore(a, c)
    {
    }
  }

  /** `title ILIKE '%kw%' OR content ILIKE '%kw%'`, applied only to a non-empty
      keyword. */
  predicate KeywordMatches(ad: Advertisement, keyword: Option<string>) {
    match keyword
    case None => true
    case Some(kw) => kw == "" || Like(ad.title, "%" + kw + "%") || Like(ad.content, "%" + kw + "%")
  }

  /** `category_id == c`, applied only when c is truthy (present and not 0). */
  predicate CategoryMatches(ad: Advertisement, category: Option<int>) {
    match category
    case None => true
    case Some(c) => c == 0 || ad.category == c
  }

  predicate Selected(ad: Advertisement, keyword: Option<string>, category: Option<int>) {
    KeywordMatches(ad, keyword) && CategoryMatches(ad, category)
  }

  /** The listing of row `id` if it passes the filters. */
  function Candidate(id: int, ads: map<int, Advertisement>, txs: map<int, Transaction>,
                     ratings: map<int, Rating>, keyword: Option<string>, category: Option<int>): (r: seq<Listing>)
    requires id in ads
    ensures |r| <= 1 && forall i :: 0 <= i < |r| ==> r[i].id == id
  {
    var ad := ads[id];
    if Selected(ad, keyword, category) then [Listing(id, ad, SellerAverage(ratings, txs, ads, ad.owner))] else []
  }

  lemma CandidateMembers(id: int, ads: map<int, Advertisement>, txs: map<int, Transaction>,
                         ratings: map<int, Rating>, keyword: Option<string>, category: Option<int>, l: Listing)
    requires id in ads
    ensures l in Candidate(id, ads, txs, ratings, keyword, category) <==>
      l.id == id && IsResultRow(l, ads, txs, ratings, keyword, category)
  {
    if l.id == id && IsResultRow(l, ads, txs, ratings, keyword, category) {
      assert l == Listing(id, ads[id], SellerAverage(ratings, txs, ads, ads[id].owner));
    }
  }

  function Candidates(ids: seq<int>, ads: map<int, Advertisement>, txs: map<int, Transaction>,
                      ratings: map<int, Rating>, keyword: Option<string>, category: Option<int>): seq<Listing>
    requires forall i :: 0 <= i < |ids| ==> ids[i] in ads
  {
    if ids == [] then []
    else Candidate(ids[0], ads, txs, ratings, keyword, category) + Candidates(ids[1..], ads, txs, ratings, keyword, category)
  }

  /** The listing of a row as the query produces it. */
  predicate IsResultRow(l: Listing, ads: map<int, Advertisement>, txs: map<int, Transaction>,
                        ratings: map<int, Rating>, keyword: Option<string>, category: Option<int>) {
    && l.id in ads && l.advertisement == ads[l.id] && Selected(l.advertisement, keyword, category)
    && l.sellerAverage == SellerAverage(ratings, txs, ads, l.advertisement.owner)
  }

  lemma {:induction false} CandidatesMembers(ids: seq<int>, ads: map<int, Advertisement>, txs: map<int, Transaction>,
                                             ratings: map<int, Rating>, keyword: Option<string>, category: Option<int>, l: Listing)
    requires forall i :: 0 <= i < |ids| ==> ids[i] in ads
    ensures l in Candidates(ids, ads, txs, ratings, keyword, category) <==>
      l.id in ids && IsResultRow(l, ads, txs, ratings, keyword, category)
  {
    if ids != [] {
      var head := Candidate(ids[0], ads, txs, ratings, keyword, category);
      var rest := Candidates(ids[1..], ads, txs, ratings, keyword, category);
      CandidatesMembers(ids[1..], ads, txs, ratings, keyword, category, l);
      CandidateMembers(ids[0], ads, txs, ratings, keyword, category, l);
      assert l in head + rest <==> l in head || l in rest;
      assert l.id in ids <==> l.id == ids[0] || l.id in ids[1..];
    }
  }

  /** Listings taken from ids in ascending order keep that order. */
  lemma {:induction false} CandidatesAscending(ids: seq<int>, ads: map<int, Advertisement>, txs: map<int, Transaction>,
                                               ratings: map<int, Rating>, keyword: Option<string>, category: Option<int>)
    requires forall i :: 0 <= i < |ids| ==> ids[i] in ads
    requires forall i, j :: 0 <= i < j < |ids| ==> ids[i] < ids[j]
    ensures forall j :: 0 <= j < |Candidates(ids, ads, txs, ratings, keyword, category)| ==>
      Candidates(ids, ads, txs, ratings, keyword, category)[j].id in ids
    ensures forall i, j :: 0 <= i < j < |Candidates(ids, ads, txs, ratings, keyword, category)| ==>
      Candidates(ids, ads, txs, ratings, keyword, category)[i].id < Candidates(ids, ads, txs, ratings, keyword, category)[j].id
  {
    if ids != [] {
      var head := Candidate(ids[0], ads, txs, ratings, keyword, category);
      var rest := Candidates(ids[1..], ads, txs, ratings, keyword, category);
      CandidatesAscending(ids[1..], ads, txs, ratings, keyword, category);
      assert forall x :: x in ids[1..] ==> ids[0] < x;
      PrependAscending(head, rest, ids[0], ids);
    }
  }

  /** At most one listing with a smaller id in front of ascending listings
      keeps them ascending. */
  lemma PrependAscending(head: seq<Listing>, rest: seq<Listing>, first: int, ids: seq<int>)
    requires |ids| > 0 && first == ids[0]
    requires |head| <= 1 && forall i :: 0 <= i < |head| ==> head[i].id == first
    requires forall j :: 0 <= j < |rest| ==> rest[j].id in ids[1..]
    requires forall x :: x in ids[1..] ==> first < x
    requires forall i, j :: 0 <= i < j < |rest| ==> rest[i].id < rest[j].id
    ensures forall i, j :: 0 <= i < j < |head + rest| ==> (head + rest)[i].id < (head + rest)[j].id
    ensures forall j :: 0 <= j < |head + rest| ==> (head + rest)[j].id in ids
  {
    var c := head + rest;
    forall i, j | 0 <= i < j < |c| ensures c[i].id < c[j].id {
      if i < |head| {
        assert c[i].id == first && c[j] == rest[j - |head|];
      } else {
        assert c[i] == rest[i - |head|] && c[j] == rest[j - |head|];
      }
    }
  }

  /** Listings with ascending ids are all different. */
  lemma AscendingNoDuplicates(rows: seq<Listing>)
    requires forall i, j :: 0 <= i < j < |rows| ==> rows[i].id < rows[j].id
    ensures NoDuplicates(rows)
  {
  }

  /** Result rows that are all different have different ids. */
  lemma ResultRowsOnce(r: seq<Listing>, ads: map<int, Advertisement>, txs: map<int, Transaction>,
                       ratings: map<int, Rating>, keyword: Option<string>, category: Option<int>)
    requires NoDuplicates(r)
    requires forall l :: l in r ==> IsResultRow(l, ads, txs, ratings, keyword, category)
    ensures forall i, j :: 0 <= i < j < |r| ==> r[i].id != r[j].id
  {
    forall i, j | 0 <= i < j < |r| ensures r[i].id != r[j].id {
      assert IsResultRow(r[i], ads, txs, ratings, keyword, category);
      assert IsResultRow(r[j], ads, txs, ratings, keyword, category);
    }
  }

  /** The selected rows in table order, before sorting. */
  function SelectedRows(ads: map<int, Advertisement>, txs: map<int, Transaction>, ratings: map<int, Rating>,
                       keyword: Option<string>, category: Option<int>): seq<Listing>
  {
    Candidates(KeysAscending(ads.Keys), ads, txs, ratings, keyword, category)
  }

  /** The selected rows come in ascending id order, so none repeats. */
  lemma SelectedRowsOnce(ads: map<int, Advertisement>, txs: map<int, Transaction>, ratings: map<int, Rating>,
                         keyword: Option<string>, category: Option<int>)
    ensures NoDuplicates(SelectedRows(ads, txs, ratings, keyword, category))
  {
    var rows := Candidates(KeysAscending(ads.Keys), ads, txs, ratings, keyword, category);
    CandidatesAscending(KeysAscending(ads.Keys), ads, txs, ratings, keyword, category);
    AscendingNoDuplicates(rows);
  }

  lemma SelectedRowsMembers(ads: map<int, Advertisement>, txs: map<int, Transaction>, ratings: map<int, Rating>,
                            keyword: Option<string>, category: Option<int>, l: Listing)
    ensures l in SelectedRows(ads, txs, ratings, keyword, category) <==> IsResultRow(l, ads, txs, ratings, keyword, category)
  {
    CandidatesMembers(KeysAscending(ads.Keys), ads, txs, ratings, keyword, category, l);
  }

  /** The search query: the advertisements passing both filters, each with its
      seller's average, ordered newest first and then by average. */
  function Search(ads: map<int, Advertisement>, txs: map<int, Transaction>, ratings: map<int, Rating>,
                  keyword: Option<string>, category: Option<int>): (r: seq<Listing>)
    ensures SortedBy(r, ListedBefore)
    ensures forall l :: l in r <==> IsResultRow(l, ads, txs, ratings, keyword, category)
    ensures forall i, j :: 0 <= i < j < |r| ==> r[i].id != r[j].id
  {
    ListedBeforeIsTotalPreorder();
    var rows := SelectedRows(ads, txs, ratings, keyword, category);
    var r := SortBy(rows, ListedBefore);
    forall l ensures l in r <==> IsResultRow(l, ads, txs, ratings, keyword, category) {
      SortByMembers(rows, ListedBefore, l);
      SelectedRowsMembers(ads, txs, ratings, keyword, category, l);
    }
    SelectedRowsOnce(ads, txs, ratings, keyword, category);
    SortByNoDuplicates(rows, ListedBefore);
    ResultRowsOnce(r, ads, txs, ratings, keyword, category);
    r
  }

  /** Every advertisement passing the filters is among the results. */
  lemma SearchListsSelected(ads: map<int, Advertisement>, txs: map<int, Transaction>, ratings: map<int, Rating>,
                            keyword: Option<string>, category: Option<int>, k: int)
    requires k in ads && Selected(ads[k], keyword, category)
    ensures exists i :: (0 <= i < |Search(ads, txs, ratings, keyword, category)|
                         && Search(ads, txs, ratings, keyword, category)[i].id == k)
  {
    var r := Search(ads, txs, ratings, keyword, category);
    var l := Listing(k, ads[k], SellerAverage(ratings, txs, ads, ads[k].owner));
    assert IsResultRow(l, ads, txs, ratings, keyword, category);
    assert l in r;
    var i :| 0 <= i < |r| && r[i] == l;
    assert r[i].id == k;
  }

  /** Browsing is a search with neither filter: every advertisement is listed. */
  lemma BrowseListsEverything(ads: map<int, Advertisement>, txs: map<int, Transaction>, ratings: map<int, Rating>, k: int)
    requires k in ads
    ensures exists i :: 0 <= i < |Search(ads, txs, ratings, None, None)| && Search(ads, txs, ratings, None, None)[i].id == k
  {
    SearchListsSelected(ads, txs, ratings, None, None, k);
  }

  /** An empty keyword and category 0 filter nothing, like absent ones. */
  lemma FalsyFiltersSelectAll(ad: Advertisement)
    ensures Selected(ad, Some(""), Some(0)) == Selected(ad, None, None) == true
  {
  }

  // ---- editing ----

  function TitleUpdate(e: AdvertisementEdit): seq<FieldUpdate> {
    if e.title.Some? then [SetTitle(e.title.value)] else []
  }
  function ContentUpdate(e: AdvertisementEdit): seq<FieldUpdate> {
    if e.content.Some? then [SetContent(e.content.value)] else []
  }
  function PriceUpdate(e: AdvertisementEdit): seq<FieldUpdate> {
    if e.price.Some? then [SetPrice(e.price.value)] else []
  }
  function StatusUpdate(e: AdvertisementEdit): seq<FieldUpdate> {
    if e.status.Some? then [SetStatus(e.status.value)] else []
  }
  function CategoryUpdate(e: AdvertisementEdit): seq<FieldUpdate> {
    if e.category.Some? then [SetCategory(e.category.value)] else []
  }

  /** The supplied fields of an edit request, in the order the request model
      declares them. */
  function UpdateData(e: AdvertisementEdit): seq<FieldUpdate> {
    TitleUpdate(e) + (ContentUpdate(e) + (PriceUpdate(e) + (StatusUpdate(e) + CategoryUpdate(e))))
  }

  /** One step of the edit loop: a field equal to the stored one is skipped;
      a changed category must exist and a changed price must be positive. */
  function ApplyUpdate(ad: Advertisement, u: FieldUpdate, categories: set<int>): Result<Advertisement> {
    match u
    case SetTitle(t) => Ok(ad.(title := t))
    case SetContent(c) => Ok(ad.(content := c))
    case SetPrice(p) =>
      if ad.price != p && p <= 0.0 then Err(NotFound) else Ok(ad.(price := p))
    case SetStatus(s) => Ok(ad.(status := s))
    case SetCategory(c) =>
      if ad.category != c && c !in categories then Err(NotFound) else Ok(ad.(category := c))
  }

  /** The edit loop: the first failing step aborts the whole edit. */
  function ApplyEdits(ad: Advertisement, us: seq<FieldUpdate>, categories: set<int>): Result<Advertisement>
    decreases |us|
  {
    if us == [] then Ok(ad)
    else match ApplyUpdate(ad, us[0], categories)
      case Err(code) => Err(code)
      case Ok(next) => ApplyEdits(next, us[1..], categories)
  }

  /** The row with every supplied field replaced. */
  function Merged(ad: Advertisement, e: AdvertisementEdit): Advertisement {
    ad.(title := e.title.GetOr(ad.title),
        content := e.content.GetOr(ad.content),
        price := e.price.GetOr(ad.price),
        status := e.status.GetOr(ad.status),
        category := e.category.GetOr(ad.category))
  }

  /** An edit fails when it changes the price to a non-positive one or
      changes the category to an unknown one. */
  predicate EditRejected(ad: Advertisement, e: AdvertisementEdit, categories: set<int>) {
    || (e.price.Some? && e.price.value != ad.price && e.price.value <= 0.0)
    || (e.category.Some? && e.category.value != ad.category && e.category.value !in categories)
  }

  lemma ApplyEditsAppend(ad: Advertisement, u: FieldUpdate, us: seq<FieldUpdate>, categories: set<int>)
    ensures ApplyUpdate(ad, u, categories).Err? ==>
      ApplyEdits(ad, [u] + us, categories) == Err(ApplyUpdate(ad, u, categories).status)
    ensures ApplyUpdate(ad, u, categories).Ok? ==>
      ApplyEdits(ad, [u] + us, categories) == ApplyEdits(ApplyUpdate(ad, u, categories).value, us, categories)
  {
    assert ([u] + us)[1..] == us;
  }

  lemma ApplyEditsSkip(ad: Advertisement, us: seq<FieldUpdate>, categories: set<int>)
    ensures ApplyEdits(ad, [] + us, categories) == ApplyEdits(ad, us, categories)
  {
    assert [] + us == us;
  }

  lemma TitleStep(ad: Advertisement, e: AdvertisementEdit, rest: seq<FieldUpdate>, categories: set<int>)
    ensures ApplyEdits(ad, TitleUpdate(e) + rest, categories) ==
      ApplyEdits(ad.(title := e.title.GetOr(ad.title)), rest, categories)
  {
    if e.title.Some? { ApplyEditsAppend(ad, SetTitle(e.title.value), rest, categories); }
    else { ApplyEditsSkip(ad, rest, categories); }
  }

  lemma ContentStep(ad: Advertisement, e: AdvertisementEdit, rest: seq<FieldUpdate>, categories: set<int>)
    ensures ApplyEdits(ad, ContentUpdate(e) + rest, categories) ==
      ApplyEdits(ad.(content := e.content.GetOr(ad.content)), rest, categories)
  {
    if e.content.Some? { ApplyEditsAppend(ad, SetContent(e.content.value), rest, categories); }
    else { ApplyEditsSkip(ad, rest, categories); }
  }

  lemma PriceStep(ad: Advertisement, e: AdvertisementEdit, rest: seq<FieldUpdate>, categories: set<int>)
    ensures ApplyEdits(ad, PriceUpdate(e) + rest, categories) ==
      if e.price.Some? && e.price.value != ad.price && e.price.value <= 0.0 then Err(NotFound)
      else ApplyEdits(ad.(price := e.price.GetOr(ad.price)), rest, categories)
  {
    if e.price.Some? { ApplyEditsAppend(ad, SetPrice(e.price.value), rest, categories); }
    else { ApplyEditsSkip(ad, rest, categories); }
  }

  lemma StatusStep(ad: Advertisement, e: AdvertisementEdit, rest: seq<FieldUpdate>, categories: set<int>)
    ensures ApplyEdits(ad, StatusUpdate(e) + rest, categories) ==
      ApplyEdits(ad.(status := e.status.GetOr(ad.status)), rest, categories)
  {
    if e.status.Some? { ApplyEditsAppend(ad, SetStatus(e.status.value), rest, categories); }
    else { ApplyEditsSkip(ad, rest, categories); }
  }

  lemma CategoryStep(ad: Advertisement, e: AdvertisementEdit, categories: set<int>)
    ensures ApplyEdits(ad, CategoryUpdate(e), categories) ==
      if e.category.Some? && e.category.value != ad.category && e.category.value !in categories then Err(NotFound)
      else Ok(ad.(category := e.category.GetOr(ad.category)))
  {
    if e.category.Some? {
      ApplyEditsAppend(ad, SetCategory(e.category.value), [], categories);
      assert CategoryUpdate(e) == [SetCategory(e.category.value)] + [];
    }
  }

  /** What an edit does, field by field: either it fails with 404 and the row
      is kept, or every supplied field is stored and the rest, owner and
      creation time included, stay as they were. */
  lemma EditOutcome(ad: Advertisement, e: AdvertisementEdit, categories: set<int>)
    ensures ApplyEdits(ad, UpdateData(e), categories) ==
      if EditRejected(ad, e, categories) then Err(NotFound) else Ok(Merged(ad, e))
  {
    var r3 := StatusUpdate(e) + CategoryUpdate(e);
    var r2 := PriceUpdate(e) + r3;
    var r1 := ContentUpdate(e) + r2;
    var a1 := ad.(title := e.title.GetOr(ad.title));
    var a2 := a1.(content := e.content.GetOr(ad.content));
    var a3 := a2.(price := e.price.GetOr(ad.price));
    var a4 := a3.(status := e.status.GetOr(ad.status));
    TitleStep(ad, e, r1, categories);
    ContentStep(a1, e, r2, categories);
    PriceStep(a2, e, r3, categories);
    StatusStep(a3, e, CategoryUpdate(e), categories);
    CategoryStep(a4, e, categories);
    assert Merged(ad, e) == a4.(category := e.category.GetOr(ad.category));
  }

  /** The edit loop of `edit_advertisement`: the updates are applied one at a
      time to a working copy, and the first rejected one ends the edit. */
  method RunEdits(ad: Advertisement, updates: seq<FieldUpdate>, categories: set<int>) returns (r: Result<Advertisement>)
    ensures r == ApplyEdits(ad, updates, categories)
  {
    var cur := ad;
    var i := 0;
    while i < |updates|
      invariant 0 <= i <= |updates|
      invariant ApplyEdits(ad, updates, categories) == ApplyEdits(cur, updates[i..], categories)
    {
      var u := updates[i];
      assert updates[i..] == [u] + updates[i + 1..];
      ApplyEditsAppend(cur, u, updates[i + 1..], categories);
      match u {
        case SetTitle(t) =>
          cur := cur.(title := t);
        case SetContent(c) =>
          cur := cur.(content := c);
        case SetPrice(p) =>
          if cur.price != p && p <= 0.0 {
            return Err(NotFound);
          }
          cur := cur.(price := p);
        case SetStatus(s) =>
          cur := cur.(status := s);
        case SetCategory(c) =>
          if cur.category != c && c !in categories {
            return Err(NotFound);
          }
          cur := cur.(category := c);
      }
      i := i + 1;
    }
    assert updates[i..] == [];
    r := Ok(cur);
  }
}
