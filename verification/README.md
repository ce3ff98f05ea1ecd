# Marketplace backend, modelled in Dafny

A FastAPI marketplace keeps six SQLite tables: users, categories,
advertisements, their pictures, purchase transactions and the ratings
given on them. Every endpoint reads a request, checks it in a fixed order,
and either raises an HTTP error or commits a few rows.

This project models that logic in Dafny:

- `Marketplace.Store` is one object whose fields are the six tables. Each
  table is a map from row id to record, and `nextId` supplies fresh ids.
  Each endpoint is a method on it. A method checks in the endpoint's order.
  It then either returns `Err(code)` and leaves every table as it was, or
  returns `Ok(...)` and states the whole new state.
- `Store.Valid()` is the consistency every endpoint keeps: references
  resolve, e-mails are unique, prices are positive, and a picture's
  position lies in 1..5. Positions are not kept distinct within an
  advertisement, because the position swap as written can duplicate one
  (see "## Findings"). A
  transaction's seller is the advertisement's owner and is never its
  buyer. A rating rates the other party, at most once per rater and
  transaction. Each table change is proved to keep it by a lemma in
  `Ledger` over plain maps.
- Pure queries are functions with their properties proved as lemmas:
  - the search and browse query: the keyword and category filters, the
    seller average, and the two-key sort (`Listings`);
  - the image rules: extension check, next position, swap and gallery
    (`ImageRules`);
  - password and e-mail validation (`Credentials`);
  - SQL `LIKE`, rendering of integers (`Text`);
  - table scans (`Tables`) and insertion sort (`Sorting`).
- `Auth.Revocations` is the process-wide set of logged-out tokens.
- `Chat.ConnectionRegistry` is the map from user id to socket that the
  chat endpoint keeps, with the per-message routing decision `Chat.Route`.

JWT encoding and decoding, password hashing and verification, the clock
and the random upload token are parameters of the methods that use them.

## Model

| member | source | states |
|---|---|---|
| Marketplace.Store.Purchase | transactions.py:26-73 | 404 for an unknown advertisement, then 400 unless OPEN, then 400 for the owner; success exactly when the advertisement is purchasable by the caller; inserts one transaction with buyer = caller, seller = owner, the request's `completed`, and marks the advertisement SOLD in the same step, nothing else changing; afterwards nobody can purchase it; keeps one-purchase-per-advertisement; errors change nothing |
| Marketplace.Store.GetTransaction | transactions.py:86-98 | 404 for an unknown id, 403 unless the caller bought or sold; succeeds exactly when the transaction exists and the caller is its buyer or seller, and then returns that row's read view |
| Ledger.Ratee | crud.py:27-33 | the ratee is a participant of the transaction and differs from the rater whenever buyer and seller differ |
| Marketplace.Store.CreateRating | crud.py:7-45 | 404, 400 not completed, 403 non-participant, 400 already rated, in that order; success exactly when the transaction exists, is completed, the caller took part and has not rated it yet; on success one rating by the caller of the other party with the request's score and comment, nothing else changing; errors change nothing |
| Ledger.RatingsReceived | crud.py:48-49 | the rows listed are exactly the ratings whose ratee is the user, each once, in id order |
| Ledger.RatingsReceivedEmpty | crud.py:48-49 | the list is empty exactly when nobody rated the user |
| Marketplace.Store.GetRatingsForUser | crud.py:48-49 | exactly the ratings the user received, each once; empty exactly when nobody rated the user |
| Ledger.NoSelfRating | crud.py:27-33 | in a consistent store no rating has rater = ratee |
| Ledger.UserWithEmail | auth.py:33-35 | `.first()` by e-mail: some user with that e-mail, or none exactly when no user has it |
| Ledger.UserWithEmailUnique | model.py:21 | with unique e-mails the lookup finds the one user holding the e-mail |
| Ledger.ConsistentAfterSale | transactions.py:55-70 | inserting a sale by a non-owner and changing the advertisement's status keeps the store consistent |
| Ledger.ConsistentAfterRatingAdd | crud.py:18-41 | a participant's first rating of the other party keeps the store consistent, including one rating per rater and transaction |
| Ledger.ConsistentAfterUserAdd | model.py:21 | a user under an unused e-mail keeps the store consistent, e-mails staying unique |
| Ledger.ConsistentAfterAdUpdate | db_advertisement.py:137-150 | an advertisement with the same owner, a known category and a positive price keeps the store consistent |
| Ledger.ConsistentAfterAdDelete | model.py:45-46 | deleting an advertisement with its pictures, transactions and their ratings keeps the store consistent |
| Ledger.ConsistentAfterUserDelete | model.py:26-30 | deleting a user with their advertisements (and what hangs on them), purchases, sales and ratings keeps the store consistent |
| Ledger.ConsistentAfterImageAdd | db_image.py:54-64 | a picture of an existing advertisement at a position in 1..5, stored at the upload path of its name, keeps the store consistent |
| Ledger.ConsistentAfterSwap | db_image.py:127-131 | the swap as written, whose partner is the first picture at the requested position in any advertisement, keeps the store consistent when the new position is in 1..5 |
| Listings.SellerAverage | db_advertisement.py:24-34 | a seller has an average exactly when some rating of the seller side of a transaction on one of their advertisements exists, and it is the total score of those counting ratings divided by their number |
| Listings.SellerScoresCounting | db_advertisement.py:24-34 | the scores fed to `avg` are one per counting rating and add up to the counting ratings' total score |
| Listings.ScoresFromCounting | db_advertisement.py:24-34 | over ascending rating ids, the collected scores are one per counting rating among them, with their total |
| Listings.SellerAverageBounds | db_advertisement.py:24-34 | the average lies between the least and greatest counting score |
| Listings.ReportedAverage | db_advertisement.py:53 | a seller without average is reported as 0, otherwise the average |
| Listings.ListedBeforeIsTotalPreorder | db_advertisement.py:47-50 | newest first, then higher average, sellers without average last, is a total preorder |
| Listings.Search | db_advertisement.py:21-54 | the result is sorted by that order and holds exactly the advertisements passing both filters, each once, each with its seller's average |
| Listings.SearchListsSelected | db_advertisement.py:38-45 | every advertisement passing the filters is listed |
| Listings.BrowseListsEverything | db_advertisement.py:87-111 | the unfiltered listing contains every advertisement |
| Listings.FalsyFiltersSelectAll | db_advertisement.py:38-45 | an empty keyword and category 0 filter nothing |
| Text.KeywordLikeIsSubstring | db_advertisement.py:38-42 | for a keyword without `%` or `_`, the `ILIKE '%kw%'` test is case-insensitive substring search |
| Text.Like | db_advertisement.py:38-42 | a pattern without `%` or `_` matches exactly the strings of its length equal to it up to ASCII case |
| Listings.EditOutcome | db_advertisement.py:137-150 | the edit loop fails with 404 exactly when a supplied price differs and is not positive or a supplied category differs and does not exist; otherwise it yields the row with every supplied field replaced |
| Listings.RunEdits | db_advertisement.py:138-149 | the field-by-field loop computes exactly that outcome |
| Marketplace.Store.CreateAdvertisement | db_advertisement.py:58-83 | 404 unknown category, then 400 non-positive price; otherwise a new advertisement owned by the caller with the request's fields |
| Marketplace.Store.GetOneAdvertisement | db_advertisement.py:115-122 | the stored row, or 404 |
| Marketplace.Store.EditAdvertisement | db_advertisement.py:126-152 | 404 missing, 404 not owner, 404 rejected edit, nothing committed on any error; otherwise the merged row replaces the old one; an edit to OPEN makes the advertisement purchasable again by anyone else |
| Marketplace.Store.DeleteAdvertisement | db_advertisement.py:157-170 | 404 missing, 404 not owner; otherwise the advertisement, its pictures, its transactions and their ratings go, and nothing else |
| Marketplace.Store.StatusAdvertisement | db_advertisement.py:174-188 | 404 missing, 404 not owner; otherwise only the status changes, and never to OPEN |
| Entities.ToStatus | schemas.py:28-30 | a status-change request stores SOLD or RESERVED, never OPEN |
| ImageRules.SplitExt | db_image.py:23 | `os.path.splitext`: root + extension is the name; a non-empty extension starts with its only dot and has no `/` |
| ImageRules.SplitExtOfJoin | db_image.py:23 | a root containing a non-dot after its last `/` and an extension `.x` without dots split back apart |
| ImageRules.HiddenFileHasNoExtension | db_image.py:23-28 | `.png` alone has no extension, so it is refused |
| ImageRules.ExtensionAllowed | db_image.py:22-28 | an accepted name has a non-empty extension of at most five characters |
| ImageRules.ExtensionAllowedOfJoin | db_image.py:22-28 | a name made of a root and a single-dot extension is accepted exactly when the lower-cased extension is one of the allowed ones |
| ImageRules.MaxOrder | db_image.py:30-34 | the maximum position of the advertisement's pictures, or none when it has none |
| ImageRules.NextOrder | db_image.py:30-36 | a new picture's position is above every existing one, and 1 for the first picture |
| ImageRules.NextOrderInRange | db_image.py:38-43 | below the cap the next position is within 1..5 |
| ImageRules.AtMostMaxImages | db_image.py:38-43 | with positions in 1..5 and distinct within each advertisement, an advertisement has at most five pictures; uploads and the same-advertisement swap keep positions distinct, the swap as written does not |
| ImageRules.AddKeepsPositions | db_image.py:54-62 | a picture at the next position keeps positions in range and distinct |
| ImageRules.PartnerAnyAd | db_image.py:127 | the first picture of any advertisement at the requested position, if one exists |
| ImageRules.PartnerInAd | db_image.py:127 | the first picture of the same advertisement at the requested position, if one exists |
| ImageRules.SwapAsWritten | db_image.py:127-131 | the swap as written: the same rows, the moved picture at the new position, the first picture of any advertisement at that position at the old one, every other row unchanged |
| ImageRules.ReorderChangesOnlyPositions | db_image.py:127-131 | a swap changes only positions: the moved picture takes the new one, the partner the old one, every other row stays |
| ImageRules.ReorderKeepsRange | db_image.py:127-131 | a swap into 1..5 keeps all positions in range |
| ImageRules.SwapWithinAdKeepsDistinct | db_image.py:127-131 | the same-advertisement swap keeps positions distinct within each advertisement |
| ImageRules.SwapKeepsPositions | db_image.py:127-131 | the corrected swap into 1..5 keeps positions in range and distinct |
| ImageRules.SwapWithinAd | db_image.py:127-131 | the corrected swap: the same rows, the moved picture at the new position, its partner from the same advertisement at the old one, every other row unchanged, and no other advertisement's picture touched |
| ImageRules.SwapAsWrittenTouchesAnotherAd | db_image.py:127 | a concrete store where the swap as written renumbers another advertisement's picture and duplicates a position, while the same-advertisement swap does neither |
| ImageRules.FullGalleryIsFull | db_image.py:30-43 | in the sample store advertisement 1 has five pictures and both advertisements reach position 5, so an upload to advertisement 1 is refused |
| ImageRules.SwapAsWrittenAllowsSixthPicture | db_image.py:127-131 | after moving picture 6 of advertisement 2 to position 5 in that store, advertisement 1 still has five pictures but its highest position is 4, so the cap check passes |
| ImageRules.ReorderKeepsPictures | db_image.py:127-131 | a swap keeps the set of pictures of every advertisement |
| ImageRules.UploadAddsPicture | db_image.py:54-64 | storing a new picture adds exactly that picture to its advertisement |
| ImageRules.BaseOrderIs | db_image.py:30-36 | a picture whose position bounds every other of its advertisement sets the highest position |
| ImageRules.BelowCap | db_image.py:38-43 | an advertisement whose positions all lie below 5 passes the cap check |
| ImageRules.BaseOrderInRange | db_image.py:117-125 | the highest position used is within 0..5 |
| ImageRules.UploadPath | db_image.py:49 | `os.path.join('uploaded_images', name)`: the name itself when it is absolute, otherwise the directory, `/` and the name |
| ImageRules.Gallery | db_image.py:85-88 | the advertisement's pictures, each once, lowest position first |
| ImageRules.GalleryEmpty | db_image.py:85-91 | the gallery is empty exactly when the advertisement has no picture |
| ImageRules.PublishedGalleryListsPictures | db_image.py:80-95 | the answer lists every picture of the advertisement, each once, ordered by position, each with `http://127.0.0.1:8000/images/` + name, and is empty exactly when there are none |
| ImageRules.PublishedIsGallery | db_image.py:93-94 | rewriting the rows one by one yields that answer |
| Marketplace.WithUrls | db_image.py:93-94 | each row's path becomes its public address, nothing else changes |
| Marketplace.PublishGallery | db_image.py:138-144 | the gallery with public addresses, as both image listings answer it |
| Marketplace.Store.AddImage | db_image.py:13-66 | 404, 403, 400 extension, 400 at the cap, in order; success exactly when all four pass; a picture named root + `_` + token + extension, stored at the joined upload path of that name, at the next position |
| Marketplace.Store.GetOneImage | db_image.py:69-76 | `uploaded_images/` + stored name, or 404; for a name that is not absolute, the path the picture was stored at |
| Marketplace.Store.GetAllImages | db_image.py:80-95 | 404 for a missing advertisement or one without pictures; otherwise the published gallery |
| Marketplace.Store.ChangeImageOrder | db_image.py:99-146 | 404, 403, 406 same position, 406 outside 1..max, in order; success exactly when all four pass; then the swap as written is committed, no other table changes, and the published gallery is returned |
| Marketplace.Store.CommitSwap | db_image.py:127-133 | the two position updates of the swap as written, committed together, keep the store consistent |
| Marketplace.Store.DeleteImage | db_image.py:150-173 | 404, 403; success exactly when the picture exists and the caller owns its advertisement; then exactly that row goes, other positions unchanged |
| Credentials.ValidatePassword | auth.py:16-22 | accepted exactly with 8..20 characters, an upper-case and a lower-case letter; the reported problem is the first failing check |
| Credentials.ValidateEmail | auth.py:24-27 | accepted exactly when the string matches `^[\w.-]+@[\w.-]+\.\w+$` |
| Credentials.SplitIsUnique | auth.py:25 | a match can split only at the first `@` and the last dot after it |
| Marketplace.Store.Register | auth.py:29-41 | 400 bad e-mail, then 400 weak password, then 400 duplicate; otherwise one user stored with the hash of the password |
| Marketplace.Store.Login | auth.py:43-49 | 401 for an unknown e-mail or a password the hash does not verify; otherwise a token for the e-mail; with unique e-mails, success exactly when the user holding the e-mail has a hash the password verifies |
| Marketplace.Store.GetCurrentUser | auth.py:78-91 | 401 when the token does not decode or has no subject, 404 for an unknown subject; a subject that is a stored e-mail succeeds, with that user's id when e-mails are unique; revocations are not consulted |
| Auth.Revocations.Logout | auth.py:51-54 | the token joins the revoked set |
| Auth.Revocations.ReadUsersMe | auth.py:56-70 | 401 for a revoked token, a token that does not decode, an empty subject or an unknown user; success agrees with `get_current_user` |
| Auth.RevocationOnlyGuardsProfile | auth.py:78-91 | a revoked token is refused by the profile endpoint yet still resolves to its user through `get_current_user` |
| Marketplace.Store.CreateCategory | db_category.py:7-12 | any title, duplicates included, is stored under a fresh id; other categories unchanged |
| Marketplace.Store.GetAllCategories | db_category.py:15-16 | every stored category exactly once |
| Marketplace.Store.DeleteUser | model.py:26-30 | the user's advertisements with their pictures and transactions, their purchases and sales, and the ratings they gave or received go, with the ratings of every deleted transaction |
| Chat.Route | chat.py:76-95 | an error reply exactly for a message to oneself; delivery exactly when the receiver is connected and either side owns the advertisement, with text `User {sender} (ad {ad}): {message}` on the receiver's socket; dropped otherwise |
| Chat.DeliveryNeedsOwner | chat.py:81-95 | without an owner on either side nothing is delivered |
| Chat.MessageTextIdentifiesSender | chat.py:84 | the delivered text determines sender, advertisement and message |
| Text.IntToStringRoundTrip | chat.py:84 | the decimal rendering of an id reads back as the id |
| Chat.ConnectionRegistry.Connect | chat.py:66-67 | the user's socket replaces any earlier entry |
| Chat.ConnectionRegistry.Disconnect | chat.py:96-97 | the user's entry is removed, whatever socket it holds; reports whether there was one |
| Chat.ConnectionRegistry.Session | chat.py:64-97 | connect, route every message in order, disconnect |
| Chat.SessionKeepsOthers | chat.py:66-97 | a session leaves every other user's entry as it was |

## Left out

- The HTTP layer, the routers, the application wiring and the tests are not part of this model.
- SQLAlchemy sessions, commits and refreshes are not modelled. A method's assignments are its commit.
- SQLite reuse of deleted row ids is not modelled. One counter numbers the rows of every table.
- The JWT library and the password hashing module are not part of this model. They enter as function parameters.
- A token that fails to decode is `None` from the decode parameter. A token without subject is `Some(None)`.
- The file system is not modelled. That covers writing the upload, creating the directory and removing the file on delete.
- The uuid in an upload's stored name is a string parameter.
- The websocket transport, the receive loop's `async` I/O and the HTML chat page are not modelled.
- Chat.ConnectionRegistry.Session: does not model concurrent sessions. Other users' connects and disconnects during a session are not interleaved.
- Chat.ConnectionRegistry.Session: the endpoint parses both ids with `int()`, which can raise on bad input. The model receives ids already parsed.
- Chat.ConnectionRegistry.Disconnect: the endpoint raises a key error on a missing entry. The model reports it as `existed == false` instead.
- Floating point is not modelled. Prices and averages are `real`, and timestamps are integers ordered as `created_at` is.
- NaN prices are left out, and so is pydantic's own 422 validation of request shapes.
- Text folding is ASCII only. `lower()` and `\w` are not modelled on non-ASCII characters.
- The column defaults (status OPEN, `completed` false) are unreachable through these endpoints. The request always supplies both.
- Explicit `null` fields in an edit request are treated as absent.
- Marketplace.Store.CommitSwap: commits both position updates as one assignment of the swapped table. `ImageRules.Reorder` spells out the two row updates.
- `.first()` without `ORDER BY` is modelled as the row with the lowest id, the order SQLite scans a table in.
- Marketplace.Store.DeleteUser: no endpoint deletes users. The method models the cascade the table relationships declare.
- The router for ratings passes the user id as a string. This typing quirk of the HTTP layer is not modelled.
- Marketplace.WithUrls: the rewritten picture paths are answered but not written back to the table, as the code never commits them.

## Findings

| source | as written | input that shows it | evidently intended | confidence | as-written member | corrected member |
|---|---|---|---|---|---|---|
| db_image.py:127 | the picture to swap with is the first picture at the requested position in any advertisement | pictures 1 and 3 belong to ad 1 at positions 1 and 2, pictures 2 and 4 to ad 2 at positions 1 and 2; moving picture 4 to position 1 picks picture 1 of ad 1 as partner and gives it position 2, so ad 1 then has two pictures at position 2 | the partner is looked up among the pictures of the moved picture's own advertisement | not executed | ImageRules.SwapAsWrittenTouchesAnotherAd | ImageRules.SwapWithinAdKeepsDistinct |
| db_image.py:127-131 | through the swap, the cap check of lines 38-43 (highest position below 5) no longer bounds the number of pictures | ad 1 has pictures 1-5 at positions 1-5, ad 2 pictures 6 and 7 at positions 1 and 5; moving picture 6 to position 5 gives picture 5 of ad 1 position 1, so ad 1 keeps five pictures with highest position 4 and the next upload is its sixth | an advertisement holds at most five pictures | not executed | ImageRules.SwapAsWrittenAllowsSixthPicture | ImageRules.AtMostMaxImages |
