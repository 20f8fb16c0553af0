# CarHubDB core, modelled in Dafny

CarHubDB is a JavaFX desktop application for a car dealership backed by a SQL
Server database. Customers browse a catalogue of cars as cards, search and
filter it, open a car's page with a photo gallery, rate and comment on it,
add it to their favourites, and reserve or buy it. Administrators edit cars
and their photos, process reservations and purchases, and view statistics.

This project models the core of that application in Dafny 4.11:

- **The database services** (`CarImagesService`, `CommentsService`,
  `FavoritesService`, `ReservationsService`, `StatisticsService`). Each table
  is a class holding its rows as a sequence plus the next identity value.
  Each SQL statement is a method that changes that sequence as the statement
  would, or a function that computes what a query returns. Whether the
  connection and statement succeed is a `bool` parameter (`up`), and
  `GETDATE()` is a parameter (`now`).
- **The models** `Reservation` and `Purchase`, with their status and payment
  vocabularies and the Russian captions shown for them.
- **The utilities** `ValidationUtil`, `ExportUtil.escapeCSV`, `PasswordUtil`
  (SHA-256 and the random salt are parameters), `SessionManager` and
  `ImageCache` (building an image is a parameter).
- **The controllers' logic**:
  - the catalogue's sort cycle, search, brand list and filter predicate
    (`CarHubController`);
  - the car page's gallery, rating, comments and order forms
    (`CarDetailsController`);
  - the car form's validation chain and photo saving (`CarFormController`);
  - the orders screen's filter, buttons and captions (`AdminOrdersController`).

Shared modules:

- `Wrappers` provides `Option`.
- `Seqs` provides filter, count, distinct and a stable sort by an integer key,
  with their lemmas.
- `JavaText` covers the parts of `java.lang.String` the core uses: `trim`,
  `isBlank`, `toLowerCase`, `equalsIgnoreCase`, `contains`,
  `Integer.parseInt` and Java's `%`.
- `Cars` holds the `Car` record.

Java `String` is `seq<char>`, and SQL `NULL` or a Java `null` is `None`.

The files are under `src/`. Give them all to `dafny verify` in one command.

## Model

| member | source | states |
|---|---|---|
| CarImagesService.OrderedImagesSpec | src/services/CarImagesService.java:21 | getCarImages' ORDER BY is_main DESC, display_order ASC yields exactly the car's rows, every main row before every other row, display_order ascending within each group |
| CarImagesService.CarImagesTable.GetCarImages | src/services/CarImagesService.java:19-48 | the list read row by row is the ordered result set; an empty list when the query fails |
| CarImagesService.MainImageUrlNone | src/services/CarImagesService.java:53-87 | getMainImage returns null exactly when the car has no photo |
| CarImagesService.MainImageUrlMain | src/services/CarImagesService.java:54-64 | when the car has a main photo, getMainImage returns the url of one of its main photos |
| CarImagesService.MainImageUrlFallback | src/services/CarImagesService.java:70-80 | without a main photo, getMainImage returns the url of a photo with the car's lowest display_order |
| CarImagesService.CarImagesTable.GetMainImage | src/services/CarImagesService.java:53-87 | the result is the two-query lookup over the table, null when the database fails |
| CarImagesService.MaxOrder | src/services/CarImagesService.java:202 | MAX(display_order) over the car's rows: NULL exactly when the car has no row, otherwise an upper bound attained by a row |
| CarImagesService.NextDisplayOrderSpec | src/services/CarImagesService.java:201-219 | the next display_order is above every position of the car, one past a position in use, or 1 for a car without photos |
| CarImagesService.CarImagesTable.GetNextDisplayOrder | src/services/CarImagesService.java:201-219 | the query's value, 1 when it fails |
| CarImagesService.ResetMain | src/services/CarImagesService.java:184-196 | after UPDATE is_main = 0 WHERE car_id = ?, no row of the car is main, rows of other cars are unchanged, and no row changes anything but its flag |
| CarImagesService.ResetMainKeepsOrders | src/services/CarImagesService.java:184-196 | clearing the flags changes no car's largest display_order |
| CarImagesService.CarImagesTable.ResetMainFlag | src/services/CarImagesService.java:184-196 | the table is reset as ResetMain states, or unchanged when the statement fails |
| CarImagesService.AddedRowsSpec | src/services/CarImagesService.java:92-123 | addImage appends one row with the given car, url and flag at the next display_order; a main photo leaves its own row the car's only main row and leaves other cars untouched; a non-main photo leaves every old row as it was |
| CarImagesService.CarImagesTable.AddImage | src/services/CarImagesService.java:92-123 | returns true exactly when the insert succeeds; the table becomes AddedRows and the identity advances by one, or nothing changes |
| CarImagesService.AddedInOrderRows | src/services/CarImagesService.java:92-123 | adding several photos one after another appends one row per photo in order, with its url and consecutive identities; other cars' rows are untouched; old rows keep everything but the flag |
| CarImagesService.AddedInOrderMain | src/services/CarImagesService.java:94-96 | after a run of addImage calls, the car's only main row is that of the last photo flagged main; if no photo was flagged, the old rows stay as they were and no new row is main |
| CarImagesService.CarImagesTable.AddImages | src/controllers/CarFormController.java:293-299 | the save loop calls addImage once per photo in list order; the table ends as AddedInOrder of the photos |
| CarImagesService.CarIdOf | src/services/CarImagesService.java:224-242 | getCarIdByImageId returns the car of the row with that id, or -1 when no row has that id |
| CarImagesService.CarImagesTable.GetCarIdByImageId | src/services/CarImagesService.java:224-242 | CarIdOf over the table, -1 on failure |
| CarImagesService.SetMainFlag | src/services/CarImagesService.java:137-143 | UPDATE is_main = 1 WHERE id = ? flags the rows with that id and leaves every other row unchanged |
| CarImagesService.MainSetRowsSpec | src/services/CarImagesService.java:128-155 | setMainImage on an existing photo makes it the only main row of its car and touches no row of another car; ids and cars are unchanged |
| CarImagesService.MainSetRowsUnknown | src/services/CarImagesService.java:130-131 | setMainImage on an unknown id changes nothing |
| CarImagesService.CarImagesTable.SetMainImage | src/services/CarImagesService.java:128-155 | returns true exactly when the database answers and the photo exists; the table becomes MainSetRows |
| CarImagesService.DeletedRows | src/services/CarImagesService.java:160-179 | DELETE WHERE id = ? leaves no row with that id and adds none |
| CarImagesService.DeletedRowsCount | src/services/CarImagesService.java:160-179 | with distinct ids, deleting an existing id removes exactly one row and deleting an unknown id removes none |
| CarImagesService.DeleteDoesNotPromote | src/services/CarImagesService.java:160-179 | for every table with distinct ids, deleting any photo leaves its car one photo fewer (none after its only photo), and deleting a car's only main photo leaves the car with no main photo |
| CarImagesService.DeletedImagesCount | src/services/CarImagesService.java:160-179 | deleting an id takes from a car exactly its rows with that id |
| CarImagesService.NoMainLeft | src/services/CarImagesService.java:160-179 | when every main row of a car has the deleted id, the delete leaves the car with no main row, since nothing is promoted |
| CarImagesService.CarImagesTable.DeleteImage | src/services/CarImagesService.java:160-179 | returns true exactly when a row was removed; the table becomes DeletedRows |
| CarImagesService.CarImagesTable.GetImagesCount | src/services/CarImagesService.java:247-265 | COUNT(*) of the car's rows, 0 on failure |
| CommentsService.CommentAddedSpec | src/services/CommentsService.java:22-39 | addComment appends one row with no rating and keeps every other row; the car's comment count goes up by one and its rating count stays the same |
| CommentsService.CommentsTable.AddComment | src/services/CommentsService.java:22-39 | returns true exactly when the insert succeeds; the table becomes CommentAdded and the identity advances by one |
| CommentsService.CommentsJoined | src/services/CommentsService.java:46-49 | the join returns only rows of the car whose author is a known user, each carrying that user's name, and no more rows than the table has |
| CommentsService.CommentsOfCarSpec | src/services/CommentsService.java:44-71 | getCommentsByCar lists the joined comments of the car as a multiset, only the car's comments by known users, newest first, and never more of them than getCommentsCount counts |
| CommentsService.CommentsJoinedCounts | src/services/CommentsService.java:46-65 | each listing occurs in the join exactly as often as there are rows of the car, with a comment and a known author, that are read into it |
| CommentsService.CommentsOfCarComplete | src/services/CommentsService.java:44-71 | every row of the car with a non-NULL comment and a known author is listed with its id, text, created_at and user name, exactly once when ids are unique, and every listing comes from such a row |
| CommentsService.CommentsTable.GetCommentsByCar | src/services/CommentsService.java:44-71 | the ordered, joined result set read into a list; empty on failure |
| CommentsService.CommentDeletedSpec | src/services/CommentsService.java:76-98 | deleteComment removes exactly the rows its WHERE clause selects (the id, plus the author unless the caller is an admin), and with distinct ids at most one |
| CommentsService.AtMostOneSelected | src/services/CommentsService.java:78-80 | with distinct ids, the WHERE clause selects at most one row |
| CommentsService.DeletedKeepsKeys | src/services/CommentsService.java:76-98 | deleting keeps the ids unique and below the next id, and shortens the table exactly when some row was selected |
| CommentsService.CommentsTable.DeleteComment | src/services/CommentsService.java:76-98 | returns true exactly when some row was selected; the table becomes CommentDeleted |
| CommentsService.CommentsTable.GetCommentsCount | src/services/CommentsService.java:103-116 | the number of the car's rows with a non-NULL comment, 0 on failure |
| CommentsService.RatingUpdated | src/services/CommentsService.java:138-144 | UPDATE rating WHERE car_id AND user_id sets the rating on every row of the pair and leaves the other rows unchanged |
| CommentsService.RatedInsertsOnce | src/services/CommentsService.java:145-153 | setRating for a pair without rows appends one row with the rating and no comment; the comment count is unchanged |
| CommentsService.RatedUpdatesAll | src/services/CommentsService.java:136-144 | setRating for a pair with rows inserts nothing and writes the rating on every row of the pair, comment rows included |
| CommentsService.RatedThenUserRating | src/services/CommentsService.java:123-181 | after setRating(c, u, r) with r in 1..5, getUserRating(c, u) returns r |
| CommentsService.EveryPairRowRated | src/services/CommentsService.java:167-181 | when every row of the pair holds rating v, getUserRating returns v |
| CommentsService.RatedIdempotent | src/services/CommentsService.java:123-162 | repeating setRating with the same value changes nothing |
| CommentsService.RatingCountedPerRow | src/services/CommentsService.java:138-144 | a user who commented twice and then rated once is counted as two ratings by getRatingsCount |
| CommentsService.CommentsTable.SetRating | src/services/CommentsService.java:123-162 | returns true exactly when the rating is in 1..5 and the database answers; the table becomes Rated, and the identity advances only when a row is inserted |
| CommentsService.UserRating | src/services/CommentsService.java:167-181 | getUserRating returns a non-NULL rating stored for the pair, and 0 when the pair has none |
| CommentsService.CommentsTable.GetUserRating | src/services/CommentsService.java:167-181 | UserRating over the table, 0 on failure |
| CommentsService.CommentsTable.GetRatingsCount | src/services/CommentsService.java:204-217 | the number of the car's rows with a non-NULL rating, 0 on failure |
| FavoritesService.AddedSpec | src/services/FavoritesService.java:15-34 | addToFavorites, which inserts without a duplicate check, adds one row of the pair and raises the user's count by one, so the pair is a favourite afterwards |
| FavoritesService.FavoritesTable.AddToFavorites | src/services/FavoritesService.java:15-34 | returns true exactly when the insert succeeds; the table gains the row, or is unchanged |
| FavoritesService.RemovedNoPair | src/services/FavoritesService.java:37-53 | after removeFromFavorites no row of the pair is left, however many copies there were |
| FavoritesService.RemovedUserCount | src/services/FavoritesService.java:37-53 | removing lowers the user's favourites count by the number of copies of the pair |
| FavoritesService.RemovedLength | src/services/FavoritesService.java:41 | the delete drops exactly the copies of the pair |
| FavoritesService.RemovedKeepsOthers | src/services/FavoritesService.java:41 | every copy of every row outside the pair is kept |
| FavoritesService.FavoritesTable.RemoveFromFavorites | src/services/FavoritesService.java:37-53 | returns true exactly when the pair had a row; the table becomes PairRemoved |
| FavoritesService.FavoritesTable.IsFavorite | src/services/FavoritesService.java:56-75 | true exactly when the database answers and the pair has a row |
| FavoritesService.FavoritesTable.GetFavoritesCount | src/services/FavoritesService.java:135-150 | the number of the user's rows, duplicates included; 0 on failure |
| FavoritesService.FirstMainUrl | src/services/FavoritesService.java:162-175 | getMainImageUrl returns the url of a main CarImages row of the car, and null exactly when the car has none |
| FavoritesService.WithMainImageSpec | src/services/FavoritesService.java:117-123 | the listed car keeps all its fields but the picture; the picture is the main image url when that is present and non-empty |
| FavoritesService.FavoriteCarsSpec | src/services/FavoritesService.java:78-132 | getFavoritesCars lists one car per favourite row of the user whose car exists (every copy), newest first; each entry is that row's car with the picture override |
| FavoritesService.FavoritesTable.GetFavoritesCars | src/services/FavoritesService.java:78-132 | the joined, ordered list; empty on failure |
| ReservationsService.OrdersStore.CreateReservation | src/services/ReservationsService.java:23-46 | returns true exactly when the insert succeeds; the row is appended with the next id and the purchases are untouched |
| ReservationsService.ReservationsJoined | src/services/ReservationsService.java:53-56 | the join keeps only rows whose car and user exist, each carrying the car's name and the user's name |
| ReservationsService.AllReservationsSpec | src/services/ReservationsService.java:51-70 | getAllReservations lists every joined row once, newest created_at first |
| ReservationsService.ReservationsJoinedCounts | src/services/ReservationsService.java:53-56 | each listing occurs in the join exactly as often as its row occurs in the table when its car and user are known and it carries their names, and otherwise not at all |
| ReservationsService.AllReservationsComplete | src/services/ReservationsService.java:51-70 | with unique ids, every reservation whose car and user exist is listed exactly once with its own columns and the joined names |
| ReservationsService.OrdersStore.GetAllReservations | src/services/ReservationsService.java:51-70 | the ordered join read into a list; empty on failure |
| ReservationsService.JoinedFilterCommute | src/services/ReservationsService.java:77-82 | filtering by status before the join selects the same listings as filtering after it |
| ReservationsService.ReservationsByStatusSpec | src/services/ReservationsService.java:75-96 | getReservationsByStatus(s) lists exactly the listings of getAllReservations whose status is s, each with status s, newest first |
| ReservationsService.OrdersStore.GetReservationsByStatus | src/services/ReservationsService.java:75-96 | the filtered, ordered join read into a list; empty on failure |
| ReservationsService.ReservationStatusSetSpec | src/services/ReservationsService.java:101-117 | updateReservationStatus sets status and updated_at on the row with that id, whatever its current status, and leaves every other row as it was; an unknown id changes nothing |
| ReservationsService.OrdersStore.UpdateReservationStatus | src/services/ReservationsService.java:101-117 | returns true exactly when a row has that id |
| ReservationsService.OrdersStore.DeleteReservation | src/services/ReservationsService.java:122-137 | returns true exactly when a row has that id; the table becomes ReservationDeleted |
| ReservationsService.DeletedSpec | src/services/ReservationsService.java:122-137 | with distinct ids, both deletes remove exactly one row when the id exists and none otherwise, and leave no row with that id |
| ReservationsService.OrdersStore.CreatePurchase | src/services/ReservationsService.java:144-169 | returns true exactly when the insert succeeds; the row is appended with the price as given |
| ReservationsService.PurchasesJoined | src/services/ReservationsService.java:176-179 | the join keeps only purchases whose car and user exist, with their names |
| ReservationsService.AllPurchasesSpec | src/services/ReservationsService.java:174-193 | getAllPurchases lists every joined purchase once, latest purchase_date first |
| ReservationsService.PurchasesJoinedCounts | src/services/ReservationsService.java:176-179 | each listing occurs in the join exactly as often as its purchase occurs in the table when its car and user are known and it carries their names, and otherwise not at all |
| ReservationsService.AllPurchasesComplete | src/services/ReservationsService.java:174-193 | with unique ids, every purchase whose car and user exist is listed exactly once with its own columns and the joined names |
| ReservationsService.OrdersStore.GetAllPurchases | src/services/ReservationsService.java:174-193 | the ordered join read into a list; empty on failure |
| ReservationsService.PurchaseStatusSetSpec | src/services/ReservationsService.java:198-216 | updatePurchaseStatus sets the status, sets completed_at to now only for "completed" and keeps it otherwise; no other column or row changes |
| ReservationsService.CompletedTwiceRefreshes | src/services/ReservationsService.java:199-201 | marking a purchase completed twice moves completed_at to the later time |
| ReservationsService.PriceNeverRewritten | src/services/ReservationsService.java:198-236 | no statement of the service changes a stored price |
| ReservationsService.OrdersStore.UpdatePurchaseStatus | src/services/ReservationsService.java:198-216 | returns true exactly when a row has that id |
| ReservationsService.OrdersStore.DeletePurchase | src/services/ReservationsService.java:221-236 | returns true exactly when a row has that id; the table becomes PurchaseDeleted |
| StatisticsService.ProbedCountersSpec | src/services/StatisticsService.java:164-204 | getTotalReservations, getTotalPurchases and getTotalFavorites report 0 when the table probe finds no table or the query fails, and the table's row count otherwise |
| StatisticsService.UserCountersSpec | src/services/StatisticsService.java:100-160 | users and administrators are counted apart (their sum never exceeds the table); active and inactive users add up to every row whose flag is set |
| StatisticsService.CommentCountersSpec | src/services/StatisticsService.java:208-248 | with ratings in 1..5, getTotalRatings counts every rated row; getTotalComments counts no more rows than carry a comment |
| StatisticsService.HighestPriced | src/services/StatisticsService.java:50 | a car of the table whose price no other car exceeds |
| StatisticsService.LowestPriced | src/services/StatisticsService.java:66 | a car of the table whose price no other car undercuts |
| StatisticsService.MostExpensiveCar | src/services/StatisticsService.java:45-57 | null exactly without a connection or without cars; otherwise a car of the table of maximal price |
| StatisticsService.CheapestCar | src/services/StatisticsService.java:61-73 | null exactly without a connection or without cars; otherwise a car of the table of minimal price |
| StatisticsService.Tally | src/services/StatisticsService.java:85 | GROUP BY: each distinct key once, paired with its number of occurrences |
| StatisticsService.TopBrandsSpec | src/services/StatisticsService.java:77-96 | getTopBrands lists at most `limit` distinct non-empty brands with their car counts, in non-increasing count order; a brand of some car is left out only when the list is full and its count is at most the last one's |
| StatisticsService.CarsByYearSpec | src/services/StatisticsService.java:252-271 | getCarsByYear lists each year of some car exactly once, strictly latest first, with its number of cars |
| ReservationModel.ParseStatus | src/models/Reservation.java:62-70 | a string names a reservation status only when it is that status's code |
| ReservationModel.ParseStatusCode | src/models/Reservation.java:62-70 | every status code is recognised as its status, and exactly the four codes are |
| ReservationModel.StatusRuSpec | src/models/Reservation.java:62-70 | getStatusRu relabels a status exactly when it is one of the four codes, shows any other status (such as "confirmed") unchanged, and gives distinct statuses distinct labels |
| ReservationModel.Reservation.constructor | src/models/Reservation.java:21-38 | every field holds the argument given for it |
| ReservationModel.Reservation.SetStatus | src/models/Reservation.java:56 | sets the status and nothing else |
| ReservationModel.Reservation.SetUpdatedAt | src/models/Reservation.java:57 | sets the update time and nothing else |
| PurchaseModel.ParseStatus | src/models/Purchase.java:65-73 | a string names a purchase status only when it is that status's code |
| PurchaseModel.ParsePaymentMethod | src/models/Purchase.java:78-87 | a string names a payment method only when it is that method's code |
| PurchaseModel.ParseCodes | src/models/Purchase.java:65-87 | every status code and every payment code is recognised |
| PurchaseModel.StatusRuSpec | src/models/Purchase.java:65-73 | getStatusRu relabels a status exactly when it is one of the four codes, with distinct labels |
| PurchaseModel.PaymentMethodRuSpec | src/models/Purchase.java:78-87 | getPaymentMethodRu shows a dash for a missing method, relabels exactly the four codes with distinct labels, and shows any other code unchanged |
| PurchaseModel.Purchase.constructor | src/models/Purchase.java:22-40 | every field holds the argument given for it |
| PurchaseModel.Purchase.SetStatus | src/models/Purchase.java:59 | sets the status and nothing else |
| PurchaseModel.Purchase.SetCompletedAt | src/models/Purchase.java:60 | sets the completion time and nothing else |
| ValidationUtil.FormatValidationError | src/utils/ValidationUtil.java:93-95 | the message is exactly as long as its four parts |
| ValidationUtil.FormatValidationErrorParts | src/utils/ValidationUtil.java:93-95 | the message starts with the fixed prefix, then the field name, and ends with the issue, so both can be read back |
| ValidationUtil.IsValidYearSpec | src/utils/ValidationUtil.java:38-46 | isValidYear accepts null and blank, every printed year 1900..2030, and a non-blank text exactly when it parses as an int in 1900..2030 |
| ValidationUtil.IsValidMileageSpec | src/utils/ValidationUtil.java:51-59 | isValidMileage accepts null and blank and every printed mileage 0..999999, rejects every printed negative int, and accepts a non-blank text exactly when it parses as an int in 0..999999 |
| ValidationUtil.IsValidPriceIsNumber | src/utils/ValidationUtil.java:64-72 | a valid price is a valid number, and null is never a valid price |
| ValidationUtil.IsNotEmptySpec | src/utils/ValidationUtil.java:77-88 | isNotEmpty holds exactly when the text has a character trim keeps; null fails both checks; a length check with a positive minimum implies isNotEmpty |
| ExportUtil.EscapeCsvOnePass | src/utils/ExportUtil.java:55 | the three successive replace passes equal one left-to-right pass that doubles each quote, turns each line feed into a space, drops each carriage return and keeps every other character in order |
| ExportUtil.EscapeOnePassSpec | src/utils/ExportUtil.java:55 | the cleaned text has no line break, twice the quotes of the input, and length \|s\| + quotes − carriage returns |
| ExportUtil.EscapeCsvSpec | src/utils/ExportUtil.java:52-56 | escapeCSV(null) is empty; for a non-null value the result has no line break, doubles every quote (section 2, rule 7 of RFC 4180) and has length \|s\| + quotes − carriage returns |
| PasswordUtil.Unsigned | src/utils/PasswordUtil.java:40 | %02x formats a byte through its unsigned value: below 256 and congruent to the byte mod 256 |
| PasswordUtil.HexOf | src/utils/PasswordUtil.java:37-43 | n bytes render as 2n characters |
| PasswordUtil.ByteHexDigits | src/utils/PasswordUtil.java:40 | a byte renders as two lowercase hex digits |
| PasswordUtil.HexOfSpec | src/utils/PasswordUtil.java:37-43 | byte i renders as characters 2i and 2i+1, and every character is a lowercase hex digit |
| PasswordUtil.FromHexHexOf | src/utils/PasswordUtil.java:37-43 | the rendering is lossless: decoding the hex text gives the bytes back |
| PasswordUtil.ToHex | src/utils/PasswordUtil.java:37-43 | the StringBuilder loop builds exactly the in-order rendering of the array |
| PasswordUtil.GenerateSaltHex | src/utils/PasswordUtil.java:9-13 | whatever the random bytes, a salt of n bytes is 2n lowercase hex digits that decode to those bytes; a negative size fails |
| PasswordUtil.Sha256Hex | src/utils/PasswordUtil.java:15-23 | the hex rendering of the digest of the text |
| PasswordUtil.HashPassword | src/utils/PasswordUtil.java:25-29 | the digest of password followed by salt, a null for either counting as "" |
| PasswordUtil.VerifyPassword | src/utils/PasswordUtil.java:31-35 | true exactly when the expected hash is present, non-blank and equal to the recomputed hash up to case |
| PasswordUtil.PasswordMatchesSpec | src/utils/PasswordUtil.java:25-35 | a stored hash of (p, s) verifies (p, s); a null or blank hash verifies nothing; a matching hash has twice the digest's length; null and "" are interchangeable for password and salt |
| SessionManager.RolesSpec | src/utils/SessionManager.java:40-46 | isAdmin holds exactly for "admin" and isUser exactly for "user" in any mix of cases; no role is both, and a null role is neither |
| SessionManager.Session.constructor | src/utils/SessionManager.java:4-6 | nobody is signed in at start: id −1, null name and role |
| SessionManager.Session.Login | src/utils/SessionManager.java:8-12 | stores the three values as given; signed in exactly when the id is positive; never admin and user at once |
| SessionManager.Session.Logout | src/utils/SessionManager.java:14-18 | back to −1, null, null: signed out, neither admin nor user |
| SessionManager.Session.SetUsername | src/utils/SessionManager.java:28-30 | changes only the user name |
| ImageCache.InsertFresh | src/utils/ImageCache.java:33 | putting a new key grows the map by one |
| ImageCache.LookupSpec | src/utils/ImageCache.java:18-70 | getImage never overwrites or evicts an entry and keeps the cache within 50 entries plus the placeholder; a null or blank url returns the placeholder entry; a hit returns the stored image and changes nothing; a miss that loads returns the image and stores it exactly when fewer than 50 entries were held; a miss whose load throws first adds the placeholder entry if missing, returns it, and stores it under the url exactly when fewer than 50 entries are held after that; asking again for a stored url changes nothing |
| ImageCache.FailedLoadAddsPlaceholder | src/utils/ImageCache.java:28-34 | a failed load on 10 entries without the placeholder leaves 12: the placeholder and the url |
| ImageCache.FailedLoadFillsCache | src/utils/ImageCache.java:28-34 | a failed load on 49 entries without the placeholder fills the cache to 50 and the url is not kept |
| ImageCache.Cache.LoadImage | src/utils/ImageCache.java:42-61 | the built image with the cache unchanged, or on an exception the placeholder entry through getPlaceholder |
| ImageCache.Cache.constructor | src/utils/ImageCache.java:12 | the cache starts empty |
| ImageCache.Cache.GetPlaceholder | src/utils/ImageCache.java:65-71 | adds the placeholder entry when missing, whatever the size, and returns the stored entry |
| ImageCache.Cache.GetImage | src/utils/ImageCache.java:18-37 | one Lookup step, keeping the size bound, including the placeholder written by a failed load |
| ImageCache.Cache.ClearCache | src/utils/ImageCache.java:76-78 | the cache becomes empty |
| ImageCache.Cache.GetCacheSize | src/utils/ImageCache.java:83-85 | the number of entries, never above 51 |
| CarDetailsController.NavigationSpec | src/controllers/CarDetailsController.java:729-755 | on an index in range, nextPhoto and previousPhoto stay in range, step by one modulo the gallery size and undo each other |
| CarDetailsController.NextTimesSpec | src/controllers/CarDetailsController.java:744-755 | k presses of nextPhoto move k places round the gallery |
| CarDetailsController.NextTimesRoundTrip | src/controllers/CarDetailsController.java:744-755 | as many presses as there are photos come back to the photo shown |
| CarDetailsController.GallerySpec | src/controllers/CarDetailsController.java:623-635 | loadPhotoGallery shows the car's rows, or, when it has none and a non-empty legacy url, that url alone as a main photo of the car; the gallery is empty only without both |
| CarDetailsController.FlagOnly | src/controllers/CarFormController.java:293-299 | one flagged pair per file, in the files' order |
| CarDetailsController.FlagOnlySpec | src/controllers/CarFormController.java:279-299 | with the flag on the file at an index in range, that file is the last one flagged main; with an index out of range none is |
| CarDetailsController.AddPhotoAsWrittenLastMain | src/controllers/CarDetailsController.java:774-782 | as written, adding two or more photos to an empty gallery leaves the first one unflagged and the last one main |
| CarDetailsController.AddPhotoFlagsSpec | src/controllers/CarDetailsController.java:774-782 | as intended, the first added photo is the car's only main photo when the gallery was empty, and no added photo is main (and no old row changes) otherwise |
| CarDetailsController.UpdateStarButtons | src/controllers/CarDetailsController.java:122-132 | star i is drawn filled exactly when i is below the rating |
| CarDetailsController.ClickedRating | src/controllers/CarDetailsController.java:141-149 | one more than the first star matching the clicked button, 0 when none matches |
| CarDetailsController.CheckedCommentSpec | src/controllers/CarDetailsController.java:215-226 | a comment is accepted exactly when its trimmed text has 1..1000 characters; what is sent is the trimmed text, starting and ending with a character above U+0020; an all-blank comment is refused |
| CarDetailsController.DeleteButtonAgreesWithService | src/controllers/CarDetailsController.java:191-198 | whenever the delete button is shown, deleteComment with the same user and admin flag selects that comment's row |
| CarDetailsController.EmailSplitChars | src/controllers/CarDetailsController.java:938-942 | an address the pattern splits has no white space and its only '@' is the split one |
| CarDetailsController.EmailExamples | src/controllers/CarDetailsController.java:938-942 | user@mail.com is accepted; user@mail, @mail.com, null and "" are not |
| CarDetailsController.IsValidEmailSpec | src/controllers/CarDetailsController.java:938-942 | the pattern splits an address at most one way at the '@'; a valid address has at least six characters and no white space |
| CarDetailsController.FieldErrorsSpec | src/controllers/CarDetailsController.java:349-392 | each field check reports exactly one message when it fails and none when it passes |
| CarDetailsController.ReservationErrorsSpec | src/controllers/CarDetailsController.java:340-399 | the reservation form is accepted exactly when name, phone digits, e-mail and date all pass, and otherwise reports one message per failing field |
| CarDetailsController.PurchaseErrorsSpec | src/controllers/CarDetailsController.java:522-576 | the same for the purchase form, with a chosen payment method in place of the date |
| CarDetailsController.BlankNameIsMissing | src/controllers/CarDetailsController.java:335-352 | an all-blank name is trimmed to "" and reported first, as missing |
| CarDetailsController.PaymentChoicesAreNotCodes | src/controllers/CarDetailsController.java:479 | the purchase form stores the combo box's label, which neither Purchase nor the admin screen recognises as a payment code, so both show it unchanged |
| CarDetailsController.CarDetailsView.constructor | src/controllers/CarDetailsController.java:64-67 | a fresh page holds the car, an empty gallery and index 0 |
| CarDetailsController.CarDetailsView.LoadPhotoGallery | src/controllers/CarDetailsController.java:623-635 | the gallery becomes Gallery of the car's ordered rows (none on failure); the shown index is kept |
| CarDetailsController.CarDetailsView.PreviousPhoto | src/controllers/CarDetailsController.java:729-739 | nothing on an empty gallery, otherwise one step back with wrap-around |
| CarDetailsController.CarDetailsView.NextPhoto | src/controllers/CarDetailsController.java:744-754 | nothing on an empty gallery, otherwise one step forward with wrap-around |
| CarDetailsController.CarDetailsView.SelectThumbnail | src/controllers/CarDetailsController.java:716-719 | a click on a thumbnail shows that photo |
| CarDetailsController.CarDetailsView.AddPhoto | src/controllers/CarDetailsController.java:759-789 | as written: non-admins are refused and no choice adds nothing; otherwise the chosen files are appended in order, each flagged main exactly when the gallery was empty, and the gallery is reloaded |
| CarDetailsController.CarDetailsView.AddPhotoIntended | src/controllers/CarDetailsController.java:759-789 | as intended: the same guards and reload, with only the first chosen file flagged main and only when the gallery was empty |
| CarDetailsController.CarDetailsView.SetMainPhoto | src/controllers/CarDetailsController.java:794-819 | refused for non-admins, without a photo in range and when the shown photo is already main; otherwise setMainImage on it, reporting success exactly when the row exists |
| CarDetailsController.CarDetailsView.DeleteShownPhoto | src/controllers/CarDetailsController.java:840-856 | deleteImage on the shown photo; on success the index steps back unless it was 0 |
| CarDetailsController.CarDetailsView.DeletePhoto | src/controllers/CarDetailsController.java:824-857 | refused for non-admins, without a photo in range and for the only photo; an unconfirmed dialog changes nothing; only a gallery of two or more ever loses a photo |
| CarDetailsController.CarDetailsView.RateCar | src/controllers/CarDetailsController.java:135-157 | signed-out users and clicks on no star change nothing; otherwise setRating with one more than the first matching star |
| CarDetailsController.CarDetailsView.AddComment | src/controllers/CarDetailsController.java:209-236 | for a signed-in user whose trimmed text passes the guard, addComment with that text; nothing is sent otherwise |
| CarDetailsController.CarDetailsView.SubmitReservation | src/controllers/CarDetailsController.java:263-442 | signed-out users and a form with errors store nothing; otherwise one reservation with the trimmed fields, the picked day's start and the notes is appended when the insert succeeds |
| CarDetailsController.CarDetailsView.SubmitPurchase | src/controllers/CarDetailsController.java:443-622 | the same for a purchase, at the car's price and with the chosen payment text |
| AdminOrdersController.ParseStatus | src/controllers/AdminOrdersController.java:449-457 | a string names a screen status only when it is that status's code |
| AdminOrdersController.ParsePaymentMethod | src/controllers/AdminOrdersController.java:459-467 | a string names a screen payment method only when it is that method's code |
| AdminOrdersController.TranslateSpec | src/controllers/AdminOrdersController.java:449-467 | translateStatus and translatePaymentMethod relabel exactly their four codes and pass anything else through; a null payment method has no translation |
| AdminOrdersController.VocabularyMismatch | src/controllers/AdminOrdersController.java:449-467 | the screen's "confirmed" is unknown to Reservation (shown raw there), "approved" and "paid" are unknown to the screen, and the two sides agree only on the cash and card payment codes |
| AdminOrdersController.ActionsVisibleSpec | src/controllers/AdminOrdersController.java:156 | buttons show exactly on pending and confirmed rows: a confirmed reservation keeps them; completed, cancelled and paid rows lose them |
| AdminOrdersController.ShownSpec | src/controllers/AdminOrdersController.java:308-330 | "all" shows the loaded list itself; any other filter shows exactly the loaded rows with that status, every copy of each |
| AdminOrdersController.SelectedFilterSpec | src/controllers/AdminOrdersController.java:292-303 | the first selected toggle in screen order chooses the filter, which is "all" or a screen status; no selection chooses nothing |
| AdminOrdersController.AdminOrdersView.constructor | src/controllers/AdminOrdersController.java:74-78 | starts on reservations with filter "all" and empty lists, the tables and label consistent |
| AdminOrdersController.AdminOrdersView.UpdateTotalLabel | src/controllers/AdminOrdersController.java:332-335 | the label counts the active table's rows; nothing else changes |
| AdminOrdersController.AdminOrdersView.ApplyFilter | src/controllers/AdminOrdersController.java:308-330 | refills only the active table with the shown rows and recounts |
| AdminOrdersController.AdminOrdersView.LoadData | src/controllers/AdminOrdersController.java:231-244 | both loaded lists become the service's lists; view and filter are kept |
| AdminOrdersController.AdminOrdersView.ShowReservations | src/controllers/AdminOrdersController.java:256-271 | switches to reservations, keeping the filter and the loaded lists |
| AdminOrdersController.AdminOrdersView.ShowPurchases | src/controllers/AdminOrdersController.java:273-290 | switches to purchases, keeping the filter and the loaded lists |
| AdminOrdersController.AdminOrdersView.FilterByStatus | src/controllers/AdminOrdersController.java:292-306 | the filter becomes the first selected toggle's, or stays with none selected; the table is refilled |
| AdminOrdersController.AdminOrdersView.UpdateReservationStatus | src/controllers/AdminOrdersController.java:405-424 | only a confirmed dialog sends the status; a success reloads both lists from the updated store, or empties them when the reload's queries fail, and leaves the view consistent; the filter and the active view are kept; a cancelled dialog, a failed update or an unknown id leaves the view as it was, and the store changes only when the dialog is confirmed and the database answers |
| AdminOrdersController.AdminOrdersView.UpdatePurchaseStatus | src/controllers/AdminOrdersController.java:426-445 | the same for purchases: the reload (or the emptied lists) on success, the kept filter and view, and the view unchanged otherwise |
| AdminOrdersController.AdminOrdersView.Refresh | src/controllers/AdminOrdersController.java:248-252 | both lists are cleared and refilled from the store's ordered joins, so a failed query leaves both empty; the filter and the active view are kept, and the active table is refilled consistently |
| CarHubController.SortCycle | src/controllers/CarHubController.java:475-495 | one press moves a sort state 0 → 1 → −1 → 0 (Java's remainder), so three presses restore it |
| CarHubController.DirectedSpec | src/controllers/CarHubController.java:521-538 | the comparator state * compare(key, key) sorts the key ascending for 1 and descending for −1, keeping the same cars |
| CarHubController.ArrangedSpec | src/controllers/CarHubController.java:521-543 | applySorting shows the same cars, ordered by price when its state is set, else by year, else by mileage (a null year or mileage as 0), in the state's direction; with every state 0 the filtered order is kept |
| CarHubController.FilterCarSpec | src/controllers/CarHubController.java:269-276 | the empty query matches every car, and any piece of a car's name, model or brand, lower-cased, finds it |
| CarHubController.LexLeTotal | src/controllers/CarHubController.java:129-135 | String.compareTo orders any two strings |
| CarHubController.LexLeTransitive | src/controllers/CarHubController.java:129-135 | String.compareTo's order is transitive |
| CarHubController.InsertLex | src/controllers/CarHubController.java:129-135 | inserting into a sorted list keeps it sorted and adds exactly that element |
| CarHubController.SortLex | src/controllers/CarHubController.java:129-135 | Stream.sorted yields a sorted permutation |
| CarHubController.NamedBrandsSpec | src/controllers/CarHubController.java:130-132 | the mapped and filtered stream holds exactly the non-null, non-blank brands of the cars |
| CarHubController.BrandChoicesSpec | src/controllers/CarHubController.java:127-148 | the brand list starts with "Все бренды", then each named brand of the cars once, ascending, and nothing else |
| CarHubController.OldFiltersStricter | src/controllers/CarHubController.java:388-421 | a car the old brand and year controls pass, the new ones pass too (equals against equalsIgnoreCase; a car without a year fails an old bound but passes a new one) |
| CarHubController.FiltersDiffer | src/controllers/CarHubController.java:388-421 | a "BMW" car passes the new brand filter "bmw" but not the old one, and a car without a year passes a new lower bound of 2000 but not the old one |
| CarHubController.PassesAll | src/controllers/CarHubController.java:125 | the initial predicate c -> true passes every loaded car |
| CarHubController.ParseYearBoundSpec | src/controllers/CarHubController.java:327-345 | a year field is no bound exactly when trim empties it, a bound is a 32-bit int, and text such as "20x5" is refused |
| CarHubController.ReadPanelSpec | src/controllers/CarHubController.java:327-365 | a warning is raised exactly when some field is malformed, the earliest malformed field's warning wins, and a year bound is set exactly when its field parses |
| CarHubController.CarHubView.constructor | src/controllers/CarHubController.java:103-166 | the loaded cars, the brand list, the pass-all predicate, every sort state 0 and every car on a card |
| CarHubController.CarHubView.ApplySorting | src/controllers/CarHubController.java:521-543 | the cards become the arranged filtered cars; no other field changes |
| CarHubController.CarHubView.ResetOtherSorts | src/controllers/CarHubController.java:511-519 | every sort state but the kept one becomes 0 |
| CarHubController.CarHubView.SortByPrice | src/controllers/CarHubController.java:473-480 | the other states go to 0, the price state moves one step round its cycle, and the cards show the filtered cars arranged by it |
| CarHubController.CarHubView.SortByYear | src/controllers/CarHubController.java:483-490 | the same for the year state |
| CarHubController.CarHubView.SortByMileage | src/controllers/CarHubController.java:493-500 | the same for the mileage state |
| CarHubController.CarHubView.ResetSort | src/controllers/CarHubController.java:503-509 | every state becomes 0 and the cards show the filtered cars in load order |
| CarHubController.CarHubView.ApplyFilters | src/controllers/CarHubController.java:316-470 | as written: a malformed field only warns and changes nothing; otherwise the new predicate is installed, the count is the filtered size, and the cards end up showing the filtered cars in load order |
| CarHubController.CarHubView.ApplyFiltersSorted | src/controllers/CarHubController.java:316-470 | as intended: the same, with the cards keeping the active sort |
| CarHubController.FilterRedrawDropsSort | src/controllers/CarHubController.java:448-454 | with the price sort ascending and the dearer of two cars loaded first, the cards applyFilters draws are not in ascending price, while the arranged list is |
| CarHubController.TwoSortedAscending | src/controllers/CarHubController.java:521-524 | sorting two cars ascending by price puts the cheaper first |
| CarFormController.FirstFailureSpec | src/controllers/CarFormController.java:178-220 | the early-return chain passes exactly when every check passes, and otherwise reports the error of a failing check |
| CarFormController.FirstFailureAt | src/controllers/CarFormController.java:178-220 | the chain reports the first failing check's error when every earlier check passed |
| CarFormController.SaveCarCheckSpec | src/controllers/CarFormController.java:178-220 | saveCar's validation lets a form through exactly when the name has 2..100 and the model 1..50 trimmed characters, the price is a positive number, and each non-blank optional field is valid (brand 2..50, year 1900..2030, mileage 0..999999, description at most 500 characters) |
| CarFormController.SaveCarCheckOrder | src/controllers/CarFormController.java:178-198 | an empty name is reported as empty and a one-character name as too short, and with name and model valid an invalid price is reported before any optional field |
| CarFormController.BlankOptionalSkipped | src/controllers/CarFormController.java:202-217 | a blank brand, year, mileage or description gives the same outcome as a null one |
| CarFormController.EmptyToNull | src/controllers/CarFormController.java:320-322 | null exactly for a null or blank text, the text itself otherwise |
| CarFormController.EmptyToNullIdempotent | src/controllers/CarFormController.java:320-322 | applying emptyToNull twice is applying it once |
| CarFormController.ValuesOf | src/controllers/CarFormController.java:223-245 | the values a validated form writes lie in the ranges the checks enforce, and year and mileage are null exactly when their fields are blank |
| CarFormController.ChosenMain | src/controllers/CarFormController.java:279-290 | the index chosen is 0 or a row index |
| CarFormController.ChosenMainSpec | src/controllers/CarFormController.java:279-290 | with a box ticked, the chosen row is ticked and no later row is; with none ticked it is 0 |
| CarFormController.SavedPhotosSpec | src/controllers/CarFormController.java:279-299 | saving appends one row per photo in list order, and among the car's new rows exactly the chosen photo's row is main |
| CarFormController.CarFormView.constructor | src/controllers/CarFormController.java:42 | the form starts with no photos |
| CarFormController.CarFormView.UpdatePhotosList | src/controllers/CarFormController.java:114-166 | one row per photo, only the first row's box ticked |
| CarFormController.CarFormView.AddPhotos | src/controllers/CarFormController.java:98-112 | a cancelled or empty choice changes nothing; otherwise the files are appended and the rows rebuilt with only the first box ticked |
| CarFormController.CarFormView.RemovePhoto | src/controllers/CarFormController.java:156-159 | the photo at the row's index leaves the list, the others keep their order, and the rebuilt rows tick the first box and clear every other one |
| CarFormController.CarFormView.ClickMain | src/controllers/CarFormController.java:141-153 | a click flips the row's box and clears every other box, so the chosen index is that row or 0 |
| CarFormController.CarFormView.MainPhotoIndex | src/controllers/CarFormController.java:279-290 | the loop finds the chosen index |
| CarFormController.CarFormView.SavePhotos | src/controllers/CarFormController.java:278-299 | with photos pending, addImage once per photo in list order, flagged main exactly at the chosen index |
| CarFormController.CarFormView.SaveCar | src/controllers/CarFormController.java:170-318 | a rejected form shows its error and writes nothing; without a connection nothing is written; otherwise the photos are saved for the car |
| JavaText.TrimSpec | src/utils/ValidationUtil.java:77-88 | String.trim returns the middle of the text: what it drops at either end is at most U+0020, and it starts and ends with a character above U+0020 |
| JavaText.TrimEmpty | src/utils/ValidationUtil.java:78 | trim empties a text exactly when every character is at most U+0020 |
| JavaText.ToLower | src/controllers/CarHubController.java:379-383 | toLowerCase keeps the length and lower-cases each character |
| JavaText.EqualsIgnoreCaseAscii | src/utils/SessionManager.java:40-46 | against a lower-case ASCII word, equalsIgnoreCase accepts exactly its spellings with each letter in either case |
| JavaText.ContainsLower | src/controllers/CarHubController.java:379-383 | a piece of a text, lower-cased, is contained in the lower-cased text |
| JavaText.JavaRem | src/controllers/CarHubController.java:475 | Java's % takes the sign of the dividend |
| JavaText.ParseInt | src/utils/ValidationUtil.java:38-59 | Integer.parseInt yields a 32-bit int, refuses "" and needs a Unicode decimal digit, read as Character.digit reads it |
| JavaText.AsciiDigit | src/utils/ValidationUtil.java:38-59 | below U+0660 Character.digit accepts exactly '0'..'9', with their values |
| JavaText.DigitNotTrimmable | src/utils/ValidationUtil.java:38-59 | a decimal digit is never a character that trim removes |
| JavaText.ArabicIndicDigits | src/utils/ValidationUtil.java:38-59 | Integer.parseInt reads Arabic-Indic digits as decimal digits, so the two-digit text for 20 parses to 20 |
| JavaText.ParseIntToString | src/utils/ValidationUtil.java:38-59 | parsing what Integer.toString printed gives the int back |
| CarImagesService.ImagesOf | src/services/CarImagesService.java:21 | WHERE car_id = ?: only the car's rows, each at most as often as stored |
| CarImagesService.MainOtherSplit | src/services/CarImagesService.java:21 | splitting the car's rows by is_main loses and duplicates nothing |
| CarImagesService.AddedInOrder | src/controllers/CarFormController.java:293-299 | adding photos one by one grows the table by one row per photo |
| CarImagesService.LastMain | src/controllers/CarFormController.java:293-299 | the last photo flagged main is flagged, and no later one is |
| ReservationsService.ReservationStatusSet | src/services/ReservationsService.java:102 | the update keeps the number of rows |
| ReservationsService.PurchaseStatusSet | src/services/ReservationsService.java:199-201 | the update keeps the number of rows |
| ReservationsService.ListingsOrdered | src/services/ReservationsService.java:77-82 | a newest-first arrangement of listings of one status keeps that status throughout |
| FavoritesService.RemovedSpec | src/services/FavoritesService.java:37-53 | after removing, the pair has no row; the user's count and the table's size drop by the pair's copies |
| CommentsService.JoinedAtMostCount | src/services/CommentsService.java:44-71 | getCommentsByCar lists no more comments than getCommentsCount counts |
| StatisticsService.BrandKeysCount | src/services/StatisticsService.java:82-86 | a non-empty brand occurs among the grouped keys as often as cars have it |
| StatisticsService.YearKeysCount | src/services/StatisticsService.java:257-261 | a year occurs among the grouped keys as often as cars have it |

## Left out

- JDBC plumbing (`DatabaseConnection`, drivers, statements, result sets): each statement is a method on a table class, and the `up` parameter says whether the connection and the statement succeeded for the whole call. A failure part-way through a call (for example `setMainImage`'s update failing after its reset, or `resetMainFlag` swallowing its own error) is not modelled, because the calls are modelled as atomic.
- `AdminOrdersController.AdminOrdersView.Refresh`: `loadData`'s two reads share one `up`, so a reload in which only one of the two queries fails is not modelled.
- Concurrency and timing (separate connections per call, `Platform.runLater`, threads): operations are modelled one after another.
- SQL `ORDER BY` ties: the database may return equal keys in any order; the model uses one stable sort, and the contracts state only sortedness and the multiset of rows.
- Joins against the `Cars` and `users_secure` tables are modelled as name maps (`carNames`, `userNames`); `getFavoritesCars` takes a snapshot of the cars.
- Database defaults (initial status, `created_at`, `purchase_date`) come from a schema that is not part of the source; inserts take them as `now` and the status as given.
- Floating point: prices are `int`; `Double.parseDouble` is a parameter `parseDouble: string -> Option<real>`; `String.valueOf(price)` in the search is a parameter `priceText: int -> string`. `getAverageRating`, `getAveragePrice` and `getAverageMileage` (SQL `AVG` over doubles), the star rounding and the price formatter are not modelled.
- `StatisticsService`'s detail lists (`getFavoritesDetails` and the rest) and `extractCarFromResultSet`'s column probe are display glue and are not modelled.
- `FavoritesService.FavoriteCarsSpec`: `getFavoritesCars` probes the result set for the brand, year, mileage, description and image columns; the model takes the `Cars` table to have them, so the branch that builds a car from id, name, model and price alone, without the main-photo lookup, is not modelled.
- `StatisticsService.Tally`: brands and years are grouped by exact equality of values; SQL Server's default collation groups brands without regard to case or trailing spaces, and compares `brand <> ''` the same way, which the model does not capture.
- `StatisticsService.TopBrands`: a negative `TOP` limit is an SQL error in the database, modelled as an empty result.
- Strings are sequences of Unicode scalar values; Java counts lengths in UTF-16 units, which differ only for characters outside the Basic Multilingual Plane.
- `JavaText.ParseInt`: the digits Character.digit accepts are the 37 blocks of Unicode 15 decimal digits in the Basic Multilingual Plane; a Java runtime with an older or newer Unicode table may differ.
- `JavaText.ToLowerChar` and `JavaText.ToUpperChar` map only ASCII and the basic Cyrillic block (U+0400–U+045F); other scripts are left unchanged.
- `PasswordUtil`: SHA-256 (FIPS 180-4), the UTF-8 encoding before it and `SecureRandom` are parameters (`digest`, `rng`); the `RuntimeException` for a missing algorithm is not modelled.
- `ImageCache`: building an `Image` (the resource lookup and the constructor) is the parameter `load`, with None for a constructor that throws; the catch branch and its write of the placeholder entry are modelled.
- `ValidationUtil.isValidUrl` (a regular expression) is not modelled; the e-mail pattern of `CarDetailsController.isValidEmail` is written out by hand.
- `ValidationUtil.IsValidPriceIsNumber`: the numeric value of a price is whatever `parseDouble` returns, so only the structure of `isValidPrice` is stated.
- `CarHubController`:
  - the table view (its column sorting and the search listener that re-runs `applyFilters`) is not modelled;
  - button captions, the years combo's contents, `resetFilters`/`clearFilters`, the counters' label text and the card rendering are not modelled;
  - every optional FXML control is taken as present, and the old price fields are read as text;
  - the search text is captured when `applyFilters` runs, while the Java predicate reads the field each time the list is re-evaluated;
  - the reflection used to open forms is not modelled.
- `CarHubController.FilterCarSpec`: states that every piece of a name, model or brand finds its car; the printed-price part of `filterCar` depends on the `priceText` parameter and is stated only in the definition.
- `CarDetailsController`:
  - dialogs, alerts, the comment list's rendering, `loadRating`'s average and `saveReservationToFile`/`savePurchaseToFile` (file I/O) are not modelled;
  - dates are day numbers and `atStartOfDay` is `day * 86400`;
  - the form validation appends to a `StringBuilder` with a flag; the model builds the same messages as a sequence (`ReservationErrors`, `PurchaseErrors`, `ErrorText`).
- `CarDetailsController.CarDetailsView.DeleteShownPhoto`: requires an index in range, which `DeletePhoto` has checked before the dialog.
- `CarFormController`:
  - the `INSERT`/`UPDATE` of the `Cars` row is not modelled: the new or edited car's id is the parameter `carId`, and the values written are `ValuesOf`;
  - `loadExistingPhotos` and the editing mode are not modelled;
  - files are their URI strings;
  - the `NumberFormatException` branch of `saveCar` cannot be reached after the checks and is not modelled.
- `AdminOrdersController`: the details dialogs, cell factories and navigation are not modelled; the dialog's answer is the parameter `dialogOk`.
- `ExportUtil`: the CSV and text writers are file I/O; only `escapeCSV` is modelled.
- Account screens (login, registration, profile, user management), `LoggerUtil`, `NotificationUtil` and the other JavaFX screens are outside the core.

## Findings

| source | as written | input that shows it | evidently intended | confidence | as-written member | corrected member |
|---|---|---|---|---|---|---|
| src/controllers/CarDetailsController.java:774-782 | `isMain = carImages.isEmpty()` is read inside the loop, but the gallery is reloaded only after it, so every chosen file is added with `isMain = true`; each `addImage(…, true)` clears the flags set by the one before | an empty gallery and two chosen files: the first file ends up not main and the last one main | the first chosen file becomes the only main photo ("Первое фото - главное") | high, not executed | CarDetailsController.AddPhotoAsWrittenLastMain, CarDetailsController.CarDetailsView.AddPhoto | CarDetailsController.AddPhotoFlagsSpec, CarDetailsController.CarDetailsView.AddPhotoIntended |
| src/controllers/CarHubController.java:448-454 | `applySorting()` draws the sorted cards, and then `updateCardsView(filteredCars)` redraws them from the unsorted filtered list | price sort ascending, cars loaded as (price 20, price 10), then any filter: the cards show 20 before 10 | the cards keep the active sort after filtering | medium, not executed | CarHubController.CarHubView.ApplyFilters, CarHubController.FilterRedrawDropsSort | CarHubController.CarHubView.ApplyFiltersSorted, CarHubController.ArrangedSpec |
