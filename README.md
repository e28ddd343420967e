# Museum API — a Dafny model of its core

The museum application keeps users (with one optional profile each),
confirmation codes, artists, paintings, museums and exhibitions (the join of
artists and museums) in an Entity Framework database. This project models
four parts of it in Dafny and proves what they promise:

- **The paintings endpoints** (`Paintings.dfy`). The read endpoints are
  pure LINQ pipelines over the paintings and artists tables: the paged
  listing, the title and artist-name autocompletes, and the creation-year
  filter. The write endpoints PUT, POST and DELETE are methods of a
  `PaintingsController` class that holds the tables and changes the
  paintings table in place.
- **The database context's rules** (`Schema.dfy`). These are the primary
  keys (a profile is keyed by its user, an exhibition by its
  (artist, museum) pair), the unique user names and confirmation codes, the
  required references, and the optional owner references. They are gathered
  in `Wellformed`. Inserting a profile or an exhibition applies the column
  defaults: page preference 5, and dates set to the insertion instant.
  Deleting a user sets every owner reference to it to null.
- **The seed-data generator** (`Seeding.dfy`). Users are seeded with
  retried unique names and get their profiles. Artists, paintings and
  museums are seeded by rules whose random values are fixed once per run.
  Exhibitions are seeded with retried unique (artist, museum) pairs.
  Start-up returns before seeding anything. The retry loops are proved
  against one reference run, `RedrawRun`, over the stream of candidates:
  each loop takes the first unused candidate among the 1 000 002 it may
  read, and the run fails exactly where one loop finds them all used.
- **The page bar of the artists and exhibitions lists** (`Pager.dfy`). This
  covers the window of page buttons and the "1 ..." and "... N" shortcuts,
  row numbering, and a `ListView` class. `ListView` holds `pageIndex`,
  `pageSize` and `totalPages` and implements the click, previous and next
  handlers.

`Common.dfy` holds the shared pieces:

- `Option`/`Result`.
- The LINQ operators Where, Select, Skip and Take over a table kept in
  insertion order, with lemmas about keys and slices.
- C#'s `String.Contains`.
- 32-bit wrap-around.

Each table is a sequence of rows in insertion order. Nullable columns are
`Option`. Random draws, the fake-data library's records, the painting
validator and `ToLower` are function parameters.

## Model

| member | source | states |
|---|---|---|
| `Common.WhereKeepsUnique` | Backend/MuseumAPI/Context/MuseumContext.cs:32-38 | removing rows from a table never breaks a key or a unique index |
| `Common.PagesArePrefix` | Backend/MuseumAPI/Controllers/PaintingsController.cs:46-50 | pages 0..count-1 of one size, read in order, are exactly the first count*size rows: consecutive, not overlapping, none skipped |
| `Common.WrapInt32` | Backend/MuseumAPI/Controllers/PaintingsController.cs:47 | the `int` product `page * pageSize` is reduced into the signed 32-bit range, is congruent to the exact product, and is unchanged when it fits |
| `Schema.AtMostOneProfile` | Backend/MuseumAPI/Context/MuseumContext.cs:23-24 | with the profile keyed by its user, two profiles of the same user are the same profile |
| `Schema.InsertProfile` | Backend/MuseumAPI/Context/MuseumContext.cs:23-29 | a profile insert is refused exactly when its user is missing or already has a profile; otherwise one row is appended |
| `Schema.InsertProfileKeepsWellformed` | Backend/MuseumAPI/Context/MuseumContext.cs:26-29 | a profile inserted without a page preference stores 5, and the insert keeps every rule of the context |
| `Schema.InsertExhibition` | Backend/MuseumAPI/Context/MuseumContext.cs:56-73 | a second exhibition for the same (artist, museum) pair is refused, and an insert succeeds exactly when the pair is new and the artist, the museum and the owner exist |
| `Schema.InsertExhibitionOnce` | Backend/MuseumAPI/Context/MuseumContext.cs:70-72 | missing dates are the insertion instant, the insert keeps every rule, and inserting the same pair again is refused |
| `Schema.DeleteUser` | Backend/MuseumAPI/Context/MuseumContext.cs:41-45 | a user is deleted exactly when the user exists and has no profile, because the profile's reference is its key and cannot be set to null; afterwards the user is gone |
| `Schema.DeleteUserSetsNull` | Backend/MuseumAPI/Context/MuseumContext.cs:76-104 | deleting a user removes only that user; every code, artist, painting, museum and exhibition stays, with its owner cleared exactly where it was that user |
| `Schema.DeleteUserKeepsWellformed` | Backend/MuseumAPI/Context/MuseumContext.cs:76-104 | deleting a user keeps every key, index and reference rule, so no row is left owned by a missing user |
| `Paintings.GetPaintingPagination` | Backend/MuseumAPI/Controllers/PaintingsController.cs:41-51 | the paged listing returns at most pageSize paintings (none for a negative size) |
| `Paintings.PagedListing` | Backend/MuseumAPI/Controllers/PaintingsController.cs:46-50 | the listing with an exact offset: at most pageSize paintings, each from the table, none past the end |
| `Paintings.PaginationIsSlice` | Backend/MuseumAPI/Controllers/PaintingsController.cs:46-50 | while page*pageSize fits in 32 bits, the listing is the slice page*pageSize .. page*pageSize+pageSize of the table, cut at its end |
| `Paintings.PagedListingConcatenates` | Backend/MuseumAPI/Controllers/PaintingsController.cs:46-50 | reading pages 0..count-1 in turn yields the first count*pageSize paintings in table order, each once |
| `Paintings.PaginationOverflowRepeatsFirstPage` | Backend/MuseumAPI/Controllers/PaintingsController.cs:47 | page 65536 of size 65536 should be empty, yet the listing returns the first page |
| `Paintings.AutocompleteTitle` | Backend/MuseumAPI/Controllers/PaintingsController.cs:76-89 | NotFound exactly for queries shorter than 3; otherwise at most 10 paintings, each with a title whose lower-cased form contains the lower-cased query, and all such paintings when fewer than 10 are returned |
| `Paintings.AutocompleteTitleIgnoresLaterRows` | Backend/MuseumAPI/Controllers/PaintingsController.cs:85-87 | the suggestions are the first 10 matches in table order: rows after them do not change the answer |
| `Paintings.AutocompletePaintingArtist` | Backend/MuseumAPI/Controllers/PaintingsController.cs:92-105 | the same contract on artists' first names, answering artist projections |
| `Paintings.AutocompleteArtistIgnoresLaterRows` | Backend/MuseumAPI/Controllers/PaintingsController.cs:101-103 | the artist suggestions are the first 10 matches in table order |
| `Paintings.GetPaintingsByCreationYear` | Backend/MuseumAPI/Controllers/PaintingsController.cs:233-241 | at most 100 paintings, all created strictly after the year, and all such paintings when fewer than 100 are returned |
| `Paintings.FilterIgnoresLaterRows` | Backend/MuseumAPI/Controllers/PaintingsController.cs:240 | the filtered paintings are the first 100 matches in table order |
| `Paintings.ApplyDTOReadsBack` | Backend/MuseumAPI/Controllers/PaintingsController.cs:138-146 | after a PUT the painting reads back as the request under its own id and keeps its owner; PUTting a painting's own projection changes nothing |
| `Paintings.NewPaintingReadsBack` | Backend/MuseumAPI/Controllers/PaintingsController.cs:191-201 | a POSTed painting reads back as the request except for the assigned id and the height, which is not copied and stays 0; it has no owner |
| `Paintings.PaintingsController.constructor` | Backend/MuseumAPI/Controllers/PaintingsController.cs:21-25 | the controller starts over the context's paintings and artists tables with unique painting keys |
| `Paintings.PaintingsController.PutPainting` | Backend/MuseumAPI/Controllers/PaintingsController.cs:109-165 | checks in order: id mismatch gives BadRequest, missing painting gives NotFound, missing artist gives BadRequest, validator errors give BadRequest("ERROR:\n" + errors), each leaving the table as it was; on success only the painting with that id changes, to the request's fields, and keys and artist references are kept |
| `Paintings.PaintingsController.PostPainting` | Backend/MuseumAPI/Controllers/PaintingsController.cs:169-207 | a missing artist or failing validation adds nothing; otherwise exactly one painting is appended under a fresh id and Created returns its projection |
| `Paintings.PaintingsController.DeletePainting` | Backend/MuseumAPI/Controllers/PaintingsController.cs:211-229 | NotFound exactly when the id is absent, leaving the table as it was; otherwise the painting with that id is cut out of the table and the other rows keep their order |
| `Seeding.PickId` | Backend/MuseumAPI/Utils/SeedData.cs:90 | a random element of the id list, which fails on an empty list |
| `Seeding.RunOwner` | Backend/MuseumAPI/Utils/SeedData.cs:99 | the run's owner is the given user id, or else one drawn from the existing users; it fails only when none is given and there are no users |
| `Seeding.FirstFree` | Backend/MuseumAPI/Utils/SeedData.cs:46-53 | a redraw loop finds a position inside its window of StackOverflowLoops + 2 candidates, and the candidate there is not used |
| `Seeding.FirstFreeIsFirst` | Backend/MuseumAPI/Utils/SeedData.cs:46-53 | every candidate before the one found is used, and nothing is found exactly when every candidate of the window is used |
| `Seeding.FirstFreeAt` | Backend/MuseumAPI/Utils/SeedData.cs:183-191 | a free candidate that only used candidates precede is the one the loop finds |
| `Seeding.RedrawRun` | Backend/MuseumAPI/Utils/SeedData.cs:42-57 | the reference run of n redraw loops never reports an empty id list; completed, it holds n items (none for negative n); failed, it accepted fewer than n |
| `Seeding.RedrawRunSound` | Backend/MuseumAPI/Utils/SeedData.cs:42-57 | the items of a completed run are neither used before it nor repeated |
| `Seeding.RedrawRunExhausted` | Backend/MuseumAPI/Utils/SeedData.cs:46-50 | a run fails only at a loop whose 1 000 002 candidates are all used, before the run or by the items it accepted before that loop |
| `Seeding.RedrawRunFails` | Backend/MuseumAPI/Utils/SeedData.cs:46-50 | conversely, when the first loop's 1 000 002 candidates are all used, the run fails there with nothing accepted |
| `Seeding.RedrawRunFresh` | Backend/MuseumAPI/Utils/SeedData.cs:42-57 | when the first n candidates are unused and pairwise distinct, nothing is redrawn: the run completes with exactly those candidates |
| `Seeding.NextUser` | Backend/MuseumAPI/Utils/SeedData.cs:44-53 | one pass of the user loop: the first candidate of the window whose name is not taken, with the fixed password and the Regular access level, and the position after it; it gives up exactly when the whole window is taken |
| `Seeding.DrawUsers` | Backend/MuseumAPI/Utils/SeedData.cs:36-57 | the users are the reference run over the name stream: success exactly when the run completes, with its names in order; n users (none for negative n) with the fixed password and the Regular access level, names pairwise distinct and not taken; a failure is the "no unique user name" error, where the run is exhausted: at that position the 1 000 002 candidates are all taken by existing users or by the fewer than n users accepted before it; success whenever the first n candidates are fresh |
| `Seeding.ProfilesFor` | Backend/MuseumAPI/Utils/SeedData.cs:67-81 | one profile with page preference 5 per new user id, in order |
| `Seeding.SeedUsersAndProfiles` | Backend/MuseumAPI/Utils/SeedData.cs:29-85 | n users numbered from the next free id, then exactly one profile per new user with its id and page preference 5, and no other table touched; the new users' names are those of the reference run over the existing names, and the run succeeds exactly when that run completes; a failure is the "no unique user name" error, at the position where the run's 1 000 002 candidates are all taken by existing users or by the fewer than n accepted before; success whenever the first n candidates are fresh |
| `Seeding.NewUsersAreTheSaved` | Backend/MuseumAPI/Utils/SeedData.cs:63-65 | the users whose ids were not there before are exactly the inserted ones, in order |
| `Seeding.SavedUsersAreSeeded` | Backend/MuseumAPI/Utils/SeedData.cs:59-60 | saving the drawn users with their profiles is a seeding run |
| `Seeding.SeededUsersUnique` | Backend/MuseumAPI/Utils/SeedData.cs:47-56 | the seeded users keep user ids and user names unique |
| `Seeding.SeededProfilesUnique` | Backend/MuseumAPI/Utils/SeedData.cs:76-81 | the seeded profiles keep one profile per user |
| `Seeding.SeededProfilesResolve` | Backend/MuseumAPI/Utils/SeedData.cs:63-81 | every profile belongs to a user, and every seeded user has a profile with page preference 5 |
| `Seeding.UsersSeededKeepsWellformed` | Backend/MuseumAPI/Utils/SeedData.cs:29-85 | seeding users and profiles keeps every rule of the context |
| `Seeding.SeedArtists` | Backend/MuseumAPI/Utils/SeedData.cs:87-105 | n artists numbered from the next free id, all with the same owner: the given user, or one drawn once; fails exactly when there is no user to draw, n is negative, or rows are saved for a given owner that does not exist |
| `Seeding.SeedArtistsKeepsWellformed` | Backend/MuseumAPI/Utils/SeedData.cs:101-104 | seeding artists keeps every rule of the context |
| `Seeding.SeedPaintings` | Backend/MuseumAPI/Utils/SeedData.cs:107-129 | n paintings, all by the same artist (drawn once, first) and with the same owner (drawn once, second); fails exactly when there is no artist, no user to draw, n is negative, or rows are saved for a given owner that does not exist |
| `Seeding.SeedPaintingsKeepsWellformed` | Backend/MuseumAPI/Utils/SeedData.cs:125-128 | seeding paintings keeps every rule of the context |
| `Seeding.SeedMuseums` | Backend/MuseumAPI/Utils/SeedData.cs:131-148 | n museums numbered from the next free id, all with the same owner; same failure cases as the artists |
| `Seeding.SeedMuseumsKeepsWellformed` | Backend/MuseumAPI/Utils/SeedData.cs:144-147 | seeding museums keeps every rule of the context |
| `Seeding.SelectedKeys` | Backend/MuseumAPI/Utils/SeedData.cs:158-162 | an id list read from a table holds exactly that table's keys |
| `Seeding.PairAt` | Backend/MuseumAPI/Utils/SeedData.cs:180-181 | a candidate pair joins a listed artist and a listed museum |
| `Seeding.PairsExhaustedWindow` | Backend/MuseumAPI/Utils/SeedData.cs:183-187 | the loop giving up at draw position d0 + 2k is the same as the window of the pair stream from its k-th candidate being used up |
| `Seeding.PairFound` | Backend/MuseumAPI/Utils/SeedData.cs:183-191 | a free candidate that only used candidates precede is the one the loop returns, the window is not exhausted, and not every pair is used |
| `Seeding.PairFreeInWindow` | Backend/MuseumAPI/Utils/SeedData.cs:183-187 | a free candidate in the window means the loop does not give up and not every pair of the lists is used |
| `Seeding.PairsAllUsed` | Backend/MuseumAPI/Utils/SeedData.cs:183-187 | when every candidate of the window is used, the loop finds nothing and gives up |
| `Seeding.UniquePair` | Backend/MuseumAPI/Utils/SeedData.cs:178-195 | the returned pair is not among the used pairs, joins a listed artist and museum, and is the first unused candidate of the window from candidate k, returned with its index; an index error exactly when a list is empty; "no unique pair" exactly when the first candidate and its 1 000 001 redraws are all used; a free first candidate is returned without a redraw; when every pair of the lists is used, it fails |
| `Seeding.PairRun` | Backend/MuseumAPI/Utils/SeedData.cs:196-206 | the reference run of the exhibition loop: it reports an empty id list exactly when rows are asked for and a list is empty; completed, it holds n pairs; failed, it accepted fewer than n |
| `Seeding.PairRunExhausted` | Backend/MuseumAPI/Utils/SeedData.cs:183-187 | a failed pair run stops at a window whose 1 000 002 candidates are all used, by existing pairs or by the pairs accepted before it |
| `Seeding.PairRunFresh` | Backend/MuseumAPI/Utils/SeedData.cs:196-206 | when the first n candidates are fresh, the run completes with exactly those pairs |
| `Seeding.PairRunSound` | Backend/MuseumAPI/Utils/SeedData.cs:192-194 | the pairs of a completed run are neither existing pairs nor repeated |
| `Seeding.DrawRow` | Backend/MuseumAPI/Utils/SeedData.cs:196-206 | one pass of the loop: the new row has the next dates, the run's owner and a pair from the lists that neither an existing exhibition nor an earlier row has; an index error exactly when a list is empty; "no unique pair" exactly when the 1 000 002 candidates from the k-th are all used by existing pairs or earlier rows; otherwise the row takes the first free candidate of that window, and the k-th itself when it is free |
| `Seeding.NextRow` | Backend/MuseumAPI/Utils/SeedData.cs:196-206 | a row drawn during the run is the pair the reference run accepts next, and "no unique pair" comes exactly where the run stops |
| `Seeding.DrawRows` | Backend/MuseumAPI/Utils/SeedData.cs:198-206 | the loop's rows carry exactly the reference run's pairs, in order, with the next dates and the owner; it stops with an index error only when a list is empty, or with "no unique pair" where the run is exhausted |
| `Seeding.DrawExhibitions` | Backend/MuseumAPI/Utils/SeedData.cs:164-208 | success exactly when the reference run completes, with its pairs in order: n rows, each with the next dates and the run's owner, with pairs that are pairwise distinct and not among the existing pairs; an index error exactly when rows are asked for and a list is empty; "no unique pair" exactly when the run is exhausted, at a window whose 1 000 002 candidates are all used by existing pairs or by the fewer than n pairs accepted before it; success whenever the candidate stream never repeats and avoids the existing pairs |
| `Seeding.SeedExhibitions` | Backend/MuseumAPI/Utils/SeedData.cs:156-212 | n exhibitions with new, pairwise-distinct pairs of existing artists and museums, all owned by the one owner of the run; an index error exactly when there is no user to draw or rows are asked for with no artist or museum; with an owner, success exactly when the reference run completes (and a given owner exists), with its pairs in order, and "no unique pair" exactly when the run is exhausted, at a window whose 1 000 002 candidates are all used by existing pairs or by pairs accepted before it; a rejected save only for a given owner that does not exist; success whenever there is an owner and the candidate stream never repeats and avoids the existing pairs |
| `Seeding.SavedExhibitionsAreSeeded` | Backend/MuseumAPI/Utils/SeedData.cs:172-175 | saved rows that avoid the existing pairs form a seeding run, and their existence shows that not every pair was taken |
| `Seeding.ExhibitionsSeededKeepsWellformed` | Backend/MuseumAPI/Utils/SeedData.cs:210-211 | seeding exhibitions keeps every rule of the context |
| `Seeding.Initialize` | Backend/MuseumAPI/Utils/SeedData.cs:214-218 | start-up opens the context, whose `EnsureCreated` adds no rows, and returns before any seeding, leaving every table as it was |
| `Pager.Window` | MuseumAPI-frontend/src/components/artists/AllArtists.tsx:25-36 | pages 1..8 when pageIndex <= 4; pageIndex-2 .. pageIndex+4 in the middle; totalPages-7 .. totalPages near the end |
| `Pager.Buttons` | MuseumAPI-frontend/src/components/artists/AllArtists.tsx:287-290 | consecutive page numbers from startPage to endPage, and none when the length is negative |
| `Pager.ButtonsAreTheRange` | MuseumAPI-frontend/src/components/exhibitions/AllExhibitions.tsx:196-199 | a page has a button exactly when it lies between startPage and endPage |
| `Pager.WindowContainsCurrentPage` | MuseumAPI-frontend/src/components/exhibitions/AllExhibitions.tsx:71-82 | for any page of the list, the current page has a numbered button |
| `Pager.WindowSize` | MuseumAPI-frontend/src/components/artists/AllArtists.tsx:27-35 | 8 buttons at the start and near the end; 7 in the middle, with the current page fourth and 3 buttons on either side |
| `Pager.FirstPageShownOnce` | MuseumAPI-frontend/src/components/artists/AllArtists.tsx:270-286 | the "1 ..." shortcut appears exactly when page 1 has no numbered button |
| `Pager.LastPageShownOnce` | MuseumAPI-frontend/src/components/exhibitions/AllExhibitions.tsx:216-234 | the "... N" shortcut appears exactly when the last page has no numbered button |
| `Pager.WindowShowsInvalidPages` | MuseumAPI-frontend/src/components/exhibitions/AllExhibitions.tsx:76-82 | with fewer than 8 pages the bar shows pages that do not exist: -1 and 0 for 6 pages, 0 for 7 pages, up to 8 for 3 pages |
| `Pager.ClampedWindow` | MuseumAPI-frontend/src/components/artists/AllArtists.tsx:30-36 | the window cut to pages 1..totalPages |
| `Pager.ClampedWindowIsValid` | MuseumAPI-frontend/src/components/artists/AllArtists.tsx:30-36 | every button of the cut window is a real page, the current page among them, and the window is unchanged when there are 8 pages or more |
| `Pager.ClampedWindowEndsShownOnce` | MuseumAPI-frontend/src/components/artists/AllArtists.tsx:270-325 | with the cut window, page 1 and the last page still appear exactly once each |
| `Pager.RowNumberIsTablePosition` | MuseumAPI-frontend/src/components/artists/AllArtists.tsx:176 | row i of page p is numbered p*pageSize+i+1, which is its position in the table when the server pages with Skip/Take |
| `Pager.RowNumbersConsecutive` | MuseumAPI-frontend/src/components/exhibitions/AllExhibitions.tsx:115 | numbering runs on from one page to the next, and no two rows of different pages share a number |
| `Pager.PreferredPageSize` | MuseumAPI-frontend/src/components/artists/AllArtists.tsx:22 | the account profile's page preference, or 5 when there is no account, no profile or no preference |
| `Pager.ListView.ForArtists` | MuseumAPI-frontend/src/components/artists/AllArtists.tsx:21-23 | the artists list starts on page 0 with the account's page size and 999999 pages |
| `Pager.ListView.ForExhibitions` | MuseumAPI-frontend/src/components/exhibitions/AllExhibitions.tsx:17-19 | the exhibitions list starts on page 0 with page size 5 and 9999999 pages |
| `Pager.ListView.ApplyAccountPreference` | MuseumAPI-frontend/src/components/exhibitions/AllExhibitions.tsx:21-27 | with an account that has a profile the page size becomes its preference, or 5 when it has none; starting from 5, this is the size the artists list starts with |
| `Pager.ListView.SetTotalPages` | MuseumAPI-frontend/src/components/artists/AllArtists.tsx:53-56 | the page count becomes the server's answer |
| `Pager.ListView.ClickPage` | MuseumAPI-frontend/src/components/artists/AllArtists.tsx:38-40 | clicking page n sets pageIndex to n-1, which is a page of the list when 1 <= n <= totalPages |
| `Pager.ListView.Previous` | MuseumAPI-frontend/src/components/exhibitions/AllExhibitions.tsx:168-178 | one page back, never below 0, staying within the list |
| `Pager.ListView.Next` | MuseumAPI-frontend/src/components/artists/AllArtists.tsx:326-334 | one page on, and nothing when pageIndex+1 >= totalPages (the disabled button), staying within the list |
| `Pager.ListView.Bar` | MuseumAPI-frontend/src/components/artists/AllArtists.tsx:287-306 | the rendered bar holds the current page whenever it is a page of the list |

## Left out

- The `_context.Paintings == null` and `_context.Artists == null` branches are not modelled, because the tables are always present.
- PaintingsController's GetPaintings and GetPainting (the unpaged listing and the lookup by id) are not modelled, since they are plain projections.
- The concurrency catch after SaveChanges in PutPainting is left out. Its filter requires the painting to be missing, and the model has no concurrent writers.
- Tables have no explicit order, and queries without OrderBy promise none. The model assumes that every table is read in insertion order.
- `Paintings.GetPaintingPagination`: negative offsets and sizes follow LINQ-to-objects Skip/Take (all rows / no rows). A database provider may instead reject a negative OFFSET or FETCH.
- The painting validator's rules are not part of this model. Its verdict is the parameter `validate`.
- `ToLower` is the parameter `lower`, so culture-specific lower-casing is not modelled.
- Heights are doubles that no modelled operation computes with, so they are carried as reals.
- `Paintings.NewPainting` takes the Height that the POST does not copy to be 0, the default of a C# double. The Painting class is not part of this model.
- The database's identity counters are modelled two ways:
  - The controller keeps a `nextId` counter that only grows.
  - The seeding model numbers a bulk insert from one past the table's largest id.
  - Both give fresh ids, which is all that the properties use.
- The fake-data library's values come from streams of records and names. These cover the Bogus name, date, city and word generators and `Math.Round`. The model does not check the dates' ranges: an end date after the start date, and birth dates within the last 50 years.
- UserProfile's other columns (bio, location, birthday, gender, marital status) are not modelled, and neither is ConfirmationCode expiry. No modelled operation reads them.
- Logging, `async`/`await` and the seeding calls after InitializeAsync's early `return` are left out: that code is unreachable.
- `Seeding.Initialize` leaves out `Database.EnsureCreated()`. Start-up runs it every time, in the MuseumContext constructor (Backend/MuseumAPI/Context/MuseumContext.cs:15) that InitializeAsync calls before its `return` (Backend/MuseumAPI/Utils/SeedData.cs:216). It does nothing to an existing database. For a missing one, it creates the schema with empty tables and adds no rows, because MuseumContext declares no `HasData`. The model has no "missing database" state: a freshly created database is the `Database` with every table empty, so the step changes no table the model holds.
- Deleting an artist, a museum or a painting's artist is not part of the modelled core, so the ClientSetNull rule on Painting.ArtistId is not modelled. Exhibitions' artist and museum references are modelled only as rules that must hold.
- The migrations create only the Artists, Museums, Paintings and Exhibitions tables. They declare cascading deletes on Painting.ArtistId and on the Exhibition keys (Backend/MuseumAPI/Migrations/20230409201422_mssql.azure_migration_955.cs:70, :90 and :96). MuseumContext.cs declares ClientSetNull for Painting.ArtistId and leaves the Exhibition keys at the default. The model follows MuseumContext.cs. No modelled operation deletes an artist or a museum, so the difference reaches none of them.
- `Schema.DeleteUser` assumes that every row referring to the user is loaded in the context. ClientSetNull nulls the references of loaded rows only. In the database the constraint takes no action, so an unloaded referring row makes SaveChanges fail; the model does not capture that failure.
- `Paintings.AutocompleteTitle` and `Paintings.AutocompletePaintingArtist` measure the query in Unicode characters. C#'s `Length` counts UTF-16 code units, so a two-character query outside the Basic Multilingual Plane is answered in C# but NotFound in the model.
- `Seeding.DrawUsers` and `Seeding.SeedUsersAndProfiles` compare names exactly, as the generator's `List.Contains` does. The unique index on user names follows the database collation, which on SQL Server is case-insensitive by default. A name that differs from a taken one only in case is accepted by the model, yet SaveChanges would reject it. The success clause under a fresh name stream holds only for an exact-comparison index. `Schema.IndexesUnique` states the index with exact comparison as well.
- The lists' network calls, loading indicators, snackbar messages and the artists list's client-side sorting are left out. The page count is the input of `SetTotalPages`. The server's paging of artists and exhibitions is taken to be Skip/Take like the paintings listing, since those controllers are not part of this model.
- The other React components, `Program.cs`, the models and `constants.ts` are not part of this model.

## Findings

| source | as written | input that shows it | evidently intended | confidence | as-written member | corrected member |
|---|---|---|---|---|---|---|
| Backend/MuseumAPI/Controllers/PaintingsController.cs:47 | `page * pageSize` is an `int` product and wraps around before it reaches Skip | page = 65536, pageSize = 65536: the offset 2^32 wraps to 0 and the first page is returned instead of an empty one | skip page*pageSize rows computed exactly, as `Paintings.PagedListing` does | not executed | `Paintings.PaginationOverflowRepeatsFirstPage` | `Paintings.PagedListing` |
| MuseumAPI-frontend/src/components/artists/AllArtists.tsx:30-36 | the window is pinned to 1..8 at the start and to totalPages-7..totalPages at the end without cutting it to the pages that exist (the same in AllExhibitions.tsx:76-82) | totalPages = 6, pageIndex = 5: buttons -1 .. 6, and clicking -1 sets pageIndex to -2; totalPages = 3, pageIndex = 0: buttons 1 .. 8 | only pages 1..totalPages get buttons | not executed | `Pager.WindowShowsInvalidPages` | `Pager.ClampedWindow` |
