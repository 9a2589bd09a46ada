# imgmesser versioned image engine, in Dafny

imgmesser stores users' images in an object store and records their metadata
in two Postgres tables. `image` holds id, name, content type and owner.
`image_version` holds the image id, the store's revision token, a timestamp
`ts`, a `current` flag, width, height and size. Each image has a linear
chain of versions ordered by `ts` and one movable "current" pointer. Upload
adds a version; revert and restore move the pointer one step back or forward;
rename and delete act on the image. The listing joins the store's objects
back to the metadata rows.

This project models:

- the metadata layer (`api/db/src/images.rs`);
- the current repository that composes it with the object store
  (`api/repos/src/image_repo.rs`);
- the earlier, single-crate repository (`api/src/repos/image_repo.rs`);
- the client's file-name helpers (`client/src/utils/app.ts`).

It then proves properties of that model.

How the model is built:

- The two tables and the store are state. `Metadata.Database` and
  `Objects.Bucket` are classes whose fields are sequences and maps.
- Every statement that changes the tables and every store write is a method
  on one of those classes. Each method is proved to end in the state
  described by a value-level `*Step` function.
- The read queries (`find_image`, `find_image_with_version_info`,
  `find_image_id_by_name`, `find_all_images`) and the store reads
  (`get_object`, `list_objects_v2`) are functions of the state.
- The lemmas are stated about those functions.
- Each repository is a class over a `Database` and a `Bucket`. Each of its
  operations is one method, proved equal to a function from the world before
  to the world after plus the result.
- Every failing call is a parameter: a failing SQL statement, a failing store
  call, a UUID that does not parse, a failing body read.
- So are the UUID minted for a new image and the revision id the store
  returns.
- The database's `ts` and `created_at` come from a clock field of the tables.

Modules:

- `Values`: options, results, error kinds, fault parameters, the `u32`/`u64`
  types and the `as i32`/`as i64` casts.
- `Seqs`: positions, uniqueness by a key, and filtering.
- `Text`, `ClientNames`: string splitting; the four client helpers.
- `ObjectPath`: the two key derivations. Rust's `Path::file_name` and
  `Path::extension` are written out.
- `Metadata`: the tables, the queries and the statements, and the `Database`
  class.
- `Lineage`: the one-current-row invariant and what insert, revert and
  restore do to the lineage. It also holds the ways the invariant breaks.
- `Catalog`: insert-or-ignore, rename, delete and the lookups.
- `Objects`: the versioned object store and the `Bucket` class.
- `Listing`: the sort, the key map, the page arithmetic and both listing
  joins.
- `ImageRepo`, `RepoProperties`: the current repository and what it promises.
- `LegacyRepo`: the earlier repository and its properties.

The legacy crate's handler clamps the paging parameters to `page >= 1` and
`1 <= limit <= 100` before it calls `get_all`
(`api/src/handlers/images.rs:34-39`). The legacy listing takes that clamp as
a precondition. The current crate's handler, which calls
`get_metadata_for_all`, is not part of this model. The same clamp is assumed
there, for `ImageRepo.MetadataForAll` and `ImageRepo.Repo.GetMetadataForAll`.

## Model

| member | source | states |
|---|---|---|
| `Metadata.Database.InsertImage` | api/db/src/images.rs:8-30 | Ends in the insert-or-ignore step. A name the owner already has changes nothing. A clash on the id is an error. Otherwise one row is added, stamped by the clock. The schema is kept. |
| `Catalog.InsertImageEffect` | api/db/src/images.rs:17-19 | Inserting a name the owner already has leaves both tables as they were. A new name with an unused id appends exactly that row, and the name then finds that id. A new name with a used id is an error. |
| `Catalog.InsertImageIdempotent` | api/db/src/images.rs:8-30 | Inserting the same name for the same owner twice, with any ids and content types, is the same as inserting it once. |
| `Metadata.Database.InsertImageVersion` | api/db/src/images.rs:33-61 | Ends in the two-statement step. Statement 1 adds the row as current, with the `as i32` and `as i64` casts, and needs the image to exist. Statement 2 demotes the image's rows with another token. A failing statement is modelled by the fault parameter. |
| `Values.AsI32` | api/db/src/images.rs:50-51 | Rust's `as i32` on a `u32`. The result is in the `i32` range and agrees with the input modulo 2^32. It equals the input exactly when the input is below 2^31. |
| `Values.AsI64` | api/db/src/images.rs:52 | Rust's `as i64` on a `u64`. The result is in the `i64` range and agrees with the input modulo 2^64. It equals the input exactly when the input is below 2^63. |
| `Lineage.InsertVersionEffect` | api/db/src/images.rs:42-58 | With no fault, the insert appends one current row carrying the token, the clock, and the cast dimensions and size. It demotes exactly the image's rows with another token and leaves other images' rows unchanged. |
| `Metadata.Database.UnsetCurrentVersionFlags` | api/db/src/images.rs:309-328 | Given no token it changes nothing. Given a token it clears `current` on exactly the image's rows with another token. |
| `Lineage.InsertVersionKeepsInvariant` | api/db/src/images.rs:42-58 | Inserting a token the image has not used keeps "exactly one current row per image". The new row is then the current one, the version count grows by one, and the new row's index equals the count. |
| `Lineage.InsertVersionKeepsTokensUnique` | api/db/src/images.rs:42-46 | Inserting a token no row has keeps tokens unique across the table, whatever the faults. |
| `Lineage.AppendCurrentKeepsInvariant` | api/db/src/images.rs:314-322 | Appending a current row whose token is new to its image, then demoting that image's other tokens, leaves exactly that row current for the image. |
| `Lineage.PartialInsertLeavesTwoCurrent` | api/db/src/images.rs:57-58 | The two statements are not one transaction. If the demotion fails after the insert, the image is left with two current rows. |
| `Lineage.ReusedTokenLeavesTwoCurrent` | api/db/src/images.rs:314-322 | The demotion spares rows whose token equals the new one. So inserting a token the image already has leaves two current rows. |
| `Metadata.CurrentVersion` | api/db/src/images.rs:331-346 | Returns a current row of the image, or nothing exactly when the image has no current row. |
| `Metadata.FindImageIdByName` | api/db/src/images.rs:140-154 | Returns the id of a row with that name and owner, or nothing exactly when no such row exists. |
| `Catalog.IdByNameIsUnique` | api/db/src/images.rs:140-154 | Under the `(name, username)` uniqueness, the id found by name is the id of the row that holds the name. |
| `Catalog.FindImageSpec` | api/db/src/images.rs:64-86 | `find_image` answers exactly when the owner has an image with that id and the image has a current row. The version it reports is that row's token. |
| `Lineage.FactsDescribeLineage` | api/db/src/images.rs:101-123 | The reported index lies between 1 and the version count. `latest_version` holds exactly when no row of the image is newer. `initial_version` holds exactly when none is older. |
| `Lineage.NoNeighbourAtEnds` | api/db/src/images.rs:227-236 | With unique tokens, restore finds no candidate exactly when the current row is flagged latest. Revert finds none exactly when it is flagged initial. |
| `Catalog.FindAllImagesSpec` | api/db/src/images.rs:157-202 | `find_all_images` lists exactly the owner's images, one entry per image. Each entry equals what `find_image_with_version_info` returns for that id, with the same version count and current-row facts. |
| `Metadata.Neighbour` | api/db/src/images.rs:229-236 | The subquery of revert or restore. It picks a row of the image with another token and an older (newer) `ts`. No such row is older (newer) than it and still a candidate. It picks nothing exactly when there are no candidates. |
| `Metadata.Database.MoveCurrent` | api/db/src/images.rs:220-285 | Ends in the revert or restore step. A failing first query is an error. No current row, a failing UPDATE, or no candidate each give `None` and change nothing. Otherwise the neighbour is promoted and the rest demoted. |
| `Metadata.Database.RevertImageVersion` | api/db/src/images.rs:220-251 | `revert_image_version`: the move towards older versions. |
| `Metadata.Database.RestoreImageVersion` | api/db/src/images.rs:254-285 | `restore_image_version`: the move towards newer versions. |
| `Lineage.NeighbourAdjacent` | api/db/src/images.rs:229-236 | With unique tokens, no row of the image lies strictly between the current row and the neighbour the subquery picks. |
| `Lineage.MoveSwapsCurrent` | api/db/src/images.rs:224-246 | A successful move, with unique tokens, swaps the current flag from the current row to its neighbour and returns the neighbour's token. |
| `Lineage.MoveShiftsIndex` | api/db/src/images.rs:224-246 | After a successful revert the reported index is one lower. After a successful restore it is one higher. The version count does not change. |
| `Lineage.RevertThenRestore` | api/db/src/images.rs:220-285 | A revert that moved the pointer, followed by a restore, gives back exactly the tables before. The restore returns the token that was current. |
| `Lineage.MoveNoopCases` | api/db/src/images.rs:227-250 | No current row, a failing UPDATE, or no older (newer) version each give `Ok(None)` with the tables unchanged. |
| `Lineage.MoveKeepsInvariant` | api/db/src/images.rs:220-285 | Revert and restore keep one current row per image and unique tokens, unless the final demotion fails. |
| `Lineage.PartialRevertLeavesTwoCurrent` | api/db/src/images.rs:245 | If the demotion after a revert fails, both the old row and the promoted row are current. |
| `Lineage.SharedTokenLeaksAcrossImages` | api/db/src/images.rs:229-230 | The promoting UPDATE matches on the token alone. A revert of one image gives another image that holds the same token a second current row. |
| `Metadata.Database.RenameImage` | api/db/src/images.rs:288-306 | Ends in the rename step. No row with that id is an error, and so is a name the owner already uses for another image. |
| `Catalog.RenameEffect` | api/db/src/images.rs:293-303 | A rename succeeds exactly when the image exists and no other image of the owner has the new name. It then changes only that row's name and returns the new name, and the new name finds the image. On failure nothing changes. |
| `Catalog.RenameToSameName` | api/db/src/images.rs:288-306 | Renaming an image to its own name succeeds and changes nothing. |
| `Metadata.Database.DeleteImage` | api/db/src/images.rs:205-217 | Ends in the delete step: the image row goes, and its versions go with it through the cascade. |
| `Catalog.DeleteEffect` | api/db/src/images.rs:209-211 | After a delete the image and all its versions are gone and every other row stays. One current row per image and unique tokens are kept. |
| `Objects.Bucket.PutObject` | api/repos/src/image_repo.rs:377-383 | A failing put changes nothing. Otherwise the key becomes live, stamped by the store clock, and the bytes are kept under the returned revision id, if there is one. |
| `Objects.PutThenGet` | api/repos/src/image_repo.rs:377-383 | Reading the returned revision gives back the bytes just put. The key is live, and every other revision is unchanged. |
| `Objects.Bucket.DeleteObject` | api/repos/src/image_repo.rs:244-247 | A failing delete changes nothing. Otherwise the key stops being live. |
| `Objects.DeleteEffect` | api/repos/src/image_repo.rs:244-247 | After a delete the key is not live, every other live object stays, and every revision stays readable. |
| `Objects.ListShowsLiveUnder` | api/repos/src/image_repo.rs:173-178 | A listing shows exactly the live objects under the prefix, with key and last-modified time. |
| `ObjectPath.KeyExtensionOfPlainName` | api/repos/src/image_repo.rs:332-343 | For a name without a slash, the key extension is the text after the last dot. It is "jpg" when there is no dot or the only dot leads the name. |
| `ObjectPath.RenameKeepsKeyIffSameExtension` | api/repos/src/image_repo.rs:332-343 | For one image, two names give the same key exactly when they have the same key extension. |
| `ObjectPath.KeysSeparateImages` | api/repos/src/image_repo.rs:332-343 | For ids without a dot, two keys are equal exactly when the ids are equal and the extensions are equal. |
| `ObjectPath.LeadingDotDisagreement` | api/repos/src/image_repo.rs:337-340 | For ".png" the client shows the extension "png", while the key uses "jpg". |
| `ImageRepo.GetImageInfo` | api/repos/src/image_repo.rs:318-329 | Answers exactly when the id parses, the query works, the owner has an `image` row with that id, and the image has a current version row. The answer carries the parsed id, the owner, that row's name and content type, and the token of a current version row of the image. |
| `ImageRepo.Repo.UploadImage` | api/repos/src/image_repo.rs:346-412 | Runs the upload step against both stores. The id comes from the name lookup, or is fresh when the lookup finds nothing or fails. The blob goes under the derived key. A failed put returns an error. Only a new image gets an image row. Only a returned revision id gets a version row. Metadata errors are ignored. |
| `ImageRepo.Repo.Upload` | api/repos/src/image_repo.rs:83-94 | Runs the uploads in order and returns at the first error. The loop invariant says the state so far, followed by the remaining uploads, gives the whole upload's result. |
| `RepoProperties.FailedPutWritesNothing` | api/repos/src/image_repo.rs:377-383 | An upload whose put fails returns `S3OperationFailure` and changes neither store. |
| `RepoProperties.UploadThenGetOne` | api/repos/src/image_repo.rs:346-412 | When the lookup and the metadata writes succeed and the store returns a token no row has, `get_one` on the id written returns the uploaded bytes. The image then has one current version, the new one, and one more version than before. |
| `RepoProperties.UploadedRow` | api/repos/src/image_repo.rs:352-395 | After the image-row insert, the id written to has a row with the uploaded name and owner. The id is the one found by name, or the fresh one. The versions are untouched. |
| `RepoProperties.LookupFailureOrphansBlob` | api/repos/src/image_repo.rs:352-366 | If the name lookup fails for a name the owner has, the upload still returns `Ok`. The blob is stored under a fresh id, and the metadata is unchanged. |
| `RepoProperties.UploadKeepsInvariant` | api/repos/src/image_repo.rs:397-409 | Uploads keep the schema, one current version per image and unique tokens, provided the store's token is new and the demotion does not fail. A store that returns no revision id gets no version row. |
| `RepoProperties.UploadStopsAtFirstFailure` | api/repos/src/image_repo.rs:88-91 | If the first k uploads succeed and the next put fails, the result is that error, with the state after the first k. Nothing after it is attempted. |
| `RepoProperties.UploadAllSplits` | api/repos/src/image_repo.rs:88-91 | Uploading a list is uploading a successful prefix, then the rest. |
| `ImageRepo.Repo.GetOne` | api/repos/src/image_repo.rs:97-132 | Returns `None` for an id that does not resolve. A failing get is `S3OperationFailure` and a failing read is `ReadFailure`. Otherwise it returns the revision named by the current token, under the key of the current name. |
| `RepoProperties.GetOneSpec` | api/repos/src/image_repo.rs:102-129 | `get_one` answers `None` exactly when the owner has no such image or it has no current row. For a resolved image, it returns data exactly when the revision named by the current token is stored under the current name's key, and that data is the stored bytes with the row's content type. A revision that is not stored gives `S3OperationFailure`. |
| `ImageRepo.Repo.GetMetadataForOne` | api/repos/src/image_repo.rs:136-163 | Any error gives `Ok(None)`. Otherwise the result is the image with its version facts. |
| `ImageRepo.Repo.GetMetadataForAll` | api/repos/src/image_repo.rs:166-221 | A failed list is `S3OperationFailure` and a failed query is `QueryFailure`. Otherwise: sort, build the key map in a loop, cut the page, then join. |
| `Listing.SortByRecency` | api/repos/src/image_repo.rs:184 | The sorted listing is a permutation of the listing. It is newest first, and objects with no timestamp come last. |
| `Listing.SortIsStable` | api/repos/src/image_repo.rs:184 | Objects with equal timestamps keep their listing order. |
| `Listing.BuildImageMap` | api/repos/src/image_repo.rs:192-200 | The loop builds the key map, in which a later row with the same key wins. Every entry is a row stored under its own derived key. |
| `Listing.KeyMapFindsEveryRow` | api/repos/src/image_repo.rs:192-200 | When ids are distinct and hold no dot, every row is found under its own key. |
| `Listing.PageWindowSpec` | api/repos/src/image_repo.rs:203-208 | The page starts at `(page-1)*limit`, wrapped to 32 bits. It panics exactly when that start is past the end. Otherwise it lies inside the listing and holds at most `limit` objects (fewer only at the end), and `has_more` means objects follow. |
| `Listing.NextPageContinues` | api/repos/src/image_repo.rs:203-205 | When a page says more follow, the next page starts where it ended. |
| `Listing.HugePageWraps` | api/repos/src/image_repo.rs:203 | The u32 product wraps: page 42949674 with limit 100 over 25 objects starts at 4. |
| `Listing.PagePastEndPanics` | api/repos/src/image_repo.rs:208 | Page 4 with limit 10 over 25 objects starts past the end, and the slice aborts. |
| `Listing.MergeCounts` | api/repos/src/image_repo.rs:180-220 | `total` is the number of listed objects, whatever the page or the matches. At most `limit` images come back. `has_more` holds exactly when the page ends before the listing does. |
| `Listing.PageIsNewestFirst` | api/repos/src/image_repo.rs:184-208 | A page of the sorted listing is itself newest first. |
| `Listing.MergeContentAndOrder` | api/repos/src/image_repo.rs:184-218 | The images are exactly the page's objects whose key is some row's derived key. They come newest first, and each is the row registered under its object's key. |
| `RepoProperties.ListingAgreesWithMetadata` | api/repos/src/image_repo.rs:166-221 | Every image on a listing page is what `get_metadata_for_one` returns for its id. |
| `ImageRepo.Repo.Delete` | api/repos/src/image_repo.rs:223-250 | An id that does not resolve is `QueryFailure`, and so is a failing metadata delete; neither changes anything. Otherwise the metadata goes first, then the blob. A failing blob delete is `S3OperationFailure`. |
| `RepoProperties.RepoDeleteEffect` | api/repos/src/image_repo.rs:223-250 | If the metadata delete fails the store is untouched. After a resolved delete the image and its versions are gone. If the store call then fails, the blob stays live; otherwise its key is not live. |
| `ImageRepo.Repo.Revert` | api/repos/src/image_repo.rs:252-273 | Runs the move towards older versions. If the metadata layer reports the token that was already current, it returns `None` (api/repos/src/image_repo.rs:266-270). Errors are `QueryFailure`. |
| `ImageRepo.Repo.Restore` | api/repos/src/image_repo.rs:275-296 | The mirror of revert, towards newer versions. |
| `RepoProperties.RepoMoveReportsMetadata` | api/repos/src/image_repo.rs:252-296 | With unique tokens the same-token check never fires, so revert and restore report exactly what the metadata layer did. An id that does not resolve is `QueryFailure` and changes nothing. The invariant is kept. |
| `RepoProperties.MovedTokenDiffers` | api/repos/src/image_repo.rs:266-270 | With unique tokens, a move that reports a token reports one other than the token that was current. |
| `RepoProperties.RepoRevertThenRestore` | api/repos/src/image_repo.rs:252-296 | A repository revert that moved the pointer, followed by a restore, gives back the tables before. The restore reports the version that was current. |
| `ImageRepo.Repo.Rename` | api/repos/src/image_repo.rs:298-314 | Runs the rename step. An id that does not resolve, or a failing rename, is `QueryFailure`. |
| `RepoProperties.RenameMovesKey` | api/repos/src/image_repo.rs:298-314 | After a rename the image resolves with the new name, so `get_one` reads the new name's key. That key is the old one exactly when the two names have the same extension. |
| `LegacyRepo.LegacyGetMetadata` | api/src/repos/image_repo.rs:277-288 | Succeeds exactly when the current repository's `get_image_info` would, with the same image. An id that does not parse, a failing query and a missing image are all errors. |
| `LegacyRepo.LegacyImageRepo.Upload` | api/src/repos/image_repo.rs:58-110 | Puts the blob under `base/name`; a failing put is an error. It always tries the image insert with a fresh id and ignores errors. It then looks the id up by name and inserts a version with the revision id or "". |
| `LegacyRepo.LegacyUploadThenGetOne` | api/src/repos/image_repo.rs:58-150 | With a versioned store, a fresh token and working metadata calls, `get_one` on the image's id returns the uploaded bytes. The content type is the store's, or "image/jpeg". The invariant holds. |
| `LegacyRepo.LegacyImageRepo.GetOne` | api/src/repos/image_repo.rs:113-150 | A metadata or store error gives `Ok(None)`. A failing body read is an error. A missing content type becomes "image/jpeg". |
| `LegacyRepo.LegacyImageRepo.GetAll` | api/src/repos/image_repo.rs:153-214 | A failed list is an error, and so is a failed query. The name map is built in a loop. The page is cut from the listing in the store's order, then joined by file name. |
| `Listing.BuildNameMap` | api/src/repos/image_repo.rs:174-177 | The loop builds a map that has an entry for exactly the names of the rows. Each entry is a row with that name. |
| `Listing.LegacyMergeSpec` | api/src/repos/image_repo.rs:167-211 | The counts follow the same page formula as the current listing. The images follow the page's objects in listing order, unsorted. Each is the row whose name is its object key's last path component. |
| `ObjectPath.LegacyKeyFileName` | api/src/repos/image_repo.rs:291-293 | For a plain name, the last path component of `base/name` is the name, so the join finds it. |
| `ObjectPath.LegacyKeyLosesNestedName` | api/src/repos/image_repo.rs:189-192 | For a name that holds a slash, the join sees only the part after the last slash. |
| `LegacyRepo.LegacyImageRepo.Delete` | api/src/repos/image_repo.rs:216-235 | Metadata errors are returned, and the delete stops there. Otherwise the metadata goes, then the object under `base/name`. |
| `LegacyRepo.LegacyDeleteEffect` | api/src/repos/image_repo.rs:221-232 | If a metadata step fails, neither store changes. Otherwise the image and its versions are gone, and a successful store call leaves the key not live. |
| `LegacyRepo.LegacyImageRepo.Revert` | api/src/repos/image_repo.rs:237-254 | No new version, or the version that was already current, is an error; otherwise `Ok(())`. |
| `LegacyRepo.LegacyImageRepo.Unrevert` | api/src/repos/image_repo.rs:256-273 | The mirror of revert, towards newer versions. |
| `LegacyRepo.LegacyMoveFailsOnlyAtTheEnds` | api/src/repos/image_repo.rs:245-253 | With unique tokens, revert fails exactly at the initial version and unrevert exactly at the latest. The error is "no new version" and nothing changes. |
| `LegacyRepo.LegacyMoveOutcome` | api/src/repos/image_repo.rs:237-273 | With unique tokens, a legacy move fails with "no new version", changing nothing, exactly when the metadata layer finds no neighbour. Otherwise it returns `Ok(())` with the move done. |
| `LegacyRepo.LegacyUnversionedUploadsLeaveTwoCurrent` | api/src/repos/image_repo.rs:94-106 | Against a store that returns no revision id, two uploads of one name leave that image with two current rows. |
| `LegacyRepo.CurrentUnversionedUploadsKeepOneCurrent` | api/repos/src/image_repo.rs:397-409 | The current repository, given the same two uploads, keeps one current row per image. |
| `ClientNames.GetFileExtension` | client/src/utils/app.ts:38-40 | The text after the last dot, or "jpg" when there is no dot. It never holds a dot. |
| `ClientNames.GetFileStem` | client/src/utils/app.ts:43-46 | The whole name when it has no dot. Otherwise the prefix that ends just before the last dot. |
| `ClientNames.StemExtensionRoundTrip` | client/src/utils/app.ts:38-46 | For a name with a dot, stem + "." + extension is the name. |
| `ClientNames.StemDropsOnlyLastDot` | client/src/utils/app.ts:43-46 | The stem keeps every dot of the name but the last. |
| `ClientNames.TruncateFileName` | client/src/utils/app.ts:50-53 | Names shorter than 26 come back unchanged. Longer ones give the first 22 characters, "... .", then the extension, for a length of 27 plus the extension's. |
| `ClientNames.TruncateKeepsExtension` | client/src/utils/app.ts:50-53 | A truncated name shows the same extension as the full name. It is never longer than 27 characters plus that extension. |
| `ClientNames.FormatImageType` | client/src/utils/app.ts:56-59 | "UNKNOWN" unless the input starts with "image/". Otherwise the upper-cased text after the last slash, which holds no slash. |
| `ClientNames.FormatImageTypeIsSubtype` | client/src/utils/app.ts:56-59 | For "image/" followed by a subtype without a slash, the display type is the upper-cased subtype. |

## Left out

- HTTP handlers, multipart parsing, routing, authentication and the mapping of errors to status codes are left out. Only the paging clamp of `api/src/handlers/images.rs:34-35` is kept, as a precondition.
- Concurrency between requests and async cancellation are not modelled. Operations run one after another.
- UUID v7 generation, UUID parsing, every SQL and object-store call that can fail, and the store's choice of revision ids all come in as parameters.
- The database-assigned `ts` and `created_at` are a clock in the tables. The foreign-key cascade on delete is an assumption, because the migrations are not part of this model.
- What each SQL statement does is modelled; the SQL text is not.
- For an image with no versions, `find_all_images` yields a NULL `version_count`, because of its `GROUP BY` and `LEFT JOIN` (`api/db/src/images.rs:180-182,193`). The model uses 0 there. `find_image_with_version_info` counts with `COUNT(1)` and no `GROUP BY` (`api/db/src/images.rs:115`), so it really returns 0.
- The NULL `version`, `last_modified`, index and flag columns of an image without a current row are assumed to decode into optional fields. The model keeps them as one `Option` of the current row's facts. The `Image` record of `api/models` is not part of this model.
- `Catalog.FindAllImagesSpec`, `RepoProperties.ListingAgreesWithMetadata`: the model's `find_all_images` gives one entry per image row. The SQL's `LEFT JOIN current_version ... ON v.image_id = i.id` (`api/db/src/images.rs:191`) gives one row per current version row. So an image with two current rows appears twice, with different version facts. Such states are reachable: see `Lineage.PartialInsertLeavesTwoCurrent`, `Lineage.PartialRevertLeavesTwoCurrent` and `LegacyRepo.LegacyUnversionedUploadsLeaveTwoCurrent`. The model does not capture those duplicate entries. The two lemmas are exact only while each image has at most one current row. In the current repository the key map collapses duplicates of one image to one entry.
- The `image_version` table is assumed to have no key on `(image_id, version)`, so a second row with an existing token is accepted. The migrations are not part of this model. Under such a key, the insert at `api/db/src/images.rs:42-55` would fail for a reused token, and `Lineage.ReusedTokenLeavesTwoCurrent` would not hold. The Findings row below rests on this assumption too.
- `ClientNames`: JavaScript's `length` and `substring` count UTF-16 code units, while a Dafny `char` is a Unicode scalar value. For names outside the Basic Multilingual Plane the lengths differ. A name of 13 emoji is 26 code units long, so `truncateFileName` cuts it, while `ClientNames.TruncateFileName` returns it unchanged.
- `ContentType`'s integer encoding and its `to_string` are not part of this model, because `api/models/src/image.rs` is not part of this model. The content type is kept as an enumeration.
- The legacy repository calls a database module of its own (`db::find_one`, `db::find_all`, `db::find_id_by_name`, `db::revert_image`, `db::unrevert_image`). That module is not part of this model. Its calls are modelled by the corresponding functions of `api/db/src/images.rs`.
- Listing order: the order in which the store lists objects is the order of its live objects. The S3 client wrappers are not part of this model; the store is abstract state.
- `Objects.List`: the source sends one `list_objects_v2` request with no continuation token (`api/s3/src/objects.rs:57-70`). So it reads only the first page of keys, 1000 by default, and `total` and the reachable images are capped by it. The model lists every live object under the prefix.
- `get_metadata_for_all` sorts with the library's stable `sort_by`. The sort is modelled by its result, a stable insertion sort on a sequence, not as an in-place algorithm.
- Overflow: the release-build wrap of `(page - 1) * limit` is modelled. The panic a debug build would raise there is not.
- `ClientNames.FormatImageType`: upper-casing covers ASCII letters only; `toUpperCase` also maps other scripts.
- An unversioned store reports no revision id, and the model gives it none. The per-object "null" version of a real store is not modelled.
- `formatFileSize` and `formatDate` in `client/src/utils/app.ts` are left out: one uses floating point, the other locale formatting.

## Findings

| source | as written | input that shows it | evidently intended | confidence | as-written member | corrected member |
|---|---|---|---|---|---|---|
| api/src/repos/image_repo.rs:94 | With no revision id, the legacy upload records a version with token "". The demotion that follows spares rows with the new token, so earlier "" rows stay current. This assumes `image_version` has no key on `(image_id, version)` (see "## Left out"). Under such a key the second insert would fail and be logged instead. | Two uploads of "cat.png" by one user to a store that returns no revision id, every call succeeding. After the second, the image has two current rows. | No version row when the store returns no revision id, as `api/repos/src/image_repo.rs:397` does, so the image keeps at most one current row. | not executed | `LegacyRepo.LegacyUnversionedUploadsLeaveTwoCurrent` | `RepoProperties.UploadKeepsInvariant` |
