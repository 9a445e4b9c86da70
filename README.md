# PDF analyzer: verified model of the configuration, quota and listing logic

This project is a Dafny model of the logic at the heart of the PDF analyzer
system. It covers six pieces, and Dafny proves properties of each.

- **Cross-stack parameters** (`parameters.dfy`, module `Parameters`). The
  export-name sanitizer `stackExportName` turns a stack environment and a
  logical key into a CloudFormation export name. It keeps the alphabet
  `[A-Za-z0-9-:]`, collapses hyphen runs, and cuts the environment to fit
  255 characters. Also modelled: the SSM and export lookups that fill a
  parameter dictionary, and the registration of SSM parameters and stack
  outputs on a construct scope. `valueFromLookup` and `Fn.importValue` are
  uninterpreted function parameters. The scope is a class whose
  `children` sequence the creating methods append to.
- **User upload-quota table** (`quota_table.dfy`, module `QuotaTable`).
  This is the DynamoDB table shared by the upload endpoint and the Stripe
  webhook. It is a class holding a `map` from user id to record. Each
  method is one of the reads and writes the two handlers issue. Each
  method is tied to a function of the old map, and lemmas prove the frame
  properties of those functions ("other users untouched").
- **Upload endpoint** (`upload.dfy`, module `Upload`): the caller
  precedence, the quota check, the upload key and the
  increment-after-grant flow.
- **Stripe billing** (`stripe_billing.dfy`, module `StripeBilling`): the
  tolerant integer parse, the Price/Product metadata precedence for upload
  limits, the plan-card features and upload count, the webhook dispatch,
  and the three table mutations.
- **Processed-file keys** (`processor.dfy`, module `Processor`, and
  `processed_listing.dfy`, module `ProcessedListing`). The processor
  writes `user/YYYY/MM/DD/<id>_processed.pdf`. The listing endpoint parses
  the date back out, groups by date, and orders days and files newest
  first. The round trip between the two files is proved.
- **User PDF list** (`user_pdfs.dfy`, module `UserPdfs`): `convert_decimal`,
  the `s3://bucket/key` split, one entry per table item, and the stable
  descending sort by upload time.

Shared helpers are split out by concern:
- `options.dfy`: `Option`.
- `text.dfy`: Python's `split`/`join`, `split(...)[-1]`, `strip`, and
  JavaScript's `trim`.
- `numerals.dfy`: `str(int)`, `f"{n:02d}"`, and a subset of `int(s)`.
- `ordering.dfy`: Python's string order, and `sorted(..., reverse=True)`
  as a stable insertion sort.
- `api_requests.dfy`: the API Gateway request fields the listing
  endpoints read.

Where the code works by changing state, the model is imperative:
- the quota table and the construct scope are classes, with `modifies`
  clauses;
- the handlers' loops are `while`/`for` loops with invariants;
- each is proved against a specification function.

Pure code is modelled as functions and lemmas.

Some consequences of the code as written, each proved:
- The logical-name part of an export name is never trimmed, so
  `stackExportName("a", "_x")` is `a--x` (`LeadingUnderscoreDoubleHyphen`).
  A name of 254 or more characters yields `-` + name (`LongNameDropsEnv`).
- Case is kept: a 300-character environment with `API_URL` gives a name
  ending in `-API-URL` (`LongEnvTruncated`).
- `createStackParameters` publishes CloudFormation exports, while
  `getSsmParameters` reads SSM paths `/{env}/{name}`. The model keeps the
  two stores apart, as the code does. Export names can collide
  (`UnderscoreAndHyphenCollide`), so a consumer reads the produced value
  only when the produced keys' export names are distinct
  (`ImportNameMatchesExport`).

## Model

| member | source | states |
|---|---|---|
| `Parameters.NormalizeEnv` | infra/lib/parameters.ts:8-12 | the normalised environment uses only `[A-Za-z0-9-]`, has no `--`, and neither starts nor ends with `-` |
| `Parameters.NormalizeName` | infra/lib/parameters.ts:13-16 | the normalised name uses only `[A-Za-z0-9-:]` and has no `--`; it is no longer than the input and empty only when the input is |
| `Parameters.CollapseHyphens` | infra/lib/parameters.ts:11 | collapsing leaves no `--`, never lengthens, and keeps the first and last characters |
| `Parameters.NormalizeEnvFixpoint` | infra/lib/parameters.ts:8-12 | env normalisation leaves a string unchanged exactly when it is already normal (both directions) |
| `Parameters.NormalizeEnvIdempotent` | infra/lib/parameters.ts:8-12 | normalising an environment twice equals normalising it once |
| `Parameters.NormalizeNameFixpoint` | infra/lib/parameters.ts:13-16 | name normalisation leaves a string unchanged exactly when it is already normal |
| `Parameters.NormalizeNameIdempotent` | infra/lib/parameters.ts:13-16 | normalising a name twice equals normalising it once |
| `Parameters.ExportNameAlphabet` | infra/lib/parameters.ts:6-26 | every character of an export name is in `[A-Za-z0-9-:]`; the name ends with the normalised key, and everything before it is colon-free |
| `Parameters.EnvRoom` | infra/lib/parameters.ts:21-24 | the environment part kept never exceeds the normalised environment |
| `Parameters.EmptyEnvGivesName` | infra/lib/parameters.ts:17-19 | an environment that normalises to nothing gives the normalised name alone |
| `Parameters.ExportNameLength` | infra/lib/parameters.ts:21-25 | with a non-empty environment the result is the env cut to `max(0, 254-|name|)` characters, `-`, and the name; it fits 255 exactly when the name has at most 254 characters |
| `Parameters.LongNameDropsEnv` | infra/lib/parameters.ts:23-25 | a name of at least 254 characters drops the environment but keeps the separator: the result is `-` + name |
| `Parameters.UnderscoreAndHyphenCollide` | infra/lib/parameters.ts:13-16 | `API_URL` and `API-URL` give the same export name, so export names are not unique |
| `Parameters.LeadingUnderscoreDoubleHyphen` | infra/lib/parameters.ts:13-25 | `("a", "_x")` gives `a--x`: the name part is never trimmed |
| `Parameters.ApiUrlName` | infra/lib/parameters.ts:13-16 | `API_URL` normalises to `API-URL`, with case kept |
| `Parameters.LongEnvTruncated` | infra/lib/parameters.ts:6-26 | 300 `x` and `API_URL` give exactly 255 characters: the first 247 `x`, then `-API-URL` |
| `Parameters.GetSsmParameters` | infra/lib/parameters.ts:29-38 | the result has exactly the input keys, each bound to the lookup of the unsanitised path `/{env}/{paramName}` |
| `Parameters.GetStackParameters` | infra/lib/parameters.ts:40-51 | the result has exactly the input keys, each bound to the import of `stackExportName(env, paramName)` |
| `Parameters.CreateParameter` | infra/lib/parameters.ts:53-59 | one standard-tier SSM parameter with id `CreateParam-<name>` is appended to the scope and returned |
| `Parameters.CreateStackParameters` | infra/lib/parameters.ts:61-68 | the scope's children become the old children followed by `StackOutputs(env, stackParams)`: one output per entry, in entry order, with id `Output-<key>-Env` and export name `stackExportName(env, key)` |
| `Parameters.StackOutputs` | infra/lib/parameters.ts:61-68 | one `CfnOutput` per entry, in entry order, each the entry's output |
| `Parameters.ExportsLookup` | infra/lib/parameters.ts:61-67 | with distinct export names, each output's export name is published with that output's value |
| `Parameters.ImportNameMatchesExport` | infra/lib/parameters.ts:40-51 | when the produced keys' export names are distinct and `importValue` reads the exports the producer published, a consumer entry whose `paramName` is a produced key imports that key's produced value |
| `QuotaTable.NewUserRecord` | src/backend/upload.py:35-44 | a new user's item has count 0, the new-user limit, tier `free`, a NULL expiry, and all three timestamps set to now |
| `QuotaTable.Table.GetUserQuota` | src/backend/upload.py:25-48 | an existing user's item is returned with the table unchanged; an absent user gets a new-user item inserted and returned |
| `QuotaTable.Table.IncrementUploadCount` | src/backend/upload.py:51-63 | the user's count rises by exactly 1 and updatedAt is stamped; other users are untouched; the update fails and changes nothing when there is no count |
| `QuotaTable.IncrementAfterGetOrCreate` | src/backend/upload.py:45-58 | after get-or-create on a table whose items carry counters, the increment cannot fail |
| `QuotaTable.Table.UpdateUserQuota` | src/backend/stripe_handler.py:315-326 | the user gets the new limit, count 0 and the subscription id, and is created if missing; every other user is untouched |
| `QuotaTable.Table.ResetSubscribers` | src/backend/stripe_handler.py:280-294 | every item whose subscriptionId matches is reset, through a loop over the scanned users; the table equals `ResetAll` of the old table |
| `QuotaTable.Table.RevertSubscribers` | src/backend/stripe_handler.py:297-312 | every item whose subscriptionId matches is reverted, through a loop over the scanned users; the table equals `RevertAll` of the old table |
| `QuotaTable.ResetAllFrame` | src/backend/stripe_handler.py:284-294 | invoice paid: each matching item becomes itself with count 0 and the new limit, every other attribute as it was; non-matching items are unchanged; no item appears or disappears |
| `QuotaTable.RevertAllFrame` | src/backend/stripe_handler.py:302-312 | subscription deleted: each matching item becomes itself with limit 10 and a NULL subscription id, every other attribute (the count included) as it was; others are unchanged; the key set is kept |
| `Upload.QuotaInfoOf` | src/backend/upload.py:70-81 | missing fields read as count 0, limit 10, tier `free`; remaining is never negative, is positive iff count < limit, and then equals limit − count |
| `Upload.UploadUser` | src/backend/upload.py:88-91 | the caller is `sub` when it is present and non-empty, else `cognito:username`; none only when both are missing or empty |
| `Upload.UploadKey` | src/backend/upload.py:116-118 | the key starts with `uploads/` and ends with `/` + filename |
| `Upload.UploadKeySegments` | src/backend/upload.py:118 | for user and file ids without `/`, the key splits into `uploads`, the user, the file id, then the filename's pieces |
| `Upload.FilenameText` | src/backend/upload.py:113-118 | a missing filename becomes `document.pdf`; `null` renders as `None`; a string is itself; any other value is its `str` |
| `Upload.ContentTypeText` | src/backend/upload.py:114-129 | a missing content type becomes `application/pdf`; a string is passed on; `null` or a non-string makes the presign call fail |
| `Upload.NullFilenameKey` | src/backend/upload.py:113-118 | a `null` filename gives a key ending in `/None`, not in the default name |
| `Upload.CheckQuota` | src/backend/upload.py:66-81 | the table becomes get-or-create of the old one; the summary is that of the user's item; allowed iff remaining > 0 |
| `Upload.UploadHandler` | src/backend/upload.py:84-153 | no caller: 401 and no table access. Over quota: 403 and no increment. A body that does not parse, or a content type that is `null` or not a string: 500 and no increment. Otherwise the key uses the rendered filename and the upload is counted once; the quota returned shows count+1 and remaining−1 ≥ 0. A failed increment gives 500 |
| `Upload.AllowedUploadIsGranted` | src/backend/upload.py:99-136 | on a table whose items carry counters, an allowed upload is counted, and the stored count then equals the count reported |
| `Upload.CountedUploadUsesOne` | src/backend/upload.py:132-136 | the summary of the incremented item equals the handler's in-place adjustment (count+1, remaining−1) |
| `Upload.FullQuotaRefused` | src/backend/upload.py:70-81 | a count at or above the limit leaves nothing remaining |
| `StripeBilling.SafeInt` | src/backend/stripe_handler.py:26-30 | the parsed integer, or the default when the value is absent or does not parse |
| `StripeBilling.SafeIntRoundTrip` | src/backend/stripe_handler.py:26-30 | every integer written with `str` is read back unchanged |
| `StripeBilling.LimitSource` | src/backend/stripe_handler.py:41-53 | the price's `upload_limit or uploads` expression when it is not None; otherwise the same expression on an expanded product; otherwise nothing |
| `StripeBilling.ExtractUploadLimit` | src/backend/stripe_handler.py:33-55 | an absent price gives 0; otherwise the limit source goes through `_safe_int` with default 0 |
| `StripeBilling.PriceMetadataWins` | src/backend/stripe_handler.py:41-44 | a numeric `upload_limit` on the price is the limit, whatever the product says |
| `StripeBilling.ProductIgnoredWhenPriceSpeaks` | src/backend/stripe_handler.py:46 | when the price's expression is not None, the product does not affect the limit |
| `StripeBilling.ProductFallback` | src/backend/stripe_handler.py:46-53 | with neither key on the price, an expanded product's `upload_limit` is used |
| `StripeBilling.EmptyPriceLimitEdges` | src/backend/stripe_handler.py:44-53 | an empty `upload_limit` alone falls through to the product; an empty `uploads` as well does not, and gives 0 |
| `StripeBilling.ProductIdGivesNothing` | src/backend/stripe_handler.py:47-53 | an unexpanded product id never supplies a limit |
| `StripeBilling.LimitOrFree` | src/backend/stripe_handler.py:249 | `limit or 10`: never 0, a non-zero limit is kept, and 0 becomes 10 |
| `StripeBilling.MarketingNames` | src/backend/stripe_handler.py:109 | only non-empty names, each drawn from the marketing list |
| `StripeBilling.MarketingNamesComplete` | src/backend/stripe_handler.py:109 | every non-empty marketing name is listed |
| `StripeBilling.StrippedPieces` | src/backend/stripe_handler.py:111 | only non-empty stripped pieces are kept, never more than the input has |
| `StripeBilling.StrippedPiecesAppend` | src/backend/stripe_handler.py:111 | the pieces of a concatenation are the pieces of each part, in order |
| `StripeBilling.StrippedPiecesCons` | src/backend/stripe_handler.py:111 | a piece in front contributes its strip, when non-empty, in front |
| `StripeBilling.StrippedPiecesComplete` | src/backend/stripe_handler.py:111 | every piece whose strip is non-empty is kept in its place: the result is the pieces before it, its strip, then the pieces after it |
| `StripeBilling.StrippedPiecesSources` | src/backend/stripe_handler.py:111 | every kept piece is the strip of an input piece |
| `StripeBilling.StrippedPiecesTrimmed` | src/backend/stripe_handler.py:111 | kept pieces have no leading or trailing white space |
| `StripeBilling.StrippedPiecesHaveNoComma` | src/backend/stripe_handler.py:111 | pieces of a comma split, once stripped, hold no comma |
| `StripeBilling.PlanFeatures` | src/backend/stripe_handler.py:105-113 | features are never empty strings. A non-empty marketing list gives its names, even when none has a name. Otherwise a `features` metadata key gives its stripped comma-separated pieces. Otherwise a truthy description gives `[description]`, and anything else gives `[]` |
| `StripeBilling.NamelessMarketingHidesMetadata` | src/backend/stripe_handler.py:108-109 | a marketing list of nameless entries gives no features, and metadata features are not consulted |
| `StripeBilling.MetadataFeaturesShape` | src/backend/stripe_handler.py:110-111 | metadata features are non-empty, trimmed and comma-free |
| `StripeBilling.PlanUploads` | src/backend/stripe_handler.py:117-119 | a non-zero limit from the price is shown. Otherwise, with non-empty product metadata, `_safe_int` of its `upload_limit or uploads` is shown, and with empty metadata 0 |
| `StripeBilling.PlanUploadsFromProduct` | src/backend/stripe_handler.py:117-119 | for a listed price carrying a bare product id, the card shows the product's `upload_limit` |
| `StripeBilling.CheckoutOutcome` | src/backend/stripe_handler.py:221-263 | no userId, no subscription id, or no subscription items leaves the table unchanged; a raising lookup fails; any change touches only that user, setting count 0, a non-zero limit and the subscription id |
| `StripeBilling.CheckoutSetsPlanLimit` | src/backend/stripe_handler.py:246-263 | with subscription items, only the user's record changes: the first item's limit (10 when it reads 0), count 0, and the subscription id |
| `StripeBilling.InvoiceOutcome` | src/backend/stripe_handler.py:266-294 | no subscription id: no change. With one, failure exactly when the subscription lookup raises. The key set of the table is always kept |
| `StripeBilling.InvoiceResetsSubscribers` | src/backend/stripe_handler.py:266-294 | with the subscription retrieved, every record holding its id gets count 0 and the first item's limit (10 when it reads 0 or there is no item), with its other attributes kept; every other record is unchanged |
| `StripeBilling.EventOutcome` | src/backend/stripe_handler.py:199-213 | only the three listed event types change the table; no event removes a user |
| `StripeBilling.HandleCheckoutCompleted` | src/backend/stripe_handler.py:221-263 | the table becomes `CheckoutOutcome` of the old table, and the call fails only when the subscription lookup raises |
| `StripeBilling.HandleInvoicePaid` | src/backend/stripe_handler.py:266-294 | the table becomes `InvoiceOutcome` of the old table, and the call fails only when the lookup raises |
| `StripeBilling.HandleSubscriptionDeleted` | src/backend/stripe_handler.py:297-312 | the table becomes `RevertAll` for the subscription's id |
| `StripeBilling.WebhookHandler` | src/backend/stripe_handler.py:182-218 | a missing API key gives 500, then a missing secret 500, then a bad signature 400; none of these touches the table. A verified event gives 200 with the event's outcome applied, or 500 when a handler raises |
| `StripeBilling.CheckoutWithoutLimitGivesFreeLimit` | src/backend/stripe_handler.py:246-249 | a checkout for a price with no readable limit gives the user limit 10, not 0 |
| `StripeBilling.WebhookKeepsCounters` | src/backend/stripe_handler.py:199-213 | every webhook outcome keeps each item's count and limit present |
| `ApiRequests.AuthenticatedUser` | src/backend/get_user_pdfs.py:52-54 | the caller is the `sub` claim when present and non-empty, and none otherwise |
| `UserPdfs.ConvertDecimal` | src/backend/get_user_pdfs.py:18-29 | no Decimal remains outside a set. Lists keep their length and dicts their keys, and each element or entry value is the conversion of the one in the same place. Integral Decimals become their int value, others a float. Other values, sets included, are unchanged |
| `UserPdfs.ConvertDecimalFixpoint` | src/backend/get_user_pdfs.py:18-29 | a value without Decimals is returned unchanged |
| `UserPdfs.ConvertDecimalIdempotent` | src/backend/get_user_pdfs.py:18-29 | converting twice equals converting once |
| `UserPdfs.WholeDecimalsBecomeInts` | src/backend/get_user_pdfs.py:23-27 | `Decimal('3')`, `Decimal('3.0')` and `Decimal('-12.0')` become ints; `Decimal('2.5')` does not |
| `UserPdfs.NumberSetKeepsDecimals` | src/backend/get_user_pdfs.py:18-29 | a DynamoDB number set, alone or inside a list, is returned unchanged with its Decimals |
| `UserPdfs.ResolveUri` | src/backend/get_user_pdfs.py:91-98 | a non-`s3://` URI resolves to the configured bucket with the whole URI as key. An `s3://` URI fails iff no `/` follows the bucket; otherwise it splits into a `/`-free bucket and the key |
| `UserPdfs.ResolveS3Uri` | src/backend/get_user_pdfs.py:92-94 | `s3://b/k` resolves to `b` and `k`, even when `k` holds `/` |
| `UserPdfs.BucketOnlyUriFails` | src/backend/get_user_pdfs.py:94 | `s3://b` with no further `/` does not resolve |
| `UserPdfs.UrlOf` | src/backend/get_user_pdfs.py:87-111 | there is a URL only when the processed URI is present and non-empty and resolves. Then the URL is what the presigner gives for the resolved bucket and key: none when it raises |
| `UserPdfs.EntryOf` | src/backend/get_user_pdfs.py:113-120 | the entry carries the item's id, name and timestamps; a missing status reads as `unknown` |
| `UserPdfs.EntriesOf` | src/backend/get_user_pdfs.py:79-120 | one entry per item, in query order |
| `UserPdfs.ListUserPdfs` | src/backend/get_user_pdfs.py:56-125 | empty bucket name: 500, then OPTIONS: 200, then no `sub`: 401, then a failed query: 500. Otherwise the entries of the caller's items, built in a loop and sorted newest upload first |
| `UserPdfs.ListingIsSortedPermutation` | src/backend/get_user_pdfs.py:122-123 | the listing is a permutation of the entries, with one per item, in non-increasing `uploadedAt or ''` order; equal timestamps keep query order |
| `UserPdfs.S3UriUrl` | src/backend/get_user_pdfs.py:92-108 | an item stored at `s3://b/k` is presigned for bucket `b` and key `k` |
| `UserPdfs.PlainKeyUrl` | src/backend/get_user_pdfs.py:95-108 | an item with a plain key is presigned in the configured bucket under that key |
| `UserPdfs.BucketOnlyItemListed` | src/backend/get_user_pdfs.py:94-120 | an item whose URI names only a bucket is still listed, with no URL |
| `UserPdfs.FailedPresignItemListed` | src/backend/get_user_pdfs.py:87-120 | an item whose presign call raises (here `s3://b/`, with an empty key) is still listed, with its status and no URL |
| `ProcessedListing.KeyToDate` | src/backend/get_processed_pdfs.py:35-40 | the key is dated exactly when it has at least four `/`-segments and the second to fourth have lengths 4, 2 and 2. The date is those segments joined by `-`; otherwise the result is `unknown` |
| `ProcessedListing.KeyToDateByLength` | src/backend/get_processed_pdfs.py:35-40 | any segments of lengths 4, 2 and 2 after the first make the date `y-m-d`, digits or not |
| `ProcessedListing.KeyWithoutSlashIsUnknown` | src/backend/get_processed_pdfs.py:35-40 | a key without `/` is `unknown` |
| `ProcessedListing.ProcessedKeyDate` | src/backend/get_processed_pdfs.py:35-40 | round trip with the processor: for a `/`-free user and a four-digit year, the date read from a processed key is `YYYY-MM-DD` of the day it was written |
| `ProcessedListing.KeptFiles` | src/backend/get_processed_pdfs.py:60-67 | every object with a non-empty key not ending in `/` is listed, and there are never more entries than objects |
| `ProcessedListing.KeptFilesShape` | src/backend/get_processed_pdfs.py:62-67 | only non-empty keys not ending in `/` are listed; the name is the `/`-free last segment of the key |
| `ProcessedListing.DatesOfMembers` | src/backend/get_processed_pdfs.py:66-84 | the grouping's dates are exactly the dates of the kept files |
| `ProcessedListing.DatesOfDistinct` | src/backend/get_processed_pdfs.py:84 | each date is a key of the grouping once |
| `ProcessedListing.GroupsFor` | src/backend/get_processed_pdfs.py:92-95 | one group per date, in the given order, each holding that date's files |
| `ProcessedListing.AppendToGroup` | src/backend/get_processed_pdfs.py:84-90 | `setdefault(date, []).append(f)` keeps the map equal to the seen files grouped by date |
| `ProcessedListing.BuildDates` | src/backend/get_processed_pdfs.py:92-95 | the dates loop yields the grouping of the seen files, with dates in descending order |
| `ProcessedListing.ListProcessedPdfs` | src/backend/get_processed_pdfs.py:43-97 | empty bucket name: 500, then OPTIONS: 200, then no `sub`: 401. Otherwise the kept objects under `<user>/`, grouped by date in nested loops |
| `ProcessedListing.DatesStrictlyDescending` | src/backend/get_processed_pdfs.py:92-95 | output dates are distinct and strictly descending |
| `ProcessedListing.FilesNewestFirst` | src/backend/get_processed_pdfs.py:94 | within a date, files are in non-increasing `lastModified or ''` order; equal stamps keep listing order |
| `ProcessedListing.EachFileInItsGroup` | src/backend/get_processed_pdfs.py:66-95 | every kept file is in the group for its own date |
| `ProcessedListing.GroupHoldsOnlyItsDate` | src/backend/get_processed_pdfs.py:84-95 | a group holds only kept files of its date |
| `Processor.ProcessedKeySegments` | src/data/processor.py:27 | for a `/`-free user, the key's first four segments are the user, `str(year)`, and the two-digit month and day |
| `Processor.ProcessedKeyDateSegments` | src/data/processor.py:27 | for a valid date, month and day are exactly two digits that spell their values, and a year from 1000 on is four digits |
| `Processor.ProcessPdf` | src/data/processor.py:13-32 | a missing `key`, `userId` or `fileId` fails, on the first one missing, before any S3 call; otherwise the object is read, then written under the processed key, and that key is returned |
| `Processor.ProcessedKeyIgnoresSource` | src/data/processor.py:16-27 | the processed key does not depend on the source key or the filename |
| `Processor.ProcessedKeyInjective` | src/data/processor.py:27 | for one user and day, distinct file ids give distinct keys |
| `Numerals.Pad2` | src/data/processor.py:27 | `:02d` gives digits that denote the number, exactly two of them below 100 |
| `Numerals.ParseIntToString` | src/backend/stripe_handler.py:28 | `int(str(n)) == n` on the modelled grammar |
| `Ordering.SortDescSorted` | src/backend/get_user_pdfs.py:123 | `sorted(..., reverse=True)` gives non-increasing key order |
| `Ordering.SortDescStable` | src/backend/get_user_pdfs.py:123 | the sort is stable: elements with equal keys keep their order |
| `Text.SplitJoin` | src/backend/get_processed_pdfs.py:37 | splitting a join of `/`-free parts gives the parts back |
| `Text.JoinSplit` | src/backend/get_processed_pdfs.py:37 | joining the pieces of a split gives the string back |
| `Text.LastPartIsLastPiece` | src/backend/get_processed_pdfs.py:67 | `key.split('/')[-1]` is the part after the last `/` |

## Left out

- AWS and Stripe I/O is not modelled. That covers S3 get/put and presigned
  URLs, DynamoDB calls, EventBridge, Stripe API calls and webhook
  signature verification. Each becomes a parameter: a function, or the
  outcome of verification.
- `uuid4` and `datetime.now` become parameters (`fileId`, `now`).
- The DynamoDB scan is taken as "all matching items"; the code ignores
  pagination. The PDFs query result is taken as the handler sees it (its
  first page).
- DynamoDB write failures and other exceptions inside handlers are left
  out. The model does cover these failures the code handles: a failed
  update on a missing count, the Stripe lookup raising, the PDFs query
  raising, the URI split raising, a presign call raising in the PDF list,
  and a non-string content type in the upload body. Whether a given
  bucket or key makes the presigner raise is up to the presign parameter.
- The check-then-increment race between `check_quota` and
  `increment_upload_count` is left out; the model is sequential.
- `UserPdfs.ConvertDecimal`: a DynamoDB set is modelled as a sequence
  of its elements in some order; set semantics (no duplicates, no order)
  are not modelled, and the conversion leaves the set untouched.
- Floats are left out: the price formatting `unit_amount/100`, the
  float-parsed sort of plans, and the float branch of `convert_decimal`,
  which the model leaves as an opaque `Float`. The plan-list loop of
  `get_plans_handler` is modelled only through its features and upload
  count, because its order depends on that float sort.
- `_extract_product_id_from_price` and the price id only feed a log line.
- `create_checkout_handler` is outside this model, as are the constant
  handlers.
- `StripeBilling.SafeInt`: accepts only an optional sign and ASCII
  digits. Python's `int()` also takes surrounding white space,
  underscores and non-ASCII digits.
- `Upload.UploadHandler`: takes the upload presigner as total. Its key is
  never empty, so only the bucket name or the content type could make it
  raise, and only the content type is modelled.
- `UserPdfs.ListUserPdfs`: reads item attributes as strings. An attribute
  stored as a number or any other non-string type is not modelled, nor
  is the exception such a value raises in `startswith` or in the sort.
- `ProcessedListing.ListProcessedPdfs`: takes `LastModified` already in
  its ISO form; the time-zone conversion is not modelled.
- CDK construct identity, the context cache of `valueFromLookup`, and the
  resolution of `Fn.importValue` are uninterpreted.
- JavaScript's UTF-16 code units are not modelled. A character outside
  the Basic Multilingual Plane counts as one character here. After hyphen
  collapsing it sanitizes the same way.
- The CDK stack definitions, app wiring, frontend and LLM helpers are not
  part of this model.
