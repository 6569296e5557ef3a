# Photo archive: verified model

The repository is the back end of a photographic archive and shop. It copies records from a legacy feed into
a catalogue, sells licenses for the assets through cart, order and payment, and issues download links. This
project models the parts of it that carry a protocol or a transformation, and proves what they keep.

`dafny verify dfyconfig.toml` checks everything.

| file | models |
|---|---|
| `Sequences.dfy` | sequence facts that several modules share |
| `Strings.dfy` | text operations of the standard library: case, replace, split, join, strip, decimal notation |
| `Normalizers.dfy` | clean-up, sentence case and tags of feed texts |
| `SecondPass.dfy` | when cleaning and sentence-casing a text a second time changes it |
| `TextLaws.dfy` | what the repairs, sentence case, title case and tags mean, without naming their steps |
| `FeedMapping.dfy` | feed records, the change-detection checksum, the mapping onto catalogue fields |
| `SourceKeys.dfy` | which key each catalogue field comes from, and what stands in for a blank one |
| `Numbering.dfy` | catalogue numbers and slugs |
| `SyncStore.dfy` | the checksum-driven upsert and runs of deliveries; the tables as a class |
| `Reseed.dfy` | rebuilding from payloads, the junk sweep, backfill, and what an editor's lock protects |
| `Pull.dfy` | the live-feed loop against a server that tracks acknowledgements |
| `Cart.dfy`, `CartViews.dfy` | cart rows under soft deletion and a unique constraint; checkout |
| `Shop.dfy`, `ShopViews.dfy` | orders, payments, webhooks, entitlements and download links as interleaved steps |
| `Filters.dfy` | search filters: segments and ids, printed clauses, their parsing and evaluation |
| `FilterRequests.dfy` | one request as the engine and as the database read it, dates and year included |

The functions say what one operation does to the tables. The classes `Archive`, `SyncRun`, `Feed`, `CartTable`
and `ShopDb` do it step by step on mutable fields, and each method is proved equal to its function, so the
lemmas about runs are about the methods.

## Assumptions

- SHA-256 does not collide: a checksum is the projection of the record onto its fields.
- A database transaction is atomic; requests on one cart, and link requests, are served one at a time.
- The feed server keeps its contract (`apps/ingestion/urithi_client.py:6-8`): a fetch returns pending records
  only, and none only when none is pending. It may fail, and so may an acknowledgement before or after the
  server has noted it.
- The database compares ids as UUIDs; parsing and printing them are parameters (`Filters.Ids`), of which it is
  assumed that a printed id parses back and that the empty text is none.
- Dates and years of a search request are read by four library functions (`FilterRequests.Readers`), of which it is
  assumed that both sides read a calendar day YYYY-MM-DD, and a year of one to four digits, alike.
- `uuid.UUID`, `strptime`, `int`, `Decimal`, `slugify`, `mktime` and the code table are parameters. A database or
  file-mirroring failure of one attempt is the parameter `io`.
- The search engine's filter grammar is the one at the head of `Filters.dfy`.
- Letters are those of ASCII and Latin-1 with a one-character counterpart, the ligature U+0152/U+0153 and the pair
  U+0178/U+00FF. What is said of letter case is said for texts of the characters `Strings.IsModelled` lists.
  Whitespace is all that Python strips.

## What the proofs found

- `_map_fields` tells an absent `image_refno` from a null one, and the checksum does not. So a title of last
  resort can lag behind its record (`SyncStore.TitleLags`); `FeedMapping.TitleDrift` is the exact condition, and a
  plain reseed repairs it (`Reseed.RemapRebuilds`).
- The checksum leaves out `thumbnails`, `image_cost` and `date_image_injested`: an unchanged checksum does not
  promise the status, the price or the digitisation date (`SyncStore.VolatileLags`), and the price is that of the
  first stored delivery.
- Cleaning a text twice can differ from cleaning it once: dropping a stray lead character can bring a new
  mis-decoded sequence together (`SecondPass.StrayComesBack`). Sentence case can make one too, by capitalising a
  sentence start (`SecondPass.SmallLeadVanishes`) or by lowering a capital ligature
  (`SecondPass.CapitalLigatureVanishes`).
- `"NGOs"` among the kept acronyms can never match, because words are upper-cased before the lookup
  (`Normalizers.PluralNeverKept`).
- After KNA-999999 the seven-digit number no longer matches the pattern, and every later creation repeats it
  (`Numbering.AllocateAt`).
- The tag slug is cut to fifty characters after the search for a free one, which can cut off its suffix
  (`Numbering.TagSlugLosesSuffix`). The unique column then refuses the tag with an exception in the record's
  transaction, and however often that happens the tables stay as they were (`SyncStore.ReplayIsOnce`).
- The message of the junk sweep says that some assets were kept; one protected asset keeps all of them
  (`Reseed.JunkAllOrNothing`).
- `reseed_assets --recreate` prices the new asset from the payload, although editor-set prices are said never to
  be overwritten: an editor's price survives only if the payload asks for the same (`Reseed.RecreatePrice`,
  `Reseed.EditorPriceLost`).
- A comment in `reseed_assets` says that deleting before relinking would lose the payload. The save of the
  vanished row would raise and roll the deletion back, so nothing would be lost, but no row could ever be
  rebuilt (`Reseed.DeleteFirstNeverRebuilds`).
- If the feed holds an original and its edit as two pending entries with one image id, acknowledging one loses
  the other (`Pull.EditLost`).
- Cart sync is refused as soon as one requested pair has a physical row in that cart, even the row it is about
  to replace (`Cart.SyncRefusesKeptItem`), and a pair it dropped never comes back (`Cart.DroppedPairBlocked`).
- `fail_payment` says that the order stays pending. It has no guard: that holds exactly when no payment of the
  order was ever completed (`Shop.FailureKeepsPending`). After a success only the payment's status changes.
- Which order a shared download names depends on the order of the webhooks (`Shop.GrantingOrderIsFirst`).
- A filter value with an odd run of backslashes before a quote or at its end does not survive quoting
  (`Filters.QuotedRoundTrip`).
- The engine drops a blank segment of a comma-separated filter and the database does not
  (`Filters.WireAgreement`). The database accepts every notation of a category or collection id, the engine only
  the canonical one (`Filters.UnhyphenatedId`). The engine's dates are ISO only, the database's are those of a
  form, and the search ignores on either side what that side cannot read: `10/25/1979` bounds the database and
  not the engine (`FilterRequests.AmericanDate`), `19791025` the engine and not the database
  (`FilterRequests.CompactDate`).

## Model

| member | source | states |
|---|---|---|
| Normalizers.FixMojibakeFixpoint | apps/ingestion/normalizers.py:35-38 | the repair leaves a text alone exactly when none of the ten mis-decoded sequences occurs in it |
| Normalizers.CleanTextTidy | apps/ingestion/normalizers.py:41-44 | every cleaned text has single interior spaces and no other whitespace |
| Normalizers.SqueezeWords | apps/ingestion/normalizers.py:44 | squeezing whitespace keeps exactly the maximal runs of other characters, in order, with one space between two of them |
| Normalizers.CleanTextWords | apps/ingestion/normalizers.py:41-44 | a cleaned text is the words of the repaired text, single-spaced, and empty for null, "" and 0 |
| TextLaws.RepairsAreMisreadings | apps/ingestion/normalizers.py:15-26 | the ten repairs, in order: the sign, quotation marks, dashes and ellipsis misread as Windows-1252 from their UTF-8 bytes, then U+C2 before a space, then any U+C2 |
| TextLaws.ReplaceFirst | apps/ingestion/normalizers.py:36-37 | the leftmost occurrence is replaced, and then what follows it |
| TextLaws.ReplaceNothing | apps/ingestion/normalizers.py:36-37 | where nothing occurs nothing is replaced |
| TextLaws.TrimExact | apps/ingestion/normalizers.py:44 | stripping leaves the one middle part that keeps neither end |
| Normalizers.CleanTextFixpoint | apps/ingestion/normalizers.py:41-44 | cleaning a tidy text again changes nothing if and only if it is not garbled |
| Normalizers.SentenceCaseOnlyCase | apps/ingestion/normalizers.py:47-88 | on the modelled characters, sentence case differs from the cleaned text in letter case only |
| TextLaws.MixedCaseShare | apps/ingestion/normalizers.py:54-55 | a text passes for mixed case if and only if it has letters and fewer than 0.8 of them are capitals |
| TextLaws.MixedCaseStays | apps/ingestion/normalizers.py:55-56 | a cleaned text in mixed case passes through untouched |
| TextLaws.SentenceEnds | apps/ingestion/normalizers.py:69 | a sentence ends with a full stop, an exclamation mark or a question mark |
| TextLaws.AcronymKept | apps/ingestion/normalizers.py:60-65 | a listed acronym in any case, inside any full stops, commas and brackets, comes out in capitals with them |
| SecondPass.SentenceCaseIdempotent | apps/ingestion/normalizers.py:35-88 | on the modelled characters, a second application returns the same text if and only if the cleaned text is not garbled and is left alone for its mixed case or is steady: no sequence turns up when it is lowered, and no sentence start it capitalises begins with U+E2 |
| SecondPass.SentenceCaseIdempotentOnAscii | apps/ingestion/normalizers.py:47-88 | for every ASCII value a second application returns the same text |
| SecondPass.StrayComesBack | apps/ingestion/normalizers.py:35-88 | a concrete text on which the second application differs because the first joined a sequence |
| SecondPass.SmallLeadVanishes | apps/ingestion/normalizers.py:66-67 | a clean text whose capitalised sentence start the second application deletes |
| SecondPass.CapitalLigatureVanishes | apps/ingestion/normalizers.py:57 | a clean text in which lower case makes a sequence that the second application replaces |
| SecondPass.GarbledChars | apps/ingestion/normalizers.py:15-26 | a text is garbled exactly when it holds U+C2 or one of the three-character sequences |
| SecondPass.ResultGarbled | apps/ingestion/normalizers.py:52-88 | which cleaned texts of modelled characters sentence case leaves or makes garbled |
| Normalizers.PluralNeverKept | apps/ingestion/normalizers.py:32-62 | no word is recognised as the entry "NGOs" |
| Normalizers.KeptWordUpper | apps/ingestion/normalizers.py:60-65 | a word recognised as an acronym comes out in capitals, punctuation kept |
| Normalizers.CaseWordsAt | apps/ingestion/normalizers.py:58-69 | each word is an acronym in capitals, a capitalised sentence start, or unchanged, and which one depends on the word and its predecessor only |
| Normalizers.RestoreNameAt | apps/ingestion/normalizers.py:71-87 | the substitution raises exactly the first letter of each whole-word match |
| Normalizers.ProperNamesRestored | apps/ingestion/normalizers.py:70-88 | after all substitutions no listed name is left in lower case as a whole word |
| Normalizers.ComputeCaseWords | apps/ingestion/normalizers.py:58-69 | the loop with its carried flag computes the recursive rendering |
| Normalizers.ComputeSentenceText | apps/ingestion/normalizers.py:47-88 | early returns, word loop and name loop compute the specified text |
| Normalizers.ParseTagsExact | apps/ingestion/normalizers.py:96-111 | tags are distinct, two to fifty characters long, and exactly the usable segments |
| Normalizers.ComputeTags | apps/ingestion/normalizers.py:102-111 | the loop with its `seen` set yields the first occurrences in order |
| Normalizers.TagOfNormal | apps/ingestion/normalizers.py:104-107 | a tag is lower-case and single-spaced, and fifty characters long if it was cut; otherwise it is no print reference and its ends are clean |
| TextLaws.TagOfExact | apps/ingestion/normalizers.py:104-107 | a segment gives no tag if and only if its words, stripped and lowered, are shorter than two characters or a print reference; otherwise they are the tag, cut to fifty characters |
| TextLaws.RefnoExact | apps/ingestion/normalizers.py:28 | a print reference is one to five digits, one of / _ -, and one to five digits |
| TextLaws.SegmentsExact | apps/ingestion/normalizers.py:103 | the segments are the pieces of the repaired text between its commas and semicolons |
| Normalizers.TitleCaseOnlyCase | apps/ingestion/normalizers.py:91-93 | on the modelled characters, title case changes letter case only, and a second application changes nothing |
| TextLaws.TitleCaseAt | apps/ingestion/normalizers.py:91-93 | a letter is a capital if and only if no letter stands before it |
| FeedMapping.TryFormatsExact | apps/ingestion/normalizers.py:117-124 | a date comes from the first format that parses, and is never the "unknown" day |
| FeedMapping.TitleCovered | apps/ingestion/services.py:144-149 | records with equal checksums have equal titles if and only if the fallback title does not drift |
| FeedMapping.ChecksumCoversMapping | apps/ingestion/normalizers.py:150-177 | records with equal checksums map alike, or both fail to map, in every content field except a drifting title |
| FeedMapping.TitleDriftExample | apps/ingestion/services.py:144-149 | two storable records with one checksum and different titles |
| FeedMapping.VolatileExample | apps/ingestion/normalizers.py:150-171 | two storable records with one checksum that differ in status, digitisation date and price |
| SourceKeys.OneKeyTexts | apps/ingestion/services.py:140-222 | two records that differ under one key have equal titles, credits, keyword lines and tags unless the key is one of their sources |
| SourceKeys.OneKeyRest | apps/ingestion/services.py:140-208 | the same for the ten fields with a single source key: location, county, country, category, collection and the others |
| SourceKeys.OneKeyRaises | apps/ingestion/services.py:159-222 | whether content maps at all depends on the date and the keywords only |
| SourceKeys.LegibleShown | apps/ingestion/services.py:140-222 | the whole content of a record of clean texts: each text turns up in its own field, places in title case, the reference before the keywords, codes resolved, year and decade among the tags |
| SourceKeys.BlankExact | apps/ingestion/normalizers.py:41-93 | a value cleans to nothing, in any of the three cases, if and only if it has no word |
| SourceKeys.TitleShown | apps/ingestion/services.py:143-149 | title: the description, else the headline, else the reference |
| SourceKeys.ReferenceTitle | apps/ingestion/services.py:148 | the title of last resort for an absent, a null and a textual reference |
| SourceKeys.PhotographerShown | apps/ingestion/services.py:153-157 | credit: the creator, else the job title, else "Staff Photographer" |
| SourceKeys.SourceShown | apps/ingestion/services.py:159-199 | "KNA" for a blank source; the reference before the keywords, either alone if the other is blank |
| SourceKeys.CountryShown | apps/ingestion/normalizers.py:143-147 | UGA and TZA in any case are Uganda and Tanzania, whatever else is sent is Kenya |
| SourceKeys.CodesShown | apps/ingestion/services.py:125-167 | the category is the target of the sub-category code, the collection that of the main-category code; null, 0, "" and unreadable codes have none |
| SourceKeys.TagsShown | apps/ingestion/services.py:210-216 | the tags are those of the keywords, the year, and the decade |
| SourceKeys.DateShown | apps/ingestion/normalizers.py:114-124 | publication and capture date come from the first of the four notations that parses, and 1970-01-01 is none |
| SourceKeys.MapsExactly | apps/ingestion/normalizers.py:96-124 | a record fails to map if and only if it sends a number other than zero for a date or for the keywords |
| SourceKeys.ExtraShown | apps/ingestion/services.py:171-172 | published if and only if the live list has a URL that is not blank, or is empty and the dump's list has one; the digitisation date comes from `date_image_injested` |
| SourceKeys.PriceShown | apps/ingestion/normalizers.py:127-142 | the source's price if it is a positive number, else the default |
| Numbering.LexIsNumeric | apps/ingestion/services.py:111-114 | on digit texts of equal length, text order is numeric order |
| Numbering.MaxSerialIsMax | apps/ingestion/services.py:115-121 | the text-ordered query finds the greatest serial |
| Numbering.FormatInverse | apps/ingestion/services.py:121-122 | parsing inverts formatting, and a formatted number matches the pattern up to 999999 only |
| Numbering.FormatShape | apps/ingestion/services.py:122 | "KNA-" and the serial, ten characters up to 999999 |
| Numbering.FirstNumber | apps/ingestion/services.py:121-122 | where no well-formed number is in use the next is KNA-000001 |
| Numbering.NextIsFresh | apps/ingestion/services.py:111-122 | the next number is unused if and only if serials remain or the first overflowing number is unused |
| Numbering.AllocateAt | apps/ingestion/services.py:111-122 | a run of creations gets consecutive serials, then one number for ever |
| Numbering.AllocationBound | apps/ingestion/services.py:111-122 | a run gets distinct unused numbers if and only if it fits, with its exact bound |
| Numbering.UniqueSlug | apps/ingestion/services.py:46-52 | the loop ends within one probe more than there are live slugs, with the first unused candidate |
| Numbering.SlugShape | apps/ingestion/services.py:47-51 | the slug is cut to 95 characters, "item" stands in for an empty one, and the tries are numbered from 2 |
| Numbering.CandidateInjective | apps/ingestion/services.py:50-51 | no two candidates of one slug are equal |
| Numbering.TagSlugFree | apps/ingestion/services.py:218-220 | the cut slug of the first free candidate is unused if and only if nothing was cut or the stated remains are unused; a suffix cut to a number other than 1 always collides |
| Numbering.TagSlug | apps/ingestion/services.py:218-220 | the search followed by the cut, with that condition for its result |
| Numbering.TagSlugLosesSuffix | apps/ingestion/services.py:218-220 | for every slug of 49 characters, live slugs with which the cut slug is in use |
| SyncStore.DeliverValid | apps/ingestion/services.py:297-352 | a delivery keeps foreign keys and the one-to-one link from rows to assets |
| SyncStore.ChecksumExact | apps/ingestion/normalizers.py:153-177 | two checksums are equal if and only if the records agree under the sixteen listed keys and on `image_thumbnails` |
| SyncStore.OutcomeExact | apps/ingestion/services.py:304-352 | when a record is created, skipped, held back or updated, each if and only if |
| SyncStore.ExternalIdExact | apps/ingestion/services.py:300 | the id is what the library reads in the text under `image_id` |
| SyncStore.WritesRow | apps/ingestion/services.py:307-352 | a creation or an update writes payload, checksum, reference and the whole mapping, and no other row |
| SyncStore.WritesPrice | apps/ingestion/services.py:175-180 | a price that is set is kept; a new asset, or one without, gets the source's |
| SyncStore.WritesPayload | apps/ingestion/services.py:328-339 | a skipped or conflicting delivery replaces the payload and nothing else |
| SyncStore.TallyExact | apps/ingestion/services.py:282-294 | each counter is the number of deliveries with its outcome |
| SyncStore.RunMatches | apps/ingestion/services.py:297-352 | after any run a row shows its last stored payload and its asset the mapping of the delivery that opened the current stretch of equal checksums |
| SyncStore.IncrementalRefinesRemap | apps/ingestion/services.py:297-352 | after any run every asset equals the full remap of its last stored delivery, the title except in the drifting case |
| SyncStore.TitleLags | apps/ingestion/services.py:144-149 | two deliveries after which the title differs from that of the stored payload |
| SyncStore.VolatileLags | apps/ingestion/services.py:328-331 | two deliveries after which status, digitisation date and price differ from those of the stored payload |
| SyncStore.Redelivery | apps/ingestion/services.py:326-331 | delivering a record again at once changes nothing, whatever branch the first delivery took |
| SyncStore.ReplayIsOnce | apps/ingestion/services.py:284-291 | any number of attempts at one record, failed ones among them, leave the tables of one delivery, or unchanged if all fail |
| SyncStore.RedeliveryLater | apps/ingestion/services.py:415-419 | once a record is committed, delivering it again after any deliveries of other records changes nothing |
| SyncStore.TallyComplete | apps/ingestion/services.py:282-294 | created, updated, skipped, conflicts and failures add up to the deliveries |
| SyncStore.RowsKept | apps/ingestion/services.py:297-352 | deliveries never remove a row |
| SyncStore.RunKeepsIdentity | apps/ingestion/services.py:307-312 | over any run of deliveries no row changes its asset and no asset its number |
| SyncStore.ExactlyOnce | apps/ingestion/services.py:306-326 | created outcomes equal the new rows and the new assets, under any replay |
| SyncStore.NumbersStayDistinct | apps/ingestion/services.py:306-312 | a delivery keeps asset numbers distinct if and only if it creates nothing or its number is unused |
| SyncStore.Archive.Upsert | apps/ingestion/services.py:297-352 | the statements in order have the specified outcome and, unless they raise, the specified tables |
| SyncStore.Archive.SyncAtomic | apps/ingestion/services.py:286-287 | with the rollback, the tables are always the specified ones |
| SyncStore.Archive.SyncImages | apps/ingestion/services.py:282-294 | the loop leaves the tables of the run of deliveries, and its counters and errors are the run's tally |
| Reseed.DeleteFirstNeverRebuilds | apps/ingestion/management/commands/reseed_assets.py:105-120 | with the deletion before the relink no row could be rebuilt; as it is, exactly those are that map and whose asset is unprotected |
| Reseed.RecreateKeepsDistinct | apps/ingestion/management/commands/reseed_assets.py:109 | a recreation keeps asset numbers distinct if and only if serials remain or no other asset has the overflowing number |
| Reseed.RunKeepsDistinct | apps/ingestion/services.py:111-122 | over any run of deliveries, reseeds, sweeps and backfills the numbers stay distinct while there is a serial for each asset created |
| Reseed.RecreateRowConserves | apps/ingestion/management/commands/reseed_assets.py:97-134 | a row is rebuilt if and only if it is unlocked, maps, and its asset is unprotected; its new asset has the next number, the whole mapping of its payload and the payload's price |
| Reseed.RecreatePrice | apps/ingestion/management/commands/reseed_assets.py:108-120 | a recreation keeps the old asset's price if and only if it is the payload's |
| Reseed.EditorPriceLost | apps/ingestion/services.py:175-180 | an edited price that the next recreation replaces |
| Reseed.RecreateConserves | apps/ingestion/management/commands/reseed_assets.py:97-134 | for every order of rows, set of failures and set of protected assets, all ids, payloads, checksums and locks survive, links stay one-to-one, protected assets are intact |
| Reseed.JunkAllOrNothing | apps/ingestion/management/commands/reseed_assets.py:77-88 | the sweep removes exactly the unlinked assets if none of them is protected, and otherwise nothing |
| Reseed.RemapRebuilds | apps/ingestion/management/commands/reseed_assets.py:121-129 | a plain reseed keeps rows, numbers, set prices and unlinked assets, and brings every unlocked asset it reached to the full mapping of its payload |
| Reseed.RemapRowExact | apps/ingestion/management/commands/reseed_assets.py:121-129 | one row of a plain reseed is remapped if and only if it is unlocked and maps; number and set price stay, everything else is the mapping of the payload |
| Reseed.RowResultExact | apps/ingestion/management/commands/reseed_assets.py:98-100 | a row is skipped if and only if it is locked, and a skipped or failed row changes nothing |
| Reseed.CountsExact | apps/ingestion/management/commands/reseed_assets.py:96-134 | remapped, skipped and failed add up to the rows read, and the skipped ones are those locked at the start |
| Reseed.BackfillRefinesRemap | apps/ingestion/management/commands/backfill_categories.py:34-50 | under a code table that only gained targets, the backfill yields what remapping the payload would |
| Reseed.BackfillExact | apps/ingestion/management/commands/backfill_categories.py:28-50 | the backfill leaves locked rows alone, fills a missing category or collection from its own code, and keeps one that is set |
| Reseed.ReseedOne | apps/ingestion/management/commands/reseed_assets.py:97-134 | one turn of the loop, with the rollback, is the specified step |
| Reseed.ReseedLoop | apps/ingestion/management/commands/reseed_assets.py:96-134 | the loop leaves the specified tables, and the three counters count their results |
| Reseed.ReseedAssets | apps/ingestion/management/commands/reseed_assets.py:60-134 | the command keeps every row, with `--recreate` conserves what the sweep left, and reports counters that add up, with the locked rows for the skipped ones |
| Reseed.LockedStep | apps/ingestion/services.py:333-339 | no single step changes a locked record's asset, link or checksum; the payload changes only by a committed delivery |
| Reseed.LockPreserves | apps/ingestion/management/commands/backfill_categories.py:28-50 | over any run of deliveries, reseeds, sweeps and backfills a locked record is untouched, its payload that of its last committed delivery |
| Reseed.UnlockThenRedeliver | apps/ingestion/services.py:333-352 | a version held back by the lock is applied by its next delivery after the lock is lifted |
| Pull.Feed.FetchBatch | apps/ingestion/urithi_client.py:38-64 | the server's side of a fetch: pending records only, none only when none is pending, or an error |
| Pull.Feed.Ack | apps/ingestion/urithi_client.py:66-83 | may be called only for a committed record whose row shows the delivered payload; loses the request, the response, or nothing |
| Pull.DeliveryDurable | apps/ingestion/services.py:393-399 | a committed delivery is durable, and every delivery keeps all acknowledged ids stored |
| Pull.ProcessRecord | apps/ingestion/services.py:393-419 | one record: transaction, counter, acknowledgement, with a crash possible after each; without a crash there is exactly one attempt to acknowledge if the record was committed, whatever its outcome, and none otherwise |
| Pull.StoreAndAck | apps/ingestion/services.py:392-419 | whatever part of a batch ran, the store is a run of deliveries, no id is lost, every record that left the pending ones is accounted for, and an acknowledgement shrinks the pending set; without a crash successful and failed acknowledgements together equal the records committed |
| Pull.PullBatch | apps/ingestion/services.py:378-437 | one turn of the loop goes on only after progress, keeps the counters balanced, and confirms every record of its batch that left no error; it stops for a crash, an empty reply, or with an error |
| Pull.PullLoop | apps/ingestion/services.py:378-437 | the loop ends by a crash, the cap, a failed fetch, an empty one, or a batch without an acknowledgement, after at most one fetch more than there were pending records; without crash, cap and errors it drains the feed |
| Pull.PullBatches | apps/ingestion/services.py:358-441 | no id lost, every acknowledged id stored, every record still pending or stored unless two pending ones share an image id, counters and errors account for everything; a run without crash, cap and errors leaves nothing pending and all stored |
| Pull.AccountedStep | apps/ingestion/services.py:396-414 | a delivery with at most its acknowledgement keeps the account of every record that left the pending ones |
| Pull.AckDropsOne | apps/ingestion/urithi_client.py:6-8 | an acknowledgement drops just its record, for every pending record, if and only if no two different pending records share an image id |
| Pull.EditLost | apps/ingestion/urithi_client.py:6-8 | an original and its edit pending together: the edit is dropped without having been delivered |
| Pull.Operate | apps/ingestion/services.py:358-372 | any sequence of pulls, crashes, imports, reseeds and lock changes keeps every acknowledged id stored, and every image id ever on offer pending or acknowledged with its row |
| Cart.AddExact | apps/commerce/views.py:89-108 | an add succeeds if and only if the pair is valid and has no physical row, and then adds just that pair |
| Cart.AddSucceedsUnlessInCart | apps/commerce/views.py:89-108 | after any run without syncs, a valid pair can be added if and only if it is not in the live cart |
| Cart.RemoveExact | apps/commerce/views.py:139-145 | a removal works if and only if the row is one's own and live; it takes out that pair only and frees its slot |
| Cart.RemoveThenAdd | apps/commerce/views.py:139-145 | a removed pair can be added again, which restores the live cart |
| Cart.RunsKeepSlots | apps/commerce/models.py:96-98 | every run keeps one row per slot, and without syncs no soft-deleted row |
| Cart.SyncReplaces | apps/commerce/views.py:195-210 | a sync makes the live cart exactly the request if and only if the pairs are valid, distinct and have no physical row; otherwise nothing changes |
| Cart.SyncRefusesKeptItem | apps/commerce/views.py:201-207 | any sync that keeps an item of the cart is refused and changes nothing |
| Cart.DeadRowStaysForever | core/models.py:15-34 | no run of requests frees the slot of a soft-deleted row |
| Cart.DroppedPairBlocked | apps/commerce/views.py:201-207 | after any later requests a pair dropped by a sync is not in the cart and cannot be added |
| Cart.CheckoutConserves | apps/commerce/serializers.py:170-210 | checkout succeeds if and only if the cart is non-empty and priced; the order lists exactly the cart's pairs at their prices, tax is 0, subtotal and total are the sum, and only the live rows of the buyer go |
| Cart.RunsKeepBuyable | apps/commerce/serializers.py:79-91 | under a catalogue that stays as it is, every live row of any run is visible, priced and licensed, and no checkout finds a price missing |
| CartViews.ValidateItems | apps/commerce/serializers.py:102-111 | the loop accepts exactly lists without a repeated pair |
| CartViews.CartTable.Post | apps/commerce/views.py:89-124 | the handler is the specified add |
| CartViews.CartTable.Destroy | apps/commerce/views.py:142-156 | the handler is the specified removal |
| CartViews.CartTable.Replace | apps/commerce/views.py:195-210 | soft-delete, loop of inserts and rollback are the specified sync |
| CartViews.CartTable.PlaceOrder | apps/commerce/serializers.py:170-210 | totals, frozen items and clearing are the specified checkout |
| Shop.Entitlement | apps/payments/services.py:27-99 | in every reachable state an order is paid if and only if one of its payments was, downloads are exactly the items of paid orders, every payment asks for its order's frozen total, and every order has tax 0 and the sum of its items for subtotal and total |
| Shop.OrdersFrozen | apps/commerce/models.py:111-172 | over any run an order keeps its items and totals, and stays paid once paid |
| Shop.CheckoutRecorded | apps/commerce/serializers.py:185-210 | a placed order is recorded unpaid, together with the emptied cart; a refused checkout changes nothing |
| Shop.InitiateExact | apps/payments/views.py:58-83 | a payment starts if and only if the order exists and is the buyer's own, at the sum of its frozen items, and touches nothing else |
| Shop.InvoiceReplyExact | apps/payments/views.py:136-158 | the gateway's reply makes the payment pending or failed, and touches nothing else |
| Shop.LoadOpens | apps/payments/views.py:176-204 | a call opens a handler if and only if the payment exists and, for the simulation, is still open; the handler holds the outcome that arrived |
| Shop.CallsMatch | apps/payments/views.py:274-277 | over any steps the open handlers are the opened and uncommitted calls, each with its payment and its outcome |
| Shop.SuccessPays | apps/payments/services.py:27-61 | a reported success completes the payment, pays its order, and grants each missing item with five downloads; other orders, payments and downloads stay |
| Shop.KeysExact | apps/payments/services.py:51-61 | an order entitles its buyer to each asset it lists, under the license listed with it |
| Shop.FailureFails | apps/payments/services.py:79-86 | a reported failure marks the payment failed and changes nothing else |
| Shop.WebhooksSettle | apps/payments/services.py:31-61 | any webhook traffic adds exactly the orders and entitlements of the payments whose committed callbacks arrived as successes |
| Shop.WebhooksConfluent | apps/payments/views.py:274-277 | two schedules that commit successes for the same payments end with the same orders, downloads and counters |
| Shop.GrantingOrderIsFirst | apps/payments/services.py:51-57 | the order named by a shared entitlement does not depend on the schedule if and only if both payments are for one order |
| Shop.LateFailure | apps/payments/services.py:79-86 | a failure after the success changes the payment's status and nothing else |
| Shop.FailureKeepsPending | apps/payments/services.py:79-86 | a failed payment leaves its order pending if and only if no payment of that order was ever completed |
| Shop.FailureAfterSuccess | apps/payments/services.py:79-86 | a success followed by a failure of the same payment: failed payment, paid order |
| Shop.LinkQuota | apps/downloads/views.py:78-140 | over any run links issued equal the counter and stay within the highest limit, five without an external one |
| Shop.LinksGiven | apps/downloads/views.py:78-140 | of n requests in a row for a local link exactly as many are served as downloads remain, none once the provider reports the limit, and each is counted |
| Shop.ExternalSyncExact | apps/downloads/urithi.py:64-75 | what the provider reports - limit, link, exceeded - decides the next request, and nothing else changes |
| ShopViews.ShopDb.GrantItems | apps/payments/services.py:51-61 | the loop adds exactly the missing keys and leaves existing rows alone |
| ShopViews.ShopDb.CompletePayment | apps/payments/services.py:27-61 | the transaction is the specified step for the status read before it |
| ShopViews.ShopDb.LoadWebhook | apps/payments/views.py:176-204 | a handler starts, with the outcome that arrived, if and only if the payment exists and, for the simulation, is still open; an unknown payment is reported as such |
| ShopViews.ShopDb.CommitWebhook | apps/payments/views.py:274-277 | acting on the status read earlier keeps the entitlement invariant |
| ShopViews.ShopDb.GetLink | apps/downloads/views.py:78-140 | exactly when each of the five replies is given, what is counted and what remains |
| Filters.QuotedRoundTrip | apps/assets/meilisearch_client.py:219-222 | a quoted value reads back if and only if no odd run of backslashes stands before a quote or the end |
| Filters.ListRoundTrip | apps/assets/meilisearch_client.py:233-238 | a printed list reads back if and only if each of its values does |
| Filters.EqOrInParses | apps/assets/meilisearch_client.py:225-239 | the printed clause parses to the meaning of the value list if and only if its values are well quoted |
| Filters.IntClauseParses | apps/assets/meilisearch_client.py:280-291 | year and timestamp clauses parse to their comparison |
| Filters.CompilationPreservesMeaning | apps/assets/meilisearch_client.py:242-291 | for well-quoted values the engine accepts a document if and only if the asset satisfies the filters, OR within and AND across |
| Filters.CompiledShown | apps/assets/meilisearch_client.py:269-291 | the printed list of a request with one value of each kind, clause by clause |
| Filters.TwoValues | apps/assets/meilisearch_client.py:233-238 | two values make one IN clause |
| Filters.FieldsShown | apps/assets/meilisearch_client.py:135-158 | what a document holds under each filterable name |
| Filters.CsvRoundTrip | apps/assets/views.py:244-249 | a comma-separated list of plain values is read back as that list |
| Filters.BuildFilters | apps/assets/meilisearch_client.py:269-291 | the comprehension and the appends build the specified list |
| Filters.WireAgreement | apps/assets/views.py:244-249 | both engines read a comma-separated text filter alike if and only if it has no blank segment |
| Filters.IdAgreement | apps/assets/filters.py:41-50 | the database can read an id filter and both engines read it alike if and only if every segment names an id whose canonical text is among the segments |
| Filters.OtherNotation | apps/assets/meilisearch_client.py:145-146 | with one id in any other notation the database finds its assets and the engine none |
| Filters.UnhyphenatedId | apps/assets/meilisearch_client.py:145-146 | the same for an id without its hyphens |
| FilterRequests.FromAgreement | apps/assets/filters.py:28-32 | engine and database apply a lower date bound alike to every asset if and only if both read the same day, or both none |
| FilterRequests.ToAgreement | apps/assets/filters.py:33-37 | the same for an upper bound |
| FilterRequests.YearAgreement | apps/assets/filters.py:74-75 | the same for a year, when neither side raises |
| FilterRequests.EngineRaises | apps/assets/views.py:255-257 | the engine side raises if and only if a date names no existing day or the year is no integer |
| FilterRequests.DatabaseRaises | apps/assets/filters.py:41-75 | the database side raises if and only if an id is none or the year is a number outside 1..9999 |
| FilterRequests.IsoIsPlain | apps/assets/views.py:255-257 | days written YYYY-MM-DD, texts that neither side takes for a date, and years of one to four digits are read alike |
| FilterRequests.AmericanDate | apps/assets/views.py:256-257 | a locale date: the engine accepts every earlier asset and the database rejects it |
| FilterRequests.CompactDate | apps/assets/views.py:256-257 | a compact ISO date: the engine rejects every earlier asset and the database, which ignores it, accepts it |
| FilterRequests.EnginesAgree | apps/assets/views.py:313-330 | for parameters without backslashes and blank segments, with canonical ids and with dates and a year that both read alike, neither side raises and both accept the same assets |

## Left out

- TagSlug: a slug held by a soft-deleted tag only is free for the search and still taken in the unique column.
- IncrementalRefinesRemap: status, digitisation date, price and variants are not refined, because their source keys are outside the checksum or only fill gaps.
- SentenceCaseOnlyCase: letters outside Latin-1, and U+DF, U+B5, U+AA and U+BA, are not modelled. Some change more than case when capitalised ("ß1 A. A. A. A." becomes "SS1 a. A. A. A."), and all count as letters in the share of capitals.
- TitleCaseOnlyCase: for the same characters it promises nothing; the title form of U+DF is "Ss".
- SentenceCaseIdempotent: for the same characters it promises nothing; "SS1 a. A. A. A." becomes "Ss1 a. A. A. A." in a second application.
- EditLost: the feed server's own bookkeeping is not in the repository; whether it can hold two entries with one image id is not known.
- CompilationPreservesMeaning: strictly increasing timestamps are assumed; `time.mktime` can break that where a time zone repeats a day.
- LinkQuota: two link requests in flight at once can both pass the guard; the model serves them one after the other.
- WebhooksConfluent: the stored provider response and `paid_at` time depend on the schedule and are not modelled.
- LockPreserves: an administrator's own edits of a locked asset are outside the steps.
- Dict-shaped thumbnail entries, and the variant rows and mirrored bytes of an asset; of thumbnails only whether some URL is not blank.
- Non-scalar values under the other feed keys; a record maps keys to null, text or a number. Feed entries that are not objects, which the client ignores.
- `sync_categories`, whose loop adds a simpler upsert; the code table is a parameter.
- EnginesAgree: it is about the search endpoint; the list endpoint, which asks the database only, refuses a request whose date or year its form cannot read.
- Rank, relevance, paging and the state of the search index; several write paths do not keep it in step with the database.
- The cascade from a deleted asset to cart rows, and soft deletion of assets and orders.
- Two pulls or two creations at once; the source runs them one at a time.
- Access control, signatures, e-mail, logging, HTTP and storage.
- The exchange of external download links and the creation of invoices; their effects are the steps `ExternalSync` and `InvoiceReply`.
- Refunds, cancellations and migrations; no code path modelled here sets those order states.
