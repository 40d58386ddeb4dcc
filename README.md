# Kodi source registration, modelled in Dafny

`add_source.py` registers a streaming path (served by a local pCloud bridge)
with Kodi. One registration touches three stores under Kodi's configuration
directory: a row in the `path` table of `MyVideos116.db`, a `source` under
`video` in `sources.xml`, and a numbered network `location` in
`mediasources.xml`. Each XML store has its own duplicate rule, and each is
created from a default skeleton when its file is absent. A bulk clear deletes
the content rows and every video source.

This project models the in-memory part of that work. File I/O, SQL and
configuration parsing stay outside it.

- `Xml` models the ElementTree subset the tool uses: an `Element` value with a
  tag, attributes, optional text and ordered children, plus `find`,
  `findall` and `remove` on direct children.
- `Numerals` models Python's `int()` on a string and `str()` on an integer,
  which the media-source id rule relies on, and proves `int(str(n)) == n`.
- `KodiPaths` models the `KodiPath` descriptor: the two content-keyed tables,
  the 11 values of the inserted row, and the construction from the `config`
  section.
- `SourcesXml` covers the sources document. It builds the default skeleton
  (with the loop that adds each `default` placeholder), runs the duplicate
  test, appends the new `source` entry, and removes video sources with the
  source's remove loop. It proves append-only change, exactly one matching
  entry after a write, and idempotence of both add and clear.
- `MediaSourcesXml` covers the media-sources document. It creates `network`
  when missing, skips paths already present, and assigns ids. The id rule is
  `max(-2, existing ids) + 1`, with the new location counted as -2. The
  module proves this rule, that the new id is fresh, and that the first two
  ids are "-1" and "0".
- `KodiSources` models the coordinator. The `path` table is a sequence of
  rows, and `add_to_kodi` runs the database step, then mediasources, then
  sources. The class `KodiSourceManager` holds the three stores as fields,
  and its methods update them as the source's methods update the files.

A missing document is `None`. Each merge returns `Keep` (no write),
`Write(root)` or an `Error` that stands for the Python exception.

Three behaviours of the code are worth stating plainly:

- The first `location` in an empty network gets id "-1" and the next one
  gets "0". The new location is appended before its id is computed, so it
  counts as -2 in the maximum.
- Constructing a descriptor with an unknown content type does not fail. The
  `KeyError` comes at the first table lookup, while the row values are
  built, before any store is touched.
- Re-running a registration leaves the two XML documents unchanged, but the
  tool inserts the database row again: it has no duplicate check of its own.

## Model

| member | source | states |
|---|---|---|
| Numerals.ParseInt | add_source.py:113 | reading succeeds exactly on an optional sign followed by one or more digits; anything else fails with a ValueError naming the literal |
| Numerals.ParseIntToString | add_source.py:113-114 | reading back the decimal spelling of any integer gives that integer |
| Numerals.IntToString | add_source.py:114 | `str()` of an id is its shortest decimal spelling: digits, with a leading "-" exactly for a negative number, and no leading zero except in "0" |
| Numerals.IntToStringParseInt | add_source.py:113-114 | for every spelling `str()` can produce, writing back the value read from it gives the same string |
| Numerals.IntToStringDistinct | add_source.py:113-114 | a string that reads as a different integer is never the spelling of `n` |
| Xml.FindIndex | add_source.py:80 | `find` lands on the first child with the tag, and reports none exactly when no child has it |
| Xml.FindAll | add_source.py:145 | `findall` keeps exactly the children with the tag |
| Xml.Without | add_source.py:146-147 | the result keeps exactly the children without the tag; with the `findall` list it accounts for every child |
| Xml.WithoutAppend | add_source.py:146-147 | appending a child appends it to the result exactly when it lacks the tag; with the empty case this fixes the result as the in-order filter that keeps duplicates |
| Xml.FirstIndexOf | add_source.py:147 | the position found holds the child and no earlier position does |
| Xml.RemoveFirst | add_source.py:147 | `remove` drops the first child equal to the given one and keeps all others in order |
| Xml.RemoveNextTagged | add_source.py:146-147 | removing the i-th `source` after the first i are gone removes exactly one more |
| Xml.DropAllTagged | add_source.py:146-147 | removing every listed `source` leaves exactly the other children, in order |
| Xml.WithoutIdempotent | add_source.py:139-148 | filtering out a tag twice equals filtering it once, and leaves none with that tag |
| KodiPaths.ScraperForContentType | add_source.py:123-124 | the scraper lookup succeeds exactly for "tvshows" and "movies"; otherwise it is a KeyError for the content |
| KodiPaths.SettingsForContentType | add_source.py:126-127 | the settings lookup succeeds exactly for "tvshows" and "movies"; otherwise it is a KeyError for the content |
| KodiPaths.RowValues | add_source.py:36-44 | the row builds exactly for a supported content type, has one value per column, and otherwise fails with KeyError(content) |
| KodiPaths.RowValuesByColumn | add_source.py:9-44 | paired with the column list, the row gives strPath=path, strContent=content, the mapped scraper and settings, and the fixed placeholders "", "1", "0", "0", "0", "", "" |
| KodiPaths.FromConfig | add_source.py:19-29 | succeeds exactly when the section and its three keys exist (a missing section is KeyError("config")); name and content pass through, and the path is "http://127.0.0.1:" + port + "/" |
| KodiPaths.FromConfigSamePath | add_source.py:27 | two configurations give the same path exactly when their ports are equal |
| SourcesXml.CreateDefaultSourcesXml | add_source.py:55-66 | the skeleton is a `sources` root with programs, video, music, pictures, files, games in that order, each holding one `default` with pathversion="1" |
| SourcesXml.DefaultSourcesXmlVideo | add_source.py:55-66 | in the skeleton, `find('video')` is the second child and it holds only its `default` |
| SourcesXml.AddToSources | add_source.py:73-92 | an absent file is always written; it fails exactly when the parsed tree has no `video` (missing-`video` error) or a `video` source without `path` (missing-`path` error); no write exactly when the parsed tree's `video` already has a source with the path; a write is the parsed tree or the skeleton with one entry appended under `video` |
| SourcesXml.SourceEntryHasPath | add_source.py:83-90 | the appended entry's `path` text is the descriptor's path |
| SourcesXml.HasSourceWithPath | add_source.py:81 | the duplicate test raises exactly when some video source has no `path` child; otherwise it is true exactly when some source's path text equals the path |
| SourcesXml.CountWithPath | add_source.py:81 | the count is zero exactly when no source has the path |
| SourcesXml.AddSourceToTree | add_source.py:80-90 | no `video` raises; a `source` without `path` raises that error; a duplicate means no write; otherwise one entry goes after the existing `video` children and no other node changes |
| SourcesXml.AddToAbsentSources | add_source.py:73-90 | with sources.xml absent, the written document is the skeleton with exactly the new source after `video`'s `default` |
| SourcesXml.WrittenSources | add_source.py:83-90 | after a write, `video`'s sources are the old ones followed by the new entry |
| SourcesXml.AddToSourcesWritesOne | add_source.py:80-90 | after a write, exactly one video source has the path |
| SourcesXml.AddSourceTwiceKeeps | add_source.py:80-90 | adding to a tree just written with the same descriptor makes no write |
| SourcesXml.AddToSourcesIdempotent | add_source.py:73-92 | applying the registration twice leaves sources.xml as one application does |
| SourcesXml.ClearVideoSourcesTree | add_source.py:144-147 | no `video` raises; otherwise `video`'s children become the `Without` filter of its old ones (non-`source` children, in order, duplicates kept) and every other node is unchanged |
| SourcesXml.ClearVideoSources | add_source.py:139-148 | an absent file is left alone; a tree without `video` raises; otherwise the tree is always written, as the tree-level clear gives it, and `video` then has no `source` |
| SourcesXml.RemoveVideoSources | add_source.py:145-147 | the remove loop leaves `video` with exactly its non-`source` children, in order |
| SourcesXml.ClearLeavesNoVideoSource | add_source.py:144-148 | after a clear, `video` has no `source` left |
| SourcesXml.ClearVideoSourcesIdempotent | add_source.py:139-148 | clearing a second time changes nothing; an absent file stays absent |
| MediaSourcesXml.DefaultMediaSourcesXml | add_source.py:68-71 | the skeleton is exactly a `mediasources` root holding one empty `network` |
| MediaSourcesXml.IdOf | add_source.py:113 | a location without `id` counts as -2; reading succeeds exactly when the `id` attribute is absent or an integer literal, and otherwise fails with a ValueError naming it |
| MediaSourcesXml.IdOfCanonical | add_source.py:113-114 | an `id` spelled as `str()` writes it reads as the value whose spelling it is |
| MediaSourcesXml.MaxId | add_source.py:113 | the maximum fails exactly on an empty list (EmptySequence) or an unreadable id (that id's error); otherwise it is one of the ids and no id exceeds it |
| MediaSourcesXml.MaxIdWithMinusTwo | add_source.py:107-113 | with a -2 appended, the maximum exists exactly when every existing id reads, and then it is max(-2, existing ids) |
| MediaSourcesXml.NextMediaSourceId | add_source.py:112-114 | fails exactly on a network without locations or with an unreadable id, with that id's error; otherwise the id is the `str()` spelling of one more than the largest id |
| MediaSourcesXml.AddLocationToTree | add_source.py:101-109 | no write exactly when a location already has the path; failure exactly when an id is unreadable, with that id's ValueError; otherwise the numbered location goes at the end of the (possibly new) network and nothing else changes |
| MediaSourcesXml.AssignedIdRule | add_source.py:107-114 | the new id is assigned exactly when all existing ids read, and its value is max(-2, existing ids) + 1, spelled as `str()` writes it |
| MediaSourcesXml.AddToMediaSources | add_source.py:94-110 | an absent file is always written; no write exactly when the parsed file already has a location with the path; failure exactly when it has none and an existing id is unreadable, with that id's ValueError; a write is the (parsed or default) tree with the numbered location appended to its network |
| MediaSourcesXml.AssignedIdIsFresh | add_source.py:107-114 | the new id differs from every `id` attribute already in the network |
| MediaSourcesXml.FirstLocationIdIsMinusOne | add_source.py:94-114 | with mediasources.xml absent, the written document is one network holding one location with id "-1" |
| MediaSourcesXml.IdAfterMinusOne | add_source.py:112-114 | after a location numbered "-1", the next id computed is "0" |
| MediaSourcesXml.SecondLocationIdIsZero | add_source.py:94-114 | a second, distinct path then gets id "0" |
| MediaSourcesXml.CountLocations | add_source.py:105 | the count is zero exactly when no location has the path |
| MediaSourcesXml.WrittenLocations | add_source.py:101-109 | after a write, the network's locations are the old ones then the new one, which is the only one with the path |
| MediaSourcesXml.AddToMediaSourcesIdempotent | add_source.py:94-110 | applying the registration twice leaves mediasources.xml as one application does |
| KodiSources.ContentRows | add_source.py:162 | the query keeps exactly the rows with a content type |
| KodiSources.ContentRowsAppend | add_source.py:162 | a row appended to the table is appended to the query's result exactly when it has a content type; with the empty case this fixes the result as the in-order filter that keeps duplicates |
| KodiSources.OtherRows | add_source.py:170 | the delete keeps exactly the rows without a content type |
| KodiSources.OtherRowsAppend | add_source.py:170 | a row appended to the table survives the delete, at the end, exactly when it has no content type; this fixes order and duplicates |
| KodiSources.DeleteContentRows | add_source.py:167-173 | fails exactly without a table; otherwise the table becomes its rows without a content type, and none with one is left |
| KodiSources.ContentRowsOfOtherRows | add_source.py:170 | after the delete, no row with a content type is left |
| KodiSources.InsertRow | add_source.py:46-53 | unknown content fails with KeyError before the table is checked; a missing table fails; otherwise it succeeds, and the table gains at the end exactly the row of the 11 built values |
| KodiSources.AddToKodi | add_source.py:116-121 | a failed lookup or missing table changes nothing and raises that error; once the row is in it stays, and mediasources.xml keeps its merge even if sources.xml then fails; the error raised is the mediasources step's, else the sources step's; the run succeeds exactly when all three steps do, with the stores the row-extended table and the two merged documents; a failed run leaves sources.xml as it was |
| KodiSources.AddToKodiTouchesNothingOnLookupFailure | add_source.py:116-121 | an unknown content type or a missing table fails before any store changes |
| KodiSources.AddToKodiOrder | add_source.py:116-121 | a failed run never changes sources.xml; mediasources.xml changes only after the row went in |
| KodiSources.AddToKodiRepeated | add_source.py:116-121 | a second identical registration succeeds and leaves both documents unchanged, with one more row |
| KodiSources.AddToKodiFreshStores | add_source.py:116-121 | against an empty table with both files absent: one row, one location with id "-1", and the skeleton with the one source |
| KodiSources.ClearStores | add_source.py:193-196 | mediasources.xml is never touched; a missing table stops the clear before anything changes; otherwise the table keeps its rows without a content type and sources.xml gets the video clear |
| KodiSources.ClearSourcesEmpties | add_source.py:193-196 | after a successful clear no content row is left, other rows stay, `video` holds no source, and mediasources.xml is untouched |
| KodiSources.KodiSourceManager.GetSources | add_source.py:160-165 | fails exactly without a table; otherwise returns the query's rows, in table order with duplicates |
| KodiSources.KodiSourceManager.DropSources | add_source.py:167-173 | the table keeps only its rows without a content type |
| KodiSources.KodiSourceManager.ClearVideoSources | add_source.py:139-148 | sources.xml becomes what the clear specifies; an absent file is left alone |
| KodiSources.KodiSourceManager.AddToDatabase | add_source.py:46-53 | the table becomes what InsertRow gives, or stays as it was on failure |
| KodiSources.KodiSourceManager.AddToMediaSources | add_source.py:94-110 | mediasources.xml becomes what the merge writes, or stays as it was |
| KodiSources.KodiSourceManager.AddToSources | add_source.py:73-92 | sources.xml becomes what the merge writes, or stays as it was |
| KodiSources.KodiSourceManager.InsertSourceFromKodiPath | add_source.py:175-178 | the three stores and the error are those of the database-then-mediasources-then-sources run |
| KodiSources.KodiSourceManager.InsertSource | add_source.py:180-182 | inserting by name, path and content is that run on an unchecked descriptor |
| KodiSources.KodiSourceManager.ClearSources | add_source.py:193-196 | the stores become those of the delete followed by the video clear |

## Left out

- SQLite: `connect`, `disconnect`, the `conn` and `cursor` fields, commits, and the SQL text of `insert_string` are not modelled. The `path` table is a sequence of rows, and `None` stands for a missing database or table. A row holds the 11 columns the insert names; the `idPath` key that `select *` also returns is not modelled, and the model does not constrain rows to that width (a row too short to have `strContent` counts as one without content). `sqlite3.connect` would create an empty file, on which the insert then fails.
- InsertRow: appends the 11 values for every path, whereas `insert_string` splices the path into the SQL text unquoted. A path containing a single quote (such as `it's`) makes the INSERT a syntax error, so `add_to_kodi` stops before either XML file. A crafted path can store different values than the ones the model appends.
- Constraints of Kodi's external schema (such as a unique index on `strPath`) are not modelled. A repeated registration therefore adds a second row in the model.
- File parsing and writing (`ET.parse`, `tree.write`) and XML serialisation are not modelled. A present file is its parsed tree, and a malformed file (ParseError) is not represented. Tail text, comments and namespaces are not modelled either.
- ParseInt: accepts only an optional sign followed by ASCII digits. Python's `int()` also strips surrounding whitespace, allows underscores between digits and accepts non-ASCII decimal digits, so ids such as " 3" or "1_0" fail in the model but not in Python.
- Xml.RemoveFirst: ElementTree removes a child by identity, the model by value. For `clear_video_sources` the results coincide, because every `source` child is removed (Xml.DropAllTagged).
- Configuration reading through `configparser` is not modelled. This includes key case folding, the DEFAULT section and interpolation. `FromConfig` takes the parsed sections as a map.
- Logging, the argparse entry point and its `add_source`/`add_from_config`/`test_config_read` wrappers (add_source.py:189-229), and `test_insert` (add_source.py:184-187) are not modelled. `clear_sources` is modelled as `ClearSources`.
- `insert_source_from_kodipath` opens a database connection it never uses. The model has no connection.
- Cross-store atomicity and concurrent invocations are not modelled. The source has neither; the order of the three writes and what a failure leaves behind are modelled.
- The configuration directory and the file paths built from it in `KodiSourceManager.__init__` and `add_to_kodi` are not modelled. The class holds the contents of the three stores.
