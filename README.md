# Halal restaurant catalogue: a Dafny model

This project models the data core of a map of halal restaurants, mosques,
marts and lodgings in Korea. Three parts are modelled:

- **The ingestion pipeline** (`lib/kmz-parser.ts`). It reads the folders and
  placemarks of a KML document. Folders are looked up in two tables: folder
  name to category, and folder name to halal status. Placemarks without
  usable coordinates are skipped. Each HTML description is parsed into
  optional fields (image, opening hours, price, Instagram link) plus a
  cleaned text. Every record gets an id built from its name and its
  coordinates. A collision loop appends `-2`, `-3`, … to an id that is
  already taken.
- **The query layer** (`app/actions/restaurants.ts`). It covers the in-memory
  catalogue cache and these queries:
  - sort by distance;
  - text search;
  - lookup by id;
  - filter by status;
  - per-status counts.
- **The map-marker icon** (`lib/halal-icons.tsx`). `getHalalIconSvg` builds
  an SVG string from two per-status tables.

Files:

| file | module | what it holds |
|---|---|---|
| `strings.dfy` | `Strings` | JavaScript's `\s` class; `trim`; one-character `split`/`join`; decimal rendering; ASCII lower-casing |
| `types.dfy` | `Types` | the record types of `lib/types/restaurant.ts` |
| `numbers.dfy` | `Numbers` | `Number.parseFloat`, `toFixed(4)` and `parseCoordinates` |
| `ids.dfy` | `Ids` | `generateId` and the collision loop |
| `description.dfy` | `Description` | `parseDescription` |
| `kmz.dfy` | `Kmz` | the folder tables and the record builder |
| `queries.dfy` | `Queries` | the queries |
| `cache.dfy` | `Cache` | the catalogue cache |
| `icons.dfy` | `Icons` | the icon tables, `getHalalIconSvg`, and a reader for its markup |

How the parts are written:

- **Descriptions.** Each regular expression of `parseDescription` is a
  scanner. It returns the match that JavaScript's backtracking engine
  returns. This includes the engine giving back characters from `\s*` in the
  hours and price patterns.
- **The replace chain.** The chain of `.replace(…, "")` calls is a list of
  patterns applied in order by one global-replace function.
- **The record builder.** The builder is imperative, as in the source. A
  folder loop and a placemark loop thread the record list and the set of
  seen ids. The builder is proved equal to a functional specification
  (`Kmz.BuildWith`). The properties of the build are then proved about that
  specification.
- **The cache.** The cache is a class whose method updates the cached slot.

## Model

| member | source | states |
|---|---|---|
| Strings.Trim | lib/kmz-parser.ts:75 | The result is a contiguous slice of the input. Only white space is removed before and after it. It neither starts nor ends with white space. |
| Strings.TrimIdempotent | lib/kmz-parser.ts:105 | Trimming a trimmed text changes nothing. |
| Strings.TrimKeepsOut | lib/kmz-parser.ts:110 | Trimming never introduces a character that the input lacks. |
| Strings.TrimAllSpace | app/actions/restaurants.ts:47 | A text made only of white space trims to the empty string. |
| Strings.Split | lib/kmz-parser.ts:109 | `split` on one character gives at least one part, and no part holds the separator. |
| Strings.JoinSplit | lib/kmz-parser.ts:108-112 | Joining the parts of a split with the same separator gives back the text. |
| Strings.SplitJoin | lib/kmz-parser.ts:108-112 | Splitting the join of separator-free parts gives back exactly those parts. |
| Strings.SplitAtFirst | lib/kmz-parser.ts:124 | The text before the first separator is the first part. The rest splits on its own. |
| Strings.SplitNoSeparator | lib/halal-icons.tsx:66 | A text without the separator splits into itself alone. |
| Strings.DigitsValueOfNatToString | lib/kmz-parser.ts:215 | The decimal rendering of the suffix counter reads back as the counter. |
| Strings.NatToStringInjective | lib/kmz-parser.ts:215 | Distinct counters render as distinct texts. |
| Types.StatusNameInjective | lib/types/restaurant.ts:1-9 | Distinct statuses have distinct string names. |
| Numbers.FixedUnits | lib/kmz-parser.ts:140 | `toFixed(4)` renders the integer nearest to `a·10⁴`, taking the larger one on a tie. |
| Numbers.PaddedDigitsValue | lib/kmz-parser.ts:140 | The zero-padded digits of the rendering read back as the rounded units. |
| Numbers.FixedDigits | lib/kmz-parser.ts:140 | The `toFixed(4)` body has at least one integer digit and exactly four fraction digits. Together they denote the rounded units. |
| Numbers.ToFixed4Shape | lib/kmz-parser.ts:140 | A rendering is non-empty. It has no leading white space and no comma. |
| Numbers.ParseFloatFixed | lib/kmz-parser.ts:126-127 | `parseFloat` reads a signed fixed-point literal with four decimals as its exact value. |
| Numbers.ToFixed4RoundTrip | lib/kmz-parser.ts:140 | `parseFloat(x.toFixed(4))` is `x` rounded to four decimals. |
| Numbers.Rounded4Error | lib/kmz-parser.ts:140 | That rounding is within half a unit of the fourth decimal of `x`. |
| Numbers.ParseCoordinatesNeedsComma | lib/kmz-parser.ts:124-125 | A text without a comma has one part, so it is rejected. |
| Numbers.CoordinateFields | lib/kmz-parser.ts:119-133 | For `lng,lat,rest`, the result depends only on the first two fields: longitude first, then latitude. It is rejected exactly when either field is not a number. The altitude and anything after it are ignored. |
| Numbers.ParseCoordinatesRoundTrip | lib/kmz-parser.ts:119-133 | Coordinates written as `toFixed(4)` fields, with any third field, parse back as the rounded latitude and longitude. |
| Ids.Sanitize | lib/kmz-parser.ts:143 | Every character outside `[a-z0-9-]` becomes a dash. The others stay in place, and the length is kept. |
| Ids.CollapseDashes | lib/kmz-parser.ts:144 | The result has no two dashes in a row and keeps the first character. It stays in the id alphabet. |
| Ids.CollapseFixesNoDoubleDash | lib/kmz-parser.ts:144 | A text without a double dash is left unchanged. |
| Ids.CollapseRun | lib/kmz-parser.ts:144 | Each run of dashes becomes one dash: a double dash anywhere gives the same result as a single dash there. With `Ids.CollapseFixesNoDoubleDash` (a text without a double dash is unchanged), this determines the collapse. |
| Ids.CollapseKeepsNonDashes | lib/kmz-parser.ts:144 | Collapsing removes only dashes: every other character survives, in order. |
| Ids.CollapseIdempotent | lib/kmz-parser.ts:144 | Collapsing twice is collapsing once. |
| Ids.Truncate | lib/kmz-parser.ts:145 | `substring(0, n)` is a prefix of at most `n` characters. It is the whole text when that fits. |
| Ids.GenerateId | lib/kmz-parser.ts:135-146 | Every generated id has at most 50 characters, all from `[a-z0-9-]`, with no double dash. |
| Ids.Candidate | lib/kmz-parser.ts:211-216 | The id tried at a given counter value fits in 50 characters, or is the base id itself. It stays in the id alphabet. |
| Ids.FirstFree | lib/kmz-parser.ts:213-216 | The least counter within the bound whose candidate is free. It returns 0 exactly when all candidates within the bound are taken. |
| Ids.CandidateRepresentative | lib/kmz-parser.ts:213-216 | Every candidate the loop can ever try is already tried at a counter within the bound. |
| Ids.LoopExitsDecided | lib/kmz-parser.ts:213-216 | The collision loop exits if and only if `FirstFree` finds a free candidate. |
| Ids.AssignId | lib/kmz-parser.ts:211-216 | The loop returns an id that is not yet seen. It is the candidate at the least free counter. |
| Ids.LeastFree | lib/kmz-parser.ts:213-216 | The counter where the loop stops is the one `FirstFree` finds. |
| Ids.LongBaseDiverges | lib/kmz-parser.ts:213-216 | A base id of 49 or more characters has only two candidates. Once both are taken, the loop never exits. |
| Description.FindFrom | lib/kmz-parser.ts:97 | The first occurrence of the stop text at or after the start. There is no earlier occurrence, and none at all when the result is None. |
| Description.MatchItems | lib/kmz-parser.ts:94-104 | A match ends within the text, and after its leading literal. |
| Description.TrimLines | lib/kmz-parser.ts:110 | Each line is replaced by its trim, in order. |
| Description.NormalizeLinesNormal | lib/kmz-parser.ts:108-112 | Every line of the normalised text is non-empty and trimmed. |
| Description.NormalizeLinesOfNormal | lib/kmz-parser.ts:108-112 | A text whose lines are already normal is unchanged. |
| Description.NormalizeLinesIdempotent | lib/kmz-parser.ts:108-112 | Normalising twice is normalising once. |
| Description.NormalizeLinesFixedPoints | lib/kmz-parser.ts:108-112 | The texts that normalisation leaves unchanged are exactly the normal texts. |
| Description.ImageCapture | lib/kmz-parser.ts:67 | The capture follows `<img src="`. It is non-empty, has no quote, and ends right before a quote. |
| Description.GlyphCapture | lib/kmz-parser.ts:73 | After the glyph and white space, the capture is a non-empty run of `[^<\n]`. The run ends at `<`, at a line break or at the end. It starts at the last such character that the white-space run can give back. |
| Description.CaptureAfterSpace | lib/kmz-parser.ts:73 | The same capture, once the white-space run after the glyph is known. |
| Description.InstagramCapture | lib/kmz-parser.ts:85-87 | The match starts with the profile prefix and is followed by a non-empty run of `[^\s<]`. |
| Description.CaptureAt | lib/kmz-parser.ts:67-89 | Each field's capture is a non-empty slice within the text, at or after the match start. |
| Description.FirstMatch | lib/kmz-parser.ts:67-89 | `match` without the `g` flag finds a position where the expression matches. |
| Description.FirstMatchLeftmost | lib/kmz-parser.ts:67-89 | The match found is the leftmost one. When none is found, the expression matches nowhere. |
| Description.ParsedFields | lib/kmz-parser.ts:55-117 | The image address is a non-empty, quote-free text found in the description between `<img src="` and a quote. The hours are trimmed and have no `<` and no line break. The price starts with the won sign and has no `<` and no line break. The Instagram address is the prefix plus a non-empty run of `[^\s<]`. The cleaned text is normal. |
| Description.HoursShape | lib/kmz-parser.ts:73-76 | The opening hours are trimmed and have no `<` and no line break. |
| Description.PriceShape | lib/kmz-parser.ts:79-82 | The price range starts with the won sign and has no `<` and no line break. |
| Description.ImageUrlShape | lib/kmz-parser.ts:67-70 | The image address is non-empty and quote-free. It occurs in the description after `<img src="`. |
| Description.InstagramShape | lib/kmz-parser.ts:85-90 | The Instagram address starts with the profile prefix, followed by a non-empty run without white space or `<`. |
| Description.GlyphFieldShape | lib/kmz-parser.ts:73-82 | The hours and price captures have no `<` and no line break. |
| Description.HoursCapture | lib/kmz-parser.ts:73-76 | After the clock, `\s*` may run over line breaks. The hours are then the trimmed run of `[^<\n]` that follows, even on a later line. |
| Description.HoursLoneSpace | lib/kmz-parser.ts:73-76 | A single white-space character between the clock and `<` is given back as the capture. It yields empty hours, not none. |
| Description.LineRemovalEndsLines | lib/kmz-parser.ts:103-104 | After removing `g[^\n]+` everywhere, every `g` left in the text ends its line. |
| Description.RemovalKeepsEndsLines | lib/kmz-parser.ts:93-104 | A removal whose pattern starts with neither `g` nor a line break keeps every `g` at the end of its line. |
| Description.NormalizeEndsLines | lib/kmz-parser.ts:108-112 | Normalising the lines keeps every `g` at the end of its line. |
| Description.ApplyStepsAppend | lib/kmz-parser.ts:93-105 | Applying two chains of replacements in a row is applying their concatenation. |
| Description.CleanedDropsHoursAndPrice | lib/kmz-parser.ts:93-112 | No text follows a clock or a won sign on the same line of the cleaned description. |
| Kmz.AsList | lib/kmz-parser.ts:177 | A single element becomes a one-element list. A list is kept, and a missing element gives no element. |
| Kmz.FolderTablesShareKeys | lib/kmz-parser.ts:33-53 | Both folder tables have exactly the same eight folder names as keys. |
| Kmz.FolderSkippedIffUnknown | lib/kmz-parser.ts:181-187 | A folder is processed exactly when its name is one of the eight table keys. |
| Kmz.FallbackUnreachable | lib/kmz-parser.ts:223 | For every processed folder, the status comes from the status table. The `muslim_friendly` fallback is never taken. |
| Kmz.InheritedFolderNameNotSkipped | lib/kmz-parser.ts:181-187 | The source as written does not skip a folder named after an inherited `Object.prototype` member, such as `toString`. The corrected test skips it. |
| Kmz.SkipAgreesOffPrototype | lib/kmz-parser.ts:181-187 | For every other name, the source's test and the corrected test agree. |
| Kmz.PlacemarkEntriesMembers | lib/kmz-parser.ts:196-200 | The kept placemarks of a folder are exactly those with non-empty coordinates that parse. Each gets its folder's category and status. |
| Kmz.EntriesMembers | lib/kmz-parser.ts:179-200 | The kept placemarks of a document are exactly the placemarks with usable coordinates in folders named in the tables. Category and status come from the tables. |
| Kmz.AddPlacemark | lib/kmz-parser.ts:199-234 | The step fails exactly when no free candidate exists for the placemark's base id, and then nothing changes. Otherwise it pushes the placemark's record, carrying the candidate at the least free counter, and adds that id to the seen set. This agrees with the functional build of the remaining entries. |
| Kmz.VisitPlacemark | lib/kmz-parser.ts:196-235 | One turn of the placemark loop. A placemark whose coordinates are missing, empty or rejected leaves the state unchanged. Otherwise, unless the step fails, one record is appended whose id was not yet seen, and that id joins the seen set. |
| Kmz.AddFolder | lib/kmz-parser.ts:179-236 | One turn of the folder loop. An unknown folder leaves the state unchanged. The loop only appends records and only grows the seen set, and it agrees with the functional build of the folder's kept placemarks. |
| Kmz.BuildCatalogWith | lib/kmz-parser.ts:169-238 | The nested loops return exactly the functional build. This holds for any description parser, coordinate parser and id generator. |
| Kmz.BuildCatalog | lib/kmz-parser.ts:169-238 | With the source's own helpers, the loops return the build of the parsed document. |
| Kmz.BuildAbsent | lib/kmz-parser.ts:173-175 | A document without folders yields no records. |
| Kmz.AssignFromRecords | lib/kmz-parser.ts:205-234 | A successful build yields one record per kept placemark, in order, each built from that placemark. Each id is a candidate of the placemark's base id and was not seen before. No two records share an id. |
| Kmz.CandidateShape | lib/kmz-parser.ts:211-216 | A candidate of a valid base id has at most 50 characters, all from `[a-z0-9-]`. |
| Kmz.BuildRecords | lib/kmz-parser.ts:169-238 | The build has one record per kept placemark, in folder-then-placemark order. Ids are pairwise distinct, at most 50 characters long, and drawn from `[a-z0-9-]`. |
| Queries.Annotate | app/actions/restaurants.ts:28-37 | Each place is paired with its distance from the user, in catalogue order. |
| Queries.ZeroDistance | app/actions/restaurants.ts:70-73 | Each place is paired with distance 0, in catalogue order. |
| Queries.InsertPermutes | app/actions/restaurants.ts:38 | Inserting adds exactly one element. |
| Queries.SortSorted | app/actions/restaurants.ts:38 | The sort is ordered by distance and is a permutation of its input. |
| Queries.SortStable | app/actions/restaurants.ts:38 | The sort is stable: places at equal distance keep their relative order. |
| Queries.StableSortIsSortByDistance | app/actions/restaurants.ts:38 | Any stable sort by distance equals this one, so the result is determined. |
| Queries.WithDistanceSorted | app/actions/restaurants.ts:22-39 | Every place appears once with its distance, nearest first. Ties keep catalogue order. |
| Queries.SearchIgnoresCase | app/actions/restaurants.ts:47-54 | The search term has no upper-case letter. Lower-casing the query first changes nothing, and queries that lower-case alike select the same places. |
| Queries.FilterMatchingCounts | app/actions/restaurants.ts:49-54 | A place is kept, as often as it occurs, exactly when its lower-cased name or description contains the term. |
| Queries.BlankQueryKeepsAll | app/actions/restaurants.ts:47-54 | An empty or white-space-only query keeps every place. |
| Queries.SearchWithoutLocation | app/actions/restaurants.ts:70-73 | Without both coordinates, the matches keep catalogue order, each at distance 0. |
| Queries.SearchWithLocation | app/actions/restaurants.ts:56-68 | With both coordinates, the matches come nearest first. Ties keep catalogue order. |
| Queries.GetRestaurantById | app/actions/restaurants.ts:76-81 | The result is the first place with that id, or None exactly when no place has it. |
| Queries.FilterStatusShape | app/actions/restaurants.ts:91 | The filter keeps only places with that status name, as many as there are. |
| Queries.ByHalalStatus | app/actions/restaurants.ts:83-102 | The query returns only places of the catalogue with the requested status, all of them. They come nearest first, and ties keep catalogue order. |
| Queries.ByHalalStatusOf | app/actions/restaurants.ts:83-102 | Asked for a status by its name, every result has that status. |
| Queries.CountPositive | app/actions/restaurants.ts:108-110 | A status has a positive count exactly when some place has it. |
| Queries.CountSumAll | app/actions/restaurants.ts:104-113 | The per-status counts add up to the number of places. |
| Queries.GetGroupCounts | app/actions/restaurants.ts:104-113 | There is a key exactly for each status that occurs. Its value is the number of places with that status, and the values add up to the catalogue's length. |
| Cache.ServeOnce | app/actions/restaurants.ts:13-20 | Once a call has filled the slot, a later call returns the same list and does not load again. |
| Cache.ServeRetriesAfterFailure | app/actions/restaurants.ts:13-20 | When the loader throws, the call rejects and the slot stays empty, so the next call loads again. |
| Cache.ServeLoadsIffEmpty | app/actions/restaurants.ts:13-20 | The loader runs exactly when the slot is empty. A filled slot, even an empty list, is returned as it is. |
| Cache.RestaurantCache.constructor | app/actions/restaurants.ts:11 | The cache starts empty, with no loads. |
| Cache.RestaurantCache.GetRestaurants | app/actions/restaurants.ts:13-20 | The method returns the cached list, or fills the slot from the loader. Only in the latter case does the load count grow by one. A failed load rejects the call and leaves the slot empty. |
| Icons.PolygonOnlyMuslimFriendly | lib/halal-icons.tsx:45-57 | Only the muslim_friendly style is drawn as a polygon. |
| Icons.IconPathQuoteFree | lib/halal-icons.tsx:30-42 | No path-table entry contains a double quote. |
| Icons.MuslimFriendlyOneSegment | lib/halal-icons.tsx:33-34 | The polygon entry has no `|`, so it is one segment. |
| Icons.PathElementParse | lib/halal-icons.tsx:78 | One `<path>` element reads back as its path data, fill and stroke width. |
| Icons.PathElementsRead | lib/halal-icons.tsx:75-80 | The joined `<path>` elements read back as one element per segment, in order. |
| Icons.RenderReadsBackPolygon | lib/halal-icons.tsx:71-73 | The polygon markup reads back as its size, fill, stroke width and the first segment as points. |
| Icons.RenderReadsBackPaths | lib/halal-icons.tsx:75-82 | The path markup reads back as its size and one path per segment. |
| Icons.IconReadsBackPolygon | lib/halal-icons.tsx:72 | The polygon template reads back as its five inserted values. |
| Icons.IconReadsBackPaths | lib/halal-icons.tsx:82 | The path template reads back as its size and its path elements. |
| Icons.IconReadsBack | lib/halal-icons.tsx:60-83 | The marker is an `svg` of the requested size, 14 by default. For muslim_friendly it holds one polygon made of the whole entry, with fill and stroke width on the `svg`. Otherwise it holds one path per `\|` segment, in order, with fill `white` exactly when the style fills and the style's stroke width. |

## Left out

- **Archive and document I/O.** Opening the archive, reading `doc.kml` and
  parsing the XML (lib/kmz-parser.ts:151-167), and `loadRestaurantsFromKMZ`,
  which reads the bundled file, are I/O. The model starts from the parsed
  folder tree: a missing, single or listed `Folder` and `Placemark`.
  Placemark names and folder names are taken to be strings.
- **Missing `doc.kml`.** The error for a missing `doc.kml` is part of that
  I/O.
- **Distance.** `calculateDistance` (lib/geo-utils.ts) is a function
  parameter of the queries. Only ordering, filtering and counting are
  modelled.
- **Numbers.** Numbers are exact reals, not IEEE doubles. Rounding errors of
  double arithmetic in `toFixed` and `parseFloat` are not modelled.
- **Numbers.ParseFloat.** Only decimal literals are read. `Infinity` is read
  as not-a-number (None), although JavaScript reads it as infinity.
- **Numbers.ToFixed4.** The rendering is the one for magnitudes below 10²¹.
  Larger magnitudes use exponent notation in JavaScript and are not
  modelled.
- **Strings.Lower.** Only ASCII letters are lower-cased. A few non-ASCII
  letters lower-case to ASCII (the Kelvin sign, capital I with a dot). These
  give a different id and a different search match than in JavaScript.
- **Asynchrony.** `await` and the asynchrony of `getRestaurants` are not
  modelled. Two overlapping first calls may both load in the source. The
  model runs calls one after another.
- **The loader.** What `loadRestaurantsFromKMZ` would return is a parameter
  of `Cache.RestaurantCache.GetRestaurants`: a list, or `None` when it throws.
  The reason for a failure, such as an archive without `doc.kml`, is not
  carried. A counter records each load.
- **Kmz.BuildCatalogWith.** This is stated for any description parser,
  coordinate parser and id generator. `Kmz.BuildCatalog` instantiates it
  with the model's own.
- **Ids.AssignId.** The source's collision loop never exits when every
  candidate is taken (see `Ids.LongBaseDiverges`). The model does not loop
  forever. `AssignId` requires that the loop exits, and the builder returns
  `IdLoopDiverges` instead of hanging.
- **Icons.GetHalalIconSvg.** The size is an integer. A fractional size
  renders differently in JavaScript and is not modelled.
- **Icons.IconPath.** The long table entries are written as concatenations
  of named pieces that spell out the same text.
- **Other icon code.** `HALAL_STATUS_COLORS`, `HALAL_STATUS_BG_CLASSES` and
  the `HalalIcon` React component (lib/halal-icons.tsx:6-27 and 85-134) are
  presentation only.
- **Description.MatchItems.** This is the greedy reading of each cleaning
  pattern; no backtracking engine is modelled. In every pattern of the
  chain, a greedy item is followed by nothing or by a character outside its
  class, so the greedy reading agrees with the engine's match. That
  agreement is argued here, not proved. The field captures do model the
  engine giving back white space.
- **Description.ParsedFields.** These are shape properties of each field and
  of the cleaned text. The exact cleaned text of a given description is
  defined (`Description.CleanDescription`), but only its line structure and
  the removal of hours and price text are proved.

## Findings

| source | as written | input that shows it | evidently intended | confidence | as-written member | corrected member |
|---|---|---|---|---|---|---|
| lib/kmz-parser.ts:181-187 | `FOLDER_TO_CATEGORY[folderName]` reads an object literal, so a name such as `toString` or `constructor` yields the inherited `Object.prototype` member. That value is truthy and is not `"other"`, so the folder is not skipped. | a folder named `toString` holding a placemark with coordinates `127,37` | only the eight listed folder names are processed; every other folder is skipped | not executed | Kmz.InheritedFolderNameNotSkipped | Kmz.FolderSkippedIffUnknown |
