# Boxing scraper: a Dafny model of ingestion and prediction

The boxing scraper reads Wikipedia boxer pages into a database, and a web application predicts bouts from that data. This project models the scraper's logic and proves properties of it. The model covers:

- **Page parsing** (`parse_data`). The infobox rows give the name, photo, alias, stance, date of birth, height and reach. The first bout table (a wikitable whose header row has Result, Opponent and Date) gives the fight matrix, the first and last active dates and the decades ("eras") of the career. The first record table (header mentions fights, wins and losses) gives the fight, win and loss counts, the wins and losses by knockout, decision and disqualification, and the win and knockout ratios.
- **Persistence** (`boxer_exists`, `insert_boxer`, `insert_fights`). A repository object stands for the database session. Its boxers, metrics and fights tables are updated in place, ids are autoincrement keys, and commits are recorded. Fights are de-duplicated on (date, boxer A, opponent name). Outcome methods are normalised through `METHOD_MAPPING`.
- **The batch** (`batch_scrape`). The URL list is stripped and blank lines are dropped. Each URL is fetched. Titles already stored are skipped. Each page is parsed and stored. An exception from the parser ends the batch.
- **The second pass** (`resolve_fights`). Each fight's missing opponent and winner ids are filled in from the stored boxers' names. Names that cannot be found are written to two logs. The session is committed every 500 fights and at the end.
- **The predictor** (`elo_winner`). Each side's metrics give a synthetic rating. The Elo formula with `ELO_C = 10` and `ELO_D = 400` picks the winner, the winner's probability, the likely method and its likelihood.

The main results proved:

- A page parses to exactly the record described by functions of the page. As written, the parse raises on a record cell that is not an integer, on an infobox image without `src`, and on a page without a record table whose last wikitable has no row or that has no wikitable at all. The intended parse fails only on a non-integer cell. The two agree on every page that has a record table and no infobox image without `src`. On a page without a record table whose last wikitable has a row, the parse as written takes its counts from that row, so it can raise on a non-integer cell or set counts where the intended parse has none.
- Inserting keeps the tables valid: names are unique, ids are dense, fight keys are unique, and id columns refer to stored boxers. Inserting the same boxer or the same bouts twice changes nothing.
- Running the whole batch a second time over the same URL list changes nothing and ends the same way. This holds even though the quick title check misses titles with a " (boxer)" suffix.
- The resolver fills only ids that were empty, and fills each with the boxer of that name. A second pass changes nothing and writes the same logs. The number of commits is `n / 500 + 1`.
- The predicted winner is A exactly when A's rating is at least B's. The returned probability is the winner's own, which is at least one half. The method is a knockout exactly when the rating gap exceeds 100. When the ratings differ, swapping the sides changes neither the winner, nor its probability, nor the method. On equal ratings side A always wins, whichever way round the sides are passed.

Files: `wrappers.dfy` (options), `text.dfy` (Python string operations), `patterns.dfy` (the regular expressions), `reading_examples.dfy`, `schema.dfy` (the rows), `page.dfy` (the parsed page), `normalizer.dfy` (eras, methods, ratios), `extractor.dfy` (`parse_data`), `persistence.dfy`, `batch.dfy`, `resolver.dfy`, `elo.dfy`.

## Model

| member | source | states |
|---|---|---|
| Text.Strip | scraper/scraper.py:71 | `str.strip()`: the result has no surrounding whitespace, is no longer than its input, uses only the input's characters, and leaves a trimmed string unchanged |
| Text.StripKeepsInfix | scraper/scraper.py:71 | what `str.strip()` keeps is the stretch of the input that starts after its leading whitespace, and everything dropped before and after it is whitespace |
| Text.LStripIsSuffix | scraper/scraper.py:71 | stripping the left end leaves a suffix of the input |
| Text.RStripIsPrefix | scraper/scraper.py:71 | stripping the right end leaves a prefix of the input |
| Text.FirstToken | scraper/scraper.py:399 | `text.split()[0]`: the leading run of non-whitespace of the left-stripped text, ending at whitespace or the end; absent exactly when the text is all whitespace (where Python raises IndexError) |
| Text.ParseInt | scraper/scraper.py:399 | `int(...)`: absent (where Python raises ValueError) exactly when the stripped text is not an optionally signed run of digits; otherwise the digits' decimal value with its sign |
| Text.NatToString | scraper/scraper.py:324 | `str(n)`: a non-empty digit string whose decimal value is `n` |
| Text.DigitsValueAppend | scraper/scraper.py:399 | the value of two digit runs written one after the other is the first shifted by the length of the second, plus the second |
| Text.ReplaceAllSkipsPrefix | scraper/scraper.py:71 | `str.replace` leaves alone a prefix in which the pattern does not start |
| Text.RemoveChar | scraper/scraper.py:121 | `s.replace(c, '')`: the result has no `c`, only characters of the input, and is the input itself when it has no `c` |
| Text.RemoveCharAppend | scraper/scraper.py:121 | removing a character from two texts written one after the other removes it from each, and a lone `c` disappears |
| Patterns.Search | scraper/scraper.py:181 | `re.search`: the least position at which the pattern matches; absent exactly when it matches nowhere |
| Patterns.CmSearch | scraper/scraper.py:181-183 | `(\d+)\s*cm` gives the integer of the leftmost match; absent exactly when there is no match |
| Patterns.MetreSearch | scraper/scraper.py:191-193 | `(\d+(?:\.\d+)?)\s*m` gives the decimal of the leftmost match; absent exactly when there is no match |
| Patterns.RoundHalfEven | scraper/scraper.py:194 | `round`: within one half of the exact quotient, with ties going to the even integer |
| Patterns.MetresToCm | scraper/scraper.py:193-194 | `round(metres * 100)` is within half a centimetre of the exact value |
| Patterns.LengthCm | scraper/scraper.py:176-199 | a centimetre match wins; otherwise a metre match is converted; otherwise nothing is read |
| Patterns.CentimetreReading | scraper/scraper.py:181-186 | `<digits> cm...` reads as that number of centimetres |
| Patterns.CmSearchAtStart | scraper/scraper.py:181 | a centimetre match at the start is the one reported |
| Patterns.NoCentimetresWithoutC | scraper/scraper.py:181 | a value without the letter c has no centimetre reading |
| Patterns.MetreSearchAtStart | scraper/scraper.py:191 | a metre match at the start is the one reported |
| Patterns.MetreMatchOfDecimal | scraper/scraper.py:191 | `<digits>.<digits> m` matches at its start and captures both digit runs |
| Patterns.MetreReading | scraper/scraper.py:191-197 | `<digits>.<digits> m` reads as round(metres × 100) |
| Patterns.FootnoteEnd | scraper/scraper.py:149 | a footnote marker starts with `[` and is at least three characters long |
| Patterns.RemoveFootnotes | scraper/scraper.py:149 | `re.sub(r'\[\d+]', '', s)` never lengthens the value, keeps only its characters, and leaves a value without `[` unchanged |
| Patterns.RemoveFootnotesKeepsPrefix | scraper/scraper.py:149 | text without `[` in front of the rest passes through unchanged, in front of the rest with its markers removed |
| Patterns.RemoveFootnotesDropsMarker | scraper/scraper.py:149 | a marker `[digits]` at the front is dropped and the rest is processed as on its own |
| Patterns.FootnoteExample | scraper/scraper.py:149 | "Orthodox[1]" loses its marker |
| Patterns.CapitalizeCaseVariant | scraper/scraper.py:151 | any case variant of a capitalised word capitalises back to that word |
| Patterns.StanceAtIsCanonical | scraper/scraper.py:150-151 | a stance match, in whatever case, capitalises to Orthodox, Southpaw or Switch |
| Patterns.ParseStance | scraper/scraper.py:147-155 | the stance is the leftmost whole-word stance in the footnote-free stripped value, always canonical; absent exactly when there is none |
| Patterns.StanceOfBareWord | scraper/scraper.py:149-151 | a value naming a stance in any case reads as that stance |
| Patterns.BirthDate | scraper/scraper.py:162-170 | the date of birth is the leftmost parenthesised `dddd-dd-dd`, without its parentheses; absent exactly when there is none |
| Patterns.BirthDateOfBornValue | scraper/scraper.py:164-167 | a Born value with one parenthesised ISO date and no earlier parenthesis yields that date |
| Patterns.CleanAlias | scraper/scraper.py:121 | the alias has no quotes of either kind, no surrounding whitespace, and only characters of the raw text; raw text without quotes is only stripped |
| Patterns.QuotedAlias | scraper/scraper.py:121 | a quoted nickname followed by more text loses exactly its two quotes, then is stripped |
| Patterns.AliasExample | scraper/scraper.py:121 | `"Iron" Mike` gives `Iron Mike` |
| Patterns.NameFromTitle | scraper/scraper.py:70-71 | the name taken from the title has no surrounding whitespace |
| Patterns.DisambiguatedTitle | scraper/scraper.py:71 | a title "<name> (boxer)" gives "<name>" |
| ReadingExamples.CentimetreExample | scraper/scraper.py:181-186 | "183 cm" reads as 183 |
| ReadingExamples.MetreExample | scraper/scraper.py:191-197 | "1.85 m" reads as 185 |
| ReadingExamples.ErasExample | scraper/scraper.py:309-328 | a career from 1985 to 2004 spans the eras "80s", "90s" and "00s" |
| ReadingExamples.StanceExample | scraper/scraper.py:147-151 | "Orthodox[1]" reads as the stance Orthodox |
| Normalizer.Decade | scraper/scraper.py:318-319 | `(year // 10) * 10` is the multiple of ten at or below the year, within ten of it |
| Normalizer.DecadeLabelShape | scraper/scraper.py:324 | an era label is one or two characters followed by "s" |
| Normalizer.DecadeLabelDigits | scraper/scraper.py:324 | the era label is the decade's tens digit, its units digit, then "s" |
| Normalizer.DecadeLabelRepeatsEveryCentury | scraper/scraper.py:324 | decades a century apart share a label |
| Normalizer.Eras | scraper/scraper.py:322-326 | one label per decade from the first to the last inclusive, in order |
| Normalizer.DefineEras | scraper/scraper.py:309-328 | the loop yields the labels of every decade from the start year's to the end year's |
| Normalizer.NormaliseMethod | scraper/scraper.py:589-590 | a missing Type cell gives no method; a method is found exactly when the stripped upper-cased code is in the mapping, and it is the mapping's value for that code |
| Normalizer.MethodCodeIsCanonical | scraper/scraper.py:589 | the code looked up is trimmed and in upper case, and empty for a missing cell |
| Normalizer.CanonicalCode | scraper/scraper.py:555-569 | every canonical method has a code in the mapping that maps to it |
| Normalizer.NameUpperCasesToCode | scraper/scraper.py:555-569 | every canonical name is trimmed and upper-cases to its code |
| Normalizer.CanonicalNameIsFixed | scraper/scraper.py:589-590 | a method name already in canonical form normalises to itself |
| Normalizer.ComputeRatios | scraper/scraper.py:485-492 | with positive fights and wins the ratios are wins per fight and knockouts per win; otherwise both are 0 |
| Normalizer.RatiosAreFractions | scraper/scraper.py:486-488 | a consistent record gives ratios between 0 and 1 |
| Extractor.PhotoUrlAsWritten | scraper/scraper.py:99-101 | as written, an image without `src` raises |
| Extractor.PhotoUrl | scraper/scraper.py:99-101 | corrected: same URL as written wherever that does not raise, and the default image for a missing `src` |
| Extractor.ImageWithoutSrc | scraper/scraper.py:100 | the as-written photo raises TypeError on an image without `src`; the corrected one gives the default image |
| Extractor.PhotoOf | scraper/scraper.py:97-101 | a row supplies a photo exactly when it has an image, and it is the URL the code builds wherever that does not raise |
| Extractor.AliasOf | scraper/scraper.py:108-124 | a row supplies an alias exactly when it has a nickname cell; the alias has no quotes, no surrounding whitespace, and only characters of the first list item or the cell text |
| Extractor.StanceOf | scraper/scraper.py:144-155 | a row assigns the stance exactly when its label is Stance, and a stance assigned is Orthodox, Southpaw or Switch |
| Extractor.BirthDateOf | scraper/scraper.py:160-172 | a date of birth comes only from a Born row and is an ISO date that the value holds in parentheses |
| Extractor.HeightOf | scraper/scraper.py:175-201 | a height comes exactly from a Height row whose value has a length reading, and is that reading |
| Extractor.ReachOf | scraper/scraper.py:203-228 | a reach comes exactly from a Reach row whose value has a length reading, and is that reading |
| Extractor.LatestIsLast | scraper/scraper.py:92 | a key ends with the reading of the last row that supplies one; absent when no row does |
| Extractor.LatestStep | scraper/scraper.py:92 | visiting one more row puts its reading in front of the earlier ones |
| Extractor.ReadLabelledValue | scraper/scraper.py:130-229 | a label/value row updates stance, date of birth, height and reach by their readings and nothing else |
| Extractor.ReadInfoRow | scraper/scraper.py:95-229 | one row raises TypeError exactly when it has an image without `src`; otherwise it updates photo, alias, stance, date of birth, height and reach by their readings and nothing else |
| Extractor.ReadInfobox | scraper/scraper.py:92-229 | the loop raises TypeError exactly when some row has an image without `src`; otherwise each key holds its last row's reading, or its value from before |
| Extractor.FirstTable | scraper/scraper.py:246-256 | the first table of the kind; absent exactly when no table is of that kind |
| Extractor.FindBoutTable | scraper/scraper.py:245-256 | the scan stops at the first wikitable whose headers have Result, Opponent and Date |
| Extractor.ZipRowZips | scraper/scraper.py:278 | `dict(zip(headers, cells))`: the keys are the headers, and an unrepeated header maps to its cell |
| Extractor.AcceptedRowsSound | scraper/scraper.py:274-279 | every matrix row comes from a data row with one cell per header |
| Extractor.AcceptedRowsComplete | scraper/scraper.py:274-279 | every data row with one cell per header is in the matrix |
| Extractor.BuildFightMatrix | scraper/scraper.py:273-279 | the loop builds exactly the accepted rows, in order |
| Extractor.BoutDatesSound | scraper/scraper.py:285-291 | every collected date is what `parse_date` made of some non-empty Date cell |
| Extractor.CollectDates | scraper/scraper.py:285-291 | the loop collects exactly the parsed bout dates, in order |
| Extractor.EarliestDate | scraper/scraper.py:296 | `min(dates)`: a collected date no later than any other |
| Extractor.LatestDate | scraper/scraper.py:297 | `max(dates)`: a collected date no earlier than any other |
| Extractor.ScanHeaders | scraper/scraper.py:361-371 | each flag is set exactly when some header mentions its word, in any case |
| Extractor.FindRecordTable | scraper/scraper.py:352-376 | the scan stops at the first record table and leaves behind that table's first row, or the last scanned table's |
| Extractor.RecordHeaderCellsAsWritten | scraper/scraper.py:381-395 | as written, the count loop raises when no wikitable was scanned or the header row is None |
| Extractor.RecordHeaderCells | scraper/scraper.py:381-395 | corrected: the record table's first-row cells as written wherever there is a record table, and none otherwise |
| Extractor.NoWikitableAsWritten | scraper/scraper.py:395 | a page without a wikitable raises UnboundLocalError as written; the corrected reading gives no cells |
| Extractor.CountsCharacterised | scraper/scraper.py:395-414 | the count loop raises exactly when a cell mentions a word without a leading integer; otherwise each count is that of the last cell mentioning its word |
| Extractor.ReadRecordCounts | scraper/scraper.py:387-417 | the loop computes exactly those counts or that failure |
| Extractor.PrefixCrashes | scraper/scraper.py:395-414 | once a cell raises, the whole loop raises |
| Extractor.CrashIsNotAnInteger | scraper/scraper.py:399-411 | the only failure of the count loop is a failed `int` |
| Extractor.TallyOf | scraper/scraper.py:427-479 | positions 0, 1 and 2 give knockouts, decisions and disqualifications, a missing position is 0, and a non-integer raises |
| Extractor.RecordFigures | scraper/scraper.py:349-479 | intended figures: they fail only on a failed `int`, and there are win and loss figures exactly when there is a record table |
| Extractor.RecordFiguresAgree | scraper/scraper.py:352-479 | with a record table, the figures as written are the intended ones |
| Extractor.NoRecordTableAsWritten | scraper/scraper.py:352-395 | as written, a page without a record table raises UnboundLocalError when it has no wikitable, iterates over None when the last wikitable has no row, and otherwise counts from that table's first row |
| Extractor.RecordFaults | scraper/scraper.py:381-414 | the intended figures fail only on a failed `int`; as written any other failure needs a page without a record table, and it is UnboundLocalError exactly when there is no wikitable |
| Extractor.NoRecordTableZeroRatios | scraper/scraper.py:485-492 | intended reading: a page without a record table has no counts and zero ratios |
| Extractor.ReadBoutSection | scraper/scraper.py:242-344 | the matrix is the page's bout matrix, and the active dates and eras come from its parsed dates |
| Extractor.ReadRecordSection | scraper/scraper.py:349-499 | raises exactly when the record figures as written raise, with their fault; otherwise enters the figures and ratios |
| Extractor.InfoboxProfile | scraper/scraper.py:68-233 | the infobox record is named from the title and always has a photo, the default one when no row has an image; no nickname row means no alias; no career or record field is set yet |
| Extractor.WithActivity | scraper/scraper.py:285-328 | no dates change nothing; otherwise the active dates are the earliest and latest parsed dates and the eras start at the first one's decade; no other field changes |
| Extractor.WithFigures | scraper/scraper.py:383-499 | the counts are entered, both ratios are set, a tally present is entered and an absent one leaves its fields alone; no other field changes |
| Extractor.ParseData | scraper/scraper.py:60-501 | no infobox gives nothing; otherwise the parse raises exactly when an infobox image has no `src` (TypeError) or the record figures as written raise (a non-integer cell, no wikitable, a rowless last table), else returns the infobox record completed by the bout and record sections |
| Extractor.ParseAgreesWithCorrected | scraper/scraper.py:60-501 | the parse as written and the intended one agree on every page with a record table and no image without `src`; the intended one fails only on a non-integer cell, and the written one raises something else only on those two defects |
| Extractor.NoWikitablePage | scraper/scraper.py:352-395 | a page with an infobox and no wikitable raises UnboundLocalError as written, and parses with zero ratios as intended |
| Extractor.SrclessImagePage | scraper/scraper.py:99-101 | a page whose last infobox row has an image without `src` raises TypeError as written, and gets the default photo as intended |
| Persistence.FindBoxer | scraper/scraper.py:585-586 | `filter_by(name=...).first()`: the lowest id with that name; absent for a None name or an unknown one |
| Persistence.FindStoredBoxer | scraper/scraper.py:512 | with unique names, a stored boxer's name finds that boxer |
| Persistence.NonEmpty | scraper/scraper.py:607 | `x or ...` keeps a present, non-empty cell and drops the rest |
| Persistence.StripEmptyIffBlank | scraper/scraper.py:609 | a stripped Notes cell is empty exactly when the cell is whitespace only |
| Persistence.FightOfColumns | scraper/scraper.py:580-616 | the fights row: owner as boxer A, the opponent's name, the owner as winner exactly on "Win", ids looked up by name, a title fight exactly for non-blank Notes, rounds from "Round, time" else "Round", the method normalised from the Type cell, the parsed date and the location |
| Persistence.FightsOf | scraper/scraper.py:580-616 | one candidate fight per bout row |
| Persistence.FightsOfAt | scraper/scraper.py:580-616 | the k-th candidate fight is built from the k-th bout row |
| Persistence.FightsOfReferToBoxers | scraper/scraper.py:611-612 | every id a candidate fight carries refers to a stored boxer |
| Persistence.InsertBoxerKeepsValid | scraper/scraper.py:506-551 | inserting a boxer keeps the tables valid, and the name then finds the new id |
| Persistence.InsertBoxerIdempotent | scraper/scraper.py:512-515 | inserting the same record twice is inserting it once |
| Persistence.AddNewExtends | scraper/scraper.py:598-623 | fights are only appended, each taken from the candidates |
| Persistence.AddNewCoversCandidates | scraper/scraper.py:598-623 | afterwards every candidate's key is stored |
| Persistence.AddNewKeepsKeysUnique | scraper/scraper.py:598-603 | the duplicate check keeps fight keys unique |
| Persistence.AddNewOfPresentKeys | scraper/scraper.py:598-603 | candidates whose keys are all stored add nothing |
| Persistence.AddNewKeepsValid | scraper/scraper.py:598-623 | adding fights that refer to stored boxers keeps the tables valid |
| Persistence.InsertFightsKeepsValid | scraper/scraper.py:572-626 | `insert_fights` keeps the tables valid |
| Persistence.InsertFightsStoresEveryBout | scraper/scraper.py:580-623 | afterwards every bout of the matrix is stored under its key |
| Persistence.InsertFightsIdempotent | scraper/scraper.py:598-603 | inserting the same matrix again stores nothing more |
| Persistence.WonBoutRecordsOwner | scraper/scraper.py:582-586 | a bout the owner won names the owner as winner by id |
| Persistence.Repository.Commit | scraper/scraper.py:550 | what the session holds becomes durable, and the commit is counted |
| Persistence.Repository.BoxerExists | scraper/scraper.py:40-42 | true exactly when some stored boxer has the name |
| Persistence.Repository.InsertBoxer | scraper/scraper.py:506-551 | the tables become the insertion of the record, valid and committed when something was written |
| Persistence.Repository.AddFights | scraper/scraper.py:580-623 | the loop over the bout rows leaves the fights as the candidates added one by one unless their key is stored, and changes no other table and no commit |
| Persistence.Repository.InsertFights | scraper/scraper.py:572-626 | the loop appends each new bout unless its key is stored, then commits; the tables stay valid |
| Batch.FilterUrls | scraper/scraper.py:634 | every URL is non-empty and trimmed, and there are no more URLs than lines |
| Batch.FilterUrlsAppend | scraper/scraper.py:634 | filtering two parts of the file filters each part |
| Batch.FilterUrlsIdempotent | scraper/scraper.py:634 | a filtered list passes the filter unchanged |
| Batch.FilterUrlsFromLines | scraper/scraper.py:634 | a URL is in the list exactly when it is the stripped text of a non-blank line |
| Batch.InsertBoxerGrows | scraper/scraper.py:673 | `insert_boxer` keeps the tables valid and only appends a boxer with a non-empty name |
| Batch.InsertFightsGrows | scraper/scraper.py:675 | `insert_fights` keeps the tables valid and only appends fights |
| Batch.IngestPageGrows | scraper/scraper.py:643-675 | one URL's visit keeps the tables valid and only appends to them |
| Batch.FindBoxerGrows | scraper/scraper.py:664 | a found name keeps its id as the tables grow, and the empty name stays unfound |
| Batch.HoldsStores | scraper/scraper.py:673-675 | storing a record whose boxer and bouts are already held changes nothing |
| Batch.AbsorbedIngestsNothing | scraper/scraper.py:643-675 | visiting an absorbed page changes nothing |
| Batch.IngestPageAbsorbs | scraper/scraper.py:664-675 | once visited, a page is absorbed, even when the quick title check misses it |
| Batch.StoreParsedHolds | scraper/scraper.py:673-675 | once a record and its bouts are stored, the boxer is no longer admitted and every bout's key is stored for its owner |
| Batch.AbsorbedGrows | scraper/scraper.py:664-675 | a page stays absorbed while the tables grow |
| Batch.BatchAbsorbs | scraper/scraper.py:643-675 | after the loop, the tables are valid and extended, every URL before the one that raised is absorbed, and that one raises again |
| Batch.RerunAbsorbed | scraper/scraper.py:643-675 | visiting absorbed pages changes nothing |
| Batch.RaisedStays | scraper/scraper.py:668 | an exception from `parse_data` ends the batch, so later URLs are never reached |
| Batch.BatchSpec | scraper/scraper.py:643-675 | the loop over the visits stops at most at the last visit |
| Batch.BatchIdempotent | scraper/scraper.py:631-675 | a second batch over the same URLs and pages changes nothing and ends the same way |
| Batch.StoreOutcome | scraper/scraper.py:668-675 | a page without an infobox stores nothing, a failed parse raises, and a parsed one inserts the boxer and, when there are bouts, the fights |
| Batch.ParsePage | scraper/scraper.py:668 | `parse_data` on a fetched page gives the outcome of the parse as written, exceptions included |
| Batch.VisitUrl | scraper/scraper.py:644-675 | one URL's loop body: the tables become that URL's visit; it raises exactly where the visit raises, and then the fault is the one `parse_data` raises on the fetched page |
| Batch.ScrapeUrl | scraper/scraper.py:644-675 | one turn of the URL loop advances the loop over the visits by that URL; where it raises, with the fault of `parse_data` on that page, the batch ends there |
| Batch.ScrapeUrls | scraper/scraper.py:643-675 | the URL loop leaves the tables of the loop over the URLs' visits and reports the URL that raised, if any, with the fault `parse_data` raised on its page |
| Batch.BatchScrape | scraper/scraper.py:631-675 | a missing or empty list changes nothing; otherwise the tables are those of the loop over the URLs, which either finishes or reports the URL that raised and the fault `parse_data` raised on its page |
| Resolver.ResolveId | scraper/db_info_resolver.py:27-43 | an id is filled only when its name is present and the id is empty, and then with the boxer of that name when there is one |
| Resolver.ResolvedPrefix | scraper/db_info_resolver.py:24-43 | after visiting `n` fights, exactly those are resolved and the rest are untouched |
| Resolver.ResolveFight | scraper/db_info_resolver.py:27-43 | resolving a fight changes only its opponent and winner ids, and fills a pending one with the id of the boxer of that name when one is stored |
| Resolver.ResolveFightSound | scraper/db_info_resolver.py:27-43 | the key of the fight is kept, a set id is never overwritten, and a filled id names the boxer with that name |
| Resolver.ResolveFightComplete | scraper/db_info_resolver.py:27-43 | a pending id stays empty exactly when no stored boxer has the name |
| Resolver.ResolveFightIdempotent | scraper/db_info_resolver.py:27-43 | resolving a resolved fight changes nothing |
| Resolver.ResolveFightLogsAgain | scraper/db_info_resolver.py:33 | a resolved fight logs the same unresolved names as before |
| Resolver.ResolveKeepsValid | scraper/db_info_resolver.py:24-43 | the pass keeps the tables valid |
| Resolver.ResolveAllIdempotent | scraper/db_info_resolver.py:24-43 | a second pass changes no fight |
| Resolver.SecondPassLogsTheSame | scraper/db_info_resolver.py:18-43 | a second pass writes the same logs |
| Resolver.PrefixStep | scraper/db_info_resolver.py:24 | visiting one more fight resolves it in place |
| Resolver.LogsStep | scraper/db_info_resolver.py:33 | visiting one more fight appends its entries to each log |
| Resolver.CommitsAreSpaced | scraper/db_info_resolver.py:46-47 | commits fall exactly every 500 fights |
| Resolver.CommitsSoFar | scraper/db_info_resolver.py:46-51 | between commits, the commits so far number `n / 500` |
| Resolver.ResolveOne | scraper/db_info_resolver.py:26-43 | one fight's branches: its resolved form and what it adds to each log |
| Resolver.ResolveAt | scraper/db_info_resolver.py:26-43 | updating fight `i` in place extends the resolved prefix by one and leaves the other tables and commits alone |
| Resolver.ResolveStep | scraper/db_info_resolver.py:24-48 | one loop turn resolves fight `i`, and the durable tables are those of the last multiple of 500 reached |
| Resolver.FinishPass | scraper/db_info_resolver.py:51 | the final commit makes the resolved tables durable and valid, for `n / 500 + 1` commits in all |
| Resolver.ResolveFights | scraper/db_info_resolver.py:14-55 | every fight is resolved in id order, the logs hold the unresolved names in order, boxers are untouched, everything is committed, and there are `n / 500 + 1` commits |
| Elo.MetricsRow | app/logic.py:22-23 | `RankingMetrics.query.get(id)`: a row with that key; absent exactly when there is none |
| Elo.Rating | app/logic.py:26-45 | a missing row or a row of nulls rates 1500, and a consistent record rates at least 1500 |
| Elo.ProbA | app/logic.py:48 | the Elo formula gives a probability strictly between 0 and 1 |
| Elo.ProbAAtLeastHalf | app/logic.py:48-52 | A's probability is strictly between 0 and 1, and at least one half exactly when A's rating is at least B's |
| Elo.EloWinner | app/logic.py:19-90 | A wins iff its rating is at least B's; the probability is the winner's and lies in [0.5, 1); "K.O." at 0.7 iff the gap exceeds 100, else "Decision" at 0.3; the disparity is r_a − r_b |
| Elo.Predict | app/logic.py:22-45 | two boxers without metrics give A, a decision and probability one half |
| Elo.EloTie | app/logic.py:52-73 | equal ratings give A, a decision at 0.3, probability one half and zero disparity |
| Elo.ProbASwap | app/logic.py:48-49 | B's probability `1 - elo_prob_a` is the same formula with the sides exchanged: the two probabilities sum to one |
| Elo.EloSwap | app/logic.py:48-90 | when the ratings differ, swapping the sides keeps the winner, its probability and the method, and negates the disparity |
| Elo.ProbAIncreasing | app/logic.py:48 | raising A's rating strictly raises A's probability |

## Left out

- HTTP: `get_html_content` is the parameter `fetch`, from URL to parsed page or None. The second, identical fetch in `batch_scrape` is modelled as a second call of the same function.
- Reading `urls.txt` is a parameter: the file's lines, or None when the file is missing. The progress bar, `logging`, `print` and the interactive `main` are left out.
- HTML parsing with BeautifulSoup is left out. A page is given as its title text, its infobox rows (image `src`, nickname cell, label/value texts) and its wikitables (rows of `th`/`td` cells with text and class). `get_text(strip=True)` is taken as already applied to the cell texts.
- `parse_date` (dateutil's fuzzy parser) is the parameter `parseDate`, a fixed function. dateutil fills a missing day or month from today's date, so the same text can parse differently on another day. Persistence.InsertFightsIdempotent and Batch.BatchIdempotent therefore hold across runs only for fully specified dates, or for runs on the same day. `strftime('%Y-%m-%d')` is left out because dates are stored as date values, and the format is one-to-one, so the duplicate key is unchanged.
- Floating point: ratings, probabilities and ratios are exact reals. `round(..., 2)` on the ratios is left out. `round(m * 100)` for heights is computed on the exact decimal with ties to even. `10 ** x` is an abstract function required to be positive and strictly increasing, equal to 1 at 0 and to 10 at 1, and to satisfy `10 ** x * 10 ** (-x) == 1`. Float overflow of the power is left out.
- Elo.EloWinner: the disparity is returned as the number `r_a − r_b`; its two-decimal f-string formatting is left out.
- Python's `int()` is modelled on ASCII digits with an optional sign. Underscore separators and non-ASCII digits are left out. Regex `\d` and `\w` are ASCII only. Case mapping (`upper`, `lower`, `capitalize` and `re.IGNORECASE`) is modelled on ASCII letters only; Python also maps other Unicode letters. `\s` and `str.strip()` use Python's whitespace set.
- The ORM column types (`Integer`, `Date`, `Text`) and the database's own constraints are left out. Rows are stored as the values the scraper hands over. The model assumes that `Fight.query.all()` and `filter_by(...).first()` return rows in id order. The PostgreSQL database does not promise this without an ORDER BY, and the code does not ask for one. The order of the resolver's logs and where its commits fall rest on this assumption.
- The resolver's log files are modelled as the strings written to them. Opening and closing them is left out.
- Persistence.Repository.InsertFights: a record without a name raises KeyError in the source. The model returns `MissingName` and writes nothing, which has the same effect on the tables. In the batch this case cannot arise, because untitled pages are skipped before parsing.
- Extractor.NoRecordTableZeroRatios: states the intended reading, that a page without a record table has zero ratios. As written, such a page raises when it has no wikitable or its last wikitable has no row, and otherwise takes its counts from the last wikitable's first row (Extractor.NoRecordTableAsWritten, and Findings below).
- Extractor.PhotoOf: it uses the intended photo URL, which gives the default image for an image without `src`. The parse as written raises before using it on such a row, so ParseData's result is unaffected.
- Concurrency and the Flask application (`app/routes.py`, `app.py`) are not part of this model.
- `TRUESKILL_BETA` and `GLICKO_RATING_DEVIATION` in app/logic.py belong to predictors that are not part of this model.

## Findings

The model follows the code as written: Extractor.ParseData, and through it the batch, raises in both cases below. The corrected members are kept beside it. Extractor.ParseAgreesWithCorrected proves that the two parses agree on every page that has a record table and no infobox image without `src`. A page without a record table whose last wikitable has a row also parses differently: as written its counts come from that row (Extractor.NoRecordTableAsWritten).

| source | as written | input that shows it | evidently intended | confidence | as-written member | corrected member |
|---|---|---|---|---|---|---|
| scraper/scraper.py:395 | `record_header_row` is assigned only inside the wikitable scan, so with no wikitable the count loop reads an unbound local and raises UnboundLocalError, which the `except AttributeError` does not catch; if the last table scanned has no row, it iterates over None | a page with an infobox and no wikitable | a page without a record table has no counts, like the defaults at lines 388-389 and the zero ratios at lines 490-491 | not executed | Extractor.RecordHeaderCellsAsWritten (shown by Extractor.NoWikitableAsWritten and Extractor.NoWikitablePage) | Extractor.RecordHeaderCells (used by Extractor.RecordFigures and Extractor.NoRecordTableZeroRatios) |
| scraper/scraper.py:100 | `"https:" + img_url` is evaluated before `img_url` is tested, so an infobox image without `src` raises TypeError | an infobox image element with no `src` attribute | the default image, as the conditional on line 101 and the fallback at lines 232-233 provide | not executed | Extractor.PhotoUrlAsWritten (shown by Extractor.ImageWithoutSrc and Extractor.SrclessImagePage) | Extractor.PhotoUrl (used by Extractor.PhotoOf) |
