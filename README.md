# Books scraper pipeline, modelled in Dafny

This project models the two stages of the books pipeline.

- **Scrape stage** (`src/scrape_to_docdb.py`). Each `article.product_pod` of the catalog page becomes a raw document with five fields: the title, the price text, the trimmed stock text, the rating word (the second class token of the rating paragraph) and an absolute image URL. The URL is `BASE_URL` followed by the image path with every `"../"` removed. The documents are inserted into the document store in page order, and `books_scraped` counts them. A listing with fewer than two rating class tokens raises `IndexError`, which ends the run.
- **Transform stage** (`src/transform_and_loadto_dynamodb.py`). Every raw document is read with a default for each missing field. The price is cleaned to an exact decimal: the digits and dots are kept and then parsed as a `Decimal` literal. The rating word is mapped to 0–5. The book is then written to the key-value table under a fresh `books_id` with an ingestion time. A record whose price does not parse, or whose write fails, is skipped; the loop goes on, and `books_migrated` counts only the records written.

Modules:

- `Wrappers`: the `Result` type.
- `Documents`: raw documents and `dict.get`.
- `Price`: `clean_price`.
- `Rating`: `rating_to_number`.
- `Transform`: `transformed_doc`, the table and the migration loop.
- `Scrape`: the image URL, `strip`, the rating token, `book_doc`, the collection and the insert loop.
- `Pipeline`: properties that span both stages, and worked examples.

The two loops are imperative methods over a `Table` class (a `map` keyed by `books_id`) and a `Collection` class (a `seq` of documents). Each loop is proved against a specification function on the whole input: `Migrated` and `ScrapedDocs`. Lemmas about those functions state what each run promises.

A price is modelled as an exact decimal: a coefficient and a scale. For example, `"51.77"` is `Decimal(5177, 2)`. Its value is given as a `real`.

Inputs from the outside world are parameters of each record's `RecordEnv`:

- the `uuid4()` identifier;
- the `utcnow()` time;
- whether `put_item` succeeds.

The image rewrite removes every `"../"` in the path, in one left-to-right pass of `str.replace`. It is not limited to the leading ones. Because it is a single pass, `"..././"` becomes `"../"`.

## Model

| member | source | states |
|---|---|---|
| Documents.Get | src/transform_and_loadto_dynamodb.py:82-85 | `dict.get`: the stored value when the key is present, the default otherwise |
| Price.StripPrice | src/transform_and_loadto_dynamodb.py:59 | the result holds only digits and dots, is no longer than the input, and is the input itself when that was already all digits and dots |
| Price.StripPriceCounts | src/transform_and_loadto_dynamodb.py:59 | every digit and dot is kept exactly as often as it occurs; no other character is kept |
| Price.StripPriceAppend | src/transform_and_loadto_dynamodb.py:59 | the filter distributes over concatenation, so kept characters keep their order |
| Price.StripPriceIdempotent | src/transform_and_loadto_dynamodb.py:59 | filtering twice gives the same result as filtering once |
| Price.StripPriceKeepsDigitsAndDots | src/transform_and_loadto_dynamodb.py:59 | the filtered text has a digit iff the input has one, and it has as many dots as the input |
| Price.CleanPrice | src/transform_and_loadto_dynamodb.py:58-60 | `clean_price`: a success has fewer fraction digits than the text has characters; when it succeeds and what it gives are stated by `Price.CleanPriceSucceeds`, `Price.CleanPricePrefixed` and `Price.CleanPriceExample` |
| Price.ParseDecimalSucceeds | src/transform_and_loadto_dynamodb.py:60 | `Decimal(s)` on digits and dots succeeds iff there is a digit and at most one dot; otherwise it fails with the model's own error value `ConversionSyntax(literal)` |
| Price.ParseDecimal | src/transform_and_loadto_dynamodb.py:60 | `Decimal(s)` on a digits-and-dots literal: a success has fewer fraction digits than the literal has characters, and a failure carries the literal; when it succeeds and what it equals are stated by `Price.ParseDecimalSucceeds`, `Price.ParseDecimalExact` and `Price.ParsePlainLiteral` |
| Price.ParseDecimalExact | src/transform_and_loadto_dynamodb.py:60 | a successful parse has exactly the literal's value: the integer part plus the fraction digits over the matching power of ten |
| Price.DottedValue | src/transform_and_loadto_dynamodb.py:60 | reading the digits on both sides of the dot as one number, scaled by the fraction length, gives integer part plus fraction |
| Price.DigitsValueAppend | src/transform_and_loadto_dynamodb.py:60 | the value of concatenated digit strings is the first shifted by the length of the second, plus the second |
| Price.ParseDotted | src/transform_and_loadto_dynamodb.py:60 | `w.f` with digits on both sides and a non-empty `w` parses to the digits of `w+f` at scale `|f|` |
| Price.ParsePlainLiteral | src/transform_and_loadto_dynamodb.py:60 | round trip: parsing the plain notation of any decimal gives that decimal back, scale included |
| Price.CleanPriceSucceeds | src/transform_and_loadto_dynamodb.py:58-60 | `clean_price` succeeds iff the text has a digit and at most one dot; on failure the model's own error value `ConversionSyntax` carries the filtered literal |
| Price.CleanPricePrefixed | src/transform_and_loadto_dynamodb.py:58-60 | text without digits or dots before the plain notation of a decimal is ignored: the result is that decimal |
| Price.CleanPriceExample | src/transform_and_loadto_dynamodb.py:58-60 | `"£51.77"` cleans to `Decimal(5177, 2)`, whose value is 51.77 |
| Price.CleanPriceDefault | src/transform_and_loadto_dynamodb.py:83 | the default `"£0.00"` cleans to `Decimal(0, 2)`, whose value is 0 |
| Rating.RatingToNumber | src/transform_and_loadto_dynamodb.py:63-71 | the result lies in 0..5 and is 0 exactly for words outside the table |
| Rating.RatingNameToNumber | src/transform_and_loadto_dynamodb.py:64-70 | `"One"`..`"Five"` map to 1..5 |
| Rating.RatingNumberDeterminesName | src/transform_and_loadto_dynamodb.py:64-71 | a non-zero result comes from exactly one word, the one naming it |
| Rating.RatingExamples | src/transform_and_loadto_dynamodb.py:63-71 | the five words give 1..5; `"Zero"`, `""` and `"one"` give 0 |
| Transform.TransformDoc | src/transform_and_loadto_dynamodb.py:80-87 | `transformed_doc`: a success carries the injected id and time and a rating in 0..5; when it succeeds and every field are stated by `Transform.TransformDocSucceeds` and `Transform.TransformDocFields` |
| Transform.TransformDocSucceeds | src/transform_and_loadto_dynamodb.py:80-87 | a document without a price always transforms; one with a price transforms iff the price has a digit and at most one dot |
| Transform.TransformDocFields | src/transform_and_loadto_dynamodb.py:80-87 | the book carries the injected id and time; title and stock are copied when present and defaulted when missing; a present price is the cleaned stored text and a missing one gives 0.00; the rating is the table's number for the stored word, 0 when the word is missing (the `"Zero"` default), so it is in 0..5 and is 0 iff missing or not one of the five words |
| Transform.TransformEmptyDoc | src/transform_and_loadto_dynamodb.py:82-85 | an empty document becomes `"Unknown Title"`, price 0.00, `"Unknown"`, rating 0 |
| Transform.Attempt | src/transform_and_loadto_dynamodb.py:78-94 | one record of the loop: a success needs an accepted write and carries the record's injected `books_id`; a refused write is always a failure; `Transform.AttemptStamps` and `Transform.FailedRecordSkipped` state the rest |
| Transform.Stored | src/transform_and_loadto_dynamodb.py:90 | writing books with `put_item` keeps every key already in the table and stores every book's `books_id`; `Transform.StoredFresh` states the contents for fresh distinct ids |
| Transform.Table.PutItem | src/transform_and_loadto_dynamodb.py:90 | an accepted write stores the item under its `books_id`; a refused one leaves the table unchanged and reports failure |
| Transform.MigrateOne | src/transform_and_loadto_dynamodb.py:78-94 | one pass of the `try` block: its outcome is the record's attempt, and only a success changes the table |
| Transform.Migrate | src/transform_and_loadto_dynamodb.py:74-94 | `books_migrated` is the number of books written, and the table is the old table with exactly those books stored in order |
| Transform.WrittenAppend | src/transform_and_loadto_dynamodb.py:77-94 | records are handled independently: the books written for two runs laid end to end are those of each run |
| Transform.AttemptStamps | src/transform_and_loadto_dynamodb.py:80-87 | a successful record carries the injected id and time |
| Transform.WrittenCount | src/transform_and_loadto_dynamodb.py:91 | the number of books written is the number of successful records |
| Transform.MigratedCount | src/transform_and_loadto_dynamodb.py:74-91 | `books_migrated` equals the number of records whose transform and write both succeed, and is at most the number of source documents |
| Transform.WrittenSkipsFailure | src/transform_and_loadto_dynamodb.py:93-94 | a failed record contributes nothing; the records around it are written as if it were absent |
| Transform.OutcomesSplit | src/transform_and_loadto_dynamodb.py:77 | the results for a prefix or a suffix of the source are that part of the results |
| Transform.FailedRecordSkipped | src/transform_and_loadto_dynamodb.py:78-94 | a record whose price parse or write fails causes no write, and every later record is still migrated |
| Transform.WrittenFrom | src/transform_and_loadto_dynamodb.py:80-91 | every book written is the successful result of some record |
| Transform.WrittenDistinct | src/transform_and_loadto_dynamodb.py:81 | distinct ids among the successful records give distinct ids among the books written |
| Transform.MigratedIdsDistinct | src/transform_and_loadto_dynamodb.py:81-90 | with distinct injected ids, all `books_id` values written in one run are distinct |
| Transform.StoredFresh | src/transform_and_loadto_dynamodb.py:90 | writing books with fresh distinct ids grows the table by that many items; each book can be read back, and old items stay |
| Scrape.RemoveParentRefs | src/scrape_to_docdb.py:49 | `replace('../', '')` never lengthens the path |
| Scrape.RemoveParentRefsRemovesTriples | src/scrape_to_docdb.py:49 | characters are removed three at a time, one `"../"` each |
| Scrape.RemoveParentRefsIdentity | src/scrape_to_docdb.py:49 | a path without `"../"` is unchanged |
| Scrape.RemoveParentRefsKeepsOthers | src/scrape_to_docdb.py:49 | every character other than `.` and `/` keeps its count |
| Scrape.RemoveParentRefsPrefix | src/scrape_to_docdb.py:49 | any number of leading `"../"` before a path without one leave exactly that path |
| Scrape.RemoveParentRefsKeepsPrefix | src/scrape_to_docdb.py:49 | text before the first dot stays in place ahead of the rewritten rest |
| Scrape.RemoveParentRefsSinglePass | src/scrape_to_docdb.py:49 | one pass only: `"..././"` becomes `"../"` |
| Scrape.RemoveParentRefsStep | src/scrape_to_docdb.py:49 | text without `"../"` followed by an occurrence: the text is kept, the occurrence dropped and the scan resumes after it |
| Scrape.RemoveParentRefsFirst | src/scrape_to_docdb.py:49 | at the first occurrence of `"../"`, everything before it is kept and the rest is rewritten; with `Scrape.RemoveParentRefsIdentity` this fixes the result for every path |
| Scrape.ImageUrl | src/scrape_to_docdb.py:49 | the URL is at least `BASE_URL` and at most `BASE_URL` plus the path in length; `Scrape.ImageUrlUnderBase`, `Scrape.ImageUrlPlain` and `Scrape.ImageUrlRelative` state its text |
| Scrape.ImageUrlUnderBase | src/scrape_to_docdb.py:49 | the image URL starts with `BASE_URL` and is at most the base URL and the path in length |
| Scrape.ImageUrlPlain | src/scrape_to_docdb.py:48-49 | a path without `"../"` gives `BASE_URL + path` |
| Scrape.ImageUrlRelative | src/scrape_to_docdb.py:48-49 | `"../../media/x.jpg"`-style paths give `BASE_URL + "media/x.jpg"` |
| Scrape.LeadingSpaces | src/scrape_to_docdb.py:46 | the leading run is all whitespace and is followed by a non-space or the end |
| Scrape.TrailingSpaces | src/scrape_to_docdb.py:46 | the trailing run is all whitespace and is preceded by a non-space or the start |
| Scrape.Strip | src/scrape_to_docdb.py:46 | `strip()` never lengthens the text; what it returns is stated by `Scrape.StripSpec` and `Scrape.StripUnique` |
| Scrape.StripDropsLeading | src/scrape_to_docdb.py:46 | stripping drops exactly the leading whitespace, then strips the end |
| Scrape.StripEndDrops | src/scrape_to_docdb.py:46 | stripping the end drops exactly the trailing whitespace |
| Scrape.TrimmedSlice | src/scrape_to_docdb.py:46 | the text between the leading and trailing whitespace is a slice of the input |
| Scrape.TrimmedEdges | src/scrape_to_docdb.py:46 | after that slice only whitespace remains, and the slice neither starts nor ends with whitespace |
| Scrape.StripSpec | src/scrape_to_docdb.py:46 | `strip()` returns a slice of the input with only whitespace around it, and the result neither starts nor ends with whitespace |
| Scrape.StripUnique | src/scrape_to_docdb.py:46 | any slice with whitespace around it and none at its own ends is the result of `strip()` |
| Scrape.StripIdempotent | src/scrape_to_docdb.py:46 | stripping twice gives the same result as stripping once |
| Scrape.RatingToken | src/scrape_to_docdb.py:47 | the token is `classes[1]` when there are at least two; otherwise the model's own error value `IndexError(listing)`, which records the listing's position |
| Scrape.BookDoc | src/scrape_to_docdb.py:44-58 | a document exists iff the listing has two rating tokens; otherwise the model's own error value `IndexError(listing)` records the listing's position |
| Scrape.BookDocFields | src/scrape_to_docdb.py:52-58 | the document has exactly the five keys, holding the title, price text, stripped stock, second class token and image URL |
| Scrape.ScrapedDocs | src/scrape_to_docdb.py:43-61 | the documents of one run are at most one per listing; `Scrape.ScrapedDocsWellFormed`, `Scrape.ScrapedDocsStopsAtError` and `Scrape.ScrapedDocShape` state which |
| Scrape.UntilErrorAppend | src/scrape_to_docdb.py:43 | an error-free prefix of listings passes through whole, ahead of what follows |
| Scrape.UntilErrorAllOk | src/scrape_to_docdb.py:43 | with no error, every listing's document is kept, in place |
| Scrape.UntilErrorAt | src/scrape_to_docdb.py:43 | the `j`-th stored document is the `j`-th listing's document |
| Scrape.Collection.InsertOne | src/scrape_to_docdb.py:61 | `insert_one` appends the document, with no deduplication |
| Scrape.ScrapeOne | src/scrape_to_docdb.py:44-61 | one iteration builds the listing's document and appends it; a listing that raises appends nothing |
| Scrape.ScrapeListings | src/scrape_to_docdb.py:40-62 | the collection gains the scraped documents in page order; the run completes iff every listing has two rating tokens; `books_scraped` is then the number of listings; otherwise the run fails with the model's own error value `IndexError(listing)`, recording the position of the first bad listing |
| Scrape.ScrapedDocsWellFormed | src/scrape_to_docdb.py:43-62 | a well-formed page stores one document per listing, each built from its listing |
| Scrape.ScrapedDocsStopsAtError | src/scrape_to_docdb.py:43-47 | a page whose listing `i` raises first stores only the documents of the listings before it |
| Scrape.ScrapedDocShape | src/scrape_to_docdb.py:46-58 | every stored document has the five keys, trimmed stock text and an image URL under `BASE_URL` |
| Pipeline.ScrapedThenTransformed | src/transform_and_loadto_dynamodb.py:80-87 | a scraped document transforms iff its price text cleans; the book then holds the listing's title, stripped stock, rating number and cleaned price |
| Pipeline.ScrapeTwice | src/scrape_to_docdb.py:40-62 | scraping the same page twice appends its documents twice; each run counts every listing of a well-formed page |
| Pipeline.StripExample | src/scrape_to_docdb.py:46 | `" In stock "` is stored as `"In stock"` |
| Pipeline.ImageUrlExample | src/scrape_to_docdb.py:49 | `"../../media/a.jpg"` becomes `"http://books.toscrape.com/media/a.jpg"` |
| Pipeline.CatalogListingExample | src/scrape_to_docdb.py:44-58 | a concrete catalog listing becomes the expected five-field document |

## Left out

- Connections and configuration are not modelled: `MongoClient`, `boto3`, `requests.get`, TLS and certificate paths, `load_dotenv` and `os.getenv`. They are foreign calls with no logic of their own. The two stores are modelled as the `Collection` and `Table` classes.
- HTML parsing with BeautifulSoup (`find_all`, `find`, `.h3.a['title']`, `['src']`) is not modelled. A listing arrives as the strings and class tokens the parser extracted. A listing whose tags are missing, so that parsing itself would raise, is not modelled.
- `uuid.uuid4()` and `datetime.utcnow().isoformat()` are inputs (`RecordEnv`). Distinct ids appear as a precondition where a lemma needs them.
- `put_item` is modelled as a write that succeeds or fails as the record's `RecordEnv` says. Service-side behaviour, such as number normalisation of the stored `Decimal`, is not modelled.
- `print` output is not modelled, including the per-record error messages and the final counts.
- `src/viewdata_in_docdb.py` is not part of this model. It only connects and prints ten documents.
- Python `Decimal` is modelled only for literals of digits and dots, the only ones that can reach it after the `[0-9.]` filter. Exponents, signs, NaN, Infinity, whitespace and contexts are out of scope.
- Documents are string-to-string maps. A stored field that is not a string (a number, `None`), which would make `re.sub` raise inside the `try`, is not modelled.
- The `_id` field that `insert_one` adds to the inserted dict is not modelled.
- The scrape loop is modelled as ending at the first `IndexError`, as an uncaught exception would end it. A failing `insert_one` is not modelled.
- Scrape.RemoveParentRefs: its own contract only bounds the length. What the rewrite does is stated by `Scrape.RemoveParentRefsIdentity` (no occurrence) and `Scrape.RemoveParentRefsStep` / `Scrape.RemoveParentRefsFirst` (the first occurrence), which together determine it.
- Scrape.Strip: its own contract only bounds the length. What it returns is stated by `Scrape.StripSpec` and `Scrape.StripUnique`.
- Error values: Python's `Decimal` raises `InvalidOperation([<class 'decimal.ConversionSyntax'>])`, which carries no literal, and `article.p['class'][1]` raises `IndexError('list index out of range')`, which carries no listing position. The model's `ConversionSyntax(literal)` and `IndexError(listing)` are its own error values and record more than the exceptions do; only the fact of failure is the source's.
