# Upwork job scraper: new-listing detection and persistence

This project models the part of the Upwork job scraper that decides which
scraped job listings are new and keeps `job_listings.csv` free of repeats.
Each run of `UpWorkJobScraper.scraping` does four things:

1. It builds one row per job article: `Job title`, `Posted`, `Payment info` and `Link`.
   A field the article lacks becomes `Data not found`. A found link gets the prefix `https://www.upwork.com`.
2. `filter_new_jobs` normalises the scraped rows and the stored rows. Title and payment
   info are stripped and lower-cased; the link is only stripped. It then keeps the
   scraped rows whose (title, payment info, link) key is not among the stored keys:
   the left-only rows of a left merge. `Posted` is not part of the key.
3. Only when that result is non-empty, it sends the e-mail and calls `append_to_csv`.
4. `append_to_csv` appends the new rows to the file, reads the file back, drops every
   row whose key repeats an earlier row's (`keep='first'`), and overwrites the file.

Modules, one per component:

- `Text` (text.dfy): Python's `str.strip()` (with Python's whitespace set) and `str.lower()`.
- `Records` (records.dfy): the row, its key, normalisation.
- `Extraction` (extraction.dfy): building a row from what the HTML lookups found.
- `Novelty` (novelty.dfy): `filter_new_jobs` as a function from (scraped rows, file) to a `Result`.
- `Store` (store.dfy): `drop_duplicates(keep='first')` and the class
  `JobListingsCsv`, whose `AppendToCsv` does the read-modify-write.
- `Pipeline` (pipeline.dfy): the file after one run (`NextStore`), the invariant the runs keep,
  idempotence, and the class `UpWorkJobScraper` whose `Scraping` method runs the
  extraction loop and the guard.
- `Wrappers` (wrappers.dfy): `Option` and `Result`.

The file `job_listings.csv` is `Option<seq<JobRecord>>`, where `None` means the file does not exist.

Where the code behaves unexpectedly, the model follows the code:

- `drop_duplicates` in `append_to_csv` compares the stored column values as they are,
  not normalised keys. `Pipeline.ValidStoreKeys` shows that the two comparisons agree
  on every file the runs write, because every stored row is already normalised.
- The filter overwrites the title, payment info and link of the scraped rows with their
  normalised forms. So the rows that are e-mailed and stored are lower-cased and stripped;
  the original display text is not kept.
- Only `FileNotFoundError` is treated as an empty store. Any other read error propagates.
- An empty scrape builds a frame without a `Job title` column, and the code raises `KeyError`.
  `Novelty.FilterNew` returns `Failure(KeyError("Job title"))` for it, and the run leaves the file alone.

## Model

| member | source | states |
|---|---|---|
| Text.TrimLeftSpec | main.py:94 | `lstrip` removes the longest run of leading whitespace and nothing else |
| Text.TrimRightSpec | main.py:94 | `rstrip` removes the longest run of trailing whitespace and nothing else |
| Text.StripSpec | main.py:94-100 | `strip()` leaves no whitespace at either end and removes only whitespace, from both ends |
| Text.LowerSpec | main.py:94-95 | `lower()` leaves no capital letter and changes a character only from a capital to its small letter |
| Text.LowerOfLower | main.py:94-95 | a string without capitals is its own `lower()` |
| Text.StripOfStripped | main.py:94-100 | `strip()` leaves an already stripped string unchanged |
| Text.StripLowerCommute | main.py:94-95 | stripping and lower-casing commute |
| Text.PaddingIgnored | main.py:94-100 | surrounding whitespace does not change the stripped string |
| Records.Normalize | main.py:94-100 | the normalised row is stripped and free of capitals in title and payment info, and its link is stripped but keeps its case; `Posted` is unchanged; a row already normal is returned unchanged |
| Records.NormKeyOfNormalized | main.py:94-100 | normalising twice is normalising once, so a stored normalised row keeps its key |
| Records.NormKeyOfNormal | main.py:94-100 | on a normal row the raw key equals the normalised key |
| Records.CaseInsensitive | main.py:94-100 | rows whose title and payment info differ only in letter case, with equal links, are the same listing whatever their `Posted` |
| Records.PaddingInsensitive | main.py:94-100 | whitespace around each key field, padded independently, and `Posted` do not change the listing a row stands for |
| Extraction.LinkText | main.py:70 | the link starts with `https://www.upwork.com` exactly when the link element exists, followed by its `href` (or `None`); otherwise it is the sentinel |
| Extraction.BuildRecord | main.py:66-71 | each missing field of an article becomes the sentinel; the link has the site prefix exactly when the article had a link element |
| Extraction.EmptyArticle | main.py:66-71 | an article with none of the four elements becomes four sentinels |
| Novelty.AntiJoinSpec | main.py:107-108 | the left-only rows of the merge are exactly the left rows whose key is absent, in their order |
| Novelty.AntiJoinAllKnown | main.py:107-108 | when every left key is known, no row is left |
| Novelty.FilterNew | main.py:91-94 | the filter fails, with `KeyError`, exactly when the scrape is empty |
| Novelty.FilterNewSpec | main.py:94-108 | a scraped row, normalised, is returned exactly when its normalised key is not a normalised stored key; nothing else is returned; the result is a subsequence of the normalised scrape |
| Novelty.MissingStoreAllNew | main.py:83-88 | without a file (or with an empty one) every scraped row is returned, normalised, in order |
| Novelty.FilterNewCount | main.py:107-108 | a returned row occurs as often as in the normalised scrape, so internal duplicates all pass; a row with a stored key never occurs |
| Novelty.PostedIrrelevant | main.py:102-108 | changing `Posted` values in the scrape or in the file changes the result at most in `Posted` |
| Store.DropDuplicatesSpec | main.py:123 | after `drop_duplicates` no two rows share a key, the rows keep their order, and no key is lost |
| Store.DropDuplicatesIsFirstOccurrences | main.py:123 | `drop_duplicates(keep='first')` returns exactly the rows that are the first with their key, in index order |
| Store.DropDuplicatesKeepsFirst | main.py:123 | the first row with each key is kept |
| Store.StoredRowsWin | main.py:117-126 | when the stored rows have distinct keys, they all survive in front, and appended rows with a stored key are dropped |
| Store.DropDuplicatesIdempotent | main.py:123 | rows with distinct keys are left unchanged |
| Store.SameKeyPairDeduplicated | main.py:123 | of two rows with one key only the first is kept |
| Store.AppendedSpec | main.py:112-126 | after the append, no duplicate keys remain, the keys are the stored keys plus the appended ones, the order is kept, and a duplicate-free file stays a prefix |
| Store.JobListingsCsv.AppendToCsv | main.py:112-126 | appends, re-reads, deduplicates and overwrites; the new contents are the deduplicated old rows plus new rows, with the properties above |
| Pipeline.ValidStoreKeys | main.py:98-100 | on a file the runs wrote, the filter's normalised keys are the raw keys `drop_duplicates` compares |
| Pipeline.NextStoreValid | main.py:74-77 | each run keeps the file free of duplicate keys and holding only normalised rows |
| Pipeline.ScrapedAllRecorded | main.py:74-77 | after a run every scraped listing is in the file |
| Pipeline.KnownListingsChangeNothing | main.py:74-77 | a scrape of listings the file already has (for example with drifted `Posted`) finds nothing and leaves the file unchanged |
| Pipeline.RerunIdempotent | main.py:74-77 | a second run on the same scrape finds nothing new and leaves the file as the first run wrote it |
| Pipeline.StoredRowsKept | main.py:117-126 | on a valid file a run keeps every stored row, unchanged and in front |
| Pipeline.DuplicateScrapeStoredOnce | main.py:107-123 | two scraped rows for one listing, with no file, both pass the filter, and the file keeps only the first |
| Pipeline.UpWorkJobScraper.SendEmail | main.py:130-175 | the batch is handed to the notifier whether or not sending succeeds |
| Pipeline.UpWorkJobScraper.Scraping | main.py:37-77 | a timeout leaves no rows and changes nothing; otherwise one row per article in page order; the file becomes `NextStore` of the rows; the e-mail is sent only when the filter found new rows, and the outcome says which case happened |

## Left out

- The Chrome WebDriver, the random user agent, page loading, the 10-second wait and `driver.quit()` (main.py:18-53) are browser I/O. A run is given the page's articles, or `None` when the wait timed out.
- BeautifulSoup parsing and the CSS-class lookups (main.py:56-64) call a library outside the model. An article is given as what the four lookups found.
- The e-mail is only partly modelled (main.py:130-175). `dotenv`, the credentials, the message text and the SMTP transport are left out; `SendEmail` only records the batch. A failed send is only printed, so it changes nothing in the model.
- The CSV format is not modelled: header row, quoting, `mode='a'` with the header-if-absent logic (main.py:117), and type inference in `read_csv`. The file is a sequence of rows. So empty cells read back as `NaN`, and `NaN` keys in merge and `drop_duplicates`, are outside the model.
- File errors other than a missing file (a corrupt or unreadable file, a failed write) raise in the source and are not modelled.
- The column layout of the file is not modelled. The model gives each new row one `Posted` value, the scraped one. In the code the columns drift:
  - The merge at main.py:107 names the clashing column `Posted_x` and `Posted_y`. So the first append (main.py:117, no file yet) writes the header `Job title,Posted_x,Payment info,Link,Posted_y`.
  - On the next run that finds new rows, the stored file has no `Posted` column to clash with. The merge then yields six columns (`Posted`, `Posted_x`, `Posted_y` and the three key columns). main.py:117 appends six-field rows under the five-field header.
  - Reading the code (nothing was run), pandas' default parser rejects those rows, so `pd.read_csv` at main.py:120 raises `ParserError`. By then the e-mail has gone out (main.py:76), and the file is left appended but not deduplicated.
  - Every later run then fails at main.py:85, because only `FileNotFoundError` is caught.
- Pipeline.NextStoreValid: holds for the program only until the second run that finds new rows after the file is created, because of the column drift above.
- Pipeline.ScrapedAllRecorded: holds for the program only until the second run that finds new rows after the file is created, because of the column drift above.
- Pipeline.StoredRowsKept: holds for the program only until the second run that finds new rows after the file is created, because of the column drift above.
- Pipeline.RerunIdempotent: holds for the program only until the second run that finds new rows after the file is created, because of the column drift above.
- Store.JobListingsCsv.AppendToCsv: holds for the program only until the second run that finds new rows after the file is created, because of the column drift above.
- Text.Lower: only ASCII `A`–`Z` are folded. Python's `str.lower()` folds all of Unicode, and it can change a string's length.
- Printed messages, the `__main__` entry point and the hard-coded search URL (main.py:177-181) are left out.
- Concurrent runs are left out. The model assumes one run at a time; the code takes no lock on the file.
