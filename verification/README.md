# emlak-botu listing store, modelled in Dafny

`pro_scraper.py` scrapes one emlakjet.com result page (rental flats in
Kadıköy), turns each listing card into a record, merges the records into a
JSON database of at most fifty entries, and writes a static HTML page with
one card per stored entry. This project models the three pieces of that
script that have logic of their own:

- **Card extraction** (`extraction.dfy`, with `text.dfy` for Python's
  `str.strip()`): a card becomes a record when it has a non-empty `data-id`,
  an `h3` heading and a price element; a card that passes that test but has no
  anchor or no `href` raises inside the per-card `try` and is dropped by the
  bare `except`. Title and price are stripped. The link is always
  `"https://www.emlakjet.com" + href`, whether or not the `href` is already
  absolute. Page order is kept.
- **Merge and retention** (`store.dfy`): the ids of the loaded database are
  read once. Every scraped record whose id is not among them is inserted at
  index 0, and a counter is incremented. The list is then cut to its first
  fifty entries. The result is exactly `(reverse(New) ++ db)[..min(50, |New| + |db|)]`,
  where `New` holds the scraped records with unknown ids, in scraping order.
  New records therefore end up in reverse scraping order. Because the id set
  is never updated during the loop, an unknown id that occurs twice in one
  scrape is inserted twice.
- **Card grid** (`render.dfy`): one card per stored entry, in list order.
  When the card text is empty, a fixed placeholder paragraph is emitted
  instead.

`listings.dfy` holds the record type and `wrappers.dfy` an `Option` type.
`pipeline.dfy` follows the script's main block: the extracted records are
merged into the loaded database, and the card grid is rendered from the
saved, cut list.

The page is an input: a sequence of `Card` values, one per element matched by
the card selector. Each field is `None` when the element or attribute is
absent. The loaded database is also an input, a sequence of `Listing`.

Two properties one might expect of the merge hold only under conditions,
and the model proves both the condition and a counterexample:

- **Idempotence.** Running the same scrape twice adds nothing the second time
  only when every scraped id survives the fifty-entry cut of the first run
  (`Store.MergeFixpoint`). `|New| + |db| <= 50` is enough (`Store.MergeTwice`).
  `|New| <= 50` alone is not: a known listing that sits last in a full
  database is evicted by one new listing, and the next identical run inserts
  it again (`Store.MergeReadmitsEvicted`).
- **Unique ids.** The stored ids stay unique when the old ids were unique and
  the new ids of the scrape are pairwise distinct (`Store.MergeUnique`), but
  not in general. An unknown id that occurs twice in one scrape is stored
  twice whenever the scrape's unknown items fit in fifty
  (`Store.MergeRepeatsUnknownId`; `Store.MergeKeepsBatchDuplicates` for a
  scrape of two copies of one unknown listing). When more than fifty unknown
  items arrive, the cut may drop one of the copies.

## Model

| member | source | states |
|---|---|---|
| Text.Strip | pro_scraper.py:45-46 | the stripped text has no whitespace at either end, is a contiguous piece of the input, and everything cut off before and after it is whitespace (Python's `isspace` set) |
| Text.StripExact | pro_scraper.py:45-46 | for any trimmed text surrounded by any whitespace, stripping returns exactly that text, so the result of `strip()` is uniquely determined |
| Text.StripIdempotent | pro_scraper.py:45-46 | stripping an already stripped title or price changes nothing |
| Extraction.ReadCard | pro_scraper.py:36-49 | a card yields a record exactly when it has a non-empty id, a heading, a price element and an anchor with `href`; it raises exactly when it passes the `if` test but lacks the anchor or `href`; a record has the card's id, stripped title and price, and link = site origin + `href` |
| Extraction.KeptIndices | pro_scraper.py:35-42 | the positions of the kept cards are strictly increasing, all valid, all kept, and include every kept card |
| Extraction.ExtractAppend | pro_scraper.py:35-49 | extraction handles each card on its own: extracting two pages of cards in sequence equals extracting their concatenation |
| Extraction.Extract | pro_scraper.py:34-49 | at most one record per card; which records and in which order is stated by `Extraction.ExtractAtKeptIndices` |
| Extraction.ExtractAtKeptIndices | pro_scraper.py:34-49 | the k-th extracted record is the record of the k-th kept card, so exactly the kept cards contribute, in page order |
| Extraction.ScrapeCards | pro_scraper.py:34-49 | the card loop with its `if` and `except: continue` returns one record per kept card, in page order, each the record of that card |
| Store.UnseenMembers | pro_scraper.py:73-76 | the items that pass the `not in known_ids` test are exactly the scraped items whose id is not among the old ids |
| Store.InsertUnknown | pro_scraper.py:73-78 | inserting each unknown item at index 0 yields the reversed unknown items followed by the old list, and the counter equals the number of unknown items |
| Store.Merge | pro_scraper.py:72-81 | the saved list is the first fifty entries of reverse(New) ++ db and never has more than fifty entries; the count equals the number of New items, like the script's `new_items_added` counter, which the script increments but never reads |
| Store.MergeLayout | pro_scraper.py:73-81 | the saved list starts with the inserted items that fit, in reverse scraping order, each a scraped item with an id unknown to the old database; after them comes an unchanged prefix of the old database |
| Store.MergeProvenance | pro_scraper.py:73-78 | every saved entry is an old entry or a scraped item whose id was unknown; no scraped item with a known id is inserted |
| Store.MergeEmptyBatch | pro_scraper.py:75-81 | merging an empty scrape adds nothing and only cuts the list to fifty, leaving a list of at most fifty unchanged |
| Store.MergeFixpoint | pro_scraper.py:73-81 | a list of at most fifty entries is returned unchanged with count zero if and only if every scraped id already occurs in it |
| Store.MergeTwice | pro_scraper.py:73-81 | when the first merge cut nothing off, merging the same scrape into its result adds nothing and changes nothing |
| Store.MergeReadmitsEvicted | pro_scraper.py:73-81 | with a full database of unique ids, scraping its last entry together with one new listing adds one item on the first run and re-adds the evicted entry on the second |
| Store.MergeUnique | pro_scraper.py:72-81 | unique old ids plus pairwise distinct new ids give unique ids in the saved list |
| Store.MergeKeepsBatchDuplicates | pro_scraper.py:73-77 | a scrape of two copies of one unknown listing inserts both copies at the front, so the saved list has a repeated id |
| Store.MergeRepeatsUnknownId | pro_scraper.py:73-81 | when an unknown id occurs at two positions of a scrape and the scrape's unknown items fit in fifty, the saved list has a repeated id |
| Store.InsertDistinct | pro_scraper.py:75-78 | corrected loop, which treats ids inserted earlier in the same scrape as known: the ids after insertion are the old ids plus the scraped ids, and unique ids stay unique |
| Store.MergeDistinct | pro_scraper.py:72-81 | corrected merge: at most fifty entries, and unique old ids give unique saved ids for every scrape |
| Store.MergeDistinctAgrees | pro_scraper.py:73-78 | when the scrape's new ids are pairwise distinct, the corrected merge and the merge as written give the same list and count |
| Render.CardsHtmlStart | pro_scraper.py:88-94 | the card text is empty exactly when the database is empty |
| Render.CardsHtmlAt | pro_scraper.py:88-94 | one card per entry in list order: the text is the cards of the entries before position i, then entry i's card (`Render.CardHtml`, the f-string of lines 89-94), then the cards of the entries after it |
| Render.BuildCards | pro_scraper.py:87-94 | the `+=` loop yields text that is empty exactly for an empty database and that, at every position i, splits into the cards before i, entry i's card and the cards after i |
| Render.GridBody | pro_scraper.py:121 | the grid holds the placeholder paragraph exactly when the database is empty, and otherwise the card text |
| Pipeline.Run | pro_scraper.py:129-132 | a run saves at most fifty entries and adds no more listings than the page had cards |
| Pipeline.RunAddsOnlyPageRecords | pro_scraper.py:42-77 | every entry a run adds is the record of some kept card of the page, has a non-empty id unknown to the old database, and has a link that starts with the site origin |
| Pipeline.RunGrid | pro_scraper.py:81-121 | the grid rendered from a run's saved list shows the placeholder exactly when the loaded database was empty and the page gave no record, and otherwise holds the cards of the saved list |

## Findings

| source | as written | input that shows it | evidently intended | confidence | as-written member | corrected member |
|---|---|---|---|---|---|---|
| pro_scraper.py:72-77 | `known_ids` is built once from the loaded database and never updated inside the loop | one page of two cards with the same unknown `data-id` (or any page where that id repeats and at most fifty unknown items arrive): both copies are inserted and the saved list holds that id twice | each id is stored at most once, as the comment on line 72 says ("prevent duplicates") | medium; not executed (depends on the site repeating a card on one page) | Store.MergeKeepsBatchDuplicates, Store.MergeRepeatsUnknownId | Store.MergeDistinct |

`Pipeline.Run` keeps the merge as written (`Store.Merge`), because it
models what the script does. `Store.MergeDistinctAgrees` shows that the two
merges agree whenever the duplicate never arises.

## Left out

- Browser driving: the Playwright launch, the user agent, `page.goto` with its 60-second timeout, the five-second wait and the card selector query (pro_scraper.py:11-33). The cards are an input of the model.
- The outer `except Exception` that closes the browser and returns an empty list (pro_scraper.py:52-58). Its effect on the database is that of an empty scrape, which `Store.MergeEmptyBatch` covers.
- Exceptions raised by the browser calls themselves (`get_attribute`, `inner_text`, `query_selector` on a detached element). Only the missing anchor and the missing `href` are modelled as raising.
- Reading and writing `data/database.json`, including the fall-back to an empty list on a JSON error and `os.makedirs` (pro_scraper.py:62-70, 82-83). The loaded database is an input and the merge result is the saved list.
- A loaded entry without an `id`, `price`, `title` or `link` key. It raises `KeyError` at pro_scraper.py:73, before anything is saved, or at pro_scraper.py:91-93, after `json.dump` at 82-83 has already saved the cut list; there `index.html` is not rewritten and the exception is swallowed at pro_scraper.py:133-134. `Listing` always has all four fields, so `Render.CardHtml` never fails.
- The timestamp, the page boilerplate and CSS around the grid, and writing `index.html` (pro_scraper.py:86, 96-127). Only the grid content is modelled.
- HTML escaping: prices, titles and links are spliced into the card markup unescaped, and the model does the same.
- Logging with `print` and the top-level exception wrapper (pro_scraper.py:21, 51, 56, 129-134).
