# GiggiBuoneNotizie: a Dafny model of the collector and the presenter

GiggiBuoneNotizie shows good-news headlines in Italian. It has two parts that
share one JSON file, `news-data.json`.

- The **collector** (`fetch-news.js`) asks the news API for the top headlines
  of seven categories. It normalises each article into a record
  (`titolo`, `fonte`, `url`, `descrizione`, `pubblicato`, `categoria`,
  `data_articolo`) and concatenates the categories in order. It then sorts
  the list with the comparator `Date(b) - Date(a)` (newest first when every
  record is dated; see the sort finding otherwise), indexes it by calendar day in `per_data` (records
  without a day go to the bucket `"senzadata"`), and writes
  `{aggiornato_il, totale, notizie, per_data}`.
- The **presenter** (`app.js`) loads that file, or the copy it kept in local
  storage. It keeps `allNews`, `newsByDate` and `currentDateKey` as page
  state and shows the latest day. It also answers text searches and
  date-picker changes, with a card per record or an empty-state message.

Files:

- `records.dfy`: module `Records`, the shared record and its day key.
- `text.dfy`: module `Text`. It holds the search normalisation `norm`
  (lower-case and trim), `includes`, `escapeHtml` and the reading-back of its
  entities, `split("-")` and `formatDateKey`, and the string order of
  `Array.prototype.sort()`.
- `collector.dfy`: module `Collector`, holding `normalize`, the loop over the
  categories, the sort, the `per_data` loop and `run`.
- `presenter.dfy`: module `Presenter`. It holds the class `Page` with the
  page state, the local-storage slot and the rendered view. Its methods are
  `ApplyData`, `RenderByDate`, `SearchNews`, `PickDate` (the date-picker
  handler) and `LoadNews`, and the pure functions they are specified by sit
  beside the class.

What is not observable is passed in as a parameter:

- `fetch`: what each category's request produced.
- `parse`: the `Date` parsing inside the sort comparator. `None` stands for
  NaN.
- `now`: the clock reading.
- `fetched`: the presenter's network response.

The collector keeps an article returned under two categories twice, and it
writes `news-data.json` on every run without comparing it to the previous
file.

## Model

| member | source | states |
|---|---|---|
| `Records.DayKey` | fetch-news.js:86 | the bucket of a record is its `data_articolo`, or `"senzadata"` when that is empty; never "" |
| `Collector.ToRecord` | fetch-news.js:49-60 | a kept article gives a record with the given category and non-empty title and url. `fonte` and `descrizione` default to "" and `pubblicato` is the timestamp or "". `data_articolo` is the first 10 characters of `pubblicato`, or all of a shorter stamp, and it is empty iff `pubblicato` is |
| `Collector.Slice10` | fetch-news.js:51 | `slice(0,10)` is a prefix of the stamp: the whole stamp when it has at most 10 characters, else exactly 10 |
| `Collector.NormalizeList` | fetch-news.js:47-61 | the output is no longer than the input; every output record has a non-empty title and url and the requested category |
| `Collector.Normalize` | fetch-news.js:46-48 | a missing `articles` array gives []; otherwise as NormalizeList |
| `Collector.NormalizeConcat` | fetch-news.js:47-49 | normalize works article by article, so it keeps input order: normalising a concatenation concatenates the results |
| `Collector.NormalizeMembers` | fetch-news.js:48-49 | a record is in the output iff it is built from some input article that is present and has a title and a url |
| `Collector.NormalizeDropsIncomplete` | fetch-news.js:48 | articles that are null or lack a title or url produce nothing |
| `Collector.Contribution` | fetch-news.js:70-77 | a failed category contributes nothing; every record contributed carries that category |
| `Collector.Merged` | fetch-news.js:68-78 | the in-order concatenation of the contributions; every merged record carries one of the listed categories |
| `Collector.MergedByCategory` | fetch-news.js:68-78 | for distinct categories, the merged list's records of category c are exactly c's own contribution, [] for a failed c; a failure costs no other category anything |
| `Collector.MergedFromSucceeded` | fetch-news.js:68-78 | every merged record belongs to one of the categories, and its request succeeded |
| `Collector.MergeCategories` | fetch-news.js:66-78 | the loop yields the concatenation, in CATEGORIES order, of the normalised lists of the categories whose request succeeded; every record's category succeeded |
| `Collector.Insert` | fetch-news.js:81 | inserting into a date-sorted list keeps it sorted and adds exactly that record |
| `Collector.SortByDate` | fetch-news.js:81 | the corrected order of the sort finding: the sorted list is a permutation of the input, undated records go last, and records whose timestamps parse come newest first |
| `Collector.JsCompare` | fetch-news.js:81 | the comparator as written: 0 when either timestamp does not parse (NaN read as 0), and positive exactly when both parse and the second is newer |
| `Collector.UndatedKeepsOlderFirst` | fetch-news.js:81 | an older record, an undated one and a newer one, in that order, already form a run under the comparator as written, yet the list is not newest first |
| `Collector.SortAllDatedAgrees` | fetch-news.js:81 | when every timestamp parses, SortByDate's result has no pair out of order under the comparator as written |
| `Collector.Bucket` | fetch-news.js:86-87 | the records pushed to one key's array, in list order; never longer than the list (BucketMembers states which records) |
| `Collector.IndexByDay` | fetch-news.js:84-88 | `per_data` has one bucket per day key occurring in the list, and each bucket is the list's records with that key, in list order |
| `Collector.BucketConcat` | fetch-news.js:85-87 | buckets keep list order: the bucket of a concatenation is the concatenation of the buckets |
| `Collector.BucketMembers` | fetch-news.js:86-87 | a record is in bucket k iff it is in the list and its key is k, so each record sits in exactly one bucket |
| `Collector.BucketKeepsOccurrences` | fetch-news.js:85-87 | every occurrence of a record lands in its own bucket: none is lost or duplicated |
| `Collector.KeyOrder` | fetch-news.js:87 | the keys in first-occurrence order are distinct and are exactly the day keys of the list |
| `Collector.BucketSizesSum` | fetch-news.js:84-93 | the bucket sizes add up to the number of records, `totale` |
| `Collector.Run` | fetch-news.js:64-95 | `totale == \|notizie\|`. `notizie` is the permutation of the merged categories in SortByDate's order (the corrected order of the sort finding). `per_data` indexes `notizie` by day, and `aggiornato_il` is the clock reading |
| `Text.LowerChar` | app.js:19 | on ASCII letters: 'A'..'Z' become 'a'..'z', no other character changes, and white space stays white |
| `Text.Lower` | app.js:19 | toLowerCase on ASCII letters: it maps character by character and keeps the length |
| `Text.Trim` | app.js:21 | trim returns a contiguous slice that neither starts nor ends with white space, and only white space is cut off |
| `Text.Norm` | app.js:17-22 | the normalised text has no upper-case ASCII letter, no white space at either end, and is no longer than the input |
| `Text.NormEmptyIffBlank` | app.js:119-123 | for text without diacritic marks: a query normalises to "" iff it is all white space, which is when search falls back to the selected day |
| `Text.NormIdempotent` | app.js:17-22 | normalising twice equals normalising once |
| `Text.NormIgnoresAsciiCase` | app.js:19 | texts that differ only in ASCII letter case normalise alike |
| `Text.Contains` | app.js:126-129 | `includes`: a needle that starts the text is found, and a found needle is no longer than the text |
| `Text.NormCaseInsensitive` | app.js:17-22 | two queries that differ only in the case of ASCII letters ('A' against 'a') normalise alike |
| `Text.ContainsIffOccurs` | app.js:126-129 | `includes` holds iff the needle occurs at some position |
| `Text.EscapeChar` | app.js:24 | each of & < > " ' becomes an entity starting with &, every other character is kept, and no replacement holds < > " ' |
| `Text.EscapeHtml` | app.js:23-25 | the escaped text holds none of < > " ' and is at least as long as the input |
| `Text.EscapeGrowsOnMarkup` | app.js:24 | text holding any of the five characters changes under escaping |
| `Text.EscapePlainText` | app.js:24 | text without the five characters is returned unchanged |
| `Text.EscapeConcat` | app.js:24 | escaping distributes over concatenation |
| `Text.UnescapeEscape` | app.js:23-25 | reading the entities back gives exactly the original text |
| `Text.Split` | app.js:33 | split("-") gives at least one piece and no piece holds a dash |
| `Text.FormatDateKey` | app.js:31-35 | the result is "" iff the key is "" |
| `Text.FormatDateKeyYmd` | app.js:31-35 | a key y-m-d, pieces without dashes, is shown as d/m/y |
| `Text.StrLe` | app.js:78-86 | the string order of `sort()` on the keys (lines 78 and 86): a prefix comes first, and a string ordered first has a first character no greater than the other's |
| `Text.StrLeTotal` | app.js:78 | any two strings are ordered one way or the other |
| `Text.StrLeReflexive` | app.js:78 | every string is ordered before or equal to itself |
| `Text.StrLeAntisymmetric` | app.js:78 | strings ordered both ways are equal |
| `Text.StrLeTransitive` | app.js:78 | the order is transitive |
| `Text.NatToString` | app.js:133 | the number in the message is spelt as decimal digits, with no leading zero |
| `Text.NatToStringValue` | app.js:133 | the digits denote the number itself, so `RECENT_DAYS` appears as its own value |
| `Presenter.NewsOf` | app.js:63 | `allNews` is `notizie` when it is an array, and [] otherwise |
| `Presenter.IndexOf` | app.js:64 | `newsByDate` is `per_data` when present, and {} otherwise |
| `Presenter.CardAsWritten` | app.js:104-114 | the card as written: title, source, tag and description hold no markup, title and description read back to the record's text, while the href is the url as it is |
| `Presenter.ToCard` | app.js:104-114 | every part of a card, the href included, is free of < > " ', and reading it back gives the record's own text |
| `Presenter.UrlBreaksOutOfHref` | app.js:111 | a url holding a double quote breaks the card as written out of its href attribute; the escaped card is safe |
| `Presenter.CardsOf` | app.js:104-114 | one card per record, in record order |
| `Presenter.RenderCards` | app.js:104-114 | the loop emits one safe card per record, in order |
| `Presenter.DateView` | app.js:92-102 | the view is the message iff the bucket is missing or empty, and then it is "Nessuna notizia per d/m/y."; otherwise it is the bucket's cards in bucket order |
| `Presenter.Matches` | app.js:126-129 | the empty query matches every record, and a match needs one of the four fields to be at least as long as the query |
| `Presenter.Hits` | app.js:125-130 | `allNews.filter(...)` returns no more records than `allNews` |
| `Presenter.HitsMembers` | app.js:125-130 | a record is a hit iff it is in `allNews` and one of its four fields contains the normalised query |
| `Presenter.HitsConcat` | app.js:125-130 | the hits keep `allNews` order: the hits of a concatenation are the concatenated hits |
| `Presenter.HitsIgnoreDates` | app.js:125-135 | matching never looks at a record's dates; the recent period only appears in the message |
| `Presenter.SearchView` | app.js:118-150 | a blank query gives the selected day's view. Otherwise the view is the message iff nothing matches, and else the hits' cards in `allNews` order |
| `Presenter.NoResultsTextAsWritten` | app.js:133 | the message as written differs from the message with the query as typed exactly when the query holds one of the five markup characters |
| `Presenter.QueryShownEscaped` | app.js:133-134 | with the message as written, a query holding a markup character is shown in escaped form, not as typed |
| `Presenter.QueryAmpersandExample` | app.js:133 | the query "Q&A" is shown as "Q&amp;A" |
| `Presenter.NoResultsShowsQuery` | app.js:133-134 | the corrected message shows the query exactly as typed and its markup opens no tag |
| `Presenter.GreatestUnique` | app.js:86-87 | the latest day is unique, so the day applyData selects is determined |
| `Presenter.DayBounds` | app.js:78-87 | some day exists iff the key set is non-empty. Then the bounds are its least and greatest keys and least <= greatest; otherwise both are "" |
| `Presenter.Page.constructor` | app.js:12-14 | the page starts with no records, an empty index, no selected day, and the stored copy |
| `Presenter.Page.RenderByDate` | app.js:92-115 | selects the day, shows DateView of it, and changes nothing else |
| `Presenter.Page.ApplyData` | app.js:62-89 | `allNews` is `notizie` or [], and `newsByDate` is `per_data` or {}. The selected day is the greatest non-sentinel key, or "" if there is none, and its view is shown. When days exist the picker bounds are the least and greatest day, both keys and ordered; otherwise the bounds are untouched (PickerSpansDays) |
| `Presenter.Page.SearchNews` | app.js:118-150 | the view is SearchView of the state and the query; the selected day and every other field stay as they were |
| `Presenter.Page.PickDate` | app.js:162-166 | an empty value changes nothing. A value that is a key selects and shows that day, and any other value shows that day's empty-state message, keeping the selected day |
| `Presenter.Page.LoadNews` | app.js:43-60 | a response overwrites the stored copy and is shown, with the picker bounds as applyData sets them. On failure a stored copy is shown the same way. With neither, only the "Nessun dato disponibile" message is shown and the records, index, selected day and picker bounds are kept |
| `Presenter.OfflineReload` | app.js:50-57 | a page that loaded data once shows the same records when it reloads offline from the stored copy |
| `Presenter.IsoTimestampDay` | fetch-news.js:50-51 | a timestamp starting with an ISO 8601 calendar date YYYY-MM-DD files the record under that day, and the presenter shows the day as DD/MM/YYYY |

## Left out

- Network I/O is not modelled: `fetchJson` (HTTPS, the User-Agent header, the 15-second timeout, status checks) and the browser `fetch`. Their results are the parameters `fetch` and `fetched`.
- The `NEWS_API_KEY` check, `process.exit`, the console logging and the unconditional write of `news-data.json` are process side effects. They are not modelled.
- A response whose JSON is `null` makes `json.articles` throw, and the category is skipped. The model writes such a response as `Failed`.
- `Collector.SortByDate`: ECMAScript reads a NaN comparator result as 0, so with undated records the comparator as written is inconsistent and the engine decides the order; the program then does not promise newest first even among dated records (see the sort finding). SortByDate is the corrected order, with undated records last. Stability among equal timestamps is not stated.
- `Text.LowerChar`, `Text.Lower`: only ASCII letters are lowered. `toLowerCase` also lowers other capitals, and can change the length (U+0130 becomes two code units).
- `Text.NormEmptyIffBlank`: holds for text without diacritic marks. In app.js:20 the `\p{Diacritic}` set is removed, so a query made only of its characters is also normalised to "". That set holds combining marks such as U+0301 and also the ASCII characters `^` (U+005E) and `` ` `` (U+0060): in the source a query `^` shows the selected day, while the model searches for "^". ASCII queries holding these two characters are therefore not modelled exactly, which also bears on `Text.Norm` and `Presenter.SearchView`.
- `Text.Norm`: lower-cases only ASCII letters and does not decompose to NFD or strip diacritics, so accent-insensitive matching ("CITTA" against "città") is not modelled.
- `Text.StrLe`, `Collector.Slice10`: strings are sequences of Unicode scalar values, while JavaScript strings are UTF-16 code units. `StrLe` compares scalar values where JavaScript compares code units, and `Slice10` counts scalar values where `slice(0,10)` counts code units. The two agree on the Basic Multilingual Plane, which holds all day keys and ISO 8601 timestamps.
- `formatISO` and the header date depend on `toLocaleDateString`, and are left out. A card does not carry the formatted publication date.
- The DOM is left out: the `if (!container) return` guards, a missing date picker, `setupSearch`, the listeners and the `DOMContentLoaded` hook. The model assumes the list container and the picker exist. `PickDate` is the picker's change handler.
- `JSON.parse`/`JSON.stringify` are taken as identity. A failing `localStorage.setItem` (for example a full quota) is not modelled.
- JSON values of unexpected types are not modelled: non-string fields, a non-array bucket, or lookups that hit inherited object keys such as `"constructor"`.

## Findings

| source | as written | input that shows it | evidently intended | confidence | as-written member | corrected member |
|---|---|---|---|---|---|---|
| app.js:133-134 | the query is escaped in the no-results text, and `renderMessage` escapes the whole text again | query `Q&A`: the page shows `Q&amp;A` | the query is shown as typed, escaped once by `renderMessage` | not executed; high | `Presenter.QueryShownEscaped` | `Presenter.NoResultsShowsQuery` |
| fetch-news.js:81 | the comparator `new Date(b.pubblicato) - new Date(a.pubblicato)` is NaN for an undated record, and `sort` reads NaN as 0 | records stamped 2024-01-01, none, 2024-01-02, in that order: each neighbouring comparison is 0, so the list is one run and a run-based sort keeps the older record first | dated records newest first, undated ones in a fixed place | not executed; medium | `Collector.UndatedKeepsOlderFirst` | `Collector.SortByDate` |
| app.js:111 | the card's `href` gets `n.url` unescaped, while every other field is escaped | url `https://x.example/"onmouseover="f()` closes the attribute and adds an event handler | the url is escaped like the other upstream text | not executed; medium | `Presenter.UrlBreaksOutOfHref` | `Presenter.ToCard` |

`Page.SearchNews` uses the corrected message, `RenderCards` uses the corrected card, and `Collector.Run` uses the corrected sort.
