# Quote widget: collection, storage and server sync

This project models the logic of a browser quote widget. The widget keeps a
list of `{text, category}` quotes in memory. It mirrors that list to the
browser's local storage under the key `"quotes"`. It lets the user add a quote,
import a JSON array of quotes and sync with a remote post list. It also lists
the distinct categories and shows a random quote, optionally from one category.

The model has three modules:

- `Strings` (`trim.dfy`): JavaScript's `String.prototype.trim`. It strips the
  WhiteSpace and LineTerminator code points of ECMA-262 from both ends.
- `Quotes` (`quotes.dfy`): the pure part. It holds the `Quote` record, the four
  seed quotes, the mapping from server posts to quotes and the sync merge
  `server ++ [q in local | q.text not in serverTexts]`. It also holds the
  distinct-category list, the category filter and the random pick.
- `Store` (`store.dfy`): the mutable page state as the class `QuoteStore`. Its
  fields are `quotes` (the in-memory list), `stored` (the `"quotes"` storage
  slot, `None` when empty), `selectedCategory` (the `"selectedCategory"` slot)
  and `syncStatus` (the status line). Its methods are the page's load, save,
  add, import, sync, category-list, filter and random-quote operations.

Inputs that come from the outside world are parameters:

- the typed text and category;
- the import file, already classified as `Unparsable`, `NotArray` or
  `Array(items)`;
- the fetch outcome, either `FetchFailed` or `Posts(posts)`;
- the value `u` of `Math.random()`, a real in `[0, 1)`.

Behaviour of the code that a reader might not expect:

- The category list keeps categories in the order they first appear, because
  `[...new Set(...)]` does.
- A stored empty array loads as an empty collection, so the collection can be
  empty after start-up. The code falls back to the seed quotes only when the
  slot is missing (`None`), or when it holds the empty string, which
  `JSON.stringify` never writes and `stored` cannot hold.
- The code has no single-flight guard around sync.
- The fourth seed quote's text holds the three characters U+00E2 U+20AC U+2122
  where an apostrophe was meant, because the script's literal has them.

Quirks kept as the code has them: the merge matches quotes by text only, so a
local quote whose category differs from the server's is still dropped
(`Quotes.CategoryIgnored`). A category literally named `"all"` cannot be
selected on its own, because `"all"` is the option meaning every category.

`Store.LoadScenario` and `Store.SyncScenario` are client examples with no
contract of their own. They use the class's contracts to show two scenarios:
loading from an empty slot gives the four seed quotes, and a sync over a
stored collection replaces only the colliding local quote.

## Model

| member | source | states |
|---|---|---|
| `Strings.TrimStart` | dom-manipulation/script.js:116 | the result is the suffix of the input after its leading whitespace, and it does not start with whitespace |
| `Strings.TrimEnd` | dom-manipulation/script.js:116 | the result is the prefix of the input before its trailing whitespace, and it does not end with whitespace |
| `Strings.Trim` | dom-manipulation/script.js:116 | the result has no whitespace at either end, and it is empty exactly when the input is all whitespace |
| `Strings.TrimIsInfix` | dom-manipulation/script.js:116 | the input is whitespace, then the trimmed value, then whitespace |
| `Strings.TrimNoop` | dom-manipulation/script.js:122-123 | a string with non-whitespace at both ends is its own trim |
| `Strings.TrimIdempotent` | dom-manipulation/script.js:122-123 | trimming an already trimmed value changes nothing |
| `Quotes.FromPosts` | dom-manipulation/script.js:176-179 | one quote per post, in order, with the post's title as text and category "Server" |
| `Quotes.Texts` | dom-manipulation/script.js:197 | the server texts, position by position |
| `Quotes.KeepLocal` | dom-manipulation/script.js:199 | a local quote is kept if and only if its text is none of the server texts, with every copy of it kept; the result is no longer than the input |
| `Quotes.Merge` | dom-manipulation/script.js:199-200 | the server snapshot is a prefix of the result; every later element is a local quote whose text the server lacks; a quote is in the result exactly when it is a server quote or such a local quote |
| `Quotes.KeepLocalSubsequence` | dom-manipulation/script.js:199 | the surviving local quotes keep their relative order |
| `Quotes.KeepLocalAppend` | dom-manipulation/script.js:199 | the local filter distributes over concatenation |
| `Quotes.KeepLocalAll` | dom-manipulation/script.js:199 | with no text collision every local quote survives |
| `Quotes.KeepLocalNone` | dom-manipulation/script.js:199 | when every local text is a server text no local quote survives |
| `Quotes.LocalSurvivesIff` | dom-manipulation/script.js:197-200 | a local quote is in the part after the server snapshot if and only if no server quote has its text |
| `Quotes.CategoryIgnored` | dom-manipulation/script.js:197-200 | a local quote whose text a server quote has is dropped even when its category differs from the server quote's |
| `Quotes.MergeIdempotent` | dom-manipulation/script.js:197-200 | syncing twice against the same snapshot gives the same collection as syncing once |
| `Quotes.MergeNonEmpty` | dom-manipulation/script.js:199-200 | a merge never empties a non-empty collection, and an empty snapshot leaves the collection as it is |
| `Quotes.ExamplePosts` | dom-manipulation/script.js:176-179 | posts titled A and C map to the quotes A/Server and C/Server |
| `Quotes.SyncExample` | dom-manipulation/script.js:197-200 | local A/X, B/Y against server A/Server, C/Server gives A/Server, C/Server, B/Y |
| `Quotes.Categories` | dom-manipulation/script.js:79 | the categories of the collection, position by position |
| `Quotes.Distinct` | dom-manipulation/script.js:79 | no duplicates; exactly the input's elements; elements in the order of their first occurrence |
| `Quotes.DistinctNoDuplicates` | dom-manipulation/script.js:79 | a list with no duplicates is its own distinct list |
| `Quotes.DistinctCategories` | dom-manipulation/script.js:79 | no duplicates; every element is some quote's category and every quote's category appears; categories in order of first occurrence |
| `Quotes.DistinctDropsRepeat` | dom-manipulation/script.js:79 | the distinct list of A, A, B is A, B |
| `Quotes.CategoriesExample` | dom-manipulation/script.js:79 | categories A, A, B give the list A, B |
| `Quotes.InCategory` | dom-manipulation/script.js:103 | a quote is in the result exactly when it is in the collection with the given category, and it occurs there as many times as in the collection |
| `Quotes.InCategoryAppend` | dom-manipulation/script.js:103 | the category filter distributes over concatenation |
| `Quotes.InCategorySubsequence` | dom-manipulation/script.js:103 | the filtered quotes keep their relative order |
| `Quotes.FilterByCategory` | dom-manipulation/script.js:100-103 | "all" gives the whole collection; any other selection gives exactly the quotes of that category, each as many times as in the collection |
| `Quotes.FilterNonEmptyIff` | dom-manipulation/script.js:100-108 | for a selection other than "all", there is a quote to show if and only if the selection is in the category list |
| `Quotes.RandomIndex` | dom-manipulation/script.js:110 | `floor(u * n)` for `u` in [0, 1) is an index below `n` |
| `Quotes.Pick` | dom-manipulation/script.js:105-111 | a quote is picked if and only if the list is non-empty, and the picked quote is a member of the list |
| `Store.TrimmedWellFormed` | dom-manipulation/script.js:116-124 | a quote built from input that passes the emptiness check has non-empty, trimmed fields |
| `Store.DefaultsWellFormed` | dom-manipulation/script.js:16-27 | there are four seed quotes, each with non-empty, trimmed fields |
| `Store.DefaultCategories` | dom-manipulation/script.js:16-27 | the seed quotes fall in the four categories Motivation, Technology, Design, Life, in that order |
| `Store.QuoteStore.constructor` | dom-manipulation/script.js:14 | the page starts with an empty collection over the given storage |
| `Store.QuoteStore.LoadQuotes` | dom-manipulation/script.js:30-33 | an empty slot gives exactly the seed quotes; otherwise the stored collection, which then matches the slot |
| `Store.QuoteStore.SaveQuotes` | dom-manipulation/script.js:35-37 | the slot holds the current collection |
| `Store.QuoteStore.AddQuote` | dom-manipulation/script.js:115-127 | rejected exactly when the trimmed text or category is empty, and then nothing changes; otherwise one more quote, earlier ones unchanged, the last one the trimmed record, and the slot holds the new collection |
| `Store.QuoteStore.ImportFromJsonFile` | dom-manipulation/script.js:150-164 | unparsable or non-array input fails with its own outcome and changes nothing; an array is appended verbatim and the slot holds the new collection |
| `Store.QuoteStore.SyncQuotes` | dom-manipulation/script.js:192-209 | on success the collection is the merge of the mapped posts with the old collection and is saved; on a fetch failure the collection and the slot are as before; the status line says which |
| `Store.QuoteStore.PopulateCategories` | dom-manipulation/script.js:78-87 | the selector's values are "all" followed by the distinct categories |
| `Store.QuoteStore.FilterQuotes` | dom-manipulation/script.js:96-112 | the selection is stored; the shown quote is the pick from the filtered quotes, a member of the collection and of the selected category |
| `Store.QuoteStore.ShowRandomQuote` | dom-manipulation/script.js:72-75 | the shown quote is the pick from the whole collection |

## Left out

- DOM rendering: building spans, `innerHTML`, the selector's option elements, the "No quotes in this category." text, clearing the input fields and `alert` messages. These are presentation only. The model returns the shown quote, the selector values and the outcome instead.
- Restoring the saved filter inside `populateCategories` (lines 89-93). It depends on how a `<select>` treats a value that is not among its options.
- Session storage of the last shown quote (`saveLastQuote`, `loadLastQuote`, and the write done by `displayQuote`). It is a plain write and read with no logic.
- Network I/O: `fetch`, the `_limit=5` query and `pushQuoteToServer`, which nothing calls. A fetch outcome is an input. `FetchFailed` stands for a rejected fetch (a network error; an HTTP error status does not reject), a body that is not JSON or not an array, or an array holding `null` or `undefined`, where reading `post.title` throws (lines 170-179). Arrays whose elements lack a string `title`, such as `[{}]` or `[1, 2]`, do not fail in the code: they give quotes whose text is `undefined`, and the merge and save go ahead. They are not represented, because `Post.title` is a string.
- File and browser APIs: `FileReader`, `Blob`, `URL.createObjectURL` and the export download. The import input is given already read and classified.
- JSON parsing and serialization. A stored or imported value is abstracted as a `seq<Quote>`, so imported array elements that are not `{text, category}` objects, and stored values such as `null`, are not represented.
- Storage exceptions: a quota error from `localStorage.setItem` is not modelled. In `addQuote` and the import it would come after the in-memory append. In `syncQuotes` it would come after `quotes` is reassigned (line 200) and be caught at line 206, so the status line would read "Error syncing with server." while the merged collection is already in memory and the slot keeps its old value. `Store.QuoteStore.SyncQuotes` pairs `SyncError` with "nothing changed" only for the fetch failures listed above.
- `Math.random` is a real parameter in [0, 1). Floating-point rounding of `u * n` is not modelled.
- Event wiring and async scheduling: the `DOMContentLoaded` listener and overlapping `syncQuotes` calls. These are about concurrency, not logic.
- Store.QuoteStore.ShowRandomQuote: on an empty collection the source reads `undefined` and `displayQuote` then throws. The model returns `None` instead.
- Strings: Dafny's `string` is a sequence of Unicode scalar values, while JavaScript strings are sequences of UTF-16 code units. Trimming and text equality agree on well-formed strings, because every ECMA-262 whitespace character lies in the Basic Multilingual Plane. Lone surrogates, which `JSON.parse` can produce, cannot be represented.
