# Civic issue reporter: a verified model of its issue store and client string logic

The application lets citizens report civic problems (a title, a description,
a map location, an optional photo) and lets officers move each report
through the statuses "Reported", "In Progress" and "Solved".

This project models the two parts of it that are sequential logic rather
than UI glue.

* **The server's issue store** (`app.py`), in `issue_store.dfy`. It holds an
  in-memory table of issue records and an id counter, both updated in place.
  They become the two fields of the class `IssueStore.Store`: a `seq<Issue>`
  and a `nat`. The store's invariant is that ids strictly increase along the
  table and all lie below the counter, so they are unique. Three handlers are
  modelled. POST creates a record (`Store.Create`). PATCH changes a status
  (`Store.Update`, a linear search followed by an in-place update). GET lists
  the table with its status and search filters (`Store.List`). GET is a pair
  of list comprehensions, so it is specified by the pure function
  `ListIssues`, built on the generic order-preserving `Sequences.Filter`.
* **The client's string helpers** (`script.js`), in `client_script.dfy` and
  `js_strings.dfy`:
  * `escapeHtml`, a five-character HTML entity substitution;
  * `statusClass`;
  * the marker-icon choice `ICONS[status]`, falling back to `ICONS.Reported`;
  * the checks `submitIssue` runs before it posts a report. These are
    required fields after `trim()`, and a location of the form "lat,lng"
    split on `,`.

`js_strings.dfy` models JavaScript's `trim` and `split`. JavaScript's
`Number(...)` conversion is a function parameter `toNumber`, so the model
only distinguishes NaN from a number. The wall clock is a parameter too: the
formatted date and time stamp of a call are passed in as strings.

## Model

| member | source | states |
|---|---|---|
| `IssueStore.Store.constructor` | app.py:7-8 | The store starts with an empty table and the counter at 1, and satisfies the id invariant. |
| `IssueStore.Store.Create` | app.py:19-36 | When `float` raises on a coordinate, the request fails and table and counter are unchanged. Otherwise the new record gets the old counter as its id. It gets status "Reported" and exactly one history entry, whatever the payload holds. It is appended at the end, so every earlier record keeps its value and position. The counter grows by exactly one, the invariant is kept, and the new id differs from every stored id. |
| `IssueStore.NewIssue` | app.py:20-33 | With JSON numbers as exact reals, creation fails exactly when `float` raises on one of the two coordinates. A created record takes title, description and photo from the payload, each defaulting to "" when absent. Its latitude and longitude are `float` of the payload's coordinates after `or 0`. Its status is "Reported" and its history is the single entry (stamp, "Reported"). |
| `IssueStore.CoordinateOrZero` | app.py:21-22 | A missing coordinate, or one that is falsy in Python (`None`, `False`, `0`, `""`, `[]`, `{}`), becomes 0. A truthy value is kept. The result is never falsy unless it is 0. |
| `IssueStore.CoordinateConversion` | app.py:21-29 | A missing or falsy coordinate is stored as 0.0. With JSON numbers as exact reals, the conversion fails only on a non-empty text that is not a float literal, or on a non-empty list or dict. A JSON `null` never reaches `float`. |
| `IssueStore.AppendKeepsIds` | app.py:24-35 | Appending a record whose id is the counter, then incrementing the counter, keeps the ids strictly increasing and below the counter. |
| `IssueStore.IdsUnique` | app.py:24 | Under the invariant, no two stored records share an id. |
| `IssueStore.Store.List` | app.py:38-56 | GET changes nothing. Its result is an order-preserving subsequence of the table with increasing ids. A record is in it exactly when it passes both filters. Status "All" with an empty search returns the whole table. |
| `IssueStore.ListIssuesSpec` | app.py:43-47 | The listing is a subsequence of the table. It holds exactly the records that pass both filters. With status other than "All", every returned record has exactly that status. With a non-empty search, every returned record's lowercased search text contains the lowercased search string. |
| `IssueStore.ListIssuesIsSelection` | app.py:43-47 | Applying the status filter and then the search filter is one filter by the conjunction of the two conditions. |
| `IssueStore.ListAllIsEverything` | app.py:43-47 | Status "All" with an empty search returns the whole table, in order. |
| `IssueStore.ListIssuesIdsIncreasing` | app.py:43-47 | A listing of a table with increasing ids again has increasing, hence unique, ids. |
| `IssueStore.FilterKeepsIdsIncreasing` | app.py:45-47 | Any comprehension-style filter of a table with increasing ids keeps ids increasing. |
| `IssueStore.SearchText` | app.py:47 | The text searched is the lowercased title, a space and the lowercased description. This equals the lowercase of the whole concatenation. |
| `IssueStore.LowerChar` | app.py:41 | An ASCII capital becomes its small letter, and no other character changes (ASCII only, see Left out). The result is never an ASCII capital. |
| `IssueStore.Lower` | app.py:41 | Lowercasing keeps the length and maps each character on its own. |
| `IssueStore.LowerConcat` | app.py:47 | Lowercasing distributes over concatenation. |
| `IssueStore.ContainsOccurs` | app.py:47 | The substring test `search in text` holds exactly when the search string occurs at some position of the text. |
| `IssueStore.IndexOf` | app.py:62 | The lookup returns the first position holding the id. It returns not-found exactly when no record has that id. |
| `IssueStore.IndexOfUnique` | app.py:62 | Under the invariant, the lookup of any stored record's id finds that very record. |
| `IssueStore.WithStatus` | app.py:66-69 | A status change sets the new status, any value and without a transition check. It appends exactly one history entry carrying that status. Every other field stays the same. |
| `IssueStore.StatusChangeFrame` | app.py:66-69 | Replacing one record by its status-changed version keeps the table's length and every other record. It keeps that record's id and grows its history by one. The id invariant still holds. |
| `IssueStore.Store.Update` | app.py:59-71 | An unknown id yields not-found and leaves table and counter unchanged. For a known id with a "status" key, only the first record with that id gets the new status and one more history entry, and that record is returned. Without a "status" key nothing changes and the record is returned. |
| `Sequences.Filter` | app.py:45-47 | A comprehension's result is no longer than its input. It holds exactly the elements of the input that satisfy the condition. It is the input itself when every element satisfies the condition. |
| `Sequences.FilterIsSubsequence` | app.py:45-47 | A comprehension keeps the relative order of what it keeps. |
| `Sequences.FilterFilter` | app.py:44-47 | Two comprehensions in a row equal one comprehension with the conjunction of their conditions. |
| `ClientScript.Decimal` | script.js:189 | For a positive integer below 10^21, `String(n)` is a non-empty string of decimal digits with no leading zero, and those digits denote `n`. |
| `ClientScript.DisplayText` | script.js:189 | `String(s or "")` is empty exactly for a falsy value (undefined, null, false, 0, ""). |
| `ClientScript.EscapeChar` | script.js:189 | `&`, `<`, `>`, `"` and `'` become `&amp;`, `&lt;`, `&gt;`, `&quot;` and `&#39;`. Every other character is copied unchanged. |
| `ClientScript.EscapeText` | script.js:189 | The escaped text is never shorter than the input and contains no `<`, `>`, `"` or `'`. |
| `ClientScript.EscapeHtml` | script.js:188-190 | A falsy input escapes to the empty string. The output is never shorter than the displayed input and contains no `<`, `>`, `"` or `'`. |
| `ClientScript.EscapeConcat` | script.js:189 | Escaping a concatenation equals concatenating the escapes. |
| `ClientScript.EscapeUnchangedIffPlain` | script.js:189 | Escaping leaves a string unchanged exactly when the string contains none of the five significant characters. |
| `ClientScript.UnescapeEscape` | script.js:189 | Decoding the five entities in the escaped text gives back the original text, so escaping loses nothing. |
| `ClientScript.StatusClass` | script.js:19-24 | "Reported", "In Progress" and "Solved" map to their own three distinct classes, each class only from its status. Every other string maps to "". |
| `ClientScript.OwnProperty` | script.js:12-17 | The icon table has own entries exactly for "Reported", "In Progress", "Solved" and "SolvedFinal". |
| `ClientScript.IconsIndex` | script.js:12-17 | Indexing the icon table gives the own icon. Failing that, it gives an inherited member of every JavaScript object. Otherwise it gives undefined. |
| `ClientScript.IconChoiceAsWritten` | script.js:121 | The as-written choice is never undefined: it is the indexed property whenever one exists, and the "Reported" icon otherwise. |
| `ClientScript.InheritedStatusGetsNoIcon` | script.js:121 | As written, the statuses "constructor" and "toString" select something that is not an icon. |
| `ClientScript.IconFor` | script.js:62 | The intended choice (see Findings), not the as-written `ICONS[issue.status] \|\| ICONS.Reported`: each status key with an entry in the table selects its own icon. Any other status falls back to the "Reported" icon. |
| `ClientScript.IconChoiceAgrees` | script.js:121 | The as-written choice yields the intended icon exactly when the status is not the name of an inherited member. |
| `ClientScript.PublicMarkerIcon` | script.js:104-124 | A solved issue is first drawn green, and green is drawn only for "Solved". Every other status gets the intended choice `IconFor`, not the as-written `ICONS[status] \|\| ICONS.Reported` (see Findings). |
| `JsStrings.Trim` | script.js:193-195 | `trim()` yields a slice of the input whose surroundings are all whitespace. The slice is empty or starts and ends with a non-whitespace character. |
| `JsStrings.TrimEmptyIffBlank` | script.js:198 | A field is empty after trimming exactly when it holds only whitespace. |
| `JsStrings.TrimIdempotent` | script.js:193-195 | Trimming twice is trimming once. |
| `JsStrings.Split` | script.js:204 | `split(",")` yields at least one part, and no part contains the separator. |
| `JsStrings.JoinSplit` | script.js:204 | Joining the parts with the separator gives back the string. |
| `JsStrings.SplitJoin` | script.js:204 | Splitting separator-free parts joined by the separator gives back the parts. |
| `ClientScript.ParseLocation` | script.js:204-205 | An accepted location has two coordinates, neither of which is NaN. |
| `ClientScript.ParseLocationFirstTwo` | script.js:204-206 | The verdict and the coordinates depend only on the first two parts of the split. |
| `ClientScript.LocationNeedsComma` | script.js:205-207 | A location without a comma is refused. |
| `ClientScript.LocationPair` | script.js:204-206 | "a,b" is accepted exactly when both trimmed halves convert to numbers, and then yields those two numbers. |
| `ClientScript.LocationIgnoresExtraParts` | script.js:204-206 | Parts after the second are ignored: "a,b,rest" gets the same verdict and coordinates as "a,b". |
| `ClientScript.CheckSubmission` | script.js:192-208 | Nothing is posted when title, description or location is empty after trimming. That check comes first, so it holds whatever the location's text. Otherwise nothing is posted when the location does not parse. Otherwise the trimmed title and description are posted with the parsed coordinates. |

## Findings

| source | as written | input that shows it | evidently intended | confidence | as-written member | corrected member |
|---|---|---|---|---|---|---|
| script.js:121 | The fallback only fires when `ICONS[status]` is `undefined`. A status named like a member every object inherits (`constructor`, `toString`, `__proto__`, ...) reads that inherited function or object instead. Leaflet then receives a non-icon. The server's PATCH stores any status (app.py:66-68), and script.js:62 and script.js:289 use the same expression. | status "constructor" | every status without its own entry in `ICONS` gets the "Reported" icon | medium; not executed | `ClientScript.InheritedStatusGetsNoIcon` (about `ClientScript.IconChoiceAsWritten`) | `ClientScript.IconFor`, related by `ClientScript.IconChoiceAgrees` and used by `ClientScript.PublicMarkerIcon` |

## Left out

- The date filter of GET (app.py:40, app.py:48-54). It compares stored dates with the wall clock, and its bare `except` swallows errors. `Store.List` models a request whose date is "All".
- Timestamps (app.py:31-32, app.py:69). History entries and dates are opaque strings passed in by the caller.
- IssueStore.PyFloat: Python's parsing of a float literal from text is the uninterpreted parameter `parseFloat`. Nothing is proved about which texts parse. JSON arrays and objects are represented by their size only.
- JSON payloads with non-string text fields. The text fields of a payload are a `map<string, string>`; only "lat" and "lng" are general JSON values. A JSON `null` title, which would make a later search raise at app.py:47, is not representable.
- Flask routing, `jsonify`, HTTP status codes and `request.get_json() or {}`. The outcomes are reduced to the returned record and not-found (`None`).
- Concurrent requests. The counter increment at app.py:35 is not atomic under a threaded server; the model is sequential.
- IssueStore.NewIssue: JSON numbers are exact reals. There is no rounding to doubles, no NaN or ±inf, and no `OverflowError` from `float()` on an integer beyond the double range. Such a POST fails in the source but creates a record in the model.
- IssueStore.CoordinateConversion: same as `NewIssue`. Its "fails only on" omits the `OverflowError` on an integer beyond the double range, and NaN or ±inf (from JSON or from text like "1e400") are not representable.
- IssueStore.LowerChar: maps only the ASCII capitals 'A'..'Z'. Python's `str.lower()` also lowercases non-ASCII letters ('É' to 'é').
- IssueStore.Lower: models Python's `str.lower()` on ASCII letters only. Other characters are left unchanged, whereas Python also lowercases non-ASCII letters.
- ClientScript.Decimal: JavaScript numbers are doubles. `String(n)` prints exponent notation from 10^21 on ("1e+21"), and integers above 2^53 are inexact. The model prints every digit of an exact integer.
- ClientScript.DisplayText: covers undefined, null, booleans, integers (printed as `Decimal` does, so exactly only below 10^21) and strings only. Non-integral numbers, NaN and objects passed to `String(...)` are not modelled.
- ClientScript.ParseLocation: JavaScript's `Number(...)` is the uninterpreted parameter `toNumber`. Nothing is proved about which texts parse as numbers; for example, the model does not show that `Number("")` is 0.
- The `catch` branch of `submitIssue` (script.js:208) is not modelled: `split`, `map`, `trim` and `Number` do not throw on strings.
- Photo reading with `FileReader` and the POST itself (`postIssue`, script.js:210-242). `CheckSubmission` ends with the data it would post.
- All Leaflet map work, timers and DOM rendering: `initPublicMap`, `clearPublicMarkers`, `centerOnIssue`, the mini maps, `renderIssueList`, `loadOfficerDashboard`, `showSection`, and the timed swap to the check-mark icon and removal of a solved marker. Also `fetch` calls, `alert`, `showIssueHistory`, `loadIssues`, `updateIssueStatus` and `navigator.geolocation`. These are foreign-library calls, I/O and timing.
- JavaScript strings are sequences of UTF-16 code units; the model's strings are sequences of Unicode scalar values.
- The page styles three statuses (script.js:19-24), and the officer buttons send only "In Progress" and "Solved" (script.js:273-274). PATCH stores any string (app.py:66-68), and the model follows the server.
