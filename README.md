# Regulatory requirements lookup — a Dafny model

The system answers "which regulations apply to product X in market Y". A Python
backend asks a language model for a JSON reply, cuts the JSON text out of it and
checks its shape. A browser page shows the result, lists its data sources and
exports it as a file. This project models that core and proves properties of it:

- `clean_json_content` (module `JsonClean`). It extracts the JSON text from a model reply in three stages, tried in order:
  - a "```json" / "```JSON" fence;
  - bracket-delimited text between the first and the last "```";
  - a scan from the first `{` that counts braces outside double-quoted strings and keeps the first balanced candidate that decodes.

  When all three fail, the reply comes back unchanged. The scan is written as the source's index loop (`CleanJsonContent`). That loop is proved to equal a recursive specification (`CleanJson`), and the lemmas are about the specification.
- `parse_regulation_data` (module `Regulation`) cleans, decodes and checks the reply. It returns a response, a rejection record, or an exception it does not catch.
- `processQuery` (module `QueryMatch`) is the demo matcher over the sample registry.
- `extractDataSources` (module `DataSources`) lists each distinct source once. The Map-building loop is proved equal to a reference definition.
- The export file name (module `ExportName`).
- `setViewButtonStates` (module `ViewButtons`).
- The page controller (module `QueryPage`): the search button's loading state, `currentResultData`, the view toggle, the data-sources panel and the export guard. It is a class whose methods keep a page invariant, `Consistent`.

Python's `json.loads` is the function parameter `loads`; a decoded value is kept
abstract (an object's member names, and its typed members when pydantic accepts
them). `new URL(s).hostname` is the parameter `parseHost`, `None` where the
constructor throws. The network, the clock and the DOM are parameters or fields.

One behaviour the page model makes visible: a reply that has no `requirements`
member is still stored as `currentResultData`, but the display throws before
drawing it. Until the raw view is chosen or a later search succeeds, the screen
keeps the previous result (or nothing, on a first search), while the export
button already saves the new reply (`QueryPage.Page.FetchSettled`,
`QueryPage.Page.ShowRaw`, `QueryPage.Page.Export`).

## Model

| member | source | states |
|---|---|---|
| Strings.Find | app/utils.py:33-34 | `str.find`: the least index at or after `from` where the pattern occurs, or -1 exactly when there is none |
| Strings.RFind | app/utils.py:41 | `str.rfind`: the greatest index where the pattern occurs, or -1 exactly when it occurs nowhere |
| Strings.ContainsIff | app/utils.py:28 | `in` on strings holds exactly when the pattern occurs at some index |
| Strings.Strip | app/utils.py:37 | `str.strip()`: the result is a slice of the input with no Python whitespace at either end, and only whitespace was removed |
| Strings.ToLower | web/query.js:128 | `toLowerCase()` keeps the length and lower-cases each ASCII letter |
| JsonClean.Step | app/utils.py:63-80 | one character moves the brace count only when the scanner was outside a string, up for `{` and down for `}`; an escape is pending only inside a string |
| JsonClean.ScanFrom | app/utils.py:62-92 | the scan's result is a decodable `}` where the count outside strings returns to zero, and no earlier such `}` exists |
| JsonClean.CleanJson | app/utils.py:24-25 | an empty reply gives the empty string |
| JsonClean.CleanJsonContent | app/utils.py:11-99 | the index loop, with its `continue` after a backslash in a string, returns exactly the specification `CleanJson` |
| JsonClean.RunAppend | app/utils.py:62-80 | scanning `a + b` is scanning `a` and then `b` |
| JsonClean.QuotedBodyKeepsState | app/utils.py:65-73 | inside a string, a body whose quotes are all escaped leaves the scanner state unchanged |
| JsonClean.StringLiteralKeepsState | app/utils.py:65-80 | a whole string literal, braces in it included, does not change the brace count |
| JsonClean.UnquotedTextCountsBraces | app/utils.py:75-80 | outside strings, text without quotes moves the count by its `{` minus its `}` |
| JsonClean.EscapeOnlyInString | app/utils.py:69-73 | the scanner only ever waits for an escaped character inside a string |
| JsonClean.NoFenceBeforeNext | app/utils.py:34-37 | text cut before the first "```" after the marker contains no "```" |
| JsonClean.TaggedFence | app/utils.py:31-37 | only a reply holding "```json" or "```JSON" has a tagged-fence result; it is a contiguous slice of the reply and holds no "```" |
| JsonClean.GenericFence | app/utils.py:39-49 | the generic-fence result is bracket-delimited and a contiguous slice of the reply |
| JsonClean.ScanStage | app/utils.py:55-92 | the brace-scan result is a contiguous slice of the reply that decodes |
| JsonClean.CleanIsSlice | app/utils.py:11-99 | every result is a contiguous slice of the reply, so nothing is introduced |
| JsonClean.TaggedFenceResult | app/utils.py:31-37 | "```json" is preferred to "```JSON"; when the next "```" comes after the marker, the result is the stripped text between them and holds no "```" |
| JsonClean.GenericFenceResult | app/utils.py:39-49 | a bracket-delimited text between the first and the last "```" is returned; otherwise control falls through to the brace scan |
| JsonClean.ScanStageShape | app/utils.py:55-92 | the brace scan returns the text from the first `{` to a `}` outside strings where the count returns to zero; that text decodes, and it is the first such candidate |
| JsonClean.ScanResult | app/utils.py:51-92 | a scan result starts at the first `{`, ends where the count outside strings returns to zero, decodes, and is the first such candidate |
| JsonClean.FallbackIsIdentity | app/utils.py:97-99 | when no stage succeeds, the reply comes back unchanged |
| Regulation.ParseRegulationData | app/utils.py:102-158 | success and rejection both carry the caller's product and market; a rejection carries the cleaned text and one of the two error forms |
| Regulation.MissingFieldsRejected | app/utils.py:127-134 | the missing-fields error comes back exactly for a decoded object that lacks `requirements` or `summary` |
| Regulation.DecodeFailureRejected | app/utils.py:146-158 | the "JSON parsing error: " rejection comes back exactly when decoding the cleaned text fails |
| Regulation.SuccessShape | app/utils.py:136-144 | success happens exactly for an object with both members that validate; only those two members are taken from the reply |
| Regulation.ScannedReplyDecodes | app/utils.py:85-90 | when the brace scan produced the cleaned text, parsing never fails with a decode error |
| QueryMatch.FirstMatch | web/query.js:131-132 | the first registry key, in enumeration order, that occurs in the query; none when no key occurs |
| QueryMatch.Lookup | web/query.js:134-135 | `markets[market]` is found exactly when the key is registered, with the entry registered under it |
| QueryMatch.ProcessQuery | web/query.js:123-151 | a sample returned is one registered under a key that the lower-cased query contains; `undefined` comes back only for such a key whose market object is empty |
| QueryMatch.NoMatchIff | web/query.js:123-151 | `null` comes back exactly when no key occurs in the lower-cased query |
| QueryMatch.MarketResolution | web/query.js:133-146 | with the first matching key: a registered market other than "all" gives its own entry; "all" or a missing market gives the first market's entry, or `undefined` when there is none |
| DataSources.EntryFor | web/query.js:575-590 | an entry keeps the raw source as its URL, and its category is the requirement's own when that is non-empty and "Unknown" otherwise, never empty |
| DataSources.Values | web/query.js:598 | `Array.from(map.values())` lists the entries in key-insertion order |
| DataSources.ValuesListed | web/query.js:574 | when each key is its entry's URL, a URL is listed exactly when it is a key |
| DataSources.ExtractDataSources | web/query.js:557-599 | the Map-building loop returns the reference `Sources`, and the empty list for no data or no requirements |
| DataSources.SourcesUrls | web/query.js:561-594 | a URL is listed exactly when some requirement has it as a non-empty source |
| DataSources.SourcesDistinct | web/query.js:569-574 | no two entries share a URL |
| DataSources.SourcesBound | web/query.js:562-563 | there are no more entries than requirements with a non-empty source |
| DataSources.FirstIndices | web/query.js:562-574 | the indices it lists are those of requirements that are the first to carry their source |
| DataSources.FirstIndicesExact | web/query.js:562-574 | those indices are increasing, and every first requirement of a source is among them |
| DataSources.SourcesAreFirstEntries | web/query.js:562-592 | the entries are the first requirement of each source, in first-occurrence order: the host name (or the raw string) and the category, or "Unknown" |
| ExportName.SkipRun | web/query.js:787 | the end of a run of class characters: all in the class before it, none at it |
| ExportName.CollapseRuns | web/query.js:787-788 | replacing each run of a character class by one dash never makes the text longer |
| ExportName.CollapseRunsNoneIn | web/query.js:787-788 | when the dash is outside the class, no class character survives the replacement |
| ExportName.CollapseRunsIdentity | web/query.js:787-788 | text without class characters is left unchanged |
| ExportName.CollapseSpaces | web/query.js:787-788 | `replace(/\s+/g, '-')` leaves no whitespace, never lengthens the text, and changes nothing in text without whitespace |
| ExportName.DashTimestamp | web/query.js:786 | `replace(/[:.]/g, '-')` keeps the length, turns every `:` and `.` into `-` and keeps every other character |
| ExportName.Slug | web/query.js:787-788 | the product and market parts of the name hold no whitespace and are no longer than the text they come from |
| ExportName.ExportFilename | web/query.js:789 | the name starts with "regulatory-requirements_", ends with ".json", and has the length of the two slugs, the timestamp, its prefix, its extension and two underscores |
| ExportName.CollapseRunThenText | web/query.js:787 | a run followed by text becomes one dash followed by that text collapsed |
| ExportName.CollapseSplit | web/query.js:787-788 | a run between characters outside the class becomes exactly one dash, and the two sides collapse independently |
| ExportName.CollapseSpacesSplit | web/query.js:787-788 | a whitespace run between non-whitespace text becomes exactly one dash, and the two sides collapse independently |
| ExportName.FilenameHasNoSpace | web/query.js:786-789 | with an ISO timestamp, which has no whitespace, the whole file name has none |
| ViewButtons.Button.constructor | web/query.js:765-766 | a button with the given class list |
| ViewButtons.StylesExclusive | web/query.js:768-779 | no class list is styled both active and inactive |
| ViewButtons.Restyled | web/query.js:768-779 | the chosen style's classes are present, the other style's are absent, and every other class is kept |
| ViewButtons.SetViewButtonStates | web/query.js:764-780 | "structured" styles the structured button active and the raw one inactive; any other view does the opposite |
| ViewButtons.ExactlyOneActive | web/query.js:764-780 | exactly one button ends styled active, and it is the structured one exactly when "structured" was chosen |
| ViewButtons.RestyleIdempotent | web/query.js:764-780 | choosing the same view twice gives the classes of choosing it once |
| QueryPage.Page.constructor | web/query.js:316-377 | after page load no result is stored, results are hidden, the sources placeholder is shown, and no request or alert has happened |
| QueryPage.Page.ClickSearch | web/query.js:323-338 | a disabled button gets no click; an empty product or market only alerts; otherwise the button shows "Searching...", is disabled and one request is issued; the invariant is kept |
| QueryPage.Page.FetchSettled | web/query.js:340-364 | the reply becomes `currentResultData` and the results are revealed; with requirements, the structured view, the active structured button and the sources of the reply follow; without them, or on a failed fetch, an "Error fetching regulation requirements: " alert; the button is always reset; the invariant is kept |
| QueryPage.Page.ShowStructured | web/query.js:383-388 | redraws the stored result in the structured view when it has requirements, and otherwise changes nothing |
| QueryPage.Page.ShowRaw | web/query.js:391-396 | shows the stored result as raw JSON with the raw button active, and does nothing when no result is stored |
| QueryPage.Page.Export | web/query.js:399-404 | no file without a stored result; otherwise the name built from the stored product type, market and timestamp |

## Left out

- `json.loads` is uninterpreted. Its recursion-depth failure on deeply nested input, which `clean_json_content` would catch and log, is not modelled.
- `clean_json_content(None)`: the model takes strings only. `None` returns "" just like the empty string.
- The `try`/`except Exception` around the brace scan is not modelled. Nothing in the scan raises except the recursion-depth failure above.
- In `parse_regulation_data`, `raw_response` is always the cleaned text. `clean_json_content` cannot raise, so the `else content` alternative is unreachable.
- pydantic validation is abstract: `typed` is `Some` exactly when both members validate. Its error messages are left out, and such an error propagates as `Raised(InvalidFields)`.
- Logging is not modelled.
- FastAPI's turning uncaught exceptions into HTTP 500 replies is not modelled. That code lives in `app/main.py`, which is not part of this model.
- Strings.ToLower: only ASCII letters are lower-cased. JavaScript's full Unicode case mapping, which can change a string's length, is not modelled.
- QueryMatch.ProcessQuery:
  - `markets[market]` on inherited properties such as "constructor" is not modelled.
  - Integer-like keys come first in `Object.entries` order. The registry is given as a sequence already in enumeration order instead.
  - The unused `certType` argument is left out.
- The concrete `sampleQueries` data is not modelled, and neither are `handleQuery`'s 1500 ms timer and rendering.
- `fetchRegulationRequirements` is not modelled: the network. Its settled result is the `FetchOutcome` parameter of `QueryPage.Page.FetchSettled`.
- The form-submit handler and `getRegulationRequirements` are not modelled.
- `displayRequirements` and `displayRawJson` are modelled only as what the results container shows (`Shown`), not as HTML.
- `escapeHtml`, `displayDataSources` and the icon refresh are not modelled.
- `scrollIntoView` is not modelled.
- The page is assumed to contain every element the script looks up. The missing-button branch only writes to the console.
- QueryPage.Page.constructor: the initial label of the search button is taken to be "Search Requirements", and the results section is taken to start hidden. Both come from the page markup, which is not part of this model.
- QueryPage.Page.FetchSettled: a reply without requirements raises a TypeError. Its browser-specific message is represented by V8's wording.
- QueryPage.Page.FetchSettled: a reply whose body is JSON `null` is not modelled; `Fetched` always carries a document. The page would store `null`, reveal the results section and then throw, leaving it revealed with nothing stored, a state `Consistent` excludes. The backend's response model makes such a reply unexpected.
- QueryPage.Page.FetchSettled: `"requirements": null` is treated like a missing member. The browser's message then says "of null" instead of "of undefined".
- QueryPage.Page.Export: the file name is computed, but the Blob, the object URL and the simulated click that download it are not modelled.
- QueryPage.Page.Export: a stored reply without `product_type` or `market`, on which `replace` would throw, is not modelled.
- ViewButtons: the order of a `DOMTokenList` is not modelled; a class list is a set.
- ViewButtons.SetViewButtonStates: the two buttons are distinct elements because they have distinct ids. Calling it with one element twice is not modelled.
