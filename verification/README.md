# Wiki search over Elasticsearch: a Dafny model of the result transforms

The system answers keyword searches over a PukiWiki corpus that is indexed in
Elasticsearch. Two HTTP handlers sit between the engine's JSON response and
the caller, and this project models both as pure functions over immutable
datatypes:

- **Page-title search** (`api/main.py`). `parse_wiki_body` takes a page body
  and keeps the lines that mention the keyword, compared case-insensitively.
  From each kept line it takes the title inside the first `[[...]]` link and
  drops titles it has already seen. The `/search` handler applies two guards
  in order: 503 when the engine is unavailable, then 400 when `q` is missing.
  It then asks the engine for a `match` query on `body` (`operator "and"`,
  `size 10`). A list-valued `body` is joined with `"\n"`, and all hits'
  titles are merged into one list in which the first occurrence wins.
- **Highlighted search** (`crawler/search.py`). This handler has the same
  two guards. The 400 answer carries `total 0` and empty `hits`. It sends a
  `multi_match` over `title` and `body` with body highlighting (one fragment
  of 150 characters between `<mark>` and `</mark>`). It projects
  `_source` to three fields and asks for 20 hits. Each hit becomes one
  `{id, title, url_title, modified, snippet}` record, in order. The snippet
  is the highlight fragments joined with `" ... "`. `total` is read from
  `hits.total.value`, with 0 as the default.

Modules, leaves first:

| file | module | what it holds |
|---|---|---|
| `wrappers.dfy` | `Wrappers` | `Option` and `Result` |
| `seq_facts.dfy` | `SeqFacts` | two sequence decompositions used by the proofs, and `FlatMap` (one sequence per element, concatenated) |
| `text.dfy` | `Text` | substring search (`in`), ASCII `lower()`, `split`/`splitlines` on `'\n'`, `join`, and their round trips |
| `distinct.dfy` | `Distinct` | the `if x not in acc: acc.append(x)` idiom (`AppendNew`, `Dedup`) |
| `json.dfy` | `JsonDoc` | JSON values for the request bodies, and path lookup |
| `engine.dfy` | `Engine` | hits, stored values, `hits.total`, and the engine's reply |
| `wiki_links.dfy` | `WikiLinks` | `parse_wiki_body` |
| `wiki_api.dfy` | `WikiApi` | the page-title `/search` handler |
| `highlight_search.dfy` | `HighlightSearch` | the highlighted `/search` handler |

The search engine is never called. Each handler takes it as a parameter
`engine: Json -> EngineReply`, a function from the request body to the
reply. When a guard rejects the request, the answer is fixed by the guard
alone. No request is made, so the answer does not depend on `engine`.
Whether the connection was established at start-up is the boolean
`available`.

Assumptions:

- **Lower-casing.** `ToLower` maps only `A`–`Z`. This simplifies Python's
  Unicode `str.lower()`.
- **Line splitting.** `SplitLines` splits on `'\n'` only. Like
  `str.splitlines()`, it drops a final empty piece, so `""` has no lines
  and `"a\n"` has one. Python also breaks lines at `\r`, `\r\n`, `\v`,
  `\f`, `\x1c`–`\x1e`, `\x85`, U+2028 and U+2029.
- **Links.** The pattern `\[\[(.*?)\]\]` is modelled as "the leftmost
  `[[`, then the nearest `]]` at least two characters later". `FirstLink`
  is proved equal to the leftmost-then-shortest match (`FirstMatch`).
  `.` cannot cross a line break, but lines never contain `'\n'`.

Three points about what the handlers do:

- **Empty `q` on the page-title endpoint.** The route declares
  `q: Optional[str] = Query(None, min_length=1)` (api/main.py:79). The
  framework therefore refuses `q=""` with 422 before the handler runs, even
  when the engine is unavailable. The handler's own 400 is reached only
  when `q` is absent. `SearchWiki` models the handler, and `SearchEndpoint`
  models the route with its parameter validation.
- **`total` in the highlighted search.** `total` is the engine's
  `hits.total.value`. It is not the number of records returned.
- **No ranking.** Neither handler ranks results or counts keyword
  occurrences. The page-title results are in hit order, then line order,
  and the highlighted hits are in the engine's order.

Error paths the code hits are modelled as results, not exceptions:

- **Page-title handler.** The handler catches every exception and answers
  500 with `"An error occurred during the search: " + str(e)`. The modelled
  causes are:
  - the engine's failure, with its message;
  - a response without `hits.hits` (`KeyError` → `'hits'`);
  - a hit without `_source` (`KeyError` → `'_source'`).
- **Highlighted handler.** It answers 500 with
  `"An internal error occurred."` in two cases:
  - the engine fails;
  - `hits.total` is a bare integer, so `.get` fails on an `int`.

## Model

| member | source | states |
|---|---|---|
| Text.Find | api/main.py:68 | the result is the least index at or after `from` where the pattern occurs, and None means it occurs nowhere from there |
| Text.Contains | api/main.py:68 | Python's `pat in s` holds exactly when `pat` occurs at some index of `s` |
| Text.ToLower | api/main.py:68 | ASCII `lower()`: same length, no upper-case ASCII letter left, upper-case letters shifted by 32, every other character kept |
| Text.ToLowerIdempotent | api/main.py:68 | lower-casing twice equals lower-casing once |
| Text.Split | api/main.py:66 | splitting yields at least one piece, and no piece contains the separator |
| Text.SplitLines | api/main.py:66 | no line contains `'\n'` |
| Text.JoinSplit | api/main.py:114 | joining the pieces of a split with the separator gives back the string |
| Text.SplitJoin | api/main.py:114 | splitting a join of separator-free parts gives back the parts |
| Text.SplitLinesJoin | api/main.py:66 | round trip: joining the lines with "\n" restores the text, up to one trailing line break |
| Text.SplitLinesOfJoin | api/main.py:114 | round trip: "\n"-joined newline-free lines split back into those lines, except that a last empty line is lost |
| Text.SplitLastEmpty | api/main.py:66 | the last split piece is empty exactly when the text is empty or ends with the separator |
| Text.JoinLength | crawler/search.py:79 | a join's length is the parts' lengths plus one separator between each two |
| Text.JoinPartAt | crawler/search.py:79 | part `i` of a join sits at its offset and, unless it is last, is followed by the separator |
| Distinct.AppendNew | api/main.py:119-121 | `acc` stays a prefix; no duplicates are introduced; the result holds exactly the elements of `acc` and of the input; it grows by at most the input's length |
| Distinct.Dedup | api/main.py:72-74 | the result has no duplicates, holds exactly the input's elements, and is no longer than the input |
| Distinct.AppendNewConcat | api/main.py:119-121 | appending `xs + ys` equals appending `xs` and then `ys` |
| Distinct.AppendNewSnoc | api/main.py:120-121 | one more element is appended exactly when it is not yet present |
| Distinct.AppendNewDedup | api/main.py:116-121 | appending an already de-duplicated list gives the same result as appending the raw list |
| Distinct.DedupPrefix | api/main.py:119-121 | the de-duplication of any prefix of the input is a prefix of the whole result |
| Distinct.DedupOfNoDup | api/main.py:72-74 | a list without duplicates is left unchanged |
| Distinct.DedupOrder | api/main.py:72-74 | of two results, the one whose first occurrence in the input is earlier comes first |
| Distinct.PrefixHoldsEarlier | api/main.py:72-74 | a prefix of a duplicate-free list that holds element `j` holds every earlier element |
| WikiLinks.FirstLink | api/main.py:64-71 | None exactly when the line has no `[[...]]` token; otherwise the text between the leftmost `[[` and the nearest `]]` after it |
| WikiLinks.FirstMatchUnique | api/main.py:69 | the leftmost-then-shortest match is a single span |
| WikiLinks.TitleHasNoClose | api/main.py:64 | an extracted title never contains "]]" |
| WikiLinks.MatchesIgnoresCase | api/main.py:68 | the keyword test gives the same answer after lower-casing the line or the keyword |
| WikiLinks.LineTitle | api/main.py:68-71 | a line contributes a title exactly when it mentions the keyword and has a link token; the title is its first link's |
| WikiLinks.Candidates | api/main.py:66-71 | at most one title per line; a title is listed exactly when some line contributes it |
| WikiLinks.CandidatesConcat | api/main.py:66 | per-line titles of concatenated line lists concatenate |
| WikiLinks.ScanIsAppendNew | api/main.py:62-75 | the loop as written appends the first occurrences of the per-line titles to `results` |
| WikiLinks.ExtractTitles | api/main.py:62-75 | the titles are the first occurrences of the per-line titles, with no duplicates, at most one per line, and exactly those some line contributes |
| WikiLinks.ParseWikiBody | api/main.py:51-75 | soundness and completeness: a title is returned exactly when some line mentions the keyword case-insensitively and links to it first; no duplicates; at most one title per line |
| WikiLinks.ExtractMember | api/main.py:66-74 | a title is extracted exactly when some matching line links to it first |
| WikiLinks.ExtractTopDown | api/main.py:66-74 | lines are read top to bottom: the titles from the first `k` lines are a prefix of the result |
| WikiLinks.ExtractFirstSeen | api/main.py:72-74 | once a later title has been found by line `k`, every earlier title has been found by line `k` too |
| WikiLinks.ExtractJoinedLines | api/main.py:114-116 | a list body of newline-free lines, joined with "\n", yields the titles of those very lines |
| WikiLinks.EmptyLastLineAddsNothing | api/main.py:69-70 | an empty last line adds no title |
| WikiApi.WikiQueryShape | api/main.py:95-105 | the request is `match` on `body` with `query = q`, `operator "and"`, `size 10`, and nothing else |
| WikiApi.HitTitles | api/main.py:111-116 | a hit fails with `'_source'` exactly when it has no `_source`; otherwise its titles are duplicate-free, exactly those of matching lines of its body, and none when it has no `body` |
| WikiApi.ListBodyReadLineByLine | api/main.py:114-116 | a list-valued `body` of newline-free lines yields the titles of exactly those lines |
| WikiApi.AllCandidatesMember | api/main.py:111-121 | a title is among all hits' per-line titles exactly when it is among some hit's |
| WikiApi.MergeSpec | api/main.py:109-121 | the merge fails, with `'_source'`, exactly when some hit has no `_source`; otherwise it equals the first-occurrence de-duplication of all hits' per-line titles, in hit order |
| WikiApi.HitTitlesMember | api/main.py:116-121 | a title is among all hits' per-line titles exactly when some hit's extraction returns it |
| WikiApi.SearchWiki | api/main.py:86-90 | 503 first when the engine is unavailable, then 400 for a missing or empty `q`, whatever the engine would say; results only after both guards, echoing `q`; 500 only after both guards |
| WikiApi.SearchWikiResults | api/main.py:107-123 | on a reply whose hits all have `_source`, the results are the de-duplication of all per-line titles, with no duplicates, and every entry comes from some hit's extraction and vice versa |
| WikiApi.SearchWikiFailures | api/main.py:107-127 | after the guards: the engine's failure, a reply without `hits.hits`, or a hit without `_source` each give 500 with the message attached |
| WikiApi.SearchEndpoint | api/main.py:79 | an empty `q` is refused with 422 before the handler, even when the engine is unavailable; an absent `q` gets 503 or 400; results only for a non-empty `q` |
| HighlightSearch.HighlightQueryShape | crawler/search.py:44-64 | the request is `multi_match` over `["title","body"]` with `operator "and"`; highlighting of `body` has `fragment_size 150` and `number_of_fragments 1` with `<mark>`/`</mark>`; `_source` is `title`, `title_url_encoded` and `modified`; `size` is 20; no object in the request holds any other key |
| HighlightSearch.Snippet | crawler/search.py:76-79 | one fragment is the snippet itself; the snippet is empty exactly when there are no fragments or a single empty one |
| HighlightSearch.SnippetLayout | crawler/search.py:79 | fragment `i` sits at its offset, " ... " follows every fragment but the last, and the length leaves room for nothing else |
| HighlightSearch.SnippetExamples | crawler/search.py:79 | `[]` gives "", `["a"]` gives "a", `["a","b"]` gives "a ... b" |
| HighlightSearch.ShapeHit | crawler/search.py:75-87 | `id` is `_id`; `title`, `url_title` and `modified` are present exactly when `_source` has `title`, `title_url_encoded` or `modified`, and then equal them; no highlight body gives "" |
| HighlightSearch.ShapeHits | crawler/search.py:72-87 | one record per hit, same length and order |
| HighlightSearch.TotalOf | crawler/search.py:90 | `hits.total.value` when present, 0 when any step is missing, a failure exactly for an integer `hits.total` |
| HighlightSearch.Search | crawler/search.py:34-98 | 503 exactly when the client is missing; then 400 with `total 0` and no hits exactly for a missing or empty keyword. After both guards: 200 exactly when the engine replies and `total` can be read, 500 exactly on engine failure or an integer total. On 200, `total` comes from `TotalOf` and the hits are the one-to-one shaping of `hits.hits` (empty when absent) |
| Text.Join | api/main.py:114 | no contract of its own: `JoinSplit`, `SplitJoin`, `JoinLength` and `JoinPartAt` fix every character of the join |
| WikiLinks.Matches | api/main.py:68 | no contract of its own: `MatchesIgnoresCase` states it ignores case, and `Contains` and `ToLower` give its meaning |
| WikiLinks.ScanLines | api/main.py:66-74 | no contract of its own: the loop as written, which `ScanIsAppendNew` equates with first-occurrence de-duplication |
| WikiApi.WikiQuery | api/main.py:95-105 | no contract of its own: `WikiQueryShape` states every key and value |
| WikiApi.BodyText | api/main.py:114 | no contract of its own: a list body is joined with "\n", and `ListBodyReadLineByLine` states that its lines are read one by one |
| WikiApi.HitLines | api/main.py:112-114 | no contract of its own: the lines of `body`, or none without `body`; `HitTitles` states what they yield |
| WikiApi.Merge | api/main.py:109-121 | no contract of its own: the merge loop as written; see `MergeSpec` |
| HighlightSearch.HighlightQuery | crawler/search.py:44-64 | no contract of its own: `HighlightQueryShape` states every key and value |
| HighlightSearch.SourceField | crawler/search.py:83-85 | no contract of its own: `source.get(key)`; `ShapeHit` states the field mapping |
| HighlightSearch.RawHits | crawler/search.py:73-74 | no contract of its own: `hits.hits` when both keys exist, else no hits; `Search` states that the records follow it one to one |

## Left out

- Start-up and shutdown are not modelled: the FastAPI lifespan, the
  connection and `ping`, `close` (api/main.py:17-40), and the Flask/CORS
  setup with the module-level client (crawler/search.py:12-25). Only their
  outcome is kept, as the `available` flag.
- The engine is not modelled. Its search and highlighting, the
  `es_client.search`/`client.search` calls, and the urllib client in
  crawler/els/client.py are network I/O; the engine is a function
  parameter.
- crawler/config.py holds constants only and is not part of this model.
- JSON encoding and decoding (`json.dumps`, `json.loads`,
  `.read().decode`) and the framework's response serialisation are left
  out. Decoding failures fold into the engine's `Failed` reply.
- Malformed replies that the datatypes cannot express are not modelled.
  In the handlers each of them raises and becomes 500:
  - a `body` that is neither a string nor a list of strings;
  - a hit or `_source` that is not an object;
  - a JSON-null `_source` in the highlighted search;
  - a JSON-null or non-list `hits.hits` (api/main.py:111,
    crawler/search.py:74);
  - a JSON-null `highlight` or `highlight.body`, or a non-list
    `highlight.body` (crawler/search.py:76-79);
  - a JSON-null `hits.total` (crawler/search.py:90).
- Stored values in the highlighted search are modelled only as a string
  or a list of strings. The handler copies `title`, `title_url_encoded` and
  `modified` whatever JSON they hold (crawler/search.py:83-85), so a
  numeric or object-valued `modified` is outside the model.
- Printing the error in the highlighted search (crawler/search.py:97) is
  I/O.
- The root endpoint `read_root` (api/main.py:129-134) returns a constant
  welcome message.
- The server launch code (api/main.py:137-138, crawler/search.py:102-105)
  is left out.
- The 422 body the framework produces for an invalid `q` is its own
  validation report and is not modelled. `SearchEndpoint` returns only the
  parameter's name.
- Unicode case folding is not modelled. `ToLower` maps ASCII only, so a
  keyword or line with non-ASCII letters may match differently than in
  Python.
- Only `'\n'` breaks lines. Python's other line separators are not
  modelled, so a `'\r'` before a `'\n'` stays at the end of a line.
- Relevance ranking and occurrence counting are not modelled: neither
  handler performs them.
