# TeachySlides generation core in Dafny

TeachySlides turns a lesson topic, a grade and an optional teacher context
into a slide deck: a title slide, an agenda, `n_slides` content slides and a
conclusion. This project models the two generation paths of its service layer
and the schema that every slide, deck and request passes through:

- **Full-deck path** (`generate_full_deck`). A cache key is built from the
  trimmed request. A live cache entry is served without calling the model.
  Otherwise there is one structured model call, the reply is validated, and
  the slides are stored with an expiry of `ttl` after the call. The cache
  deletes an expired entry when a lookup finds it. Before an insert it evicts
  the oldest entries, first in first out, while it is at capacity.
- **Streaming path** (`generate_slides_stream`). First an outline call
  returns content titles, one per line. These are trimmed, blank lines are
  dropped, the list is cut to `n_slides`, and it is padded with `"Point k"`
  placeholders. Then `n_slides + 3` per-slide requests go out in deck order:
  title, agenda (the outline as `"- t"` lines), one per content title, and
  conclusion. Each reply is unwrapped from a markdown code fence, decoded and
  validated. The stream stops at the first failure.
- **Schema** (`schemas.py`). It holds the slide kinds, the slide and question
  rules, and the deck response. The request body has defaults and the bound
  1..20 on the slide count.

Modules:

| file | module | content |
|---|---|---|
| wrappers.dfy | `Wrappers` | `Option`, `Result` |
| text.dfy | `Text` | `str.strip`, `split`, `splitlines`, `join`, `str(int)` on ASCII |
| schema.dfy | `Schema` | slide kinds, slides, questions, decks, requests, validation errors |
| cache.dfy | `ResponseCache` | the TTL cache as an insertion-ordered sequence of pairs |
| fence.dfy | `Fence` | `_strip_markdown_json` |
| prompts.dfy | `Prompts` | the parameters each prompt template is filled with |
| outline.dfy | `Outline` | outline reply to content titles |
| orchestrator.dfy | `Orchestrator` | both generation paths |

The model itself is a parameter:
- `Complete` maps a prompt to a text reply or an error.
- `CompleteDeck` maps a prompt to a structured deck reply or an error.
- `Decode` is the JSON decoding of one slide reply.

Clock readings are integer parameters:
- `now` is the time of the cache lookup.
- `later` is the time of the insert, taken after the model call.

A stream is modelled as its observable run:
- the slides yielded;
- the prompts sent;
- the error that ended it, if any.

## Model

| member | source | states |
|---|---|---|
| Schema.ParseSlideType | app/models/schemas.py:9-15 | exactly the four literals title, agenda, content and conclusion are slide kinds, and the kind read back has that literal as its name |
| Schema.TypeNameRoundTrip | app/models/schemas.py:9-15 | every slide kind's literal reads back as that kind |
| Schema.QuestionErrors | app/models/schemas.py:27-29 | a question is rejected exactly when it has fewer than two options, and then the error is located at `options` |
| Schema.SlideErrors | app/models/schemas.py:43-50 | a slide has no errors exactly when it is valid. Each field rule reports its own path exactly when it is broken: an unknown `type`, an empty `title`, an empty `content`, or a question with too few options (reported at `question.options`) |
| Schema.ValidateSlide | app/models/schemas.py:32-50 | a slide is accepted exactly when it is valid, and then unchanged; a rejection lists a non-empty set of error paths, namely the slide's field errors |
| Schema.DeckErrorsFrom | app/models/schemas.py:67-70 | the errors of the slides from a position on are empty exactly when every one of those slides is valid |
| Schema.ValidateResponse | app/models/schemas.py:67-70 | a deck reply is accepted exactly when every slide is valid, whatever its length or order of kinds, and then unchanged; a rejection carries at least one error |
| Schema.RequestErrors | app/models/schemas.py:56-64 | a request body has no errors exactly when it is valid; the topic, grade and `n_slides` paths each appear exactly when that field breaks its rule |
| Schema.ValidateRequest | app/models/schemas.py:53-64 | a body is accepted exactly when topic and grade are non-empty and a given slide count lies in 1..20. A missing context becomes "" and a missing count becomes 5. An accepted count always lies in 1..20 |
| Text.TrimStart | app/services/slides_service.py:69 | the result is a suffix of the input; everything dropped is whitespace; the result does not start with whitespace |
| Text.TrimEnd | app/services/slides_service.py:70 | the result is a prefix of the input; everything dropped is whitespace; the result does not end with whitespace |
| Text.Strip | app/services/slides_service.py:38 | the result neither starts nor ends with whitespace and is no longer than the input |
| Text.StripKeepsOut | app/services/slides_service.py:127 | stripping never introduces a character the input lacked |
| Text.StripPadded | app/services/slides_service.py:38 | stripping a trimmed text with whitespace around it gives back exactly that text |
| Text.StripTrimmed | app/services/slides_service.py:71 | stripping is the identity on trimmed text |
| Text.Split | app/services/slides_service.py:127 | splitting gives at least one piece, no piece holds the separator, and joining the pieces with the separator gives back the input |
| Text.SplitJoin | app/services/slides_service.py:127 | splitting a separator-joined list of separator-free pieces gives back the list |
| Text.Join | app/services/slides_service.py:139 | joining no items gives the empty text and joining one item gives that item; the lemmas below and `Text.SplitJoin` state what joining more gives |
| Text.JoinStartsWithFirst | app/services/slides_service.py:139 | a joined non-empty list opens with its first item |
| Text.JoinEndsWithLast | app/services/slides_service.py:139 | a joined non-empty list ends with its last item |
| Text.Lines | app/services/slides_service.py:127 | no line holds a line break |
| Text.LinesOfJoin | app/services/slides_service.py:139 | reading back the lines of a newline-joined list gives the list, when no item holds a line break and the last item is not empty |
| Text.NatToDecimal | app/services/slides_service.py:129 | the text of a number is a non-empty digit string, without a leading zero unless the number is 0, that denotes the number |
| ResponseCache.EntryOf | app/services/slides_service.py:46-48 | a key has an entry exactly when it is among the cache's keys |
| ResponseCache.IndexOf | app/services/slides_service.py:46-50 | a key's position is found exactly when the key is present; the pair there has the key, and no earlier pair does |
| ResponseCache.DeleteAtIsWithout | app/services/slides_service.py:50 | with distinct keys, deleting the pair at the key's position leaves every other pair, in order |
| ResponseCache.Get | app/services/slides_service.py:41-52 | with caching off or the key absent, the lookup misses and leaves the cache alone. Past the expiry, it misses and drops exactly that key. Up to and including the expiry instant, it serves the stored slides and leaves the cache alone. Keys stay distinct |
| ResponseCache.Evict | app/services/slides_service.py:60-61 | eviction keeps a suffix of the cache, the youngest pairs. Nothing is kept for a capacity of 0 or less; `maxSize - 1` pairs are kept from a cache at or over capacity; otherwise everything is kept |
| ResponseCache.Put | app/services/slides_service.py:62 | after storing, the key maps to the new entry and every other key to what it mapped to. A present key keeps its place and a new key goes last. Keys stay distinct |
| ResponseCache.Set | app/services/slides_service.py:55-62 | with caching off nothing changes. Otherwise the key maps to the slides with expiry `later + ttl`; the rest is what eviction kept; a positive capacity bounds the size; keys stay distinct |
| ResponseCache.SetNewKeyAtCapacity | app/services/slides_service.py:60-62 | storing a new key into a full cache drops exactly the oldest pair and appends the new one |
| ResponseCache.SetOldestKeyAtCapacityMovesIt | app/services/slides_service.py:60-62 | re-storing the oldest key of a full cache evicts it first, so it is re-inserted at the end |
| ResponseCache.SetYoungerKeyAtCapacityEvictsOldest | app/services/slides_service.py:60-62 | re-storing a younger key of a full cache still evicts the oldest, unrelated pair, and the key keeps its place |
| Fence.StripMarkdownJson | app/services/slides_service.py:65-71 | the result is always trimmed and never longer than the reply; a reply that does not open with backticks is only trimmed |
| Fence.DropOpeningFence | app/services/slides_service.py:69 | the opening substitution removes at least the three backticks and keeps a suffix of the reply, which does not start with whitespace |
| Fence.DropClosingFence | app/services/slides_service.py:70 | the closing substitution keeps a prefix of the text. When the text ends with backticks, it removes them and only whitespace before them; otherwise it changes nothing |
| Fence.OpeningOfFenced | app/services/slides_service.py:69 | the opening substitution removes backticks, optional `json` tag and the line break after them, and nothing of a trimmed reply |
| Fence.ClosingOfUnfenced | app/services/slides_service.py:70 | the closing substitution removes the closing backticks and the line break before them, and nothing of a trimmed reply |
| Fence.StripFencedRoundTrip | app/services/slides_service.py:65-71 | a trimmed reply wrapped in a code fence, tagged `json` or untagged, comes back exactly |
| Fence.NestedFenceLosesOneLayer | app/services/slides_service.py:65-71 | a fence inside a fence loses one layer per application, so unwrapping is not idempotent |
| Prompts.ContextText | app/services/slides_service.py:119 | the context sent is never empty; a non-empty context is sent as is, even whitespace-only; a missing or empty one becomes "(none)" |
| Prompts.AgendaBlob | app/services/slides_service.py:139 | the agenda blob is empty exactly when there are no titles; otherwise it opens with the first title's `"- t"` line and ends with the last one's |
| Prompts.AgendaBlobLines | app/services/slides_service.py:139 | the agenda blob read line by line gives back one `"- t"` line per title, in order, when no title holds a line break |
| Outline.PointTitle | app/services/slides_service.py:129 | a placeholder title is non-empty, trimmed and on one line |
| Outline.PointTitleInjective | app/services/slides_service.py:129 | different positions get different placeholders |
| Outline.NonBlank | app/services/slides_service.py:127 | the filter keeps at most as many lines as it is given |
| Outline.NonBlankClean | app/services/slides_service.py:127 | every line kept from break-free lines is non-empty, trimmed and holds no line break |
| Outline.NonBlankAppend | app/services/slides_service.py:127 | one further line adds its stripped text at the end when that is not blank, and nothing otherwise |
| Outline.NonBlankOfClean | app/services/slides_service.py:127 | lines that are already clean titles pass the filter unchanged |
| Outline.Take | app/services/slides_service.py:127 | `[:n]` keeps the first `n` items, or all of them, for `n >= 0`, and drops `-n` items from the end for negative `n` |
| Outline.Pad | app/services/slides_service.py:128-129 | padding grows the list to `n` items when it is shorter, keeps the existing titles in place, and puts `"Point k"` at every 1-based position `k` it adds |
| Outline.OutlineLines | app/services/slides_service.py:127 | every non-blank trimmed line of an outline reply is non-empty, trimmed and holds no line break |
| Outline.Titles | app/services/slides_service.py:127-129 | for `n >= 0` there are exactly `n` titles; the first ones are the lines in order; every position the lines do not reach holds its placeholder |
| Outline.ParseOutline | app/services/slides_service.py:127-129 | from an outline reply, exactly `n` titles for `n >= 0`: the non-blank trimmed lines in order, then `"Point k"` for every position `k` past them |
| Outline.ParseOutlineClean | app/services/slides_service.py:127-129 | no parsed title is empty, surrounded by whitespace, or holds a line break |
| Outline.ParseOutlineOfJoin | app/services/slides_service.py:127-129 | a reply listing `n` clean titles one per line parses back to exactly those titles when `n` are asked for |
| Outline.OutlineLinesOfJoin | app/services/slides_service.py:127 | the non-blank trimmed lines of clean titles joined by line breaks are those titles |
| Orchestrator.MakeKey | app/services/slides_service.py:37-38 | the key's topic, grade and context are trimmed, and the slide count is kept |
| Orchestrator.SameKeyIff | app/services/slides_service.py:37-38 | two requests share a cache key exactly when their trimmed topics, grades and contexts agree (a missing context counts as "") and their counts are equal |
| Orchestrator.KeyIgnoresPadding | app/services/slides_service.py:37-38 | whitespace around the topic, grade or context does not change the key |
| Orchestrator.GenerateOnMiss | app/services/slides_service.py:81-100 | exactly one structured call with the full-deck prompt. It succeeds exactly when the reply is a deck whose every slide is valid, and returns that deck unchanged. With caching on, the deck is stored under the key with expiry `later + ttl`; otherwise, and on failure, the cache is untouched |
| Orchestrator.GenerateFullDeck | app/services/slides_service.py:74-100 | the cache's keys stay distinct and at most one structured call is made; `FullDeckHit` and `FullDeckMiss` state the hit and miss behaviour |
| Orchestrator.FullDeckHit | app/services/slides_service.py:76-79 | a live cache hit returns the cached slides with no model call and the cache unchanged |
| Orchestrator.FullDeckMiss | app/services/slides_service.py:74-100 | without a live hit: exactly one call with the full-deck prompt (context "(none)" when missing or empty). The result is the reply exactly when every slide is valid. A success is stored with expiry `later + ttl` when caching is on. Caching off leaves the cache untouched. A failure leaves the cache as the lookup left it |
| Orchestrator.RepeatWithinTtlHitsCache | app/services/slides_service.py:74-100 | once a deck is generated with caching on, the same request, or any request with the same trimmed fields, returns the same slides until `ttl` after the generation, with no model call and no cache change |
| Orchestrator.StreamPlan | app/services/slides_service.py:131-163 | a stream sends `n + 3` per-slide requests, in this order: the title request; the agenda request carrying the outline blob; one content request per title with its 1-based index and total `n_slides`; the conclusion request |
| Orchestrator.AgendaListsOutline | app/services/slides_service.py:127-144 | the agenda request lists the parsed outline: its blob read line by line gives `"- t"` for every title, in order |
| Orchestrator.ParseSlideReply | app/services/slides_service.py:103-110 | a slide is returned exactly when the unfenced reply decodes to a valid slide, and it is the decoded slide. A transport or decoding error is passed on unchanged. An invalid slide fails with its field errors |
| Orchestrator.FencedReplyReadsAlike | app/services/slides_service.py:108 | a reply wrapped in a `json` code fence reads exactly like the bare reply |
| Orchestrator.SlideStep | app/services/slides_service.py:103-110 | for every prompt, a per-slide request yields only valid slides. It passes a transport error or a decoding error on unchanged, and yields the decoded slide when that is valid |
| Orchestrator.RunSteps | app/services/slides_service.py:131-163 | running a plan is faithful: slide `j` is what request `j` produced; requests go out in plan order and none after the first failure; a run without failure yields one slide per request |
| Orchestrator.FaithfulRunUnique | app/services/slides_service.py:131-163 | the ordering guarantee determines the run entirely |
| Orchestrator.GenerateSlidesStream | app/services/slides_service.py:113-163 | the outline request goes first. If it fails, nothing is yielded and the stream ends with that error. Otherwise the remaining requests are a faithful run of the plan built from the parsed outline |
| Orchestrator.StreamPlanKinds | app/services/slides_service.py:131-163 | the plan asks for a title, an agenda, one content slide per title and a conclusion, in that order |
| Orchestrator.PlanRunKinds | app/services/slides_service.py:131-163 | a faithful run without failure yields `|titles| + 3` slides. If every reply has the kind its request asked for, the kinds are title, agenda, content for each title, then conclusion |
| Orchestrator.CompleteStreamShape | app/services/slides_service.py:113-163 | a stream without failure yields `n_slides + 3` slides for `n_slides >= 0`, in the same kind order under the same assumption about the replies |

## Left out

- Concurrency is not modelled: the generation semaphore, the cache lock and task cancellation. Each operation is one atomic step on the cache value it receives.
- The monotonic float clock is not modelled. Times are integers passed in, `now` for the lookup and `later` for the insert.
- The language model, `with_structured_output`, the `hasattr(response, "content")` fallback and `llm_factory.py` are not modelled. They are the function parameters `Complete` and `CompleteDeck`.
- `json.loads` is the parameter `Decode`. A reply that is not JSON is whatever error `Decode` returns.
- The full-deck reply is handed over as decoded slides. Its validation (`ValidateResponse`) stands for the structured-output parser.
- The text of the prompt templates is constant. A prompt is modelled as the record of parameters it is filled with.
- The HTTP and server-sent-events layer and the settings (`app/main.py`, `app/config.py`) are not part of this model. Caching on or off, `ttl` and the capacity are a `Config` value.
- Whitespace is the ASCII set for which `str.isspace` holds. Unicode spaces are left out, and so are line breaks other than '\n' in `splitlines`.
- Pydantic's type coercion is left out, e.g. an integer given as a string. Schema errors are listed in field declaration order; their messages are left out.
- Schema.DeckErrorsFrom: says when the list of errors is empty, not which slide each path points to.
- Orchestrator.GenerateFullDeck: its own contract states only that keys stay distinct and at most one call is made. The hit and miss behaviour is stated by `FullDeckHit` and `FullDeckMiss`.

The model follows the code where the written description of the system says more:

- Title and content must be at least one character, with no trimming. Whitespace-only text is accepted.
- A question's statement may be empty, and its answer need not be one of its options.
- The full-deck path does not check that the reply has `n_slides + 3` slides or the expected order of kinds.
- No path checks a per-slide reply's `type` against the kind requested.
