/**
 * The generation orchestrator: the full-deck path (cache lookup, one
 * structured model call on a miss, cache insert) and the streaming path
 * (outline call, then one call per slide in deck order, stopping at the
 * first failure).
 *
 * The model is a pair of function parameters: `Complete` for free-form text
 * replies and `CompleteDeck` for the structured full-deck reply. JSON
 * decoding of a per-slide reply is a third parameter, `Decode`. Clock
 * readings are integer parameters.
 */
module Orchestrator {
  import opened Wrappers
  import opened Text
  import opened Schema
  import opened Prompts
  import Outline
  import Fence
  import RC = ResponseCache

  /** Why a generation failed. */
  datatype GenError =
    | ProviderError(message: string)   // transport, authentication, rate limit, timeout
    | JsonError(message: string)       // a reply that does not decode as JSON
    | Invalid(error: SchemaError)       // decoded data the schema rejects

  type Complete = Prompt -> Result<string, GenError>
  type CompleteDeck = Prompt -> Result<seq<Slide>, GenError>
  type Decode = string -> Result<Slide, GenError>

  datatype CacheKey = CacheKey(topic: string, grade: string, context: string, nSlides: int)

  type DeckCache = RC.Cache<CacheKey, seq<Slide>>

  /** `_cache_key`: topic, grade and context trimmed, a missing context read as
      "", the slide count kept. */
  function MakeKey(topic: string, grade: string, context: Option<string>, nSlides: int): (k: CacheKey)
    ensures Trimmed(k.topic) && Trimmed(k.grade) && Trimmed(k.context)
    ensures k.nSlides == nSlides
  {
    CacheKey(Strip(topic), Strip(grade), Strip(context.GetOr("")), nSlides)
  }

  /** Two requests share a cache entry exactly when their trimmed topics,
      grades and contexts (a missing context counting as "") agree and their
      slide counts are equal. */
  lemma SameKeyIff(t1: string, g1: string, c1: Option<string>, n1: int,
                   t2: string, g2: string, c2: Option<string>, n2: int)
    ensures MakeKey(t1, g1, c1, n1) == MakeKey(t2, g2, c2, n2)
            <==> && Strip(t1) == Strip(t2)
                 && Strip(g1) == Strip(g2)
                 && Strip(c1.GetOr("")) == Strip(c2.GetOr(""))
                 && n1 == n2
  {
  }

  /** Surrounding whitespace on the topic, grade or context does not change
      the key. */
  lemma KeyIgnoresPadding(topic: string, grade: string, context: string, nSlides: int,
                          w1: string, w2: string, w3: string, w4: string, w5: string, w6: string)
    requires Trimmed(topic) && Trimmed(grade) && Trimmed(context)
    requires AllSpace(w1) && AllSpace(w2) && AllSpace(w3) && AllSpace(w4) && AllSpace(w5) && AllSpace(w6)
    ensures MakeKey(w1 + topic + w2, w3 + grade + w4, Some(w5 + context + w6), nSlides)
            == MakeKey(topic, grade, Some(context), nSlides)
  {
    PaddingStripsAlike(w1, topic, w2);
    PaddingStripsAlike(w3, grade, w4);
    PaddingStripsAlike(w5, context, w6);
  }

  /** A missing context and an empty one give the same key. */
  lemma MissingContextIsEmpty(topic: string, grade: string, nSlides: int)
    ensures MakeKey(topic, grade, None, nSlides) == MakeKey(topic, grade, Some(""), nSlides)
  {
  }

  /** Whitespace around trimmed text is all that stripping removes. */
  lemma PaddingStripsAlike(w1: string, t: string, w2: string)
    requires Trimmed(t) && AllSpace(w1) && AllSpace(w2)
    ensures Strip(w1 + t + w2) == Strip(t)
  {
    StripPadded(w1, t, w2);
    StripTrimmed(t);
  }

  /** The outcome of a full-deck request: the slides or the failure, the cache
      afterwards, and the prompts sent to the model. */
  datatype DeckOutcome = DeckOutcome(result: Result<seq<Slide>, GenError>, cache: DeckCache, calls: seq<Prompt>)

  /** Whether a lookup at `now` serves the entry stored under `key`. */
  predicate LiveHit(cfg: RC.Config, cache: DeckCache, key: CacheKey, now: int) {
    cfg.enabled && RC.EntryOf(cache, key).Some? && now <= RC.EntryOf(cache, key).value.expiry
  }

  /** The miss branch of the full-deck path: one structured call, response
      validation, and on success the insert into the cache. */
  function GenerateOnMiss(cfg: RC.Config, cache: DeckCache, key: CacheKey, prompt: Prompt, later: int,
                          llm: CompleteDeck): (out: DeckOutcome)
    requires RC.Distinct(cache)
    ensures RC.Distinct(out.cache)
    ensures out.calls == [prompt]
    ensures out.result.Success? <==> llm(prompt).Success? && ValidDeck(llm(prompt).value)
    ensures out.result.Success? ==> out.result.value == llm(prompt).value
    ensures out.result.Success? && cfg.enabled
            ==> RC.EntryOf(out.cache, key) == Some(RC.Entry(out.result.value, later + cfg.ttl))
    ensures out.result.Success? && !cfg.enabled ==> out.cache == cache
    ensures out.result.Failure? ==> out.cache == cache
  {
    match llm(prompt)
    case Failure(e) => DeckOutcome(Failure(e), cache, [prompt])
    case Success(raw) =>
      match ValidateResponse(raw)
      case Failure(se) => DeckOutcome(Failure(Invalid(se)), cache, [prompt])
      case Success(slides) =>
        DeckOutcome(Success(slides), RC.Set(cfg, cache, key, slides, later), [prompt])
  }

  /** `generate_full_deck`: serve a live cache hit, otherwise generate and
      store. Its behaviour on a hit and on a miss is stated by `FullDeckHit`
      and `FullDeckMiss`. */
  function GenerateFullDeck(cfg: RC.Config, cache: DeckCache, now: int, later: int,
                            topic: string, grade: string, context: Option<string>, nSlides: int,
                            llm: CompleteDeck): (out: DeckOutcome)
    requires RC.Distinct(cache)
    ensures RC.Distinct(out.cache)
    ensures |out.calls| <= 1
  {
    var key := MakeKey(topic, grade, context, nSlides);
    var lookup := RC.Get(cfg, cache, key, now);
    if lookup.found.Some? then
      DeckOutcome(Success(lookup.found.value), lookup.cache, [])
    else
      var prompt := FullDeckPrompt(topic, grade, ContextText(context), nSlides);
      GenerateOnMiss(cfg, lookup.cache, key, prompt, later, llm)
  }

  /** On a live cache hit the cached slides are returned as they are, with no
      call to the model and the cache unchanged. */
  lemma FullDeckHit(cfg: RC.Config, cache: DeckCache, now: int, later: int,
                    topic: string, grade: string, context: Option<string>, nSlides: int,
                    llm: CompleteDeck)
    requires RC.Distinct(cache)
    requires LiveHit(cfg, cache, MakeKey(topic, grade, context, nSlides), now)
    ensures GenerateFullDeck(cfg, cache, now, later, topic, grade, context, nSlides, llm)
            == DeckOutcome(Success(RC.EntryOf(cache, MakeKey(topic, grade, context, nSlides)).value.value), cache, [])
  {
    var key := MakeKey(topic, grade, context, nSlides);
    var lookup := RC.Get(cfg, cache, key, now);
    assert lookup == RC.Lookup(Some(RC.EntryOf(cache, key).value.value), cache);
  }

  /** Otherwise the model is called exactly once, with the full-deck prompt.
      A reply whose slides all pass the schema is returned, whatever its
      length or order of kinds, and with caching on it is stored under the
      request's key with expiry `later + ttl` (`later` being the clock
      reading after the call). A failure leaves the cache as the lookup left
      it, which is without the expired entry if there was one. */
  lemma FullDeckMiss(cfg: RC.Config, cache: DeckCache, now: int, later: int,
                     topic: string, grade: string, context: Option<string>, nSlides: int,
                     llm: CompleteDeck)
    requires RC.Distinct(cache)
    requires !LiveHit(cfg, cache, MakeKey(topic, grade, context, nSlides), now)
    ensures var key := MakeKey(topic, grade, context, nSlides);
            var prompt := FullDeckPrompt(topic, grade, ContextText(context), nSlides);
            var out := GenerateFullDeck(cfg, cache, now, later, topic, grade, context, nSlides, llm);
            && out.calls == [prompt]
            && (out.result.Success? <==> llm(prompt).Success? && ValidDeck(llm(prompt).value))
            && (out.result.Success? ==> out.result.value == llm(prompt).value)
            && (out.result.Success? && cfg.enabled
                ==> RC.EntryOf(out.cache, key) == Some(RC.Entry(out.result.value, later + cfg.ttl)))
            && (!cfg.enabled ==> out.cache == cache)
            && (out.result.Failure? ==> out.cache == RC.Get(cfg, cache, key, now).cache)
  {
    var key := MakeKey(topic, grade, context, nSlides);
    var prompt := FullDeckPrompt(topic, grade, ContextText(context), nSlides);
    var afterLookup := RC.Get(cfg, cache, key, now).cache;
    MissTakesMissBranch(cfg, cache, now, later, topic, grade, context, nSlides, llm);
    assert !cfg.enabled ==> afterLookup == cache;
    MissOutcome(cfg, cache, afterLookup, key, prompt, later, llm);
  }

  /** The miss branch's promises restated against the cache before the
      lookup, which the lookup leaves alone when caching is off. */
  lemma MissOutcome(cfg: RC.Config, before: DeckCache, cache: DeckCache, key: CacheKey, prompt: Prompt, later: int,
                    llm: CompleteDeck)
    requires RC.Distinct(cache)
    requires !cfg.enabled ==> cache == before
    ensures var out := GenerateOnMiss(cfg, cache, key, prompt, later, llm);
            && out.calls == [prompt]
            && (out.result.Success? <==> llm(prompt).Success? && ValidDeck(llm(prompt).value))
            && (out.result.Success? ==> out.result.value == llm(prompt).value)
            && (out.result.Success? && cfg.enabled
                ==> RC.EntryOf(out.cache, key) == Some(RC.Entry(out.result.value, later + cfg.ttl)))
            && (!cfg.enabled ==> out.cache == before)
            && (out.result.Failure? ==> out.cache == cache)
  {
  }

  /** Without a live hit the lookup serves nothing, so the request takes the
      miss branch on the store the lookup leaves. */
  lemma MissTakesMissBranch(cfg: RC.Config, cache: DeckCache, now: int, later: int,
                            topic: string, grade: string, context: Option<string>, nSlides: int,
                            llm: CompleteDeck)
    requires RC.Distinct(cache)
    requires !LiveHit(cfg, cache, MakeKey(topic, grade, context, nSlides), now)
    ensures var key := MakeKey(topic, grade, context, nSlides);
            GenerateFullDeck(cfg, cache, now, later, topic, grade, context, nSlides, llm)
            == GenerateOnMiss(cfg, RC.Get(cfg, cache, key, now).cache, key,
                              FullDeckPrompt(topic, grade, ContextText(context), nSlides), later, llm)
  {
    var key := MakeKey(topic, grade, context, nSlides);
    assert RC.Get(cfg, cache, key, now).found.None?;
  }

  /** Once a deck is generated with caching on, repeating the request, or any
      request with the same trimmed parameters, no later than `ttl` after
      the generation returns the same slides without calling the model. */
  lemma RepeatWithinTtlHitsCache(cfg: RC.Config, cache: DeckCache, now: int, later: int,
                                 topic: string, grade: string, context: Option<string>, nSlides: int,
                                 llm: CompleteDeck, now2: int, later2: int,
                                 topic2: string, grade2: string, context2: Option<string>, llm2: CompleteDeck)
    requires RC.Distinct(cache) && cfg.enabled
    requires !LiveHit(cfg, cache, MakeKey(topic, grade, context, nSlides), now)
    requires GenerateFullDeck(cfg, cache, now, later, topic, grade, context, nSlides, llm).result.Success?
    requires MakeKey(topic2, grade2, context2, nSlides) == MakeKey(topic, grade, context, nSlides)
    requires now2 <= later + cfg.ttl
    ensures var first := GenerateFullDeck(cfg, cache, now, later, topic, grade, context, nSlides, llm);
            var second := GenerateFullDeck(cfg, first.cache, now2, later2, topic2, grade2, context2, nSlides, llm2);
            second.result == first.result && second.calls == [] && second.cache == first.cache
  {
    var key := MakeKey(topic, grade, context, nSlides);
    var first := GenerateFullDeck(cfg, cache, now, later, topic, grade, context, nSlides, llm);
    FullDeckMiss(cfg, cache, now, later, topic, grade, context, nSlides, llm);
    assert LiveHit(cfg, first.cache, key, now2);
    FullDeckHit(cfg, first.cache, now2, later2, topic2, grade2, context2, nSlides, llm2);
  }

  // ---------------------------------------------------------------------
  // Streaming path

  /** The `n + 3` per-slide requests of a stream, in deck order: title,
      agenda (embedding the outline), one content request per outline title
      (1-based position and total), conclusion. A missing or empty context
      is sent as "(none)". */
  function StreamPlan(topic: string, grade: string, context: Option<string>,
                      titles: seq<string>, nSlides: int): (plan: seq<Prompt>)
    ensures |plan| == |titles| + 3
    ensures var ctx := ContextText(context);
            && plan[0] == TitlePrompt(topic, grade, ctx)
            && plan[1] == AgendaPrompt(topic, AgendaBlob(titles))
            && (forall i | 0 <= i < |titles| ::
                  plan[2 + i] == ContentPrompt(topic, grade, ctx, titles[i], i + 1, nSlides))
            && plan[|plan| - 1] == ConclusionPrompt(topic, grade, ctx)
  {
    var ctx := ContextText(context);
    [TitlePrompt(topic, grade, ctx), AgendaPrompt(topic, AgendaBlob(titles))]
    + seq(|titles|, i requires 0 <= i < |titles| => ContentPrompt(topic, grade, ctx, titles[i], i + 1, nSlides))
    + [ConclusionPrompt(topic, grade, ctx)]
  }

  /** The agenda request of a stream lists the parsed outline one title per
      line: reading its blob back line by line gives `"- t"` for every title,
      in order, because no parsed title holds a line break. */
  lemma AgendaListsOutline(text: string, nSlides: int)
    ensures var titles := Outline.ParseOutline(text, nSlides);
            Lines(AgendaBlob(titles)) == Bullets(titles)
  {
    var titles := Outline.ParseOutline(text, nSlides);
    Outline.ParseOutlineClean(text, nSlides);
    assert forall i | 0 <= i < |titles| :: '\n' !in titles[i];
    AgendaBlobLines(titles);
  }

  /** `_parse_slide_from_llm` after the call: strip a code fence, decode,
      validate. The reply's slide kind is not compared with the kind asked
      for. */
  function ParseSlideReply(reply: Result<string, GenError>, decode: Decode): (r: Result<Slide, GenError>)
    ensures r.Success? ==> reply.Success?
                           && decode(Fence.StripMarkdownJson(reply.value)) == Success(r.value)
                           && ValidSlide(r.value)
    ensures reply.Failure? ==> r == Failure(reply.error)
    ensures (&& reply.Success?
             && decode(Fence.StripMarkdownJson(reply.value)).Success?
             && ValidSlide(decode(Fence.StripMarkdownJson(reply.value)).value))
            ==> r.Success?
    ensures reply.Success? && decode(Fence.StripMarkdownJson(reply.value)).Failure?
            ==> r == Failure(decode(Fence.StripMarkdownJson(reply.value)).error)
    ensures (&& reply.Success?
             && decode(Fence.StripMarkdownJson(reply.value)).Success?
             && !ValidSlide(decode(Fence.StripMarkdownJson(reply.value)).value))
            ==> r == Failure(Invalid(SchemaError(SlideErrors(decode(Fence.StripMarkdownJson(reply.value)).value))))
  {
    match reply
    case Failure(e) => Failure(e)
    case Success(text) =>
      match decode(Fence.StripMarkdownJson(text))
      case Failure(e) => Failure(e)
      case Success(data) =>
        match ValidateSlide(data)
        case Failure(se) => Failure(Invalid(se))
        case Success(slide) => Success(slide)
  }

  /** A reply wrapped in a `json` code fence is read exactly like the bare
      reply. */
  lemma FencedReplyReadsAlike(s: string, decode: Decode)
    requires Trimmed(s) && !StartsWith(s, Fence.Backticks)
    ensures ParseSlideReply(Success(Fence.Fenced(Fence.JsonTag, s)), decode) == ParseSlideReply(Success(s), decode)
  {
    Fence.StripFencedRoundTrip(Fence.JsonTag, s);
    StripTrimmed(s);
  }

  /** One per-slide request of the stream, from prompt to validated slide. */
  type Step = Prompt -> Result<Slide, GenError>

  /** The per-slide request as the stream makes it: call the model, then
      read its reply as one slide. */
  function SlideStep(complete: Complete, decode: Decode): (step: Step)
    ensures forall p :: step(p).Success? ==> ValidSlide(step(p).value)
    ensures forall p :: complete(p).Failure? ==> step(p) == Failure(complete(p).error)
    ensures forall p :: complete(p).Success? && decode(Fence.StripMarkdownJson(complete(p).value)).Failure?
                        ==> step(p) == Failure(decode(Fence.StripMarkdownJson(complete(p).value)).error)
    ensures forall p :: && complete(p).Success?
                        && decode(Fence.StripMarkdownJson(complete(p).value)).Success?
                        && ValidSlide(decode(Fence.StripMarkdownJson(complete(p).value)).value)
                        ==> step(p) == decode(Fence.StripMarkdownJson(complete(p).value))
  {
    var step: Step := p => ParseSlideReply(complete(p), decode);
    assert forall p :: step(p) == ParseSlideReply(complete(p), decode);
    step
  }

  /** A stream as observed: the slides yielded, the prompts sent, and the
      failure that ended it early, if any. */
  datatype StreamRun = StreamRun(produced: seq<Slide>, issued: seq<Prompt>, failure: Option<GenError>)

  /** The ordering guarantee: slide `j` is what request `j` produced; the
      requests were sent in plan order and none after the first failure; a
      stream without failure yields one slide per request. */
  predicate FaithfulRun(plan: seq<Prompt>, run: StreamRun, step: Step) {
    && |run.produced| <= |plan|
    && (forall j | 0 <= j < |run.produced| :: step(plan[j]) == Success(run.produced[j]))
    && (run.failure.None? ==> |run.produced| == |plan| && run.issued == plan)
    && (run.failure.Some? ==>
          && |run.produced| < |plan|
          && step(plan[|run.produced|]) == Failure(run.failure.value)
          && run.issued == plan[..|run.produced| + 1])
  }

  /** A successful first request followed by a faithful run of the remaining
      requests is a faithful run of the whole plan. */
  lemma FaithfulRunCons(plan: seq<Prompt>, slide: Slide, rest: StreamRun, step: Step)
    requires plan != []
    requires step(plan[0]) == Success(slide)
    requires FaithfulRun(plan[1..], rest, step)
    ensures FaithfulRun(plan, StreamRun([slide] + rest.produced, [plan[0]] + rest.issued, rest.failure),
                        step)
  {
    var produced := [slide] + rest.produced;
    forall j | 1 <= j < |produced|
      ensures step(plan[j]) == Success(produced[j])
    {
      assert produced[j] == rest.produced[j - 1] && plan[j] == plan[1..][j - 1];
    }
    if rest.failure.Some? {
      assert plan[1..][|rest.produced|] == plan[|produced|];
      assert plan[..|produced| + 1] == [plan[0]] + plan[1..][..|rest.produced| + 1];
    } else {
      assert plan == [plan[0]] + plan[1..];
    }
  }

  /** Executes the plan request by request, stopping at the first failure. */
  function RunSteps(plan: seq<Prompt>, step: Step): (run: StreamRun)
    ensures FaithfulRun(plan, run, step)
  {
    if plan == [] then StreamRun([], [], None)
    else
      match step(plan[0])
      case Failure(e) => StreamRun([], [plan[0]], Some(e))
      case Success(slide) =>
        var rest := RunSteps(plan[1..], step);
        FaithfulRunCons(plan, slide, rest, step);
        StreamRun([slide] + rest.produced, [plan[0]] + rest.issued, rest.failure)
  }

  /** The faithful run of a plan is unique: the ordering guarantee pins down
      every slide yielded, every prompt sent and the failure. */
  lemma FaithfulRunUnique(plan: seq<Prompt>, a: StreamRun, b: StreamRun, step: Step)
    requires FaithfulRun(plan, a, step) && FaithfulRun(plan, b, step)
    ensures a == b
  {
  }

  /** `generate_slides_stream`: ask for the outline; if that fails, nothing is
      yielded. Otherwise parse it into exactly `nSlides` titles and run the
      `nSlides + 3` slide requests in deck order. */
  function GenerateSlidesStream(topic: string, grade: string, context: Option<string>, nSlides: int,
                                complete: Complete, decode: Decode): (run: StreamRun)
    ensures var outlinePrompt := OutlinePrompt(topic, grade, ContextText(context), nSlides);
            && |run.issued| >= 1 && run.issued[0] == outlinePrompt
            && (complete(outlinePrompt).Failure? ==>
                  run == StreamRun([], [outlinePrompt], Some(complete(outlinePrompt).error)))
            && (complete(outlinePrompt).Success? ==>
                  var titles := Outline.ParseOutline(complete(outlinePrompt).value, nSlides);
                  var plan := StreamPlan(topic, grade, context, titles, nSlides);
                  FaithfulRun(plan, StreamRun(run.produced, run.issued[1..], run.failure), SlideStep(complete, decode)))
  {
    var ctx := ContextText(context);
    var outlinePrompt := OutlinePrompt(topic, grade, ctx, nSlides);
    match complete(outlinePrompt)
    case Failure(e) => StreamRun([], [outlinePrompt], Some(e))
    case Success(text) =>
      var titles := Outline.ParseOutline(text, nSlides);
      var rest := RunSteps(StreamPlan(topic, grade, context, titles, nSlides), SlideStep(complete, decode));
      var run := StreamRun(rest.produced, [outlinePrompt] + rest.issued, rest.failure);
      assert run.issued[1..] == rest.issued;
      run
  }

  /** The kinds a stream asks for, in order: title, agenda, one content per
      title, conclusion. */
  lemma StreamPlanKinds(topic: string, grade: string, context: Option<string>, titles: seq<string>, nSlides: int)
    ensures var plan := StreamPlan(topic, grade, context, titles, nSlides);
            && plan[0].Requested() == Some(Title)
            && plan[1].Requested() == Some(Agenda)
            && (forall i | 2 <= i < |plan| - 1 :: plan[i].Requested() == Some(Content))
            && plan[|plan| - 1].Requested() == Some(Conclusion)
  {
    var plan := StreamPlan(topic, grade, context, titles, nSlides);
    forall i | 2 <= i < |plan| - 1
      ensures plan[i].Requested() == Some(Content)
    {
      assert plan[2 + (i - 2)].ContentPrompt?;
    }
  }

  /** Every reply a per-slide request gets back has the kind it asked for: a
      property of the model, which the orchestrator neither checks nor
      relies on. */
  ghost predicate KindsAsRequested(step: Step) {
    forall p: Prompt | p.Requested().Some? && step(p).Success? ::
      step(p).value.kind == TypeName(p.Requested().value)
  }

  /** A faithful run of a stream plan that meets no failure yields one slide
      per request, and with a model that answers with the kinds requested
      the slides come in deck order of kinds. */
  lemma PlanRunKinds(topic: string, grade: string, context: Option<string>, titles: seq<string>,
                     nSlides: int, run: StreamRun, step: Step)
    requires FaithfulRun(StreamPlan(topic, grade, context, titles, nSlides), run, step)
    requires run.failure.None?
    ensures |run.produced| == |titles| + 3
    ensures KindsAsRequested(step)
            ==> && run.produced[0].kind == "title"
                && run.produced[1].kind == "agenda"
                && (forall i | 2 <= i < |titles| + 2 :: run.produced[i].kind == "content")
                && run.produced[|titles| + 2].kind == "conclusion"
  {
    var plan := StreamPlan(topic, grade, context, titles, nSlides);
    if KindsAsRequested(step) {
      StreamPlanKinds(topic, grade, context, titles, nSlides);
      forall i | 0 <= i < |plan|
        ensures run.produced[i].kind == TypeName(plan[i].Requested().value)
      {
        assert step(plan[i]) == Success(run.produced[i]);
      }
    }
  }

  /** A stream that meets no failure yields `nSlides + 3` slides for a count
      `nSlides >= 0`; when every reply also has the kind its request asked
      for, the kinds are title, agenda, `nSlides` contents and conclusion.
      The kinds come from the replies: the orchestrator does not check them. */
  lemma CompleteStreamShape(topic: string, grade: string, context: Option<string>, nSlides: int,
                            complete: Complete, decode: Decode)
    requires nSlides >= 0
    requires GenerateSlidesStream(topic, grade, context, nSlides, complete, decode).failure.None?
    ensures var run := GenerateSlidesStream(topic, grade, context, nSlides, complete, decode);
            |run.produced| == nSlides + 3
    ensures var run := GenerateSlidesStream(topic, grade, context, nSlides, complete, decode);
            KindsAsRequested(SlideStep(complete, decode))
            ==> && run.produced[0].kind == "title"
                && run.produced[1].kind == "agenda"
                && (forall i | 2 <= i < nSlides + 2 :: run.produced[i].kind == "content")
                && run.produced[nSlides + 2].kind == "conclusion"
  {
    var run := GenerateSlidesStream(topic, grade, context, nSlides, complete, decode);
    var outlinePrompt := OutlinePrompt(topic, grade, ContextText(context), nSlides);
    var titles := Outline.ParseOutline(complete(outlinePrompt).value, nSlides);
    PlanRunKinds(topic, grade, context, titles, nSlides,
                 StreamRun(run.produced, run.issued[1..], run.failure), SlideStep(complete, decode));
  }
}
