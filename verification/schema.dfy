/**
 * The slide schema: the data a model reply or an HTTP body decodes to, and
 * the validation rules the schema layer applies before such data becomes a
 * slide, a deck or a request.
 *
 * Every entity is one datatype holding its decoded fields; a predicate says
 * when the schema accepts it, and a `Validate...` function returns the
 * accepted value or a `SchemaError` listing every offending field, in
 * declaration order.
 */
module Schema {
  import opened Wrappers

  /** The closed set of slide kinds. */
  datatype SlideType = Title | Agenda | Content | Conclusion

  /** The literal that stands for each kind in a slide's `type` field. */
  function TypeName(t: SlideType): string {
    match t
    case Title => "title"
    case Agenda => "agenda"
    case Content => "content"
    case Conclusion => "conclusion"
  }

  /** Reads a `type` literal; exactly the four names are accepted, spelled
      exactly (no trimming, no case folding). */
  function ParseSlideType(s: string): (r: Option<SlideType>)
    ensures r.Some? <==> s in {"title", "agenda", "content", "conclusion"}
    ensures r.Some? ==> TypeName(r.value) == s
  {
    if s == "title" then Some(Title)
    else if s == "agenda" then Some(Agenda)
    else if s == "content" then Some(Content)
    else if s == "conclusion" then Some(Conclusion)
    else None
  }

  /** Every kind's name reads back as that kind. */
  lemma TypeNameRoundTrip(t: SlideType)
    ensures ParseSlideType(TypeName(t)) == Some(t)
  {
  }

  /** One step of a validation error's location: a field name or a list
      position. */
  datatype Loc = Field(name: string) | Item(index: nat)

  type Path = seq<Loc>

  /** A rejected value: the location of every field that broke a rule. */
  datatype SchemaError = SchemaError(paths: seq<Path>)

  function Under(prefix: Path, paths: seq<Path>): (r: seq<Path>)
    ensures |r| == |paths|
    ensures forall i | 0 <= i < |r| :: r[i] == prefix + paths[i]
  {
    seq(|paths|, i requires 0 <= i < |paths| => prefix + paths[i])
  }

  /** An optional exercise: a statement, the answer options and the correct
      answer. */
  datatype SlideQuestion = SlideQuestion(prompt: string, options: seq<string>, answer: string)

  /** A question needs at least two options. The statement may be empty and
      the answer need not be one of the options. */
  predicate ValidQuestion(q: SlideQuestion) {
    |q.options| >= 2
  }

  function QuestionErrors(q: SlideQuestion): (errs: seq<Path>)
    ensures errs == [] <==> ValidQuestion(q)
    ensures [Field("options")] in errs <==> |q.options| < 2
  {
    if |q.options| < 2 then [[Field("options")]] else []
  }

  /** One slide as decoded: `kind` is the JSON `type` literal; `image` and
      `question` are absent unless given. */
  datatype Slide = Slide(
    kind: string,
    title: string,
    content: string,
    image: Option<string> := None,
    question: Option<SlideQuestion> := None)

  /** The schema's rules for one slide: a known kind, a title and a content
      of at least one character (whitespace counts), and a valid question when
      one is attached. The image, and the question, are allowed on every kind. */
  predicate ValidSlide(s: Slide) {
    && ParseSlideType(s.kind).Some?
    && |s.title| >= 1
    && |s.content| >= 1
    && (s.question.Some? ==> ValidQuestion(s.question.value))
  }

  /** The offending fields of a slide, in declaration order; a question's
      errors are located under `question`. */
  function SlideErrors(s: Slide): (errs: seq<Path>)
    ensures errs == [] <==> ValidSlide(s)
    ensures [Field("type")] in errs <==> ParseSlideType(s.kind).None?
    ensures [Field("title")] in errs <==> s.title == []
    ensures [Field("content")] in errs <==> s.content == []
    ensures [Field("question"), Field("options")] in errs
            <==> s.question.Some? && !ValidQuestion(s.question.value)
  {
    var kindErrs: seq<Path> := if ParseSlideType(s.kind).None? then [[Field("type")]] else [];
    var titleErrs: seq<Path> := if |s.title| < 1 then [[Field("title")]] else [];
    var contentErrs: seq<Path> := if |s.content| < 1 then [[Field("content")]] else [];
    var questionErrs: seq<Path> :=
      match s.question
      case None => []
      case Some(q) => Under([Field("question")], QuestionErrors(q));
    assert [Field("question")] + [Field("options")] == [Field("question"), Field("options")];
    assert questionErrs != [] ==> questionErrs == [[Field("question"), Field("options")]];
    kindErrs + titleErrs + contentErrs + questionErrs
  }

  /** `Slide.model_validate`: the slide itself when it meets the rules,
      otherwise every offending field. */
  function ValidateSlide(s: Slide): (r: Result<Slide, SchemaError>)
    ensures r.Success? <==> ValidSlide(s)
    ensures r.Success? ==> r.value == s
    ensures r.Failure? ==> r.error.paths != [] && r.error.paths == SlideErrors(s)
  {
    var errs := SlideErrors(s);
    if errs == [] then Success(s) else Failure(SchemaError(errs))
  }

  predicate ValidDeck(slides: seq<Slide>) {
    forall i | 0 <= i < |slides| :: ValidSlide(slides[i])
  }

  /** The errors of `slides[from..]`, each located by the slide's index. */
  function DeckErrorsFrom(slides: seq<Slide>, from: nat): (errs: seq<Path>)
    requires from <= |slides|
    ensures errs == [] <==> forall i | from <= i < |slides| :: ValidSlide(slides[i])
    decreases |slides| - from
  {
    if from == |slides| then []
    else
      Under([Field("slides"), Item(from)], SlideErrors(slides[from]))
      + DeckErrorsFrom(slides, from + 1)
  }

  /** `SlideDeckResponse` validation: the list is accepted exactly when every
      slide is; nothing is required of its length, of the order of kinds, or
      of how many slides carry a question. */
  function ValidateResponse(slides: seq<Slide>): (r: Result<seq<Slide>, SchemaError>)
    ensures r.Success? <==> ValidDeck(slides)
    ensures r.Success? ==> r.value == slides
    ensures r.Failure? ==> r.error.paths != []
  {
    var errs := DeckErrorsFrom(slides, 0);
    if errs == [] then Success(slides) else Failure(SchemaError(errs))
  }

  const DefaultContext: string := ""
  const DefaultSlideCount: int := 5
  const MinSlideCount: int := 1
  const MaxSlideCount: int := 20

  /** A request body as decoded, before defaults: `context` and `n_slides`
      may be missing. */
  datatype RequestBody = RequestBody(
    topic: string,
    grade: string,
    context: Option<string> := None,
    nSlides: Option<int> := None)

  /** An accepted request: `nSlides` counts content slides only. */
  datatype SlideDeckRequest = SlideDeckRequest(topic: string, grade: string, context: string, nSlides: int)

  predicate ValidRequestBody(b: RequestBody) {
    && |b.topic| >= 1
    && |b.grade| >= 1
    && (b.nSlides.Some? ==> MinSlideCount <= b.nSlides.value <= MaxSlideCount)
  }

  /** The offending fields of a request body, in declaration order. */
  function RequestErrors(b: RequestBody): (errs: seq<Path>)
    ensures errs == [] <==> ValidRequestBody(b)
    ensures [Field("topic")] in errs <==> b.topic == []
    ensures [Field("grade")] in errs <==> b.grade == []
    ensures [Field("n_slides")] in errs
            <==> b.nSlides.Some? && !(MinSlideCount <= b.nSlides.value <= MaxSlideCount)
  {
    (if |b.topic| < 1 then [[Field("topic")]] else [])
    + (if |b.grade| < 1 then [[Field("grade")]] else [])
    + (match b.nSlides
       case Some(n) => if n < MinSlideCount || n > MaxSlideCount then [[Field("n_slides")]] else []
       case None => [])
  }

  /** `SlideDeckRequest` validation: a non-empty topic and grade and a slide
      count in 1..20 are required; a missing context becomes "" and a missing
      count becomes 5. */
  function ValidateRequest(b: RequestBody): (r: Result<SlideDeckRequest, SchemaError>)
    ensures r.Success? <==> ValidRequestBody(b)
    ensures r.Success? ==>
      && r.value.topic == b.topic
      && r.value.grade == b.grade
      && r.value.context == (if b.context.Some? then b.context.value else DefaultContext)
      && r.value.nSlides == (if b.nSlides.Some? then b.nSlides.value else DefaultSlideCount)
      && MinSlideCount <= r.value.nSlides <= MaxSlideCount
    ensures r.Failure? ==> r.error.paths != []
  {
    var errs := RequestErrors(b);
    if errs == [] then
      Success(SlideDeckRequest(b.topic, b.grade, b.context.GetOr(DefaultContext), b.nSlides.GetOr(DefaultSlideCount)))
    else Failure(SchemaError(errs))
  }
}
