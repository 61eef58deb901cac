/**
 * The requests the generation layer sends to the model, each kept as the
 * record of parameters its fixed template is filled with. The template text
 * itself is constant and not modelled.
 */
module Prompts {
  import opened Wrappers
  import opened Text
  import Schema

  /** What stands in for a missing or empty teacher context. */
  const NoContext: string := "(none)"

  /** `context or "(none)"`: a context that is missing or empty is sent as the
      placeholder; any other context, even one of only whitespace, is sent
      as is. The text sent is never empty. */
  function ContextText(context: Option<string>): (r: string)
    ensures r != []
    ensures context.Some? && context.value != [] ==> r == context.value
    ensures context.None? || context.value == [] ==> r == NoContext
  {
    match context
    case Some(c) => if c != [] then c else NoContext
    case None => NoContext
  }

  datatype Prompt =
    | FullDeckPrompt(topic: string, grade: string, context: string, nSlides: int)
    | OutlinePrompt(topic: string, grade: string, context: string, nSlides: int)
    | TitlePrompt(topic: string, grade: string, context: string)
    | AgendaPrompt(topic: string, contentTitles: string)
    | ContentPrompt(topic: string, grade: string, context: string, slideTitle: string, index: int, total: int)
    | ConclusionPrompt(topic: string, grade: string, context: string)
  {
    /** The slide kind a per-slide prompt asks for (the full-deck and outline
        prompts ask for no single slide). */
    function Requested(): Option<Schema.SlideType> {
      match this
      case TitlePrompt(_, _, _) => Some(Schema.Title)
      case AgendaPrompt(_, _) => Some(Schema.Agenda)
      case ContentPrompt(_, _, _, _, _, _) => Some(Schema.Content)
      case ConclusionPrompt(_, _, _) => Some(Schema.Conclusion)
      case _ => None
    }
  }

  /** One agenda line per content title. */
  function Bullets(titles: seq<string>): (r: seq<string>)
    ensures |r| == |titles|
    ensures forall i | 0 <= i < |r| :: r[i] == "- " + titles[i]
  {
    seq(|titles|, i requires 0 <= i < |titles| => "- " + titles[i])
  }

  /** The outline as embedded in the agenda prompt: `"- t"` lines joined by
      line breaks. */
  function AgendaBlob(titles: seq<string>): (r: string)
    ensures r == [] <==> titles == []
    ensures titles != [] ==> StartsWith(r, "- " + titles[0]) && EndsWith(r, "- " + titles[|titles| - 1])
  {
    var b := Bullets(titles);
    if b == [] then Join(b, '\n')
    else
      JoinStartsWithFirst(b, '\n');
      JoinEndsWithLast(b, '\n');
      Join(b, '\n')
  }

  /** Reading the agenda blob line by line gives back one `"- t"` line per
      title, in order, provided no title holds a line break. */
  lemma AgendaBlobLines(titles: seq<string>)
    requires forall i | 0 <= i < |titles| :: '\n' !in titles[i]
    ensures Lines(AgendaBlob(titles)) == Bullets(titles)
  {
    var b := Bullets(titles);
    forall i | 0 <= i < |b|
      ensures '\n' !in b[i]
    {
      assert b[i] == "- " + titles[i];
    }
    assert b == [] || b[|b| - 1][0] == '-';
    LinesOfJoin(b);
  }
}
