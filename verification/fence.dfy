/**
 * Recovery of a JSON reply that the model wrapped in a markdown code fence:
 * trim the reply; if it opens with three backticks, drop them, an optional
 * `json` tag and the whitespace after it, then drop a closing fence together
 * with the whitespace before it; trim again.
 *
 * The two regular-expression substitutions of the source are written out as
 * sequence operations.
 */
module Fence {
  import opened Text

  const Backticks: string := "```"
  const JsonTag: string := "json"

  /** The first substitution, anchored at the start: the backticks, the tag if
      it follows them directly, and every whitespace character after that. */
  function DropOpeningFence(t: string): (r: string)
    requires StartsWith(t, Backticks)
    ensures |r| <= |t| - |Backticks| && r == t[|t| - |r|..]
    ensures r == [] || !IsSpace(r[0])
  {
    TrimStart(AfterTag(t))
  }

  /** What follows the backticks and, when it comes right after them, the
      tag. */
  function AfterTag(t: string): (r: string)
    requires StartsWith(t, Backticks)
    ensures |r| <= |t| - |Backticks| && r == t[|t| - |r|..]
  {
    var afterTicks := t[|Backticks|..];
    if StartsWith(afterTicks, JsonTag) then afterTicks[|JsonTag|..] else afterTicks
  }

  /** The second substitution, anchored at the end: a final run of backticks
      and the whitespace run right before it. The string it is applied to
      never ends in whitespace, so the end anchor only matches at the very
      end. */
  function DropClosingFence(u: string): (r: string)
    ensures |r| <= |u| && r == u[..|r|]
    ensures EndsWith(u, Backticks) ==> |r| <= |u| - |Backticks| && AllSpace(u[|r|..|u| - |Backticks|])
    ensures !EndsWith(u, Backticks) ==> r == u
  {
    if EndsWith(u, Backticks) then TrimEnd(u[..|u| - |Backticks|]) else u
  }

  /** `_strip_markdown_json`. The result is always trimmed, and text that does
      not open with a fence only gets trimmed. */
  function StripMarkdownJson(text: string): (r: string)
    ensures Trimmed(r)
    ensures !StartsWith(Strip(text), Backticks) ==> r == Strip(text)
    ensures |r| <= |text|
  {
    var t := Strip(text);
    if StartsWith(t, Backticks) then Strip(DropClosingFence(DropOpeningFence(t))) else t
  }

  /** The fenced form of a reply: backticks, an optional tag, a line break,
      the reply, a line break and the closing backticks. */
  function Fenced(tag: string, s: string): string {
    Backticks + tag + ("\n" + Closed(s))
  }

  /** A reply followed by the closing fence on its own line. */
  function Closed(s: string): string {
    s + "\n" + Backticks
  }

  /** The opening substitution removes the backticks and the tag, and
      stops at the line break after them. */
  lemma TagDropped(tag: string, x: string)
    requires tag == "" || tag == JsonTag
    requires x != [] && x[0] == '\n'
    ensures StartsWith(Backticks + tag + x, Backticks)
    ensures AfterTag(Backticks + tag + x) == x
  {
    var f := Backticks + tag + x;
    assert f[..|Backticks|] == Backticks;
    var afterTicks := f[|Backticks|..];
    assert afterTicks == tag + x;
    if tag == JsonTag {
      assert afterTicks[..|JsonTag|] == JsonTag;
      assert afterTicks[|JsonTag|..] == x;
    } else {
      assert afterTicks[0] == '\n';
    }
  }

  /** On a fenced reply, the opening substitution leaves the reply and the
      closing fence, less any whitespace at the reply's start. */
  lemma TagOfFencedDropped(tag: string, s: string)
    requires tag == "" || tag == JsonTag
    ensures StartsWith(Fenced(tag, s), Backticks)
    ensures DropOpeningFence(Fenced(tag, s)) == TrimStart("\n" + Closed(s))
  {
    TagDropped(tag, "\n" + Closed(s));
  }

  /** The body of an empty fenced reply is two line breaks and the closing
      backticks. */
  lemma EmptyClosed()
    ensures "\n" + Closed([]) == "\n\n" + Backticks
  {
  }

  /** An empty fenced reply leaves only the closing backticks. */
  lemma OpeningOfEmptyFenced(tag: string)
    requires tag == "" || tag == JsonTag
    ensures DropOpeningFence(Fenced(tag, [])) == Backticks
  {
    TagOfFencedDropped(tag, []);
    EmptyBodyTrimmed();
  }

  /** The whitespace before the closing fence of an empty reply is all that
      the opening substitution's whitespace run takes. */
  lemma EmptyBodyTrimmed()
    ensures TrimStart("\n" + Closed([])) == Backticks
  {
    EmptyClosed();
    TrimStartPadded("\n\n", Backticks);
  }

  /** A single line break before a reply that opens with a non-space is
      all the opening whitespace there is. */
  lemma LeadingBreakTrimmed(body: string)
    requires body != [] && !IsSpace(body[0])
    ensures TrimStart("\n" + body) == body
  {
    TrimStartPadded("\n", body);
  }

  /** A non-empty fenced reply keeps the reply and the closing fence. */
  lemma OpeningOfNonEmptyFenced(tag: string, s: string)
    requires tag == "" || tag == JsonTag
    requires s != [] && !IsSpace(s[0])
    ensures DropOpeningFence(Fenced(tag, s)) == Closed(s)
  {
    TagOfFencedDropped(tag, s);
    LeadingBreakTrimmed(Closed(s));
  }

  /** The opening substitution on a fenced trimmed reply: only the closing
      backticks are left of an empty reply, otherwise the reply and the closing
      fence. */
  lemma OpeningOfFenced(tag: string, s: string)
    requires tag == "" || tag == JsonTag
    requires Trimmed(s)
    ensures StartsWith(Fenced(tag, s), Backticks)
    ensures DropOpeningFence(Fenced(tag, s)) == if s == [] then Backticks else Closed(s)
  {
    TagOfFencedDropped(tag, s);
    if s == [] {
      OpeningOfEmptyFenced(tag);
    } else {
      OpeningOfNonEmptyFenced(tag, s);
    }
  }

  /** The closing substitution removes the closing fence and the line break
      before it, and nothing of a trimmed reply. */
  lemma ClosingOfUnfenced(s: string)
    requires Trimmed(s)
    ensures DropClosingFence(Closed(s)) == s
  {
    var u := Closed(s);
    assert EndsWith(u, Backticks);
    assert u[..|u| - |Backticks|] == s + "\n";
    TrimEndPadded(s, "\n");
  }

  /** Stripping a fenced trimmed reply, tagged `json` or untagged, gives back
      exactly the reply. */
  lemma StripFencedRoundTrip(tag: string, s: string)
    requires tag == "" || tag == JsonTag
    requires Trimmed(s)
    ensures StripMarkdownJson(Fenced(tag, s)) == s
  {
    var f := Fenced(tag, s);
    assert f[0] == '`' && f[|f| - 1] == '`';
    StripTrimmed(f);
    OpeningOfFenced(tag, s);
    var unfenced := DropOpeningFence(f);
    if s == [] {
      assert DropClosingFence(unfenced) == [];
      StripTrimmed([]);
    } else {
      ClosingOfUnfenced(s);
      StripTrimmed(s);
    }
  }

  /** Stripping is not idempotent: a fence nested in a fence loses one layer
      per application. */
  lemma NestedFenceLosesOneLayer(s: string)
    requires Trimmed(s) && s != []
    ensures StripMarkdownJson(Fenced("", Fenced("", s))) == Fenced("", s)
    ensures StripMarkdownJson(StripMarkdownJson(Fenced("", Fenced("", s)))) == s
  {
    var inner := Fenced("", s);
    assert inner[0] == '`' && inner[|inner| - 1] == '`';
    StripFencedRoundTrip("", inner);
    StripFencedRoundTrip("", s);
  }
}
