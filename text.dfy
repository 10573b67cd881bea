/** Character spans and text changes over a document held as a string. */
module Text {

  /** The half-open range [start, start + length) of character offsets (Roslyn's TextSpan). */
  datatype TextSpan = TextSpan(start: nat, length: nat) {
    function End(): nat { start + length }
    predicate IsEmpty() { length == 0 }
  }

  /** Replace the characters covered by `span` with `newText`. */
  datatype TextChange = TextChange(span: TextSpan, newText: string)

  /** The span addresses characters of `text` only. */
  predicate SpanWithin(text: string, span: TextSpan) {
    span.End() <= |text|
  }

  /** The characters of `text` covered by `span` (SourceText.GetSubText). */
  function SubText(text: string, span: TextSpan): (r: string)
    requires SpanWithin(text, span)
    ensures |r| == span.length
  {
    text[span.start..span.End()]
  }

  /** The text obtained by applying `change` to `text`. */
  function Apply(text: string, change: TextChange): (r: string)
    requires SpanWithin(text, change.span)
    ensures |r| == |text| - change.span.length + |change.newText|
    ensures r[..change.span.start] == text[..change.span.start]
    ensures r[change.span.start..change.span.start + |change.newText|] == change.newText
    ensures r[change.span.start + |change.newText|..] == text[change.span.End()..]
  {
    text[..change.span.start] + change.newText + text[change.span.End()..]
  }
}
