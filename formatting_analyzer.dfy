/**
 * Edit minimisation and finding emission (AbstractFormattingAnalyzerImpl).
 *
 * The formatter proposes coarse text changes. Each is narrowed, when the
 * new text already sits at one end of the replaced span, to the deletion of
 * the rest of the span; changes that end up doing nothing are dropped, and
 * every other change is reported as one diagnostic whose properties carry
 * the replacement text.
 */
module FormattingAnalyzer {
  import opened Wrappers
  import opened Text
  import opened DiagnosticHelper

  /** The property under which a finding carries its replacement text. */
  const ReplaceTextKey: string := "ReplaceTextKey"

  /** The properties of a finding that deletes its span. */
  const RemoveTextProperties: map<string, string> := map[ReplaceTextKey := ""]

  /** A change with an empty span and empty new text, which edits nothing. */
  predicate IsNoOp(change: TextChange) {
    |change.newText| == 0 && change.span.IsEmpty()
  }

  /** The replaced text ends with the new text (the prefix-removal case). */
  predicate EndsWithNewText(text: string, change: TextChange)
    requires SpanWithin(text, change.span)
  {
    |change.newText| <= change.span.length
    && text[change.span.End() - |change.newText|..change.span.End()] == change.newText
  }

  /** The replaced text is longer than, and starts with, the new text (the suffix-removal case). */
  predicate StartsWithNewText(text: string, change: TextChange)
    requires SpanWithin(text, change.span)
  {
    |change.newText| < change.span.length
    && text[change.span.start..change.span.start + |change.newText|] == change.newText
  }

  /**
   * Narrows a change whose new text is already present at one end of the
   * replaced text to the deletion of the other part; any other change is
   * kept. The result edits a part of the original span and is either the
   * change itself or a pure deletion.
   */
  function Trim(text: string, change: TextChange): (r: TextChange)
    requires SpanWithin(text, change.span)
    ensures SpanWithin(text, r.span)
    ensures change.span.start <= r.span.start && r.span.End() <= change.span.End()
    ensures r == change || |r.newText| == 0
  {
    if |change.newText| > 0 && !change.span.IsEmpty() then
      var offset := change.span.length - |change.newText|;
      if offset >= 0 && text[change.span.start + offset..change.span.start + offset + |change.newText|] == change.newText then
        TextChange(TextSpan(change.span.start, offset), "")
      else if |change.newText| < change.span.length
              && text[change.span.start..change.span.start + |change.newText|] == change.newText then
        TextChange(TextSpan(change.span.start + |change.newText|, change.span.length - |change.newText|), "")
      else
        change
    else
      change
  }

  /** Prefix removal: when the replaced text ends with the new text, only its first part is deleted. */
  lemma TrimDeletesPrefix(text: string, change: TextChange)
    requires SpanWithin(text, change.span)
    requires |change.newText| > 0 && EndsWithNewText(text, change)
    ensures Trim(text, change) == TextChange(TextSpan(change.span.start, change.span.length - |change.newText|), "")
  {
  }

  /** Suffix removal: tried only when prefix removal does not apply. */
  lemma TrimDeletesSuffix(text: string, change: TextChange)
    requires SpanWithin(text, change.span)
    requires |change.newText| > 0 && !EndsWithNewText(text, change) && StartsWithNewText(text, change)
    ensures Trim(text, change) ==
      TextChange(TextSpan(change.span.start + |change.newText|, change.span.length - |change.newText|), "")
  {
  }

  /**
   * A change is kept unmodified exactly when its new text is empty, its span
   * is empty, or its new text is found at neither end of the replaced text
   * (which includes every new text longer than the span).
   */
  lemma TrimKeepsChange(text: string, change: TextChange)
    requires SpanWithin(text, change.span)
    ensures Trim(text, change) == change <==>
      |change.newText| == 0 || change.span.IsEmpty()
      || (!EndsWithNewText(text, change) && !StartsWithNewText(text, change))
  {
    if |change.newText| > 0 && !change.span.IsEmpty() {
      var offset := change.span.length - |change.newText|;
      if EndsWithNewText(text, change) {
        assert change.span.start + offset == change.span.End() - |change.newText|;
        assert Trim(text, change).newText == "";
      } else if StartsWithNewText(text, change) {
        assert Trim(text, change).newText == "";
      } else {
        assert offset >= 0 ==> change.span.start + offset == change.span.End() - |change.newText|;
        assert Trim(text, change) == change;
      }
    }
  }

  /** Deleting the part of the span before a matching end gives the same text as the change. */
  lemma DeletingPrefixSameResult(text: string, change: TextChange)
    requires SpanWithin(text, change.span) && EndsWithNewText(text, change)
    ensures var offset := change.span.length - |change.newText|;
      Apply(text, TextChange(TextSpan(change.span.start, offset), "")) == Apply(text, change)
  {
    var start, end := change.span.start, change.span.End();
    var middle := end - |change.newText|;
    calc {
      Apply(text, TextChange(TextSpan(start, middle - start), ""));
      text[..start] + "" + text[middle..];
      { assert text[middle..] == text[middle..end] + text[end..]; }
      text[..start] + change.newText + text[end..];
    }
  }

  /** Deleting the part of the span after a matching start gives the same text as the change. */
  lemma DeletingSuffixSameResult(text: string, change: TextChange)
    requires SpanWithin(text, change.span) && StartsWithNewText(text, change)
    ensures var n := |change.newText|;
      Apply(text, TextChange(TextSpan(change.span.start + n, change.span.length - n), "")) == Apply(text, change)
  {
    var start, end := change.span.start, change.span.End();
    var middle := start + |change.newText|;
    calc {
      Apply(text, TextChange(TextSpan(middle, end - middle), ""));
      text[..middle] + "" + text[end..];
      { assert text[..middle] == text[..start] + text[start..middle]; }
      text[..start] + change.newText + text[end..];
    }
  }

  /** Trimming never changes the text the change produces. */
  lemma TrimPreservesResult(text: string, change: TextChange)
    requires SpanWithin(text, change.span)
    ensures Apply(text, Trim(text, change)) == Apply(text, change)
  {
    if |change.newText| > 0 && !change.span.IsEmpty() {
      if EndsWithNewText(text, change) {
        TrimDeletesPrefix(text, change);
        DeletingPrefixSameResult(text, change);
      } else if StartsWithNewText(text, change) {
        TrimDeletesSuffix(text, change);
        DeletingSuffixSameResult(text, change);
      } else {
        TrimKeepsChange(text, change);
      }
    }
  }

  /** Trimming is idempotent: a trimmed change is not narrowed again. */
  lemma TrimIdempotent(text: string, change: TextChange)
    requires SpanWithin(text, change.span)
    ensures Trim(text, Trim(text, change)) == Trim(text, change)
  {
  }

  /** A change that replaces text by the same text trims to a no-op, so it is not reported. */
  lemma UnchangedTextIsDropped(text: string, change: TextChange)
    requires SpanWithin(text, change.span)
    requires SubText(text, change.span) == change.newText
    ensures IsNoOp(Trim(text, change))
  {
  }

  /** The properties of a finding: the replacement text under ReplaceTextKey, empty for a deletion. */
  function PropertiesFor(change: TextChange): (r: map<string, string>)
    ensures r.Keys == {ReplaceTextKey} && r[ReplaceTextKey] == change.newText
  {
    if |change.newText| == 0 then RemoveTextProperties
    else map[ReplaceTextKey := change.newText]
  }

  /**
   * The diagnostic reported for a surviving change: located at its span,
   * with the descriptor's default severity, not suppressed, carrying the
   * replacement text.
   */
  function Report(descriptor: DiagnosticDescriptor, change: TextChange): (r: Diagnostic)
    ensures r.location == change.span && r.properties == PropertiesFor(change)
    ensures r.id == descriptor.id && r.message == Format(descriptor.messageFormat)
    ensures r.severity == descriptor.defaultSeverity && !r.isSuppressed
    ensures r.warningLevel == 0 <==> descriptor.defaultSeverity == DiagnosticSeverity.Error
  {
    Create(Some(descriptor), change.span, ReportDiagnostic.Default, [], PropertiesFor(change), None).value
  }

  /** Every change of the list addresses characters of the text. */
  predicate AllWithin(text: string, changes: seq<TextChange>) {
    forall k :: 0 <= k < |changes| ==> SpanWithin(text, changes[k].span)
  }

  /** The trimmed changes that are reported, in input order; none is a no-op. */
  function ReportedChanges(text: string, changes: seq<TextChange>): (r: seq<TextChange>)
    requires AllWithin(text, changes)
    ensures |r| <= |changes|
    ensures forall k :: 0 <= k < |r| ==> !IsNoOp(r[k])
    decreases |changes|
  {
    if |changes| == 0 then []
    else
      var last := |changes| - 1;
      var reported := ReportedChanges(text, changes[..last]);
      var change := Trim(text, changes[last]);
      if IsNoOp(change) then reported else reported + [change]
  }

  /** The positions of the input changes that survive trimming, in increasing order. */
  ghost function Survivors(text: string, changes: seq<TextChange>): (r: seq<nat>)
    requires AllWithin(text, changes)
    ensures forall k :: 0 <= k < |r| ==> r[k] < |changes|
    ensures forall k, l :: 0 <= k < l < |r| ==> r[k] < r[l]
    ensures forall j :: 0 <= j < |changes| ==> (j in r <==> !IsNoOp(Trim(text, changes[j])))
    decreases |changes|
  {
    if |changes| == 0 then []
    else
      var last := |changes| - 1;
      var survivors := Survivors(text, changes[..last]);
      if IsNoOp(Trim(text, changes[last])) then survivors else survivors + [last]
  }

  /**
   * Findings come out one per surviving input change, in input order: the
   * k-th reported change is the trimmed form of the change at the k-th
   * surviving position.
   */
  lemma {:induction false} ReportedChangesInOrder(text: string, changes: seq<TextChange>)
    requires AllWithin(text, changes)
    ensures var reported, survivors := ReportedChanges(text, changes), Survivors(text, changes);
      |reported| == |survivors|
      && forall k :: 0 <= k < |reported| ==> reported[k] == Trim(text, changes[survivors[k]])
    decreases |changes|
  {
    if |changes| > 0 {
      var last := |changes| - 1;
      var prefix := changes[..last];
      assert AllWithin(text, prefix);
      ReportedChangesInOrder(text, prefix);
      var reported, survivors := ReportedChanges(text, prefix), Survivors(text, prefix);
      assert forall k :: 0 <= k < |survivors| ==> changes[survivors[k]] == prefix[survivors[k]];
      var change := Trim(text, changes[last]);
      if !IsNoOp(change) {
        assert ReportedChanges(text, changes) == reported + [change];
        assert Survivors(text, changes) == survivors + [last];
      }
    }
  }

  /**
   * Reporting is a fixed point: the reported changes address the text, and
   * running them through trimming and the no-op filter again reports them
   * all, unchanged.
   */
  lemma ReportedChangesFixedPoint(text: string, changes: seq<TextChange>)
    requires AllWithin(text, changes)
    ensures AllWithin(text, ReportedChanges(text, changes))
    ensures ReportedChanges(text, ReportedChanges(text, changes)) == ReportedChanges(text, changes)
  {
    var reported, survivors := ReportedChanges(text, changes), Survivors(text, changes);
    ReportedChangesInOrder(text, changes);
    forall k | 0 <= k < |reported|
      ensures SpanWithin(text, reported[k].span) && Trim(text, reported[k]) == reported[k]
    {
      TrimIdempotent(text, changes[survivors[k]]);
    }
    TrimmedChangesAllReported(text, reported);
  }

  /** Changes that trimming leaves alone and that are not no-ops are all reported, as they are. */
  lemma {:induction false} TrimmedChangesAllReported(text: string, changes: seq<TextChange>)
    requires AllWithin(text, changes)
    requires forall k :: 0 <= k < |changes| ==> Trim(text, changes[k]) == changes[k] && !IsNoOp(changes[k])
    ensures ReportedChanges(text, changes) == changes
    decreases |changes|
  {
    if |changes| > 0 {
      var last := |changes| - 1;
      assert AllWithin(text, changes[..last]);
      TrimmedChangesAllReported(text, changes[..last]);
      assert changes[..last] + [changes[last]] == changes;
    }
  }

  /**
   * Analyzes one document: trims each change of the formatter, drops those
   * that no longer edit anything, and reports a diagnostic for each of the
   * others, in order.
   */
  method AnalyzeSyntaxTree(descriptor: DiagnosticDescriptor, text: string, formattingChanges: seq<TextChange>)
    returns (diagnostics: seq<Diagnostic>)
    requires AllWithin(text, formattingChanges)
    ensures var reported := ReportedChanges(text, formattingChanges);
      |diagnostics| == |reported|
      && forall k :: 0 <= k < |diagnostics| ==> diagnostics[k] == Report(descriptor, reported[k])
  {
    diagnostics := [];
    for i := 0 to |formattingChanges|
      invariant var reported := ReportedChanges(text, formattingChanges[..i]);
        |diagnostics| == |reported|
        && forall k :: 0 <= k < |diagnostics| ==> diagnostics[k] == Report(descriptor, reported[k])
    {
      assert formattingChanges[..i + 1][..i] == formattingChanges[..i];
      var change := Trim(text, formattingChanges[i]);
      if |change.newText| == 0 && change.span.IsEmpty() {
        // a no-op after trimming is not reported
        continue;
      }
      var properties;
      if |change.newText| == 0 {
        properties := RemoveTextProperties;
      } else {
        properties := map[ReplaceTextKey := change.newText];
      }
      var diagnostic := Create(Some(descriptor), change.span, ReportDiagnostic.Default, [], properties, None);
      diagnostics := diagnostics + [diagnostic.value];
    }
    assert formattingChanges[..|formattingChanges|] == formattingChanges;
  }

  /** Prefix removal: four leading spaces become two by deleting the first two. */
  lemma ExampleIndentation()
    ensures Trim("    if (x)", TextChange(TextSpan(0, 4), "  ")) == TextChange(TextSpan(0, 2), "")
  {
    assert "    if (x)"[2..4] == "  ";
  }

  /** Suffix removal: a trailing run after the kept text is deleted. */
  lemma ExampleTrailing()
    ensures Trim("abcXXX", TextChange(TextSpan(0, 6), "abc")) == TextChange(TextSpan(3, 3), "")
  {
    assert "abcXXX"[3..6] != "abc" by { assert "abcXXX"[3] != 'a'; }
    assert "abcXXX"[0..3] == "abc";
  }

  /** A growing replacement with no common end is kept as it is. */
  lemma ExampleGrowth()
    ensures Trim("foo", TextChange(TextSpan(0, 3), "barbaz")) == TextChange(TextSpan(0, 3), "barbaz")
  {
  }
}
