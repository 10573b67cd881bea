/**
 * The C# formatting analyzer (CSharpFormattingAnalyzerImpl): conventions are
 * applied for the C# language, and a boolean convention can be read with a
 * fallback value.
 */
module CSharpFormatting {
  import opened Wrappers
  import opened DiagnosticHelper
  import opened EditorConfig

  /** Roslyn's name of the C# language (LanguageNames.CSharp). */
  const CSharpLanguageName: string := "C#"

  /** ASCII letters folded to lower case; every other character is kept. */
  function ToLowerInvariant(c: char): char {
    if 'A' <= c <= 'Z' then (c as int + 32) as char else c
  }

  /** Equality up to the case of ASCII letters. */
  predicate EqualsIgnoreCase(a: string, b: string) {
    |a| == |b| && forall k :: 0 <= k < |a| ==> ToLowerInvariant(a[k]) == ToLowerInvariant(b[k])
  }

  /** The text of a boolean (Boolean.ToString). */
  function BoolToString(b: bool): string {
    if b then "True" else "False"
  }

  /** Parses "True" or "False" in any letter case (a simplified Boolean.TryParse). */
  function TryParseBool(rawValue: string): (r: Option<bool>)
    ensures r.Some? ==> EqualsIgnoreCase(rawValue, BoolToString(r.value))
    ensures r.None? ==> !EqualsIgnoreCase(rawValue, "True") && !EqualsIgnoreCase(rawValue, "False")
  {
    if EqualsIgnoreCase(rawValue, "True") then Some(true)
    else if EqualsIgnoreCase(rawValue, "False") then Some(false)
    else None
  }

  /** Parsing the text of a boolean gives the boolean back. */
  lemma TryParseBoolRoundTrip(b: bool)
    ensures TryParseBool(BoolToString(b)) == Some(b)
  {
    if !b {
      assert !EqualsIgnoreCase("False", "True");
    }
  }

  /** Parsing ignores the case of letters. */
  lemma TryParseBoolIgnoresCase(rawValue: string, other: string)
    requires EqualsIgnoreCase(rawValue, other)
    ensures TryParseBool(rawValue) == TryParseBool(other)
  {
  }

  /** A value that is not a boolean is rejected. */
  lemma TryParseBoolRejects()
    ensures TryParseBool("not-a-bool") == None
  {
  }

  /** The C# analyzer: its diagnostic descriptor and the applier for the formatting options. */
  class CSharpFormattingAnalyzerImpl {
    const descriptor: DiagnosticDescriptor
    const editorConfigOptionsApplier: EditorConfigOptionsApplier

    constructor (descriptor: DiagnosticDescriptor, formattingOptions: seq<FormattingOption>)
      ensures this.descriptor == descriptor
      ensures fresh(editorConfigOptionsApplier)
      ensures editorConfigOptionsApplier.formattingOptionsWithStorage == OptionsWithStorage(formattingOptions)
    {
      this.descriptor := descriptor;
      editorConfigOptionsApplier := new EditorConfigOptionsApplier(formattingOptions);
    }

    /** Applies the conventions to the option set for the C# language. */
    method ApplyFormattingOptions(optionSet: OptionSet, codingConventions: ConventionLookup) returns (r: OptionSet)
      ensures r == ConventionsApplied(optionSet, editorConfigOptionsApplier.formattingOptionsWithStorage,
                                      codingConventions, CSharpLanguageName)
    {
      r := editorConfigOptionsApplier.ApplyConventions(optionSet, codingConventions, CSharpLanguageName);
    }

    /**
     * The options a document is formatted with: the workspace options, with
     * the document's conventions applied when it has a conventions file.
     */
    method DocumentOptions(workspaceOptions: OptionSet, codingConventions: Option<ConventionLookup>) returns (options: OptionSet)
      ensures codingConventions.None? ==> options == workspaceOptions
      ensures codingConventions.Some? ==>
        options == ConventionsApplied(workspaceOptions, editorConfigOptionsApplier.formattingOptionsWithStorage,
                                      codingConventions.value, CSharpLanguageName)
    {
      options := workspaceOptions;
      if codingConventions.Some? {
        options := ApplyFormattingOptions(options, codingConventions.value);
      }
    }

    /**
     * A boolean convention: the parsed value when the key is present and
     * parses as a boolean, the default value otherwise.
     */
    function GetBoolOrDefault(currentConventions: map<string, string>, key: string, defaultValue: bool): (r: bool)
      ensures key !in currentConventions ==> r == defaultValue
      ensures key in currentConventions && TryParseBool(currentConventions[key]).None? ==> r == defaultValue
      ensures key in currentConventions && TryParseBool(currentConventions[key]).Some? ==>
        EqualsIgnoreCase(currentConventions[key], BoolToString(r))
    {
      if key in currentConventions && TryParseBool(currentConventions[key]).Some? then
        TryParseBool(currentConventions[key]).value
      else
        defaultValue
    }
  }
}
