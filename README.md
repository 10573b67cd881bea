# Formatting analyzer core, modelled in Dafny

This project models the logic of a Roslyn analyzer that reports formatting
deviations. The model has three parts:

- **Edit minimisation and finding emission** (`FormattingAnalyzer`).
  The Roslyn formatter proposes coarse text changes, each a span plus new text.
  If the new text already sits at the end of the replaced text, the change is
  narrowed to deleting the leading part. Otherwise, if the new text sits at the
  start, the change is narrowed to deleting the trailing part. A change that then
  edits nothing is dropped. Every other change becomes one diagnostic. Its
  `ReplaceTextKey` property holds the replacement text, which is empty for a
  deletion.
- **Convention overlay** (`EditorConfig`, `CSharpFormatting`).
  The catalogue of formatting options is reduced to the options that have an
  editorconfig storage location. For each of them whose convention value can be
  read, the value is written into an immutable option set. The key is the option
  plus the language for per-language options, or the option alone otherwise.
  The C# analyzer applies this with the language name `C#`. It also reads a
  boolean convention with a fallback value.
- **Severity mapping** (`DiagnosticHelper`).
  This part holds the maps between `ReportDiagnostic` and `DiagnosticSeverity`,
  and the defaulting rule that gives a diagnostic its severity, warning level and
  suppressed flag. It also holds the message string with format arguments and its
  comparator-based sequence equality.

Files:

- `wrappers.dfy`: `Option` and `Result`.
- `text.dfy`: spans, changes and applying a change to a text.
- `diagnostic_helper.dfy`, `editor_config.dfy`, `formatting_analyzer.dfy` and
  `csharp_formatting.dfy`: one module per source file.

Inputs that the model takes from outside:

- The formatter's output is an input sequence of changes. Every change's span
  must lie inside the document text.
- Reading a convention value for an option is a function parameter
  `ConventionLookup`. It returns the typed value or `None`.
- Whether a document has a conventions file is an `Option` of such a lookup.

Behaviour of the code that shapes the model:

- Convention values are parsed by Roslyn's storage locations. The model
  therefore leaves the lookup abstract.
- The code does not enforce distinct keys. The later option therefore wins a
  shared key (`ConventionsAppliedLastWins`). Order independence holds only when
  no two options write conflicting values to the same key
  (`ConventionsAppliedOrderIndependent`).
- Trivial changes are detected after trimming. Trimming never touches a trivial
  change, so this drops the same changes that a check before trimming would.

## Model

| member | source | states |
|---|---|---|
| `FormattingAnalyzer.Trim` | FormattingAnalyzer/FormattingAnalyzer/AbstractFormattingAnalyzerImpl.cs:50-68 | the trimmed change's span lies inside the original span; the result is either the change itself or a pure deletion |
| `FormattingAnalyzer.TrimDeletesPrefix` | FormattingAnalyzer/FormattingAnalyzer/AbstractFormattingAnalyzerImpl.cs:54-59 | when the replaced text ends with the non-empty new text, the change becomes "delete the first span length minus new length characters" |
| `FormattingAnalyzer.TrimDeletesSuffix` | FormattingAnalyzer/FormattingAnalyzer/AbstractFormattingAnalyzerImpl.cs:62-67 | when prefix removal fails and the longer replaced text starts with the new text, the change becomes "delete from start plus new length to the end" |
| `FormattingAnalyzer.TrimKeepsChange` | FormattingAnalyzer/FormattingAnalyzer/AbstractFormattingAnalyzerImpl.cs:50-68 | a change is kept unmodified exactly when its new text is empty, its span is empty, or the new text is at neither end of the replaced text |
| `FormattingAnalyzer.DeletingPrefixSameResult` | FormattingAnalyzer/FormattingAnalyzer/AbstractFormattingAnalyzerImpl.cs:54-59 | when the replaced text ends with the new text, deleting the part before it gives the same text as the change |
| `FormattingAnalyzer.DeletingSuffixSameResult` | FormattingAnalyzer/FormattingAnalyzer/AbstractFormattingAnalyzerImpl.cs:62-67 | when the replaced text starts with the new text, deleting the part after it gives the same text as the change |
| `FormattingAnalyzer.TrimPreservesResult` | FormattingAnalyzer/FormattingAnalyzer/AbstractFormattingAnalyzerImpl.cs:54-67 | applying the trimmed change to the text gives the same text as applying the original change |
| `FormattingAnalyzer.TrimIdempotent` | FormattingAnalyzer/FormattingAnalyzer/AbstractFormattingAnalyzerImpl.cs:50-66 | trimming a trimmed change changes nothing |
| `FormattingAnalyzer.UnchangedTextIsDropped` | FormattingAnalyzer/FormattingAnalyzer/AbstractFormattingAnalyzerImpl.cs:55-75 | a change whose new text equals the replaced text trims to a no-op, which is not reported |
| `FormattingAnalyzer.PropertiesFor` | FormattingAnalyzer/FormattingAnalyzer/AbstractFormattingAnalyzerImpl.cs:77-85 | a finding's properties hold exactly `ReplaceTextKey`, mapped to the new text, which is empty for deletions |
| `FormattingAnalyzer.Report` | FormattingAnalyzer/FormattingAnalyzer/AbstractFormattingAnalyzerImpl.cs:87-93 | a finding sits at the change's span, carries its properties and the descriptor's message, has the descriptor's default severity, is not suppressed, and has warning level 0 exactly for error-default descriptors |
| `FormattingAnalyzer.ReportedChanges` | FormattingAnalyzer/FormattingAnalyzer/AbstractFormattingAnalyzerImpl.cs:47-75 | at most one reported change per input change, and no reported change is a no-op |
| `FormattingAnalyzer.Survivors` | FormattingAnalyzer/FormattingAnalyzer/AbstractFormattingAnalyzerImpl.cs:47-75 | the surviving input positions are strictly increasing, and a position survives exactly when its trimmed change is not a no-op |
| `FormattingAnalyzer.ReportedChangesInOrder` | FormattingAnalyzer/FormattingAnalyzer/AbstractFormattingAnalyzerImpl.cs:47-93 | the k-th reported change is the trimmed change at the k-th surviving input position, so findings keep input order |
| `FormattingAnalyzer.ReportedChangesFixedPoint` | FormattingAnalyzer/FormattingAnalyzer/AbstractFormattingAnalyzerImpl.cs:47-75 | the reported changes lie inside the text, and trimming and filtering them again reports all of them unchanged |
| `FormattingAnalyzer.AnalyzeSyntaxTree` | FormattingAnalyzer/FormattingAnalyzer/AbstractFormattingAnalyzerImpl.cs:46-94 | the loop emits exactly one diagnostic per reported change, in order, each the finding for that change |
| `FormattingAnalyzer.ExampleIndentation` | FormattingAnalyzer/FormattingAnalyzer/AbstractFormattingAnalyzerImpl.cs:54-59 | replacing four leading spaces by two deletes the first two characters |
| `FormattingAnalyzer.ExampleTrailing` | FormattingAnalyzer/FormattingAnalyzer/AbstractFormattingAnalyzerImpl.cs:62-67 | replacing `abcXXX` by `abc` deletes `XXX` |
| `FormattingAnalyzer.ExampleGrowth` | FormattingAnalyzer/FormattingAnalyzer/AbstractFormattingAnalyzerImpl.cs:50-68 | a longer replacement with no common end is kept as it is |
| `DiagnosticHelper.ToDiagnosticSeverity` | FormattingAnalyzer/FormattingAnalyzer/DiagnosticHelper.cs:84-108 | Error, Warn, Info and Hidden map to Error, Warning, Info and Hidden respectively, each in both directions; there is no equivalent severity exactly for Suppress and Default |
| `DiagnosticHelper.ToReportDiagnostic` | FormattingAnalyzer/FormattingAnalyzer/DiagnosticHelper.cs:142-163 | the result is never Default or Suppress, and mapping it back gives the severity again |
| `DiagnosticHelper.ReportDiagnosticRoundTrip` | FormattingAnalyzer/FormattingAnalyzer/DiagnosticHelper.cs:84-163 | a ReportDiagnostic that has an equivalent severity is recovered from that severity |
| `DiagnosticHelper.WithDefaultSeverity` | FormattingAnalyzer/FormattingAnalyzer/DiagnosticHelper.cs:122-130 | a non-Default value is returned unchanged; Default becomes the value equivalent to the default severity; the result is never Default |
| `DiagnosticHelper.Create` | FormattingAnalyzer/FormattingAnalyzer/DiagnosticHelper.cs:30-70 | a null descriptor fails with ArgumentNullException("descriptor"); no or empty message arguments keep the message format; the severity is the mapped effective severity, or the default for Default and Suppress; warning level is 0 exactly for Error, or for Default with an Error default, and 1 otherwise; suppressed exactly for Suppress; the other fields are copied |
| `DiagnosticHelper.LocalizableStringWithArguments.constructor` | FormattingAnalyzer/FormattingAnalyzer/DiagnosticHelper.cs:182-187 | stores the format and, in a fresh array, one string per argument, in order |
| `DiagnosticHelper.LocalizableStringWithArguments.New` | FormattingAnalyzer/FormattingAnalyzer/DiagnosticHelper.cs:170-188 | a null format or a null argument list is rejected with ArgumentNullException naming it, the format checked first; otherwise a fresh object as the constructor builds it |
| `DiagnosticHelper.LocalizableStringWithArguments.AreEqual` | FormattingAnalyzer/FormattingAnalyzer/DiagnosticHelper.cs:198-204 | equal exactly when the other object is non-null, has the same format and has the same argument strings |
| `DiagnosticHelper.LocalizableStringWithArguments.SequenceEqual` | FormattingAnalyzer/FormattingAnalyzer/DiagnosticHelper.cs:213-245 | true for the same reference; false when exactly one is null; otherwise true exactly when the lengths agree and the comparer holds at every position |
| `EditorConfig.IsEditorConfigStorageByName` | FormattingAnalyzer/FormattingAnalyzer/EditorConfigOptionsApplier.cs:74-77 | a storage location is an editorconfig one exactly when its full type name is `Microsoft.CodeAnalysis.Options.EditorConfigStorageLocation` followed by anything |
| `EditorConfig.FirstEditorConfigStorage` | FormattingAnalyzer/FormattingAnalyzer/EditorConfigOptionsApplier.cs:68 | none exactly when no location is an editorconfig one; otherwise the first location that is |
| `EditorConfig.GetOptionWithStorage` | FormattingAnalyzer/FormattingAnalyzer/EditorConfigOptionsApplier.cs:65-72 | keeps the option; no storage when the option has no locations; otherwise the first editorconfig location, or none when there is none |
| `EditorConfig.OptionsWithStorage` | FormattingAnalyzer/FormattingAnalyzer/EditorConfigOptionsApplier.cs:56-62 | the k-th kept entry is the option at the k-th catalogue position that has editorconfig storage, paired with that storage, so exactly those options are kept, in catalogue order |
| `EditorConfig.StoragePositions` | FormattingAnalyzer/FormattingAnalyzer/EditorConfigOptionsApplier.cs:56-62 | the positions are strictly increasing catalogue indices, and a position is listed exactly when its option has editorconfig storage |
| `EditorConfig.OptionsWithStorageMembers` | FormattingAnalyzer/FormattingAnalyzer/EditorConfigOptionsApplier.cs:56-62 | every kept entry is a catalogue option with editorconfig storage, paired by GetOptionWithStorage, and every catalogue option with such storage is kept |
| `EditorConfig.KeyForSameKey` | FormattingAnalyzer/FormattingAnalyzer/EditorConfigOptionsApplier.cs:30 | two languages give an option the same key exactly when the option is not per-language or the languages are equal |
| `EditorConfig.ApplyConvention` | FormattingAnalyzer/FormattingAnalyzer/EditorConfigOptionsApplier.cs:27-32 | a failed lookup leaves the option set unchanged; a successful one sets the option's key to the value and leaves every other key as it was |
| `EditorConfig.ConventionsAppliedEmpty` | FormattingAnalyzer/FormattingAnalyzer/EditorConfigOptionsApplier.cs:23-36 | with an empty option list the option set is returned unchanged |
| `EditorConfig.ConventionsAppliedFrame` | FormattingAnalyzer/FormattingAnalyzer/EditorConfigOptionsApplier.cs:25-35 | a key that no option of the list writes keeps its input value, or stays absent |
| `EditorConfig.ConventionsAppliedKeys` | FormattingAnalyzer/FormattingAnalyzer/EditorConfigOptionsApplier.cs:25-35 | every key of the result is an input key or a key written by an option of the list |
| `EditorConfig.ConventionsAppliedLastWins` | FormattingAnalyzer/FormattingAnalyzer/EditorConfigOptionsApplier.cs:25-35 | a key written by several options holds the value of the last of them |
| `EditorConfig.ConventionsAppliedConsistentWriter` | FormattingAnalyzer/FormattingAnalyzer/EditorConfigOptionsApplier.cs:25-35 | without conflicting writers, a key written by any option of the list holds that option's value |
| `EditorConfig.ConventionsAppliedOrderIndependent` | FormattingAnalyzer/FormattingAnalyzer/EditorConfigOptionsApplier.cs:25-35 | without conflicting writers, any permutation of the option list gives the same option set |
| `EditorConfig.LanguageIsolation` | FormattingAnalyzer/FormattingAnalyzer/EditorConfigOptionsApplier.cs:30-31 | applying conventions for one language never changes a key scoped to another language |
| `EditorConfig.FailedLookupsIgnored` | FormattingAnalyzer/FormattingAnalyzer/EditorConfigOptionsApplier.cs:27-32 | inserting an option whose lookup fails anywhere in the list does not change the result |
| `EditorConfig.EditorConfigOptionsApplier.constructor` | FormattingAnalyzer/FormattingAnalyzer/EditorConfigOptionsApplier.cs:16-21 | the applier keeps the catalogue's options that have editorconfig storage |
| `EditorConfig.EditorConfigOptionsApplier.ApplyConventions` | FormattingAnalyzer/FormattingAnalyzer/EditorConfigOptionsApplier.cs:23-36 | the loop's result is the in-order overlay of the applier's options onto the option set |
| `EditorConfig.EditorConfigOptionsApplier.ApplyConventionsForOptions` | FormattingAnalyzer/FormattingAnalyzer/EditorConfigOptionsApplier.cs:38-51 | the loop's result is the same in-order overlay over the given option list, so it agrees with ApplyConventions on the same list |
| `CSharpFormatting.TryParseBool` | FormattingAnalyzer/FormattingAnalyzer/CSharpFormattingAnalyzerImpl.cs:26 | a parsed value's text equals the input up to letter case; a failure means the input is neither "True" nor "False" in any case |
| `CSharpFormatting.TryParseBoolRoundTrip` | FormattingAnalyzer/FormattingAnalyzer/CSharpFormattingAnalyzerImpl.cs:26 | parsing the text of a boolean gives the boolean back |
| `CSharpFormatting.TryParseBoolIgnoresCase` | FormattingAnalyzer/FormattingAnalyzer/CSharpFormattingAnalyzerImpl.cs:26 | inputs that differ only in letter case parse alike |
| `CSharpFormatting.TryParseBoolRejects` | FormattingAnalyzer/FormattingAnalyzer/CSharpFormattingAnalyzerImpl.cs:26 | a value such as `not-a-bool` does not parse |
| `CSharpFormatting.CSharpFormattingAnalyzerImpl.constructor` | FormattingAnalyzer/FormattingAnalyzer/CSharpFormattingAnalyzerImpl.cs:11-16 | keeps the descriptor and builds a fresh applier for the formatting options |
| `CSharpFormatting.CSharpFormattingAnalyzerImpl.ApplyFormattingOptions` | FormattingAnalyzer/FormattingAnalyzer/CSharpFormattingAnalyzerImpl.cs:18-21 | the result is the overlay of the applier's options for the language `C#` |
| `CSharpFormatting.CSharpFormattingAnalyzerImpl.DocumentOptions` | FormattingAnalyzer/FormattingAnalyzer/AbstractFormattingAnalyzerImpl.cs:39-44 | a document without conventions is formatted with the workspace options unchanged; a document with conventions uses the C# overlay of them |
| `CSharpFormatting.CSharpFormattingAnalyzerImpl.GetBoolOrDefault` | FormattingAnalyzer/FormattingAnalyzer/CSharpFormattingAnalyzerImpl.cs:23-32 | the default when the key is absent or its value does not parse; otherwise the parsed boolean |

## Left out

- AbstractFormattingAnalyzer.cs: process-wide assembly resolution, assembly loading from disk and plugin instantiation. This is host glue with no logic to verify.
- `InitializeWorker`, the `File.Exists` check and the blocking read of the conventions context: these are I/O. `DocumentOptions` takes "conventions present or not" as an `Option` input instead.
- `Formatter.GetFormattedTextChanges`: this is the Roslyn formatter. Its changes are an input, required to lie inside the document text.
- The cancellation tokens passed through the analysis: cancellation is not modelled.
- Reflection in `GetOptionsWithStorageFromTypes`: the enumeration of static option properties is replaced by an input catalogue, and the `TryGetOption` method handle is not kept.
- `TryGetConventionValue` and Roslyn's `EditorConfigStorageLocation.TryGetOption`: their typed parsing of convention strings is not part of this model. It is the abstract `ConventionLookup` parameter.
- `Diagnostic.Create`, `Location.Create` and `ReportDiagnostic`: a finding is the `Diagnostic` record, and reporting appends it to the returned sequence. The descriptor's description, help link and custom tags are not modelled. A null list of additional locations is modelled as the empty sequence.
- `LocalizableStringWithArguments.GetText` and `GetHash`: string formatting and localisation are not modelled. Interpolation of an arbitrary object is given by the text its `ToString` produces.
- The unreachable `default:` branches that throw in the two severity switches: the Dafny enumerations are closed, so these branches do not exist.
- `OptionKey` compares options by reference in the source. The model compares `FormattingOption` values.
- A default (uninitialised) storage-location array is treated like an empty one.
- `LocalizableStringWithArguments.AreEqual` takes an arbitrary object in the source. An object of another type is modelled as null, since the source's `as` cast makes it null.
- `LocalizableStringWithArguments.SequenceEqual` takes arbitrary enumerables in the source. It is modelled on arrays, the only kind its caller passes.
- CSharpFormatting.TryParseBool: a simplified `Boolean.TryParse`. It ignores ASCII letter case only, and does not trim surrounding white space or trailing null characters.
- EditorConfig.IsEditorConfigStorageByName: `String.StartsWith` uses culture-sensitive comparison in the source. The model compares characters ordinally.
- Text offsets: a string is a sequence of abstract characters (Unicode scalar values), while Roslyn's spans count UTF-16 code units. Text outside the Basic Multilingual Plane therefore has different offsets in the model.
