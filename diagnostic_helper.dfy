/**
 * Severity mapping and diagnostic construction (DiagnosticHelper): the two
 * closed severity enumerations, the maps between them, the defaulting rule
 * that yields a diagnostic's reported severity, warning level and suppression
 * flag, and the message string that carries format arguments.
 */
module DiagnosticHelper {
  import opened Wrappers
  import opened Text

  /** How a diagnostic is to be reported, as configured (ReportDiagnostic). */
  datatype ReportDiagnostic = Default | Error | Warn | Info | Hidden | Suppress

  /** The severity a reported diagnostic carries (DiagnosticSeverity). */
  datatype DiagnosticSeverity = Hidden | Info | Warning | Error

  /** The exception raised for a null argument; it names the parameter. */
  datatype ArgumentNullException = ArgumentNullException(paramName: string)

  /** A resource-backed message format; compared by value. */
  datatype LocalizableString = LocalizableString(resourceName: string)

  /**
   * A message argument as the interpolation `$"{arg}"` sees it: null, a string,
   * or any other object, given by the text its ToString produces.
   */
  datatype FormatArgument = NullArgument | StringArgument(s: string) | ObjectArgument(display: string)

  /** The message of a diagnostic: the descriptor's format alone, or with its arguments as strings. */
  datatype Message =
    | Format(format: LocalizableString)
    | FormatWithArguments(format: LocalizableString, arguments: seq<string>)

  datatype DiagnosticDescriptor = DiagnosticDescriptor(
    id: string,
    category: string,
    title: LocalizableString,
    messageFormat: LocalizableString,
    defaultSeverity: DiagnosticSeverity,
    isEnabledByDefault: bool)

  datatype Diagnostic = Diagnostic(
    id: string,
    category: string,
    message: Message,
    severity: DiagnosticSeverity,
    defaultSeverity: DiagnosticSeverity,
    isEnabledByDefault: bool,
    warningLevel: nat,
    isSuppressed: bool,
    title: LocalizableString,
    location: TextSpan,
    additionalLocations: seq<TextSpan>,
    properties: map<string, string>)

  /** The equivalent DiagnosticSeverity of a ReportDiagnostic; none for Suppress and Default. */
  function ToDiagnosticSeverity(reportDiagnostic: ReportDiagnostic): (r: Option<DiagnosticSeverity>)
    ensures r.None? <==> reportDiagnostic == ReportDiagnostic.Suppress || reportDiagnostic == ReportDiagnostic.Default
    ensures r == Some(DiagnosticSeverity.Error) <==> reportDiagnostic == ReportDiagnostic.Error
    ensures r == Some(DiagnosticSeverity.Warning) <==> reportDiagnostic == ReportDiagnostic.Warn
    ensures r == Some(DiagnosticSeverity.Info) <==> reportDiagnostic == ReportDiagnostic.Info
    ensures r == Some(DiagnosticSeverity.Hidden) <==> reportDiagnostic == ReportDiagnostic.Hidden
  {
    match reportDiagnostic
    case Error => Some(DiagnosticSeverity.Error)
    case Warn => Some(DiagnosticSeverity.Warning)
    case Info => Some(DiagnosticSeverity.Info)
    case Hidden => Some(DiagnosticSeverity.Hidden)
    case Suppress => None
    case Default => None
  }

  /** The equivalent ReportDiagnostic of a DiagnosticSeverity; mapping it back gives the severity again. */
  function ToReportDiagnostic(diagnosticSeverity: DiagnosticSeverity): (r: ReportDiagnostic)
    ensures r != ReportDiagnostic.Default && r != ReportDiagnostic.Suppress
    ensures ToDiagnosticSeverity(r) == Some(diagnosticSeverity)
  {
    match diagnosticSeverity
    case Hidden => ReportDiagnostic.Hidden
    case Info => ReportDiagnostic.Info
    case Warning => ReportDiagnostic.Warn
    case Error => ReportDiagnostic.Error
  }

  /** Every ReportDiagnostic that has an equivalent severity is recovered from it. */
  lemma ReportDiagnosticRoundTrip(reportDiagnostic: ReportDiagnostic)
    requires ToDiagnosticSeverity(reportDiagnostic).Some?
    ensures ToReportDiagnostic(ToDiagnosticSeverity(reportDiagnostic).value) == reportDiagnostic
  {
  }

  /** Replaces Default by the given default severity; any other value is kept. */
  function WithDefaultSeverity(reportDiagnostic: ReportDiagnostic, defaultSeverity: DiagnosticSeverity): (r: ReportDiagnostic)
    ensures r != ReportDiagnostic.Default
    ensures reportDiagnostic != ReportDiagnostic.Default ==> r == reportDiagnostic
    ensures reportDiagnostic == ReportDiagnostic.Default ==> ToDiagnosticSeverity(r) == Some(defaultSeverity)
  {
    if reportDiagnostic != ReportDiagnostic.Default then reportDiagnostic
    else ToReportDiagnostic(defaultSeverity)
  }

  /** The text an argument contributes through string interpolation; null gives the empty string. */
  function Interpolate(argument: FormatArgument): string {
    match argument
    case NullArgument => ""
    case StringArgument(s) => s
    case ObjectArgument(display) => display
  }

  /** The arguments as strings, one per argument and in order. */
  function InterpolateAll(arguments: seq<FormatArgument>): (r: seq<string>)
    ensures |r| == |arguments|
    ensures forall k :: 0 <= k < |arguments| ==> r[k] == Interpolate(arguments[k])
  {
    seq(|arguments|, k requires 0 <= k < |arguments| => Interpolate(arguments[k]))
  }

  /**
   * Creates a diagnostic from a descriptor (null descriptors are rejected):
   * the reported severity is the effective one mapped to a DiagnosticSeverity,
   * or the descriptor's default when it has none; the warning level is 0 for
   * errors (after defaulting) and 1 otherwise; Suppress marks it suppressed.
   */
  function Create(
    descriptor: Option<DiagnosticDescriptor>,
    location: TextSpan,
    effectiveSeverity: ReportDiagnostic,
    additionalLocations: seq<TextSpan>,
    properties: map<string, string>,
    messageArgs: Option<seq<FormatArgument>>): (r: Result<Diagnostic, ArgumentNullException>)
    ensures descriptor.None? <==> r == Failure(ArgumentNullException("descriptor"))
    ensures r.Success? ==>
      var d, diagnostic := descriptor.value, r.value;
      && diagnostic.id == d.id && diagnostic.category == d.category && diagnostic.title == d.title
      && diagnostic.defaultSeverity == d.defaultSeverity
      && diagnostic.isEnabledByDefault == d.isEnabledByDefault
      && diagnostic.location == location
      && diagnostic.additionalLocations == additionalLocations
      && diagnostic.properties == properties
      && (messageArgs.None? || |messageArgs.value| == 0 ==> diagnostic.message == Format(d.messageFormat))
      && (messageArgs.Some? && |messageArgs.value| > 0 ==>
            diagnostic.message == FormatWithArguments(d.messageFormat, InterpolateAll(messageArgs.value)))
      && (effectiveSeverity == ReportDiagnostic.Default || effectiveSeverity == ReportDiagnostic.Suppress ==>
            diagnostic.severity == d.defaultSeverity)
      && (effectiveSeverity != ReportDiagnostic.Default && effectiveSeverity != ReportDiagnostic.Suppress ==>
            ToReportDiagnostic(diagnostic.severity) == effectiveSeverity)
      && diagnostic.warningLevel <= 1
      && (diagnostic.warningLevel == 0 <==>
            effectiveSeverity == ReportDiagnostic.Error
            || (effectiveSeverity == ReportDiagnostic.Default && d.defaultSeverity == DiagnosticSeverity.Error))
      && (diagnostic.isSuppressed <==> effectiveSeverity == ReportDiagnostic.Suppress)
  {
    if descriptor.None? then Failure(ArgumentNullException("descriptor"))
    else
      var d := descriptor.value;
      var message :=
        if messageArgs.None? || |messageArgs.value| == 0 then Format(d.messageFormat)
        else FormatWithArguments(d.messageFormat, InterpolateAll(messageArgs.value));
      var severity := ToDiagnosticSeverity(effectiveSeverity).GetOr(d.defaultSeverity);
      Success(Diagnostic(
        d.id,
        d.category,
        message,
        severity,
        d.defaultSeverity,
        d.isEnabledByDefault,
        if WithDefaultSeverity(effectiveSeverity, d.defaultSeverity) == ReportDiagnostic.Error then 0 else 1,
        effectiveSeverity == ReportDiagnostic.Suppress,
        d.title,
        location,
        additionalLocations,
        properties))
  }

  /** A message format together with its arguments rendered as strings. */
  class LocalizableStringWithArguments {
    const messageFormat: LocalizableString
    const formatArguments: array<string>

    /** The message this object stands for, as Create describes it. */
    function AsMessage(): Message
      reads formatArguments
    {
      FormatWithArguments(messageFormat, formatArguments[..])
    }

    /** Stores the format and one string per argument, in order. */
    constructor (messageFormat: LocalizableString, formatArguments: seq<FormatArgument>)
      ensures this.messageFormat == messageFormat
      ensures fresh(this.formatArguments)
      ensures this.formatArguments[..] == InterpolateAll(formatArguments)
      ensures AsMessage() == FormatWithArguments(messageFormat, InterpolateAll(formatArguments))
    {
      var arguments := new string[|formatArguments|];
      for i := 0 to |formatArguments|
        invariant forall k :: 0 <= k < i ==> arguments[k] == Interpolate(formatArguments[k])
      {
        arguments[i] := Interpolate(formatArguments[i]);
      }
      this.messageFormat := messageFormat;
      this.formatArguments := arguments;
    }

    /** The constructor's null checks: a null format or argument list is rejected, the format first. */
    static method New(messageFormat: Option<LocalizableString>, formatArguments: Option<seq<FormatArgument>>)
      returns (r: Result<LocalizableStringWithArguments, ArgumentNullException>)
      ensures messageFormat.None? ==> r == Failure(ArgumentNullException("messageFormat"))
      ensures messageFormat.Some? && formatArguments.None? ==> r == Failure(ArgumentNullException("formatArguments"))
      ensures messageFormat.Some? && formatArguments.Some? ==>
        && r.Success? && fresh(r.value) && fresh(r.value.formatArguments)
        && r.value.messageFormat == messageFormat.value
        && r.value.formatArguments[..] == InterpolateAll(formatArguments.value)
    {
      if messageFormat.None? {
        return Failure(ArgumentNullException("messageFormat"));
      }
      if formatArguments.None? {
        return Failure(ArgumentNullException("formatArguments"));
      }
      var s := new LocalizableStringWithArguments(messageFormat.value, formatArguments.value);
      return Success(s);
    }

    /** Equal to another such string exactly when the formats and all argument strings agree. */
    method AreEqual(other: LocalizableStringWithArguments?) returns (r: bool)
      ensures r <==> other != null && messageFormat == other.messageFormat
                     && formatArguments[..] == other.formatArguments[..]
    {
      r := other != null && messageFormat == other.messageFormat;
      if r {
        r := SequenceEqual(formatArguments, other.formatArguments, (a: string, b: string) => a == b);
        assert r ==> formatArguments[..] == other.formatArguments[..];
      }
    }

    /**
     * Compares two possibly-null sequences: the same reference is equal, a
     * null and a non-null one are not, and otherwise they are equal exactly
     * when they have the same length and the comparer holds at every position.
     */
    static method SequenceEqual<T>(first: array?<T>, second: array?<T>, comparer: (T, T) -> bool) returns (r: bool)
      ensures first == second ==> r
      ensures (first == null) != (second == null) ==> !r
      ensures first != null && second != null && first != second ==>
        (r <==> first.Length == second.Length
                && forall k :: 0 <= k < first.Length ==> comparer(first[k], second[k]))
    {
      if first == second {
        return true;
      }
      if first == null || second == null {
        return false;
      }
      var i := 0;
      while i < first.Length
        invariant 0 <= i <= first.Length && i <= second.Length
        invariant forall k :: 0 <= k < i ==> comparer(first[k], second[k])
      {
        if i >= second.Length || !comparer(first[i], second[i]) {
          return false;
        }
        i := i + 1;
      }
      if i < second.Length {
        return false;
      }
      return true;
    }
  }
}
