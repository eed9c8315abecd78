/** The one diagnostic the macros emit, and the error value that carries it. */
module Diagnostics {
  import opened Syntax

  datatype DiagnosticSeverity = Error | Warning | Note | Remark

  datatype MessageID = MessageID(domain: string, id: string)

  /** A message with its identifier and severity. */
  datatype LockedWeakReferenceDiagnostic = LockedWeakReferenceDiagnostic(
    message: string,
    diagnosticID: MessageID,
    severity: DiagnosticSeverity)

  /** A diagnostic attached to a syntax node; every node the macros report on is their own attribute. */
  datatype Diagnostic = Diagnostic(node: Attribute, message: LockedWeakReferenceDiagnostic)

  /** What an expansion throws: a list of diagnostics. */
  datatype DiagnosticsError = DiagnosticsError(diagnostics: seq<Diagnostic>)

  /** The record built from a message alone: the identifier and the severity take their default values. */
  function MakeDiagnostic(message: string): (d: LockedWeakReferenceDiagnostic)
    ensures d.message == message
    ensures d.diagnosticID.domain == "LockedWeakReference"
    ensures d.diagnosticID.id == "invalid specifier"
    ensures d.severity == Error
  {
    LockedWeakReferenceDiagnostic(message, MessageID("LockedWeakReference", "invalid specifier"), Error)
  }

  /** Every diagnostic of the error is an error-severity diagnostic with the fixed identifier. */
  ghost predicate WellFormedError(e: DiagnosticsError)
  {
    forall k :: 0 <= k < |e.diagnostics| ==>
      e.diagnostics[k].message.severity == Error
      && e.diagnostics[k].message.diagnosticID == MessageID("LockedWeakReference", "invalid specifier")
  }
}
