/** The diagnostics the package reports. */
module Diagnostics {
  import opened Syntax

  datatype DiagnosticId =
    | MFA001 | MFA002 | MFA003 | MFA004 | MFA005 | MFA006 | MFA007
    | MFA008 | MFA009 | MFA010 | MFA011 | MFA012 | MFA013 | MFA014

  /** A reported diagnostic and the syntax it is reported on. */
  datatype Diagnostic = Diagnostic(id: DiagnosticId, location: Expr)
}
