/** The report that pre-flight checks are added to. */
module PreflightReports {
  import opened Options

  /** A check's verdict, and whether it repaired the testbed where it records that. */
  datatype Check = Check(name: string, passed: bool, repaired: Option<bool>)

  class PreflightReport {
    var checks: seq<Check>

    constructor ()
      ensures checks == []
    {
      checks := [];
    }

    method Add(check: Check)
      modifies this
      ensures checks == old(checks) + [check]
    {
      checks := checks + [check];
    }
  }
}
