/** The alert objects both monitor windows receive from the alert runners. */
module AlertInput {
  import opened Wrappers

  /**
    An alert as the windows see it.  The objects are duck-typed, so any
    attribute may be missing; `None` is an attribute that `hasattr` does
    not find and `getattr` replaces by its default.
   */
  datatype IncomingAlert = IncomingAlert(
    code: Option<string>,
    stockName: Option<string>,
    name: Option<string>,
    descr: Option<string>)
}
