/** The ways a fetch can fail. Every failure in the fetchers is a Python
    exception that propagates to the dashboard, which shows its message. */
module Errors {

  datatype Error =
    /** A period that the hand-curated lookup does not list (a ValueError). */
    | UnsupportedPeriod(message: string)
    /** No column passed the provider-column heuristics (a ValueError). */
    | SchemaMismatch(message: string)
    /** The download failed: a network exception or a non-success status. */
    | Transport(url: string)
    /** A workbook without sheets or an archive without members (an IndexError on `[0]`). */
    | NoEntries(what: string)
}
