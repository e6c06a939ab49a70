/** The lifecycle states of a ticket. */
module Tickets {
  datatype Status =
    | Open | Triaged | NeedsInfo | Blocked | Acknowledged
    | Investigating | InvestigationComplete
    | InDevelopment | InReview | ReworkRequested
    | Testing | Deploying | Monitoring
    | Resolved | RolledBack | Closed | Verifying | Failed
}
