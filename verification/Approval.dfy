/** What approvers are asked about, and what they answer. */
module Approval {

  datatype Risk = ReadOnly | Write | Destructive

  datatype Verdict = Allow | Deny
}
