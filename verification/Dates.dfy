/** Calendar days. */
module Dates {
  /** A proleptic day number. */
  type Date = int
}
