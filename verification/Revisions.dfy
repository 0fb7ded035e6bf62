/** The key that revisioned tables share. */
module Revisions {

  /** An identity with a revision number. */
  datatype Rev = Rev(id: string, revision: int)
}
