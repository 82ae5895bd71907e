/** The failure-mode labels that the referring-expression database attaches to a model output. */
module FailureModes {

  /** `Other` carries the database index of any label the deferral loop does not single out. */
  datatype FailureMode = Correct | MissedDetection | Undefined | Other(index: int)
}
