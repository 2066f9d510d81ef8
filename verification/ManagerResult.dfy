/** What a manager answers to the multiplexer after handling an event. */
module ManagerResult {
  datatype Verdict = Ok | Done | TemporaryError | Error
}
