/** The error type of the later prototypes: a key-fetch failure or a verification
    failure, each carrying its message. */
module Errors {
  datatype DkimError = DkimKeyFetch(msg: string) | DkimVerifier(msg: string)
}
