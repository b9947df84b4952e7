/** Result types shared by the other modules. */
module Wrappers {

  datatype Option<+T> = None | Some(value: T)

  /** The error codes of the library that the models below return. */
  datatype Error =
    | OK
    | EAGAIN
    | ENOMEM
    | ENOENT
    | EINVAL
    | EEXIST
    | EACCES
    | EOVERFLOW
    | EPATH_MALFORMED
    | EPATH_NOT_FOUND
    | EPATH_NOT_ALIAS
    | ETRAIT_NOT_FOUND
    | ESEQNUM_MISMATCH
    | EVALUE_TYPE_MISMATCH
    | ECANCELLED
}
