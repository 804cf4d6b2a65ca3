/**
 * src/error.rs: the binding's own error type, an error kind with the errno
 * it stands for.
 */
module Errors {
  import opened Sys

  datatype ErrorKind = NoMem | InvalidInput | Io(errno: CInt)

  datatype Error = Error(kind: ErrorKind)

  /** `error::new`. */
  function New(kind: ErrorKind): (e: Error)
    ensures Kind(e) == kind
  {
    Error(kind)
  }

  /** `Error::kind`: the kind an error was built from. */
  function Kind(e: Error): (k: ErrorKind)
    ensures e == Error(k)
  {
    e.kind
  }

  /** The errno `strerror` looks up for an error. */
  function StrerrorErrno(e: Error): (n: CInt)
    ensures e.kind == NoMem ==> n == ENOMEM
    ensures e.kind == InvalidInput ==> n == EINVAL
    ensures e.kind.Io? ==> n == e.kind.errno
  {
    match e.kind
    case NoMem => ENOMEM
    case InvalidInput => EINVAL
    case Io(errno) => errno
  }

  /** An error's kind is in canonical form: the two named errnos never appear under `Io`. */
  predicate Canonical(e: Error) {
    e.kind.Io? ==> e.kind.errno != ENOMEM && e.kind.errno != EINVAL
  }

  /**
   * `error::from_errno`, reading a negative native return code: `-ENOMEM` is
   * `NoMem`, `-EINVAL` is `InvalidInput`, anything else is `Io(-errno)`.
   */
  function FromErrno(errno: CInt): (e: Error)
    ensures Canonical(e)
    ensures StrerrorErrno(e) == WrappingNeg(errno)
  {
    var n := WrappingNeg(errno);
    if n == ENOMEM then Error(NoMem)
    else if n == EINVAL then Error(InvalidInput)
    else Error(Io(n))
  }

  /** On canonical errors, `from_errno` of the negated strerror errno is the identity. */
  lemma FromErrnoInvertsStrerror(e: Error)
    requires Canonical(e) && StrerrorErrno(e) != INT_MIN
    ensures FromErrno(-StrerrorErrno(e)) == e
  {
  }

  /** For every positive errno, the error `from_errno(-n)` builds reports `n` again. */
  lemma ErrnoRoundTrip(n: CInt)
    requires n > 0
    ensures StrerrorErrno(FromErrno(-n)) == n
    ensures FromErrno(-n).kind == (if n == ENOMEM then NoMem else if n == EINVAL then InvalidInput else Io(n))
  {
  }
}
