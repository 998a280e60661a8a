/** What the setters of types.c return. */
module Attributes {

  /** An error the code names, or what errno was left at, zero for nothing. */
  datatype Errno = EIO | EINVAL | ENOSPC | Left(code: nat)

  /** The bytes taken, or a negated errno, which is zero when nothing was left there. */
  datatype Written = Took(n: nat) | Refused(errno: Errno)
}
