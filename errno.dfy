/** The kernel error numbers the drivers return (negated, as the kernel does). */
module Errno {
  /** Out of memory. */
  const ENOMEM: int := 12
  /** Invalid argument. */
  const EINVAL: int := 22
  /** The largest error number an error pointer can carry (`MAX_ERRNO`). */
  const MAX_ERRNO: int := 4095
}
