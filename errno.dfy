/** The Linux error numbers the two HAL modules return, negated, to their callers. */
module Errno {
  /** Out of memory: allocation failed, or the PCM device could not be made ready. */
  const ENOMEM: int := 12
  /** Invalid argument: a device was opened under the wrong interface name. */
  const EINVAL: int := 22
}
