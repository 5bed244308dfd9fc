/** The error codes of osdev/include/kernel/errno.h that the modelled code returns. */
module Errno {
  const E_NOMEM := -1
  const E_INVAL := -2
  const E_EXISTS := -21
  const E_LIMIT := -24
  const E_PERM := -30
  const E_NOTFOUND := -90
}
