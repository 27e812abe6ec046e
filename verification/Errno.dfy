// The error numbers the modules return, from include/uapi/asm-generic/errno-base.h of the kernel.
module Errno {
  const ENXIO := 6
  const ENOMEM := 12
  const EINVAL := 22
}
