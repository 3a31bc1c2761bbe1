/** What the kernel answers at once to an overlapped send or receive. */
module KernelAnswer {
  /** Taken, with a completion to come; or refused, where a `reset` error disconnects. */
  datatype Kernel = Taken | RefusedNow(reset: bool)
}
