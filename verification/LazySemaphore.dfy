/** The lazily signalled semaphore that message threads and sample allocators
    share: a thread about to wait only counts itself in `lWaiting`, and the
    semaphore is released, once for each of them, when there is something to
    wake up for. */
module LazySemaphore {

  const SEM_MAX: nat := 0x7FFF_FFFF

  datatype Sem = Sem(lWaiting: nat, count: nat) {

    /** `SetWaiting`, inside the lock. */
    function SetWaiting(): Sem {
      Sem(lWaiting + 1, count)
    }

    /** Release the semaphore by `lWaiting` and clear it, inside the lock.
        A release past the maximum count is refused and changes nothing. */
    function Notify(): Sem {
      Sem(0, if count + lWaiting <= SEM_MAX then count + lWaiting else count)
    }

    /** The wait, which takes one from the count. */
    function Wait(): Sem
      requires count > 0
    {
      Sem(lWaiting, count - 1)
    }

    /** Wake-ups promised: those released and those still to be released. */
    function Promised(): nat {
      lWaiting + count
    }
  }
}
