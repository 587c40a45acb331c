/** The server's capacity limit (Server.py): `capacity_sem`, a counting semaphore that
    starts at `MAX_CLIENTS`. The accept loop takes a slot without blocking and the handler
    gives it back when it finishes. */
module Admission {
  /** How many handlers may run at once. */
  const MAX_CLIENTS: nat := 3

  /** `threading.Semaphore`: a counter that `acquire` takes down and `release` takes up.
      Acquiring and releasing are atomic steps. */
  class Semaphore {
    var value: nat

    constructor (initial: nat)
      ensures value == initial
    {
      value := initial;
    }

    /** `acquire(blocking=False)`: takes a slot when one is free and says whether it did. */
    method TryAcquire() returns (acquired: bool)
      modifies this
      ensures acquired == (old(value) > 0)
      ensures acquired ==> value == old(value) - 1
      ensures !acquired ==> value == old(value) == 0
    {
      if value > 0 {
        value := value - 1;
        acquired := true;
      } else {
        acquired := false;
      }
    }

    /** `release()`: gives a slot back. */
    method Release()
      modifies this
      ensures value == old(value) + 1
    {
      value := value + 1;
    }
  }
}
