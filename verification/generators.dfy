/** The injectable ID and clock providers (pkg/idgenerator,
    pkg/timegenerator), replaced by deterministic stateful sources. */
module Generators {
  import opened Models

  /** Hands out identifiers from a counter: every draw is non-nil and differs
      from every earlier and later draw. */
  class IdSupply {
    var next: nat

    /** A supply whose first draw has serial `start`; a supply started
        above every serial of a loaded snapshot never draws a stored key. */
    constructor (start: nat)
      ensures next == start
    {
      next := start;
    }

    /** The identifier the k-th draw from now will return: non-nil, and
        never one of the identifiers drawn so far. */
    function Peek(k: nat): (id: Id)
      reads this
      ensures !id.IsNil() && id.serial >= next
    {
      Ksuid(next + k)
    }

    method Generate() returns (id: Id)
      modifies this
      ensures id == old(Peek(0))
      ensures next == old(next) + 1
    {
      id := Ksuid(next);
      next := next + 1;
    }
  }

  /** A clock whose reading moves strictly forward every time it is read. */
  class Clock {
    var reading: Time

    constructor (start: Time)
      ensures reading == start
    {
      reading := start;
    }

    method Now() returns (t: Time)
      modifies this
      ensures t == old(reading)
      ensures reading > t
    {
      t := reading;
      reading := reading + 1;
    }
  }
}
