/** Managers: the operations they wait for, the mask that records them, and what they may ask of a multiplexer. */
module Managers {
  // -- Operations and masks ---------------------------------------------------

  type Op = bv8
  const NONE: Op := 0
  const READ: Op := 1
  const WRITE: Op := 2
  const READ_WRITE: Op := 3
  const READ_ACCEPT: Op := 5

  predicate Has(mask: Op, op: Op) {
    mask & op != NONE
  }

  predicate Holds(mask: Op, op: Op) {
    mask & op == op
  }

  function Joined(mask: Op, op: Op): Op {
    mask | op
  }

  function Cleared(mask: Op, op: Op): Op {
    mask & !op
  }

  // What a manager does while it handles an event.
  datatype Action = Register(fd: nat, op: Op) | Adopt(fd: nat, initial: Op) | RaiseShutdown

  lemma MaskLaws(mask: Op, op: Op)
    requires mask <= READ_WRITE && op <= READ_WRITE
    ensures op == NONE || op == READ || op == WRITE || op == READ_WRITE
    ensures Joined(mask, op) <= READ_WRITE
    ensures Cleared(mask, op) <= READ_WRITE
    ensures Has(Joined(mask, op), READ) <==> Has(mask, READ) || Has(op, READ)
    ensures Has(Joined(mask, op), WRITE) <==> Has(mask, WRITE) || Has(op, WRITE)
    ensures Has(Cleared(mask, op), READ) <==> Has(mask, READ) && !Has(op, READ)
    ensures Has(Cleared(mask, op), WRITE) <==> Has(mask, WRITE) && !Has(op, WRITE)
    ensures mask == NONE <==> !Has(mask, READ) && !Has(mask, WRITE)
    ensures mask == READ_WRITE <==> Has(mask, READ) && Has(mask, WRITE)
    ensures mask == READ <==> Has(mask, READ) && !Has(mask, WRITE)
    ensures mask == WRITE <==> !Has(mask, READ) && Has(mask, WRITE)
    ensures Has(mask, READ_ACCEPT) <==> Has(mask, READ)
    ensures Cleared(mask, READ_ACCEPT) == Cleared(mask, READ)
  {
  }

  lemma UnchangedMask(mask: Op, op: Op)
    ensures !Has(mask, op) ==> Cleared(mask, op) == mask
    ensures Holds(mask, op) <==> Joined(mask, op) == mask
    ensures Joined(NONE, op) == op && (Holds(NONE, op) <==> op == NONE)
  {
  }

  class Manager {
    const fd: nat
    var mask: Op

    constructor (fd: nat)
      ensures this.fd == fd && mask == NONE
    {
      this.fd, mask := fd, NONE;
    }

    method MaskAdd(flag: Op) returns (changed: bool)
      modifies this`mask
      ensures changed <==> !Holds(old(mask), flag)
      ensures mask == Joined(old(mask), flag)
    {
      if mask & flag == flag {
        return false;
      }
      mask := mask | flag;
      changed := true;
    }

    method MaskDel(flag: Op) returns (changed: bool)
      modifies this`mask
      ensures changed <==> Has(old(mask), flag)
      ensures mask == Cleared(old(mask), flag)
    {
      if mask & flag == NONE {
        return false;
      }
      mask := mask & !flag;
      changed := true;
    }
  }
}
