/** What a multiplexer is to keep track of, without masks, filters or kernel: who is registered, who waits to read and
    who waits to write. */
module Interest {
  import opened Managers

  datatype Interest = Interest(registered: set<nat>, readers: set<nat>, writers: set<nat>)

  // Nobody waits without being registered.
  predicate Proper(i: Interest) {
    i.readers <= i.registered && i.writers <= i.registered
  }

  function When(b: bool, fd: nat): set<nat> {
    if b then {fd} else {}
  }

  // The first manager of a descriptor is kept.
  function Joining(i: Interest, fd: nat, toRead: bool, toWrite: bool): Interest {
    if fd in i.registered then i
    else Interest(i.registered + {fd}, i.readers + When(toRead, fd), i.writers + When(toWrite, fd))
  }

  function Wanting(i: Interest, fd: nat, toRead: bool, toWrite: bool): Interest {
    i.(readers := i.readers + When(toRead, fd), writers := i.writers + When(toWrite, fd))
  }

  function Leaving(i: Interest, fd: nat): Interest {
    Interest(i.registered - {fd}, i.readers - {fd}, i.writers - {fd})
  }

  // A manager that is done with the last thing it waits for leaves.
  function DoneReading(i: Interest, fd: nat): Interest {
    if fd in i.readers && fd !in i.writers then Leaving(i, fd) else i.(readers := i.readers - {fd})
  }

  function DoneWriting(i: Interest, fd: nat): Interest {
    if fd in i.writers && fd !in i.readers then Leaving(i, fd) else i.(writers := i.writers - {fd})
  }

  // Nobody but the keeper reads any more, and who does not write is gone.
  function ShuttingDown(i: Interest, keeper: nat): Interest {
    Interest(i.registered * (i.writers + {keeper}), i.readers * {keeper}, i.writers)
  }

  // The masks of registered managers, seen bit by bit.
  function Seen(masks: map<nat, Op>): (i: Interest)
    ensures Proper(i)
  {
    Interest(masks.Keys, set fd | fd in masks && Has(masks[fd], READ), set fd | fd in masks && Has(masks[fd], WRITE))
  }

  predicate Plain(masks: map<nat, Op>) {
    forall fd :: fd in masks ==> masks[fd] <= READ_WRITE
  }

  // Two registries look the same exactly if everybody is in both with the same bits.
  lemma SameSeen(masks: map<nat, Op>, i: Interest)
    requires Proper(i)
    ensures Seen(masks) == i <==> forall fd ::
              && (fd in masks <==> fd in i.registered)
              && (fd in masks ==> (Has(masks[fd], READ) <==> fd in i.readers))
              && (fd in masks ==> (Has(masks[fd], WRITE) <==> fd in i.writers))
  {
    var seen := Seen(masks);
    if forall fd ::
         && (fd in masks <==> fd in i.registered)
         && (fd in masks ==> (Has(masks[fd], READ) <==> fd in i.readers))
         && (fd in masks ==> (Has(masks[fd], WRITE) <==> fd in i.writers))
    {
      assert seen.registered == i.registered;
      assert seen.readers == i.readers;
      assert seen.writers == i.writers;
    }
  }

  lemma SeenWanting(masks: map<nat, Op>, fd: nat, mask: Op, toRead: bool, toWrite: bool)
    requires fd in masks
    requires Has(mask, READ) <==> Has(masks[fd], READ) || toRead
    requires Has(mask, WRITE) <==> Has(masks[fd], WRITE) || toWrite
    ensures Seen(masks[fd := mask]) == Wanting(Seen(masks), fd, toRead, toWrite)
  {
    hide Has;
    SameSeen(masks[fd := mask], Wanting(Seen(masks), fd, toRead, toWrite));
  }
}
