/** In-process transport: one first-in first-out queue per recipient. Arrival times are not modelled. */
module Network {

  // Node, committee and execution identifiers are only ever compared.
  type Id = nat

  class MemoryMailbox<M> {
    var queues: map<Id, seq<M>>

    function Pending(recipient: Id): (q: seq<M>)
      reads this
    {
      if recipient in queues then queues[recipient] else []
    }

    constructor ()
      ensures forall n :: Pending(n) == []
    {
      queues := map[];
    }

    method Send(recipient: Id, message: M)
      modifies this
      ensures Pending(recipient) == old(Pending(recipient)) + [message]
      ensures forall n :: n != recipient ==> Pending(n) == old(Pending(n))
    {
      queues := queues[recipient := Pending(recipient) + [message]];
    }

    // All messages delivered to the recipient so far, in order; none is left behind.
    method Drain(recipient: Id) returns (out: seq<M>)
      modifies this
      ensures out == old(Pending(recipient)) && Pending(recipient) == []
      ensures forall n :: n != recipient ==> Pending(n) == old(Pending(n))
    {
      out := [];
      var q := Pending(recipient);
      while q != []
        invariant out + q == old(Pending(recipient))
        decreases |q|
      {
        out, q := out + [q[0]], q[1..];
      }
      queues := queues[recipient := []];
    }
  }
}
