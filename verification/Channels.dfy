/** The channel a stream's events go into, one by one, to a client that may go
    away (`src/service.rs`). */
module Channels {

  /** What a client that goes away after `patience` events has received. */
  function Seen<E>(all: seq<E>, patience: nat): (seen: seq<E>)
    ensures seen <= all
    ensures |seen| == if |all| <= patience then |all| else patience
  {
    if |all| <= patience then all else all[..patience]
  }

  lemma WholeSeen<E>(all: seq<E>, patience: nat)
    ensures |all| <= patience ==> Seen(all, patience) == all
  {
  }

  /** The channel to the client. A client that never goes away is one whose
      patience outlasts the stream. */
  class Channel<E> {
    const patience: nat
    var sent: seq<E>

    ghost predicate Valid()
      reads this
    {
      |sent| <= patience
    }

    constructor (patience: nat)
      ensures Valid() && sent == [] && this.patience == patience
    {
      this.patience := patience;
      sent := [];
    }

    /** `send_event`: the event arrives, and `ok`, exactly while the client still
        has patience for it. */
    method Send(e: E) returns (ok: bool)
      requires Valid()
      modifies this
      ensures Valid() && sent == Seen(old(sent) + [e], patience)
      ensures ok <==> |old(sent)| + 1 <= patience
    {
      if |sent| == patience {
        assert (sent + [e])[..patience] == sent;
        return false;
      }
      sent := sent + [e];
      return true;
    }
  }

  /** The events of `ev` went to `tx` after `before`, up to the client's
      patience; `ok` says that all of them did. */
  ghost predicate Delivered<E>(before: seq<E>, ev: seq<E>, tx: Channel<E>, ok: bool)
    reads tx
  {
    && tx.Valid()
    && tx.sent == Seen(before + ev, tx.patience)
    && (ok <==> |before + ev| <= tx.patience)
  }

  /** Two deliveries in a row are one. */
  lemma DeliveredThen<E>(before: seq<E>, a: seq<E>, b: seq<E>, patience: nat)
    ensures |before + a| <= patience ==> Seen(before + a, patience) + b == before + (a + b)
    ensures |before + a| > patience ==>
              Seen(before + (a + b), patience) == Seen(before + a, patience) && |before + (a + b)| > patience
  {
    assert before + (a + b) == (before + a) + b;
    if |before + a| > patience {
      assert ((before + a) + b)[..patience] == (before + a)[..patience];
    }
  }
}
