/** The transition table of demo-dh/common/island.c. */
module Island {
  datatype Land = Null | Idle | Tx | Rx

  datatype Ticket = IdleToIdle | IdleToTx | TxToIdle | IdleToRx | RxToRx | RxToIdle

  datatype Ship = Ship(from: Land, to: Land, ticket: Ticket)

  const TICKETS: seq<Ship> := [
    Ship(Idle, Idle, IdleToIdle), Ship(Idle, Tx, IdleToTx), Ship(Tx, Idle, TxToIdle),
    Ship(Idle, Rx, IdleToRx), Ship(Rx, Rx, RxToRx), Ship(Rx, Idle, RxToIdle)]

  function Origin(t: Ticket): Land {
    match t
    case TxToIdle => Tx
    case RxToRx => Rx
    case RxToIdle => Rx
    case _ => Idle
  }

  function Destination(t: Ticket): Land {
    match t
    case IdleToTx => Tx
    case IdleToRx => Rx
    case RxToRx => Rx
    case _ => Idle
  }

  /** A ticket takes a traveller from its origin to its destination, and from anywhere else
      nowhere. */
  function TakeShip(from: Land, t: Ticket): Land {
    if from == Origin(t) then Destination(t) else Null
  }

  /** The search of the table finds exactly that. */
  method FindShip(from: Land, t: Ticket) returns (to: Land)
    ensures to == TakeShip(from, t)
  {
    to := Null;
    var i := 0;
    while i < |TICKETS|
      invariant 0 <= i <= |TICKETS| && to == Null
      invariant forall k :: 0 <= k < i ==> TICKETS[k].from != from || TICKETS[k].ticket != t
    {
      if TICKETS[i].from == from && TICKETS[i].ticket == t {
        to := TICKETS[i].to;
        break;
      }
      i := i + 1;
    }
    if to == Null {
      assert TICKETS[0].ticket == IdleToIdle && TICKETS[1].ticket == IdleToTx && TICKETS[2].ticket == TxToIdle;
      assert TICKETS[3].ticket == IdleToRx && TICKETS[4].ticket == RxToRx && TICKETS[5].ticket == RxToIdle;
    }
  }
}
