/**
 * What the sender of DTLS flights keeps over every operation: its position in the flight agrees with
 * what has been written, and its counters with what has been sealed.
 */
module Account {
  import opened Bytes
  import opened Outgoing
  import opened Flights
  import opened Numbering

  predicate Accounted(o: Outbox)
  {
    OutboxOk(o) && Positioned(o) && FlightOk(o) && NumbersOk(o)
  }

  lemma AccountedParts(o: Outbox)
    requires Accounted(o)
    ensures OutboxOk(o) && Positioned(o) && (o.hasReply ==> o.complete)
  {
  }

  lemma AccountedFlight(o: Outbox)
    requires Accounted(o)
    ensures OutboxOk(o) && Positioned(o) && FlightOk(o)
  {
  }

  lemma ClearAccounted(o: Outbox)
    requires Accounted(o)
    ensures Accounted(Clear(o))
  {
    hide NumbersOk, Path;
    ClearKeeps(o);
    NumbersSame(o, Clear(o));
  }

  lemma AddAccounted(o: Outbox, isCcs: bool, data: seq<byte>)
    requires Accounted(o) && AddOutgoing(o, isCcs, data).Some?
    ensures Accounted(AddOutgoing(o, isCcs, data).value)
  {
    hide NumbersOk, FlightOk, Content;
    AddKeepsFlight(o, isCcs, data);
    NumbersSame(o, AddOutgoing(o, isCcs, data).value);
  }

  lemma RewindAccounted(o: Outbox)
    requires Accounted(o)
    ensures Accounted(Rewound(o))
  {
    hide NumbersOk, Path, Content;
    PathEmpty(o.messages, 0, 0);
    NumbersSame(o, Rewound(o));
  }

  /** Flushing and answering a flight do not touch the account. */
  lemma FlagsAccounted(o: Outbox, o': Outbox)
    requires Accounted(o) && o' == o.(complete := o'.complete, hasReply := o'.hasReply) && (o'.hasReply ==> o'.complete)
    ensures Accounted(o')
  {
    hide NumbersOk, Path, Content, Finals;
    PositionedAgain(o, o');
    NumbersSame(o, o');
  }

  lemma EpochAccounted(o: Outbox, aead: Aead)
    requires Accounted(o)
    ensures Accounted(SetWriteState(o, aead))
  {
    hide NumbersOk, Path, Content, Finals;
    PositionedAgain(o, SetWriteState(o, aead));
    EpochNumbers(o, aead);
  }

  lemma SendAccounted(o: Outbox, mtu: nat, taken: bool)
    requires Accounted(o) && o.written < |o.messages|
    ensures Accounted(SendPacket(o, mtu, taken)) && SendPacket(o, mtu, taken).messages == o.messages
  {
    hide SendPacket, NumbersOk, FlightOk, Positioned;
    SendKeepsFlight(o, mtu, taken);
    SendKeepsNumbers(o, mtu, taken);
  }
}
