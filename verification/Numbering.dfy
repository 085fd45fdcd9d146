/**
 * The 48-bit sequence numbers of sealed DTLS records (dtls_seal_record in dtls_record.cc,
 * ssl_record_sequence_update in tls_record.cc): exactly when a number is used twice.
 */
module Numbering {
  import opened Bytes
  import opened Fragments
  import opened DtlsRecord
  import opened Outgoing
  import opened Flights

  /** How many records of an epoch have been sealed. */
  function Count(log: seq<Sealed>, epoch: nat): (n: nat)
    ensures n <= |log|
  {
    if log == [] then 0
    else Count(log[..|log| - 1], epoch) + if log[|log| - 1].epoch == epoch then 1 else 0
  }

  /** A 48-bit counter after n steps from zero. */
  function Wrap(n: nat): nat
  {
    n % SEQ_LIMIT
  }

  lemma WrapBelow(n: nat)
    ensures n < SEQ_LIMIT ==> Wrap(n) == n
    ensures Wrap(n) < SEQ_LIMIT && Wrap(SEQ_LIMIT) == 0
  {
  }

  lemma WrapNext(n: nat)
    ensures Wrap(n + 1) == if Wrap(n) + 1 < SEQ_LIMIT then Wrap(n) + 1 else 0
  {
  }

  /** Every record has the number of records sealed before it in its epoch, on 48 bits. */
  predicate Numbered(log: seq<Sealed>)
  {
    forall i :: 0 <= i < |log| ==> log[i].number == Wrap(Count(log[..i], log[i].epoch))
  }

  /** The counters say how many records the current and the previous epoch have sealed. */
  predicate NumbersOk(o: Outbox)
  {
    && Numbered(o.log)
    && o.number == Wrap(Count(o.log, o.wEpoch))
    && (o.wEpoch >= 1 ==> o.lastNumber == Wrap(Count(o.log, o.wEpoch - 1)))
    && forall i :: 0 <= i < |o.log| ==> o.log[i].epoch <= o.wEpoch
  }

  /** No two sealed records share epoch and number. */
  predicate Distinct(log: seq<Sealed>)
  {
    forall i, j :: 0 <= i < j < |log| ==> log[i].epoch != log[j].epoch || log[i].number != log[j].number
  }

  predicate Taken(log: seq<Sealed>, epoch: nat, number: nat)
  {
    exists i :: 0 <= i < |log| && log[i].epoch == epoch && log[i].number == number
  }

  // ---------------------------------------------------------------- counting

  lemma CountSnoc(log: seq<Sealed>, r: Sealed, epoch: nat)
    ensures Count(log + [r], epoch) == Count(log, epoch) + if r.epoch == epoch then 1 else 0
  {
    assert (log + [r])[..|log|] == log;
  }

  lemma {:induction false} CountMonotone(log: seq<Sealed>, i: nat, epoch: nat)
    requires i <= |log|
    ensures Count(log[..i], epoch) <= Count(log, epoch)
    ensures i < |log| && log[i].epoch == epoch ==> Count(log[..i], epoch) < Count(log, epoch)
    decreases |log| - i
  {
    if i < |log| {
      assert log[..i + 1] == log[..i] + [log[i]];
      CountSnoc(log[..i], log[i], epoch);
      CountMonotone(log, i + 1, epoch);
    } else {
      assert log[..i] == log;
    }
  }

  lemma {:induction false} CountNone(log: seq<Sealed>, epoch: nat)
    requires forall i :: 0 <= i < |log| ==> log[i].epoch != epoch
    ensures Count(log, epoch) == 0
  {
    if log != [] { CountNone(log[..|log| - 1], epoch); }
  }

  /** The k-th record of an epoch. */
  lemma {:induction false} KthRecord(log: seq<Sealed>, epoch: nat, k: nat) returns (i: nat)
    requires k < Count(log, epoch)
    ensures i < |log| && log[i].epoch == epoch && Count(log[..i], epoch) == k
  {
    var n := |log| - 1;
    if log[n].epoch == epoch && k == Count(log[..n], epoch) {
      i := n;
    } else {
      i := KthRecord(log[..n], epoch, k);
      assert log[..n][..i] == log[..i];
    }
  }

  // ---------------------------------------------------------------- sealing keeps the numbers

  lemma NumberedSnoc(log: seq<Sealed>, r: Sealed)
    requires Numbered(log) && r.number == Wrap(Count(log, r.epoch))
    ensures Numbered(log + [r])
  {
    hide Count, Wrap;
    var after := log + [r];
    forall i | 0 <= i < |after| ensures after[i].number == Wrap(Count(after[..i], after[i].epoch)) {
      assert after[..i] == if i < |log| then log[..i] else log;
    }
  }

  lemma SealRecordNumbers(o: Outbox, kind: nat, payload: seq<byte>, previous: bool, maxOut: nat)
    requires (previous ==> o.wEpoch >= 1) && NumbersOk(o)
    ensures NumbersOk(SealRecord(o, kind, payload, previous, maxOut).o)
  {
    hide Count, Wrap, UsedAead, Numbered;
    var s := SealRecord(o, kind, payload, previous, maxOut);
    if s.o != o {
      var r := s.o.log[|o.log|];
      CountSnoc(o.log, r, o.wEpoch);
      if o.wEpoch >= 1 { CountSnoc(o.log, r, o.wEpoch - 1); }
      NumberedSnoc(o.log, r);
      WrapNext(Count(o.log, r.epoch));
    }
  }

  lemma SealNumbers(o: Outbox, maxOut: nat)
    requires o.written < |o.messages| && NumbersOk(o)
    ensures NumbersOk(SealNextMessage(o, maxOut).o)
  {
    hide Content, Serialize, UsedAead, SealRecord, Numbered;
    forall kind, payload, previous | previous ==> o.wEpoch >= 1
      ensures NumbersOk(SealRecord(o, kind, payload, previous, maxOut).o)
    {
      SealRecordNumbers(o, kind, payload, previous, maxOut);
    }
  }

  lemma {:induction false} PacketNumbers(o: Outbox, maxOut: nat, sealed: seq<Sealed>)
    requires o.written <= |o.messages| && NumbersOk(o)
    ensures NumbersOk(SealLoop(o, maxOut, sealed).o)
    decreases |o.messages| - o.written
  {
    hide SealNextMessage, Numbered;
    if o.written < |o.messages| {
      SealNumbers(o, maxOut);
      SealKeepsQueue(o, maxOut);
      var s := SealNextMessage(o, maxOut);
      if s.ret.Progress? && s.ret.whole {
        PacketNumbers(s.o.(written := s.o.written + 1), maxOut - s.ret.record.size, sealed + [s.ret.record]);
      }
    }
  }

  /** The numbers depend on the epoch, the counters and the records sealed, on nothing else. */
  lemma NumbersSame(o: Outbox, o': Outbox)
    requires NumbersOk(o) && o' == o'.(wEpoch := o.wEpoch, number := o.number, lastNumber := o.lastNumber, log := o.log)
    ensures NumbersOk(o')
  {
    hide Numbered, Count, Wrap;
  }

  lemma SendKeepsNumbers(o: Outbox, mtu: nat, taken: bool)
    requires NumbersOk(o) && o.written < |o.messages|
    ensures NumbersOk(SendPacket(o, mtu, taken))
  {
    hide NumbersOk, SealLoop, Skips;
    PacketNumbers(o, mtu, []);
    NumbersSame(SealNextPacket(o, mtu).o, SendPacket(o, mtu, taken));
  }

  lemma EpochNumbers(o: Outbox, aead: Aead)
    requires NumbersOk(o)
    ensures NumbersOk(SetWriteState(o, aead))
  {
    CountNone(o.log, o.wEpoch + 1);
  }

  // ---------------------------------------------------------------- when numbers repeat

  /** Numbers repeat exactly when some epoch has sealed more than 2^48 records. */
  lemma DistinctIff(log: seq<Sealed>)
    requires Numbered(log)
    ensures Distinct(log) <==> forall epoch: nat :: Count(log, epoch) <= 0x1_0000_0000_0000
  {
    hide Count, Wrap;
    forall epoch: nat ensures Distinct(log) ==> Count(log, epoch) <= SEQ_LIMIT {
      if Count(log, epoch) > SEQ_LIMIT { OverfullRepeats(log, epoch); }
    }
    if i, j :| 0 <= i < j < |log| && log[i].epoch == log[j].epoch && log[i].number == log[j].number {
      RepeatMeansOverfull(log, i, j);
    }
  }

  lemma OverfullRepeats(log: seq<Sealed>, epoch: nat)
    requires Numbered(log) && Count(log, epoch) > SEQ_LIMIT
    ensures !Distinct(log)
  {
    hide Count, Wrap;
    var i := KthRecord(log, epoch, 0);
    var j := KthRecord(log, epoch, SEQ_LIMIT);
    WrapBelow(0);
    WrapBelow(SEQ_LIMIT);
    assert log[i].number == 0 && log[j].number == 0;
    assert i < j || j < i;
  }

  lemma RepeatMeansOverfull(log: seq<Sealed>, i: nat, j: nat)
    requires Numbered(log) && i < j < |log| && log[i].epoch == log[j].epoch && log[i].number == log[j].number
    ensures Count(log, log[i].epoch) > SEQ_LIMIT
  {
    hide Count, Wrap;
    var e := log[i].epoch;
    assert log[..j][..i] == log[..i] && log[..j][i] == log[i];
    CountMonotone(log[..j], i, e);
    CountMonotone(log, j, e);
    WrapBelow(Count(log[..i], e));
    WrapBelow(Count(log[..j], e));
  }

  /** The number a record would get next is taken exactly when its epoch has sealed 2^48 records. */
  lemma TakenIff(log: seq<Sealed>, epoch: nat)
    requires Numbered(log)
    ensures Taken(log, epoch, Wrap(Count(log, epoch))) <==> Count(log, epoch) >= 0x1_0000_0000_0000
  {
    hide Count, Wrap;
    var n := Count(log, epoch);
    WrapBelow(n);
    if n >= SEQ_LIMIT {
      var i := KthRecord(log, epoch, Wrap(n));
      WrapBelow(Wrap(n));
      assert log[i].epoch == epoch && log[i].number == Wrap(n);
    } else if i :| 0 <= i < |log| && log[i].epoch == epoch && log[i].number == n {
      CountMonotone(log, i, epoch);
      WrapBelow(Count(log[..i], epoch));
      assert false;
    }
  }

  /** Where the next number of the epoch is free, sealing a record leaves the one after it free
    * exactly if the counter did not stand at its last value; the seal that uses the last value
    * fails, but the counter starts over. */
  lemma OverflowReusesNumbers(o: Outbox, kind: nat, payload: seq<byte>, previous: bool, maxOut: nat)
    requires NumbersOk(o) && (previous ==> o.wEpoch >= 1)
    requires RT_HEADER_LENGTH + |payload| + UsedAead(o, previous).Growth(|payload|) <= maxOut
    requires !Taken(o.log, EpochOf(o, previous), NumberOf(o, previous))
    ensures var s := SealRecord(o, kind, payload, previous, maxOut);
            && (Taken(s.o.log, EpochOf(s.o, previous), NumberOf(s.o, previous)) <==> NumberOf(o, previous) == 0xFFFF_FFFF_FFFF)
            && (NumberOf(o, previous) == 0xFFFF_FFFF_FFFF ==> s.ret == SealError && NumberOf(s.o, previous) == 0)
  {
    hide Count, Wrap, Numbered, Taken, UsedAead;
    var s := SealRecord(o, kind, payload, previous, maxOut);
    var e := EpochOf(o, previous);
    WrapBelow(Count(o.log, e));
    SealRecordNumbers(o, kind, payload, previous, maxOut);
    TakenIff(o.log, e);
    TakenIff(s.o.log, e);
    CountSnoc(o.log, s.o.log[|o.log|], e);
  }
}
