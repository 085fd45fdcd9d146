/**
 * Every step of the client machine moves along the agreed course: it sends what the course says,
 * accepts what the course brings, and never fails.
 */
module ClientProgress {
  import opened Bytes
  import opened Handshake
  import opened HandshakeStages

  /** A client step in terms of stages: from i to j it appends what the client sends there, takes
    * what the server sends there, and is again where the configuration leads it. */
  predicate ClientMoves(g: Config, c: Client, inbox: seq<Wire>, t: ClientTurn)
  {
    var i, j := ClientStage(g, c), ClientStage(g, t.c);
    && ClientOk(g, t.c) && i <= j && t.used <= |inbox|
    && c.pending <= t.c.pending
    && Items(t.c.pending) == Items(c.pending) + Between(g, true, i, j)
    && Items(inbox[..t.used]) == Between(g, false, i, j)
    && MacsOk(g, t.c.pending)
    && ClientOnward(g, c, inbox, t.c)
  }

  predicate ClientReady(g: Config, c: Client, inbox: seq<Wire>)
  {
    && Agreed(g) && ClientOk(g, c) && c.wait != Flush && c.wait != ReadCcs
    && MacsOk(g, inbox) && MacsOk(g, c.pending)
    && (inbox != [] ==> NextSent(g, false, ClientStage(g, c)) == Some(inbox[0].item))
  }

  lemma ClientStays(g: Config, c: Client, inbox: seq<Wire>, c': Client)
    requires MacsOk(g, c.pending) && ClientOk(g, c')
    requires ClientStage(g, c') == ClientStage(g, c) && c'.pending == c.pending
    requires ClientOnward(g, c, inbox, c')
    ensures ClientMoves(g, c, inbox, ClientTurn(c', 0))
  {
    hide ClientOnward, At, ClientOk, ClientStage, MacsOk;
    OneStage(g, true, ClientStage(g, c));
    OneStage(g, false, ClientStage(g, c));
  }

  /** A stage at which nothing happens in this configuration. */
  lemma ClientSkips(g: Config, c: Client, inbox: seq<Wire>, c': Client)
    requires MacsOk(g, c.pending) && ClientOk(g, c')
    requires ClientStage(g, c') == ClientStage(g, c) + 1 && c'.pending == c.pending && At(g, ClientStage(g, c)) == None
    requires ClientOnward(g, c, inbox, c')
    ensures ClientMoves(g, c, inbox, ClientTurn(c', 0))
  {
    hide ClientOnward, At, ClientOk, ClientStage, MacsOk;
    OneStage(g, true, ClientStage(g, c));
    OneStage(g, false, ClientStage(g, c));
  }

  lemma ClientTakes(g: Config, c: Client, inbox: seq<Wire>, c': Client)
    requires MacsOk(g, c.pending) && ClientOk(g, c') && inbox != []
    requires ClientStage(g, c') == ClientStage(g, c) + 1 && c'.pending == c.pending
    requires At(g, ClientStage(g, c)) == Some(Event(false, inbox[0].item))
    requires ClientOnward(g, c, inbox, c')
    ensures ClientMoves(g, c, inbox, ClientTurn(c', 1))
  {
    hide ClientOnward, At, ClientOk, ClientStage, MacsOk;
    OneStage(g, true, ClientStage(g, c));
    OneStage(g, false, ClientStage(g, c));
  }

  lemma ClientSends(g: Config, c: Client, inbox: seq<Wire>, c': Client, k: Kind)
    requires MacsOk(g, c.pending) && ClientOk(g, c') && !k.Finished?
    requires ClientStage(g, c') == ClientStage(g, c) + 1 && c'.pending == c.pending + [Wire(Hs(k), [])]
    requires At(g, ClientStage(g, c)) == Some(Event(true, Hs(k)))
    requires ClientOnward(g, c, inbox, c')
    ensures ClientMoves(g, c, inbox, ClientTurn(c', 0))
  {
    hide ClientOnward, At, ClientOk, ClientStage;
    OneStage(g, true, ClientStage(g, c));
    OneStage(g, false, ClientStage(g, c));
    ItemsSnoc(c.pending, Wire(Hs(k), []));
  }

  lemma ClientHelloMoves(g: Config, c: Client, inbox: seq<Wire>, ready: bool)
    requires ClientReady(g, c, inbox) && (c.state.StartConnect? || c.state.EnterEarlyData? || c.state.ReadServerHello?)
    ensures ClientMoves(g, c, inbox, ClientStep(c, inbox, ready))
  {
    hide Between, Hashed, MacsOk, Items, ClientMoves, Agreed, AsksCert, SendsKeyExchange;
    var c' := ClientStep(c, inbox, ready).c;
    HashedStep(g, ClientStage(g, c));
    if c.state == StartConnect {
      ClientSends(g, c, inbox, c', ClientHello);
    } else if c.state == EnterEarlyData || inbox == [] {
      ClientStays(g, c, inbox, c');
    } else {
      assert At(g, 1) == Some(Event(false, Hs(ServerHello(g.p))));
      ClientTakes(g, c, inbox, c');
    }
  }

  lemma ClientCertificateMoves(g: Config, c: Client, inbox: seq<Wire>, ready: bool)
    requires ClientReady(g, c, inbox) && c.state.ReadServerCertificate?
    ensures ClientMoves(g, c, inbox, ClientStep(c, inbox, ready))
  {
    hide Between, Hashed, MacsOk, Items, ClientMoves, AsksCert, SendsKeyExchange;
    var c' := ClientStep(c, inbox, ready).c;
    HashedStep(g, ClientStage(g, c));
    if At(g, 2) == None {
      ClientSkips(g, c, inbox, c');
    } else if inbox == [] {
      ClientStays(g, c, inbox, c');
    } else {
      ClientTakes(g, c, inbox, c');
    }
  }

  lemma ClientStatusMoves(g: Config, c: Client, inbox: seq<Wire>, ready: bool)
    requires ClientReady(g, c, inbox) && (c.state.ReadCertificateStatus? || c.state.VerifyServerCertificate?)
    ensures ClientMoves(g, c, inbox, ClientStep(c, inbox, ready))
  {
    hide Between, Hashed, MacsOk, Items, ClientMoves, AsksCert, NextSent, SendsKeyExchange;
    var c' := ClientStep(c, inbox, ready).c;
    HashedStep(g, ClientStage(g, c));
    StatusNext(g);
    if c.state.VerifyServerCertificate? || (inbox == [] && c.p.ocsp) {
      ClientStays(g, c, inbox, c');
    } else if At(g, 3) == None {
      ClientSkips(g, c, inbox, c');
    } else {
      ClientTakes(g, c, inbox, c');
    }
  }

  lemma ClientKeyExchangeMoves(g: Config, c: Client, inbox: seq<Wire>, ready: bool)
    requires ClientReady(g, c, inbox) && c.state.ReadServerKeyExchange?
    ensures ClientMoves(g, c, inbox, ClientStep(c, inbox, ready))
  {
    hide Between, Hashed, MacsOk, Items, ClientMoves, NextSent;
    var c' := ClientStep(c, inbox, ready).c;
    HashedStep(g, ClientStage(g, c));
    LaterKinds(g);
    if inbox == [] {
      ClientStays(g, c, inbox, c');
    } else if At(g, ClientStage(g, c)) == None {
      ClientSkips(g, c, inbox, c');
    } else {
      ClientTakes(g, c, inbox, c');
    }
  }

  lemma ClientRequestMoves(g: Config, c: Client, inbox: seq<Wire>, ready: bool)
    requires ClientReady(g, c, inbox) && (c.state.ReadCertificateRequest? || c.state.ReadServerHelloDone?)
    ensures ClientMoves(g, c, inbox, ClientStep(c, inbox, ready))
  {
    hide Between, Hashed, MacsOk, Items, ClientMoves, NextSent;
    var c' := ClientStep(c, inbox, ready).c;
    if inbox == [] && (c.state == ReadServerHelloDone || c.p.certAuth) {
      ClientStays(g, c, inbox, c');
    } else {
      hide ClientReady, ClientStep;
      ClientRequestGoes(g, c, inbox, ready);
    }
  }

  lemma ClientRequestGoes(g: Config, c: Client, inbox: seq<Wire>, ready: bool)
    requires ClientReady(g, c, inbox) && (c.state.ReadCertificateRequest? || c.state.ReadServerHelloDone?)
    requires inbox != [] || (c.state.ReadCertificateRequest? && !c.p.certAuth)
    ensures ClientMoves(g, c, inbox, ClientStep(c, inbox, ready))
  {
    hide Between, Hashed, MacsOk, Items, ClientMoves, NextSent;
    var c' := ClientStep(c, inbox, ready).c;
    HashedStep(g, ClientStage(g, c));
    LaterKinds(g);
    if At(g, ClientStage(g, c)) == None {
      ClientSkips(g, c, inbox, c');
    } else {
      ClientTakes(g, c, inbox, c');
    }
  }

  lemma ClientReplyMoves(g: Config, c: Client, inbox: seq<Wire>, ready: bool)
    requires ClientReady(g, c, inbox) && (c.state.SendClientCertificate? || c.state.SendClientKeyExchange? || c.state.SendClientCertificateVerify?)
    ensures ClientMoves(g, c, inbox, ClientStep(c, inbox, ready))
  {
    hide Between, Hashed, MacsOk, Items, ClientMoves, NextSent;
    var c' := ClientStep(c, inbox, ready).c;
    HashedStep(g, ClientStage(g, c));
    if c'.wait == Async {
      ClientStays(g, c, inbox, c');
    } else if At(g, ClientStage(g, c)) == None {
      ClientSkips(g, c, inbox, c');
    } else {
      ClientSends(g, c, inbox, c', At(g, ClientStage(g, c)).value.item.kind);
    }
  }

  lemma ClientTicketMoves(g: Config, c: Client, inbox: seq<Wire>, ready: bool)
    requires ClientReady(g, c, inbox) && c.state.ReadSessionTicket?
    ensures ClientMoves(g, c, inbox, ClientStep(c, inbox, ready))
  {
    hide Between, Hashed, MacsOk, Items, ClientMoves, SendsKeyExchange;
    var c' := ClientStep(c, inbox, ready).c;
    HashedStep(g, ClientStage(g, c));
    if c.p.ticket && inbox == [] {
      ClientStays(g, c, inbox, c');
    } else if At(g, ClientStage(g, c)) == None {
      ClientSkips(g, c, inbox, c');
    } else {
      ClientTakes(g, c, inbox, c');
    }
  }

  lemma ClientCipherMoves(g: Config, c: Client, inbox: seq<Wire>, ready: bool)
    requires ClientReady(g, c, inbox) && (c.state.FinishFlight? || c.state.ProcessChangeCipherSpec?)
    ensures ClientMoves(g, c, inbox, ClientStep(c, inbox, ready))
  {
    hide Between, Hashed, MacsOk, Items, ClientMoves, At, SendsKeyExchange;
    var c' := ClientStep(c, inbox, ready).c;
    ClientStays(g, c, inbox, c');
  }

  lemma ClientVerifyMoves(g: Config, c: Client, inbox: seq<Wire>, ready: bool)
    requires ClientReady(g, c, inbox) && c.state.ReadServerFinished?
    ensures ClientMoves(g, c, inbox, ClientStep(c, inbox, ready))
  {
    hide Between, Hashed, Items, ClientMoves, SendsKeyExchange;
    var c' := ClientStep(c, inbox, ready).c;
    HashedStep(g, ClientStage(g, c));
    if inbox == [] {
      ClientStays(g, c, inbox, c');
    } else {
      assert At(g, ClientStage(g, c)) == Some(Event(false, Hs(Finished(true))));
      assert inbox[0].mac == c.transcript;
      ClientTakes(g, c, inbox, c');
    }
  }

  lemma ClientEndMoves(g: Config, c: Client, inbox: seq<Wire>, ready: bool)
    requires ClientReady(g, c, inbox) && (c.state.FinishClientHandshake? || c.state.ClientDone?)
    ensures ClientMoves(g, c, inbox, ClientStep(c, inbox, ready))
  {
    hide Between, Hashed, MacsOk, Items, ClientMoves, At, SendsKeyExchange;
    var c' := ClientStep(c, inbox, ready).c;
    ClientStays(g, c, inbox, c');
  }

  /** Stages at which only the client sends. */
  lemma ClientSendsMany(g: Config, c: Client, inbox: seq<Wire>, c': Client, ws: seq<Wire>)
    requires MacsOk(g, c.pending) && MacsOk(g, ws) && ClientOk(g, c')
    requires ClientStage(g, c) <= ClientStage(g, c') && c'.pending == c.pending + ws
    requires Items(ws) == Between(g, true, ClientStage(g, c), ClientStage(g, c'))
    requires Between(g, false, ClientStage(g, c), ClientStage(g, c')) == []
    requires ClientOnward(g, c, inbox, c')
    ensures ClientMoves(g, c, inbox, ClientTurn(c', 0))
  {
    hide ClientOnward, At, ClientOk, ClientStage, Between, Hashed;
    assert Items(c.pending + ws) == Items(c.pending) + Items(ws);
  }

  /** ChangeCipherSpec, NextProtocol and ChannelID if negotiated, Finished. */
  function LastFlight(p: Params, mac: seq<Kind>): seq<Wire>
  {
    [Wire(Ccs, [])] + OptWire(p.npn, NextProto) + OptWire(p.channelId, ChannelId) + [Wire(Hs(Finished(false)), mac)]
  }

  lemma FlightItems(p: Params, mac: seq<Kind>)
    ensures Items(LastFlight(p, mac)) ==
            [Ccs] + (if p.npn then [Hs(NextProto)] else []) + (if p.channelId then [Hs(ChannelId)] else []) + [Hs(Finished(false))]
  {
  }

  lemma FlightMacs(g: Config)
    ensures MacsOk(g, LastFlight(g.p, Hashed(g, FinishedStage(g, false))))
  {
    hide Hashed, FinishedStage;
    var ws := LastFlight(g.p, Hashed(g, FinishedStage(g, false)));
    forall i | 0 <= i < |ws| && ws[i].item.Hs? && ws[i].item.kind.Finished? ensures i == |ws| - 1 {
    }
  }

  lemma LastFlightStages(g: Config, i: nat)
    requires i == if g.p.resumed then 5 else 10
    ensures var ws := LastFlight(g.p, Hashed(g, i + 3));
            && Items(ws) == Between(g, true, i, i + 4) && Between(g, false, i, i + 4) == [] && MacsOk(g, ws)
  {
    hide Hashed, Between, SendsKeyExchange, AsksCert, Items, LastFlight, MacsOk;
    FourStages(g, true, i);
    FourStages(g, false, i);
    FlightItems(g.p, Hashed(g, i + 3));
    FlightMacs(g);
  }

  lemma TailCases(h: seq<Kind>)
    ensures h + ([] + []) == h && h + ([NextProto] + []) == h + [NextProto] && h + ([] + [ChannelId]) == h + [ChannelId]
    ensures h + ([NextProto] + [ChannelId]) == h + [NextProto] + [ChannelId]
  {
  }

  lemma FlightCases(p: seq<Wire>, a: seq<Wire>, b: seq<Wire>, f: Wire)
    ensures p + ([Wire(Ccs, [])] + a + b + [f]) == p + [Wire(Ccs, [])] + a + b + [f]
    ensures a == [] ==> p + [Wire(Ccs, [])] + a == p + [Wire(Ccs, [])]
    ensures b == [] ==> p + [Wire(Ccs, [])] + a + b == p + [Wire(Ccs, [])] + a
  {
  }

  lemma LastFlightPending(c: Client)
    requires c.state == SendClientFinished
    ensures var c' := ClientStep(c, [], true).c;
            var tail := (if c.p.npn then [NextProto] else []) + (if c.p.channelId then [ChannelId] else []);
            && c'.pending == c.pending + LastFlight(c.p, c.transcript + tail)
            && c'.transcript == c.transcript + tail + [Finished(false)]
  {
    TailCases(c.transcript);
    FlightCases(c.pending, OptWire(c.p.npn, NextProto), OptWire(c.p.channelId, ChannelId),
                Wire(Hs(Finished(false)), c.transcript + ((if c.p.npn then [NextProto] else []) + (if c.p.channelId then [ChannelId] else []))));
  }

  lemma LastFlightOk(g: Config, c: Client, inbox: seq<Wire>)
    requires ClientOk(g, c) && c.state == SendClientFinished
    ensures ClientOk(g, ClientStep(c, inbox, true).c)
    ensures ClientStep(c, inbox, true).c.transcript == Hashed(g, ClientStage(g, c) + 4)
  {
    hide Hashed, SendsKeyExchange, At;
    LastFlightPending(c);
    LastFlightHashes(g, ClientStage(g, c));
  }

  /** The client's last flight: ChangeCipherSpec, NextProtocol and ChannelID if negotiated, Finished. */
  lemma ClientFinishedMoves(g: Config, c: Client, inbox: seq<Wire>, ready: bool)
    requires ClientReady(g, c, inbox) && c.state == SendClientFinished
    ensures ClientMoves(g, c, inbox, ClientStep(c, inbox, ready))
  {
    hide Hashed, NextSent, SendsKeyExchange, AsksCert, Items, ClientMoves, Between, MacsOk, Agreed;
    var c' := ClientStep(c, inbox, ready).c;
    if c'.wait == Async {
      ClientStays(g, c, inbox, c');
    } else {
      var i := ClientStage(g, c);
      LastFlightPending(c);
      LastFlightHashes(g, i);
      LastFlightOk(g, c, inbox);
      LastFlightStages(g, i);
      assert c' == ClientStep(c, inbox, true).c && c'.state == FinishFlight;
      hide ClientOk;
      ClientSendsMany(g, c, inbox, c', LastFlight(g.p, Hashed(g, i + 3)));
    }
  }

  lemma LastFlightHashes(g: Config, i: nat)
    requires i == if g.p.resumed then 5 else 10
    ensures var tail := (if g.p.npn then [NextProto] else []) + (if g.p.channelId then [ChannelId] else []);
            Hashed(g, i + 3) == Hashed(g, i) + tail && Hashed(g, i + 4) == Hashed(g, i) + tail + [Finished(false)]
  {
    hide Hashed, AsksCert, SendsKeyExchange;
    HashedStep(g, i);
    HashedStep(g, i + 1);
    HashedStep(g, i + 2);
    HashedStep(g, i + 3);
    TailCases(Hashed(g, i));
  }
}
