/**
 * Every step of the server machine moves along the agreed course: it sends what the course says,
 * accepts what the course brings, and never fails.
 */
module ServerProgress {
  import opened Bytes
  import opened Handshake
  import opened HandshakeStages

  /** A server step in terms of stages: from i to j it appends what the server sends there, takes
    * what the client sends there, and is again where the configuration leads it. */
  predicate ServerMoves(g: Config, s: Server, inbox: seq<Wire>, t: ServerTurn)
  {
    var i, j := ServerStage(g, s), ServerStage(g, t.s);
    && ServerOk(g, t.s) && i <= j && t.used <= |inbox|
    && s.pending <= t.s.pending
    && Items(t.s.pending) == Items(s.pending) + Between(g, false, i, j)
    && Items(inbox[..t.used]) == Between(g, true, i, j)
    && MacsOk(g, t.s.pending)
    && ServerOnward(g, s, inbox, t.s)
  }

  predicate ServerReady(g: Config, s: Server, inbox: seq<Wire>)
  {
    && Agreed(g) && ServerOk(g, s) && s.wait != Flush && s.wait != ReadCcs
    && MacsOk(g, inbox) && MacsOk(g, s.pending)
    && (inbox != [] ==> NextSent(g, true, ServerStage(g, s)) == Some(inbox[0].item))
  }

  lemma ServerStays(g: Config, s: Server, inbox: seq<Wire>, s': Server)
    requires MacsOk(g, s.pending) && ServerOk(g, s')
    requires ServerStage(g, s') == ServerStage(g, s) && s'.pending == s.pending
    requires ServerOnward(g, s, inbox, s')
    ensures ServerMoves(g, s, inbox, ServerTurn(s', 0))
  {
    hide ServerOnward, At, ServerOk, ServerStage, MacsOk;
    OneStage(g, true, ServerStage(g, s));
    OneStage(g, false, ServerStage(g, s));
  }

  /** A stage at which nothing happens in this configuration. */
  lemma ServerSkips(g: Config, s: Server, inbox: seq<Wire>, s': Server)
    requires MacsOk(g, s.pending) && ServerOk(g, s')
    requires ServerStage(g, s') == ServerStage(g, s) + 1 && s'.pending == s.pending && At(g, ServerStage(g, s)) == None
    requires ServerOnward(g, s, inbox, s')
    ensures ServerMoves(g, s, inbox, ServerTurn(s', 0))
  {
    hide ServerOnward, At, ServerOk, ServerStage, MacsOk;
    OneStage(g, true, ServerStage(g, s));
    OneStage(g, false, ServerStage(g, s));
  }

  lemma ServerTakes(g: Config, s: Server, inbox: seq<Wire>, s': Server)
    requires MacsOk(g, s.pending) && ServerOk(g, s') && inbox != []
    requires ServerStage(g, s') == ServerStage(g, s) + 1 && s'.pending == s.pending
    requires At(g, ServerStage(g, s)) == Some(Event(true, inbox[0].item))
    requires ServerOnward(g, s, inbox, s')
    ensures ServerMoves(g, s, inbox, ServerTurn(s', 1))
  {
    hide ServerOnward, At, ServerOk, ServerStage, MacsOk;
    OneStage(g, true, ServerStage(g, s));
    OneStage(g, false, ServerStage(g, s));
  }

  /** Stages at which only the server sends. */
  lemma ServerSends(g: Config, s: Server, inbox: seq<Wire>, s': Server, ws: seq<Wire>)
    requires MacsOk(g, s.pending) && MacsOk(g, ws) && ServerOk(g, s')
    requires ServerStage(g, s) <= ServerStage(g, s') && s'.pending == s.pending + ws
    requires Items(ws) == Between(g, false, ServerStage(g, s), ServerStage(g, s'))
    requires Between(g, true, ServerStage(g, s), ServerStage(g, s')) == []
    requires ServerOnward(g, s, inbox, s')
    ensures ServerMoves(g, s, inbox, ServerTurn(s', 0))
  {
    hide ServerOnward, At, ServerOk, ServerStage, Between, Hashed;
    assert Items(s.pending + ws) == Items(s.pending) + Items(ws);
  }

  lemma ServerHelloMoves(g: Config, s: Server, inbox: seq<Wire>, ready: bool)
    requires ServerReady(g, s, inbox) && (s.state.StartAccept? || s.state.ReadClientHello? || s.state.SelectCertificate? || s.state.SelectParameters?)
    ensures ServerMoves(g, s, inbox, ServerStep(s, inbox, ready))
  {
    hide Between, Hashed, MacsOk, Items, ServerMoves, Agreed, SendsKeyExchange;
    var s' := ServerStep(s, inbox, ready).s;
    HashedStep(g, 0);
    if s'.state == SendServerHello {
      assert At(g, 0) == Some(Event(true, Hs(ClientHello)));
      ServerTakes(g, s, inbox, s');
    } else {
      ServerStays(g, s, inbox, s');
    }
  }

  lemma OptItems(a: bool, j: Kind, b: bool, k: Kind)
    ensures Items(OptWire(a, j) + OptWire(b, k)) == (if a then [Hs(j)] else []) + (if b then [Hs(k)] else [])
  {
  }

  lemma NoMacs(g: Config, ws: seq<Wire>)
    requires forall w :: w in ws ==> !(w.item.Hs? && w.item.kind.Finished?)
    ensures MacsOk(g, ws)
  {
  }

  lemma ServerParametersMoves(g: Config, s: Server, inbox: seq<Wire>, ready: bool)
    requires ServerReady(g, s, inbox) && s.state.SendServerHello?
    ensures ServerMoves(g, s, inbox, ServerStep(s, inbox, ready))
  {
    hide Between, Hashed, MacsOk, ServerMoves, Agreed, NextSent, SendsKeyExchange;
    var s' := ServerStep(s, inbox, ready).s;
    HashedStep(g, 1);
    OneStage(g, true, 1);
    OneStage(g, false, 1);
    var ws := [Wire(Hs(ServerHello(g.p)), [])];
    NoMacs(g, ws);
    ServerSends(g, s, inbox, s', ws);
  }

  /** do_send_server_certificate, in terms of the configuration. */
  lemma CertificateStep(g: Config, s: Server, inbox: seq<Wire>, ready: bool)
    requires ServerOk(g, s) && s.state.SendServerCertificate?
    ensures var ws := OptWire(g.p.certAuth, Certificate(true)) + OptWire(g.p.certAuth && g.p.ocsp, CertificateStatus);
            ServerStep(s, inbox, ready) ==
            ServerTurn(s.(state := SendServerKeyExchange, wait := Running, pending := s.pending + ws, serverParams := SendsKeyExchange(g),
                          transcript := s.transcript + (Kinds(g.p.certAuth, Certificate(true)) + Kinds(g.p.certAuth && g.p.ocsp, CertificateStatus))), 0)
  {
    hide ServerStage, Hashed, AsksCert, Composing, ServerAwaitsMessage;
    Grouped(s.pending, g.p.certAuth, Certificate(true), g.p.certAuth && g.p.ocsp, CertificateStatus);
    GroupedKinds(s.transcript, g.p.certAuth, Certificate(true), g.p.certAuth && g.p.ocsp, CertificateStatus);
  }

  function Kinds(sent: bool, k: Kind): seq<Kind>
  {
    if sent then [k] else []
  }

  lemma Grouped(pending: seq<Wire>, a: bool, j: Kind, b: bool, k: Kind)
    ensures var first := if a then pending + [Wire(Hs(j), [])] else pending;
            (if b then first + [Wire(Hs(k), [])] else first) == pending + (OptWire(a, j) + OptWire(b, k))
  {
  }

  lemma GroupedKinds(transcript: seq<Kind>, a: bool, j: Kind, b: bool, k: Kind)
    ensures var first := if a then transcript + [j] else transcript;
            (if b then first + [k] else first) == transcript + (Kinds(a, j) + Kinds(b, k))
  {
  }

  lemma HashedTwo(g: Config, i: nat, a: bool, j: Kind, b: bool, k: Kind)
    requires At(g, i) == if a then Some(Event(false, Hs(j))) else None
    requires At(g, i + 1) == if b then Some(Event(false, Hs(k))) else None
    ensures Hashed(g, i + 2) == Hashed(g, i) + (Kinds(a, j) + Kinds(b, k))
  {
    hide At, Hashed;
    HashedStep(g, i);
    HashedStep(g, i + 1);
    assert Hashed(g, i + 2) == (Hashed(g, i) + Kinds(a, j)) + Kinds(b, k);
  }

  lemma ServerCertificateMoves(g: Config, s: Server, inbox: seq<Wire>, ready: bool)
    requires ServerReady(g, s, inbox) && s.state.SendServerCertificate?
    ensures ServerMoves(g, s, inbox, ServerStep(s, inbox, ready))
  {
    hide Between, Hashed, MacsOk, ServerMoves, Agreed, NextSent, AsksCert, SendsKeyExchange, Items, ServerStep, Kinds;
    CertificateStep(g, s, inbox, ready);
    var s' := ServerStep(s, inbox, ready).s;
    HashedTwo(g, 2, g.p.certAuth, Certificate(true), g.p.certAuth && g.p.ocsp, CertificateStatus);
    TwoStages(g, true, 2);
    TwoStages(g, false, 2);
    var status := g.p.certAuth && g.p.ocsp;
    var ws := OptWire(g.p.certAuth, Certificate(true)) + OptWire(status, CertificateStatus);
    NoMacs(g, ws);
    OptItems(g.p.certAuth, Certificate(true), status, CertificateStatus);
    assert s'.pending == s.pending + ws;
    ServerSends(g, s, inbox, s', ws);
  }

  lemma ServerKeyExchangeMoves(g: Config, s: Server, inbox: seq<Wire>, ready: bool)
    requires ServerReady(g, s, inbox) && s.state.SendServerKeyExchange?
    ensures ServerMoves(g, s, inbox, ServerStep(s, inbox, ready))
  {
    hide Between, Hashed, MacsOk, ServerMoves, Agreed, NextSent, AsksCert;
    var s' := ServerStep(s, inbox, ready).s;
    HashedStep(g, 4);
    OneStage(g, true, 4);
    OneStage(g, false, 4);
    if s'.wait == Async {
      ServerStays(g, s, inbox, s');
    } else {
      var ws := OptWire(SendsKeyExchange(g), ServerKeyExchange);
      NoMacs(g, ws);
      assert s'.pending == s.pending + ws;
      ServerSends(g, s, inbox, s', ws);
    }
  }

  lemma HelloDoneStages(g: Config)
    requires !g.p.resumed
    ensures At(g, 5) == if AsksCert(g) then Some(Event(false, Hs(CertificateRequest))) else None
    ensures At(g, 6) == Some(Event(false, Hs(ServerHelloDone)))
  {
    hide AsksCert;
  }

  /** do_send_server_hello_done, in terms of the configuration. */
  lemma HelloDoneStep(g: Config, s: Server, inbox: seq<Wire>, ready: bool)
    requires ServerOk(g, s) && s.state.SendServerHelloDone?
    ensures var ws := OptWire(AsksCert(g), CertificateRequest) + OptWire(true, ServerHelloDone);
            ServerStep(s, inbox, ready) ==
            ServerTurn(s.(state := ReadClientCertificate, wait := Flush, pending := s.pending + ws,
                          transcript := s.transcript + (Kinds(AsksCert(g), CertificateRequest) + Kinds(true, ServerHelloDone))), 0)
  {
    hide Hashed, AsksCert, Composing, ServerAwaitsMessage, SendsKeyExchange;
    Grouped(s.pending, AsksCert(g), CertificateRequest, true, ServerHelloDone);
    GroupedKinds(s.transcript, AsksCert(g), CertificateRequest, true, ServerHelloDone);
  }

  lemma ServerHelloDoneMoves(g: Config, s: Server, inbox: seq<Wire>, ready: bool)
    requires ServerReady(g, s, inbox) && s.state.SendServerHelloDone?
    ensures ServerMoves(g, s, inbox, ServerStep(s, inbox, ready))
  {
    hide Between, Hashed, MacsOk, ServerMoves, Agreed, NextSent, SendsKeyExchange, AsksCert, Items, ServerStep, Kinds;
    HelloDoneStep(g, s, inbox, ready);
    var s' := ServerStep(s, inbox, ready).s;
    HelloDoneStages(g);
    HashedTwo(g, 5, AsksCert(g), CertificateRequest, true, ServerHelloDone);
    TwoStages(g, true, 5);
    TwoStages(g, false, 5);
    var ws := OptWire(AsksCert(g), CertificateRequest) + OptWire(true, ServerHelloDone);
    NoMacs(g, ws);
    OptItems(AsksCert(g), CertificateRequest, true, ServerHelloDone);
    assert s'.pending == s.pending + ws;
    ServerSends(g, s, inbox, s', ws);
  }

  lemma ServerClientCertificateMoves(g: Config, s: Server, inbox: seq<Wire>, ready: bool)
    requires ServerReady(g, s, inbox) && (s.state.ReadClientCertificate? || s.state.VerifyClientCertificate?)
    ensures ServerMoves(g, s, inbox, ServerStep(s, inbox, ready))
  {
    hide Between, Hashed, MacsOk, Items, ServerMoves, SendsKeyExchange;
    var s' := ServerStep(s, inbox, ready).s;
    HashedStep(g, ServerStage(g, s));
    if s.state == VerifyClientCertificate || (inbox == [] && s.certRequest) {
      ServerStays(g, s, inbox, s');
    } else if At(g, ServerStage(g, s)) == None {
      ServerSkips(g, s, inbox, s');
    } else {
      ServerTakes(g, s, inbox, s');
    }
  }

  lemma ServerKeyMoves(g: Config, s: Server, inbox: seq<Wire>, ready: bool)
    requires ServerReady(g, s, inbox) && s.state.ReadClientKeyExchange?
    ensures ServerMoves(g, s, inbox, ServerStep(s, inbox, ready))
  {
    hide Between, Hashed, MacsOk, Items, ServerMoves, SendsKeyExchange;
    var s' := ServerStep(s, inbox, ready).s;
    HashedStep(g, ServerStage(g, s));
    if s'.wait == Async || inbox == [] {
      ServerStays(g, s, inbox, s');
    } else {
      ServerTakes(g, s, inbox, s');
    }
  }

  lemma ServerVerifyMoves(g: Config, s: Server, inbox: seq<Wire>, ready: bool)
    requires ServerReady(g, s, inbox) && s.state.ReadClientCertificateVerify?
    ensures ServerMoves(g, s, inbox, ServerStep(s, inbox, ready))
  {
    hide Between, Hashed, MacsOk, Items, ServerMoves, SendsKeyExchange;
    var s' := ServerStep(s, inbox, ready).s;
    HashedStep(g, ServerStage(g, s));
    if inbox == [] && s.peerKey {
      ServerStays(g, s, inbox, s');
    } else if At(g, ServerStage(g, s)) == None {
      ServerSkips(g, s, inbox, s');
    } else {
      ServerTakes(g, s, inbox, s');
    }
  }

  lemma ServerCipherMoves(g: Config, s: Server, inbox: seq<Wire>, ready: bool)
    requires ServerReady(g, s, inbox) && (s.state.ReadChangeCipherSpec? || s.state.ServerProcessChangeCipherSpec?)
    ensures ServerMoves(g, s, inbox, ServerStep(s, inbox, ready))
  {
    hide Between, Hashed, MacsOk, Items, ServerMoves, SendsKeyExchange, At;
    ServerStays(g, s, inbox, ServerStep(s, inbox, ready).s);
  }

  lemma ServerNextProtoMoves(g: Config, s: Server, inbox: seq<Wire>, ready: bool)
    requires ServerReady(g, s, inbox) && s.state.ReadNextProto?
    ensures ServerMoves(g, s, inbox, ServerStep(s, inbox, ready))
  {
    hide Between, Hashed, MacsOk, Items, ServerMoves, SendsKeyExchange;
    var s' := ServerStep(s, inbox, ready).s;
    HashedStep(g, ServerStage(g, s));
    if At(g, ServerStage(g, s)) == None {
      ServerSkips(g, s, inbox, s');
    } else if inbox == [] {
      ServerStays(g, s, inbox, s');
    } else {
      ServerTakes(g, s, inbox, s');
    }
  }

  lemma ServerChannelIdMoves(g: Config, s: Server, inbox: seq<Wire>, ready: bool)
    requires ServerReady(g, s, inbox) && s.state.ReadChannelId?
    ensures ServerMoves(g, s, inbox, ServerStep(s, inbox, ready))
  {
    hide Between, Hashed, MacsOk, Items, ServerMoves, SendsKeyExchange;
    var s' := ServerStep(s, inbox, ready).s;
    HashedStep(g, ServerStage(g, s));
    if At(g, ServerStage(g, s)) == None {
      ServerSkips(g, s, inbox, s');
    } else if inbox == [] {
      ServerStays(g, s, inbox, s');
    } else {
      ServerTakes(g, s, inbox, s');
    }
  }

  lemma ServerCheckMoves(g: Config, s: Server, inbox: seq<Wire>, ready: bool)
    requires ServerReady(g, s, inbox) && s.state.ReadClientFinished?
    ensures ServerMoves(g, s, inbox, ServerStep(s, inbox, ready))
  {
    hide Between, Hashed, Items, ServerMoves, SendsKeyExchange, AsksCert, At, MacsOk;
    if inbox == [] {
      ServerStays(g, s, inbox, ServerStep(s, inbox, ready).s);
    } else {
      ServerCheckTakes(g, s, inbox, ready);
    }
  }

  lemma ServerCheckTakes(g: Config, s: Server, inbox: seq<Wire>, ready: bool)
    requires ServerReady(g, s, inbox) && s.state.ReadClientFinished? && inbox != []
    ensures ServerMoves(g, s, inbox, ServerStep(s, inbox, ready))
  {
    hide Between, Hashed, Items, ServerMoves, SendsKeyExchange, AsksCert;
    var s' := ServerStep(s, inbox, ready).s;
    HashedStep(g, ServerStage(g, s));
    assert At(g, ServerStage(g, s)) == Some(Event(true, Hs(Finished(false))));
    assert inbox[0].mac == s.transcript;
    assert ServerStep(s, inbox, ready) == ServerTurn(s', 1);
    ServerTakes(g, s, inbox, s');
  }

  lemma ServerEndMoves(g: Config, s: Server, inbox: seq<Wire>, ready: bool)
    requires ServerReady(g, s, inbox) && (s.state.FinishServerHandshake? || s.state.ServerDone?)
    ensures ServerMoves(g, s, inbox, ServerStep(s, inbox, ready))
  {
    hide Between, Hashed, MacsOk, Items, ServerMoves, SendsKeyExchange, At;
    ServerStays(g, s, inbox, ServerStep(s, inbox, ready).s);
  }

  /** do_send_server_finished, in terms of the configuration. */
  lemma FinishedStep(g: Config, s: Server, inbox: seq<Wire>, ready: bool)
    requires ServerOk(g, s) && s.state.SendServerFinished?
    ensures var before := if g.p.ticket then s.transcript + [NewSessionTicket] else s.transcript;
            var ws := OptWire(g.p.ticket, NewSessionTicket) + [Wire(Ccs, []), Wire(Hs(Finished(true)), before)];
            ServerStep(s, inbox, ready) ==
            ServerTurn(s.(state := if g.p.resumed then ReadChangeCipherSpec else FinishServerHandshake, wait := Flush,
                          pending := s.pending + ws, transcript := before + [Finished(true)]), 0)
  {
    hide ServerStage, Hashed, AsksCert, Composing, ServerAwaitsMessage, SendsKeyExchange;
    var before := if g.p.ticket then s.transcript + [NewSessionTicket] else s.transcript;
    var c, f := Wire(Ccs, []), Wire(Hs(Finished(true)), before);
    assert ((s.pending + [Wire(Hs(NewSessionTicket), [])]) + [c]) + [f] == s.pending + ([Wire(Hs(NewSessionTicket), [])] + [c, f]);
    assert (s.pending + [c]) + [f] == s.pending + ([] + [c, f]);
  }

  /** NewSessionTicket if negotiated, ChangeCipherSpec and Finished. */
  lemma ServerFinishedMoves(g: Config, s: Server, inbox: seq<Wire>, ready: bool)
    requires ServerReady(g, s, inbox) && s.state == SendServerFinished
    ensures ServerMoves(g, s, inbox, ServerStep(s, inbox, ready))
  {
    hide Between, Hashed, ServerMoves, Agreed, NextSent, SendsKeyExchange, Items, MacsOk, AsksCert, ServerStep, OptWire, At;
    FinishedStep(g, s, inbox, ready);
    FinalStages(g);
    var s' := ServerStep(s, inbox, ready).s;
    var i := ServerStage(g, s);
    HashedStep(g, i);
    HashedStep(g, i + 1);
    HashedStep(g, i + 2);
    ThreeStages(g, true, i);
    ThreeStages(g, false, i);
    FinalFlight(g);
    var ws := OptWire(g.p.ticket, NewSessionTicket) + [Wire(Ccs, []), Wire(Hs(Finished(true)), Hashed(g, i + 2))];
    assert s'.pending == s.pending + ws;
    ServerSends(g, s, inbox, s', ws);
  }

  lemma FinalStages(g: Config)
    ensures var i := if g.p.resumed then 2 else 14;
            && At(g, i) == (if g.p.ticket then Some(Event(false, Hs(NewSessionTicket))) else None)
            && At(g, i + 1) == Some(Event(false, Ccs)) && At(g, i + 2) == Some(Event(false, Hs(Finished(true))))
            && FinishedStage(g, true) == i + 2
  {
  }

  lemma FinalFlight(g: Config)
    ensures var ws := OptWire(g.p.ticket, NewSessionTicket) + [Wire(Ccs, []), Wire(Hs(Finished(true)), Hashed(g, FinishedStage(g, true)))];
            MacsOk(g, ws) && Items(ws) == (if g.p.ticket then [Hs(NewSessionTicket)] else []) + [Ccs, Hs(Finished(true))]
  {
    hide Hashed, FinishedStage;
  }

  lemma TwoStages(g: Config, byClient: bool, i: nat)
    ensures Between(g, byClient, i, i + 2) == SentAt(g, byClient, i) + SentAt(g, byClient, i + 1)
  {
    hide At;
    OneStage(g, byClient, i);
    BetweenSnoc(g, byClient, i, i + 1);
  }

  lemma ThreeStages(g: Config, byClient: bool, i: nat)
    ensures Between(g, byClient, i, i + 3) == SentAt(g, byClient, i) + SentAt(g, byClient, i + 1) + SentAt(g, byClient, i + 2)
  {
    hide At;
    OneStage(g, byClient, i);
    BetweenSnoc(g, byClient, i, i + 1);
    BetweenSnoc(g, byClient, i, i + 2);
  }
}
