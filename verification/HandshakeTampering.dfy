/**
 * The handshake over a channel somebody else controls: items are altered, dropped, invented and
 * reordered at will. Either end that finishes has hashed a whole legal course and checked the peer's
 * Finished over it (get_finished in handshake.cc), and two ends that finish on each other's Finished
 * messages have hashed the same messages.
 */
module HandshakeTampering {
  import opened Bytes
  import opened Handshake
  import opened HandshakeCourses

  /** Both ends, what has reached them and is not read yet, and all they have taken and sent. */
  datatype Line = Line(c: Client, s: Server, toClient: seq<Wire>, toServer: seq<Wire>,
                       clientTook: seq<Wire>, clientSent: seq<Wire>, serverTook: seq<Wire>, serverSent: seq<Wire>)

  /** One end acts, or anything at all reaches one of them. */
  datatype Event = ClientActs(ready: bool) | ServerActs(ready: bool) | ToClient(w: Wire) | ToServer(w: Wire)

  function Begin(conf: ServerConf, unset: Params, hasCert: bool): Line
  {
    Line(Client(StartConnect, Running, [], [], unset, false, hasCert),
         Server(StartAccept, Running, [], [], conf, false, false, false), [], [], [], [], [], [])
  }

  function Happen(n: Line, e: Event): Line
  {
    match e
    case ClientActs(ready) =>
      ClientTakesArrived(n.c, n.toClient, ready);
      var a := ClientRun(n.c, n.toClient, ready);
      n.(c := a.c, toClient := n.toClient[a.used..], clientTook := n.clientTook + n.toClient[..a.used],
         clientSent := n.clientSent + a.flushed)
    case ServerActs(ready) =>
      ServerTakesArrived(n.s, n.toServer, ready);
      var a := ServerRun(n.s, n.toServer, ready);
      n.(s := a.s, toServer := n.toServer[a.used..], serverTook := n.serverTook + n.toServer[..a.used],
         serverSent := n.serverSent + a.flushed)
    case ToClient(w) => n.(toClient := n.toClient + [w])
    case ToServer(w) => n.(toServer := n.toServer + [w])
  }

  function Unfold(n: Line, events: seq<Event>): Line
    decreases |events|
  {
    if events == [] then n else Unfold(Happen(n, events[0]), events[1..])
  }

  predicate Inv(conf: ServerConf, n: Line, h: Choice)
  {
    && ClientInv(n.c, h, n.clientTook, n.clientSent)
    && ServerInv(n.s, n.toServer, n.serverTook, n.serverSent)
    && n.s.conf == conf
  }

  lemma BeginInv(conf: ServerConf, unset: Params, hasCert: bool)
    ensures Inv(conf, Begin(conf, unset, hasCert), Choice(false, false, false, hasCert))
  {
  }

  lemma HappenKeeps(conf: ServerConf, n: Line, h: Choice, e: Event) returns (h': Choice)
    requires Inv(conf, n, h)
    ensures Inv(conf, Happen(n, e), h')
  {
    hide ClientInv, ServerInv, ClientRun, ServerRun;
    h' := h;
    match e {
      case ClientActs(ready) => h' := ClientKeeps(n.c, h, n.clientTook, n.clientSent, n.toClient, ready);
      case ServerActs(ready) => ServerKeeps(n.s, n.serverTook, n.serverSent, n.toServer, ready);
      case ToClient(w) =>
      case ToServer(w) => ServerHears(n.s, n.serverTook, n.serverSent, n.toServer, w);
    }
  }

  lemma {:induction false} UnfoldKeeps(conf: ServerConf, n: Line, h: Choice, events: seq<Event>) returns (h': Choice)
    requires Inv(conf, n, h)
    ensures Inv(conf, Unfold(n, events), h')
    decreases |events|
  {
    hide Inv, Happen;
    h' := h;
    if events != [] {
      h' := HappenKeeps(conf, n, h, events[0]);
      h' := UnfoldKeeps(conf, Happen(n, events[0]), h', events[1..]);
    }
  }

  // ---------------------------------------------------------------- one end

  /** Whatever arrives, a client that is done has hashed one of its courses to the end, and has taken one
    * Finished, the server's, over exactly the messages it had hashed before. */
  lemma ClientFinishes(conf: ServerConf, unset: Params, hasCert: bool, events: seq<Event>) returns (h: Choice)
    requires Unfold(Begin(conf, unset, hasCert), events).c.state.ClientDone?
    ensures var n := Unfold(Begin(conf, unset, hasCert), events);
            && n.c.transcript == CourseTo(n.c.p, h, LastStage(n.c.p))
            && ClientAllows(n.c.p, h) && (!n.c.p.resumed && n.c.p.kx == ECDHE ==> h.keyExchange)
            && h.cert == n.c.hasCert
            && FinishedOf(n.clientTook) == [ServerFinished(n.c.p, h)]
            && ServerFinished(n.c.p, h).mac + [Finished(true)] <= n.c.transcript
  {
    hide Unfold, CourseTo, FinishedOf, Piece;
    BeginInv(conf, unset, hasCert);
    h := UnfoldKeeps(conf, Begin(conf, unset, hasCert), Choice(false, false, false, hasCert), events);
    ServerFinishedHashed(Unfold(Begin(conf, unset, hasCert), events).c.p, h);
  }

  lemma ServerFinishedHashed(p: Params, h: Choice)
    ensures ServerFinished(p, h).mac + [Finished(true)] <= CourseTo(p, h, LastStage(p))
  {
    hide CourseTo, Piece;
    VerifyStage(p, h);
    if p.resumed { FlightStages(p, h, 2); }
  }

  lemma ClientFinishedHashed(p: Params, h: Choice)
    ensures ClientFinished(p, h).mac + [Finished(false)] <= CourseTo(p, h, LastStage(p))
  {
    hide CourseTo, Piece;
    FlightStages(p, h, if p.resumed then 2 else 8);
    if !p.resumed {
      TicketStage(p, h);
      VerifyStage(p, h);
    }
  }

  /** So has a server, which moreover settles everything but the client's certificate itself, and has one
    * when it insists on it. */
  lemma ServerFinishes(conf: ServerConf, unset: Params, hasCert: bool, events: seq<Event>)
    requires Unfold(Begin(conf, unset, hasCert), events).s.state.ServerDone?
    ensures var n := Unfold(Begin(conf, unset, hasCert), events);
            var h := ServerChoice(conf, n.s.peerKey);
            && n.s.transcript == CourseTo(conf.p, h, LastStage(conf.p))
            && (n.s.peerKey ==> h.request) && (h.request && conf.requireCert ==> n.s.peerKey)
            && FinishedOf(n.serverTook) == [ClientFinished(conf.p, h)]
            && ClientFinished(conf.p, h).mac + [Finished(false)] <= n.s.transcript
  {
    hide Unfold, CourseTo, FinishedOf, Piece;
    BeginInv(conf, unset, hasCert);
    var h := UnfoldKeeps(conf, Begin(conf, unset, hasCert), Choice(false, false, false, hasCert), events);
    ClientFinishedHashed(conf.p, ServerChoice(conf, Unfold(Begin(conf, unset, hasCert), events).s.peerKey));
  }

  // ---------------------------------------------------------------- a wrong message

  /** The messages that stop a client. */
  predicate StopsClient(c: Client, k: Kind, mac: seq<Kind>)
  {
    || (c.state.ReadServerHello? && !k.ServerHello?)
    || (c.state.ReadServerCertificate? && c.p.certAuth && k != Certificate(true))
    || (c.state.ReadServerKeyExchange? && k == ServerKeyExchange && c.p.kx == RSA)
    || (c.state.ReadServerKeyExchange? && k != ServerKeyExchange && c.p.kx == ECDHE)
    || (c.state.ReadCertificateRequest? && c.p.certAuth && k != CertificateRequest && k != ServerHelloDone)
    || (c.state.ReadServerHelloDone? && k != ServerHelloDone)
    || (c.state.ReadSessionTicket? && c.p.ticket && k != NewSessionTicket)
    || (c.state.ReadServerFinished? && (k != Finished(true) || mac != c.transcript))
  }

  /** The messages that stop a server. */
  predicate StopsServer(s: Server, k: Kind, mac: seq<Kind>)
  {
    || (s.state.ReadClientHello? && k != ClientHello)
    || (s.state.ReadClientCertificate? && s.certRequest && !k.Certificate?)
    || (s.state.ReadClientCertificate? && s.certRequest && k == Certificate(false) && s.conf.requireCert)
    || (s.state.ReadClientKeyExchange? && k != ClientKeyExchange)
    || (s.state.ReadClientCertificateVerify? && s.peerKey && k != CertificateVerify)
    || (s.state.ReadNextProto? && s.conf.p.npn && k != NextProto)
    || (s.state.ReadChannelId? && s.conf.p.channelId && k != ChannelId)
    || (s.state.ReadClientFinished? && (k != Finished(false) || mac != s.transcript))
  }

  /** Where a client needs the application: to verify the server's certificate, to choose its own, to sign
    * with it, and for a channel ID. */
  predicate AsksClient(c: Client)
  {
    || (c.state.VerifyServerCertificate? && c.p.certAuth)
    || (c.state.SendClientCertificate? && c.certRequest)
    || (c.state.SendClientCertificateVerify? && c.certRequest && c.hasCert)
    || (c.state.SendClientFinished? && c.p.channelId)
  }

  /** Where a server does: to select a certificate and the parameters, to sign, to verify the client's
    * certificate, and to decrypt its key. */
  predicate AsksServer(s: Server, inbox: seq<Wire>)
  {
    || (s.state.ReadClientHello? && Peek(inbox) == Some(ClientHello))
    || (s.state.SelectCertificate? && Peek(inbox).Some?)
    || (s.state.SelectParameters? && Peek(inbox).Some?)
    || (s.state.SendServerKeyExchange? && s.serverParams && s.conf.p.certAuth)
    || (s.state.VerifyClientCertificate? && s.peerKey)
    || (s.state.ReadClientKeyExchange? && Peek(inbox) == Some(ClientKeyExchange) && s.conf.p.kx == RSA)
  }

  /** An end stops at exactly these messages, waits for a message only while there is none and for the
    * application only there and while it has not answered; it flushes its flights, and before the
    * peer's Finished it waits for the ChangeCipherSpec. */
  predicate ClientStopsRight(c: Client, inbox: seq<Wire>, ready: bool, t: ClientTurn)
  {
    && (t.c.wait.Error? <==> Peek(inbox).Some? && StopsClient(c, Peek(inbox).value, inbox[0].mac))
    && (t.c.wait.Error? ==> t == ClientTurn(c.(wait := Error), 0))
    && (t.c.wait.ReadMessage? ==> Peek(inbox).None?)
    && (t.c.wait.Async? <==> AsksClient(c) && !ready)
    && (t.c.wait.Flush? <==> c.state.StartConnect? || t.c.state.FinishFlight?)
    && (t.c.wait.ReadCcs? <==> t.c.state.ProcessChangeCipherSpec?)
  }

  lemma ClientStops(c: Client, inbox: seq<Wire>, ready: bool)
    requires !c.state.ClientDone?
    ensures ClientStopsRight(c, inbox, ready, ClientStep(c, inbox, ready))
  {
    hide ClientStep, ClientStopsRight;
    if Early(c) {
      ClientStopsEarly(c, inbox, ready);
    } else if OnlyFull(c.state) {
      ClientStopsFull(c, inbox, ready);
    } else {
      ClientStopsLate(c, inbox, ready);
    }
  }

  lemma ClientStopsEarly(c: Client, inbox: seq<Wire>, ready: bool)
    requires Early(c)
    ensures ClientStopsRight(c, inbox, ready, ClientStep(c, inbox, ready))
  {
  }

  lemma ClientStopsFull(c: Client, inbox: seq<Wire>, ready: bool)
    requires OnlyFull(c.state)
    ensures ClientStopsRight(c, inbox, ready, ClientStep(c, inbox, ready))
  {
  }

  lemma ClientStopsLate(c: Client, inbox: seq<Wire>, ready: bool)
    requires !Early(c) && !OnlyFull(c.state) && !c.state.ClientDone?
    ensures ClientStopsRight(c, inbox, ready, ClientStep(c, inbox, ready))
  {
  }

  predicate ServerStopsRight(s: Server, inbox: seq<Wire>, ready: bool, t: ServerTurn)
  {
    && (t.s.wait.Error? <==> Peek(inbox).Some? && StopsServer(s, Peek(inbox).value, inbox[0].mac))
    && (t.s.wait.Error? ==> t == ServerTurn(s.(wait := Error), 0))
    && (t.s.wait.ReadMessage? ==> Peek(inbox).None?)
    && (t.s.wait.Async? <==> AsksServer(s, inbox) && !ready)
    && (t.s.wait.Flush? <==> s.state.SendServerHelloDone? || s.state.SendServerFinished?)
    && (t.s.wait.ReadCcs? <==> s.state.ReadChangeCipherSpec?)
  }

  lemma ServerStops(s: Server, inbox: seq<Wire>, ready: bool)
    requires !s.state.ServerDone?
    ensures ServerStopsRight(s, inbox, ready, ServerStep(s, inbox, ready))
  {
    hide ServerStep, ServerStopsRight;
    if ServerEarly(s) {
      ServerStopsEarly(s, inbox, ready);
    } else if ServerOnlyFull(s.state) {
      ServerStopsFull(s, inbox, ready);
    } else {
      ServerStopsLate(s, inbox, ready);
    }
  }

  lemma ServerStopsEarly(s: Server, inbox: seq<Wire>, ready: bool)
    requires ServerEarly(s)
    ensures ServerStopsRight(s, inbox, ready, ServerStep(s, inbox, ready))
  {
  }

  lemma ServerStopsFull(s: Server, inbox: seq<Wire>, ready: bool)
    requires ServerOnlyFull(s.state)
    ensures ServerStopsRight(s, inbox, ready, ServerStep(s, inbox, ready))
  {
  }

  lemma ServerStopsLate(s: Server, inbox: seq<Wire>, ready: bool)
    requires !ServerEarly(s) && !ServerOnlyFull(s.state) && !s.state.ServerDone?
    ensures ServerStopsRight(s, inbox, ready, ServerStep(s, inbox, ready))
  {
  }

  /** An item that stops an end, which waits for a ChangeCipherSpec or is ready for a message. */
  predicate Stopper(w: Wait, item: Item, stops: bool)
  {
    match w
    case Error => true
    case Flush => false
    case ReadCcs => item.Hs?
    case ReadMessage => item.Ccs? || stops
    case _ => item.Hs? && stops
  }

  /** So the drivers fail: on a message in place of a ChangeCipherSpec, a ChangeCipherSpec in place of a
    * message, and such a message. */
  lemma ClientFailsIff(c: Client, inbox: seq<Wire>, ready: bool)
    requires !c.state.ClientDone?
    ensures ClientRun(c, inbox, ready).c.wait.Error? <==>
            if inbox == [] then c.wait.Error?
            else Stopper(c.wait, inbox[0].item, Peek(inbox).Some? && StopsClient(c, Peek(inbox).value, inbox[0].mac))
  {
    hide ClientStep, StopsClient, AsksClient;
    ClientStops(c, inbox, ready);
  }

  lemma ServerFailsIff(s: Server, inbox: seq<Wire>, ready: bool)
    requires !s.state.ServerDone?
    ensures ServerRun(s, inbox, ready).s.wait.Error? <==>
            if inbox == [] then s.wait.Error?
            else Stopper(s.wait, inbox[0].item, Peek(inbox).Some? && StopsServer(s, Peek(inbox).value, inbox[0].mac))
  {
    hide ServerStep, StopsServer, AsksServer;
    ServerStops(s, inbox, ready);
  }

  lemma {:induction false} FailedStays(n: Line, events: seq<Event>)
    ensures n.c.wait.Error? ==> Unfold(n, events).c == n.c
    ensures n.s.wait.Error? ==> Unfold(n, events).s == n.s
    decreases |events|
  {
    hide ClientStep, ServerStep;
    if events != [] { FailedStays(Happen(n, events[0]), events[1..]); }
  }

  /** A client that turns to such a message, a Finished over other messages among them, fails for good. */
  lemma ClientRefuses(n: Line, ready: bool, events: seq<Event>)
    requires !n.c.state.ClientDone? && (n.c.wait.Running? || n.c.wait.ReadMessage? || n.c.wait.Async?)
    requires Peek(n.toClient).Some? && StopsClient(n.c, Peek(n.toClient).value, n.toClient[0].mac)
    ensures Unfold(n, [ClientActs(ready)] + events).c == n.c.(wait := Error)
  {
    hide ClientStep, ServerRun, StopsClient;
    ClientStops(n.c, n.toClient, ready);
    FailedStays(Happen(n, ClientActs(ready)), events);
    FirstEvent(n, ClientActs(ready), events);
  }

  lemma ServerRefuses(n: Line, ready: bool, events: seq<Event>)
    requires !n.s.state.ServerDone? && (n.s.wait.Running? || n.s.wait.ReadMessage? || n.s.wait.Async?)
    requires Peek(n.toServer).Some? && StopsServer(n.s, Peek(n.toServer).value, n.toServer[0].mac)
    ensures Unfold(n, [ServerActs(ready)] + events).s == n.s.(wait := Error)
  {
    hide ServerStep, ClientRun, StopsServer;
    ServerStops(n.s, n.toServer, ready);
    FailedStays(Happen(n, ServerActs(ready)), events);
    FirstEvent(n, ServerActs(ready), events);
  }

  lemma FirstEvent(n: Line, e: Event, events: seq<Event>)
    ensures Unfold(n, [e] + events) == Unfold(Happen(n, e), events)
  {
    hide Happen;
    assert ([e] + events)[1..] == events;
  }

  // ---------------------------------------------------------------- both ends

  lemma {:induction false} FinishedIn(ws: seq<Wire>, w: Wire)
    requires w in ws && w.item.Hs? && w.item.kind.Finished?
    ensures w in FinishedOf(ws)
  {
    var n := |ws| - 1;
    if w != ws[n] {
      assert ws == ws[..n] + [ws[n]];
      FinishedIn(ws[..n], w);
    }
  }

  lemma {:induction false} HelloFirst(p: Params, h: Choice, n: nat)
    ensures |CourseTo(p, h, n)| >= 2 && CourseTo(p, h, n)[1] == ServerHello(p)
  {
    if n > 0 { HelloFirst(p, h, n - 1); }
  }

  /** Two courses that the same Finished messages vouch for are one. */
  lemma SameFinished(p: Params, h: Choice, q: Params, k: Choice)
    requires ServerFinished(p, h) == ServerFinished(q, k) && ClientFinished(p, h) == ClientFinished(q, k)
    ensures p == q && CourseTo(p, h, LastStage(p)) == CourseTo(q, k, LastStage(q))
  {
    hide CourseTo, Piece;
    HelloFirst(p, h, ServerFinishedStage(p));
    HelloFirst(q, k, ServerFinishedStage(q));
    if p.resumed {
      FlightStages(p, h, 2);
      FlightStages(q, k, 2);
    } else {
      VerifyStage(p, h);
      VerifyStage(q, k);
    }
  }

  /** If the Finished message that each end took is one the other end has sent, then two ends that are done
    * have hashed the same messages and settled on the same parameters, however the channel treated
    * everything else. */
  lemma DoneEndsAgree(conf: ServerConf, unset: Params, hasCert: bool, events: seq<Event>)
    requires var n := Unfold(Begin(conf, unset, hasCert), events);
             && n.c.state.ClientDone? && n.s.state.ServerDone?
             && (forall w :: w in FinishedOf(n.clientTook) ==> w in n.serverSent)
             && (forall w :: w in FinishedOf(n.serverTook) ==> w in n.clientSent)
    ensures var n := Unfold(Begin(conf, unset, hasCert), events);
            n.c.transcript == n.s.transcript && n.c.p == conf.p
  {
    hide Unfold, CourseTo, FinishedOf, Piece;
    BeginInv(conf, unset, hasCert);
    var h := UnfoldKeeps(conf, Begin(conf, unset, hasCert), Choice(false, false, false, hasCert), events);
    var n := Unfold(Begin(conf, unset, hasCert), events);
    var k := ServerChoice(conf, n.s.peerKey);
    var v, w := ServerFinished(n.c.p, h), ClientFinished(conf.p, k);
    assert v in FinishedOf(n.clientTook) && w in FinishedOf(n.serverTook);
    FinishedIn(n.serverSent + n.s.pending, v);
    FinishedIn(n.clientSent + n.c.pending, w);
    SameFinished(n.c.p, h, conf.p, k);
  }
}
