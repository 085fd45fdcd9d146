/**
 * The client and server machines composed over two FIFO channels: for every agreed outcome of the
 * negotiation and every schedule, no unexpected message, no deadlock, equal transcripts at every
 * Finished, and both ends done.
 */
module HandshakeRun {
  import opened Bytes
  import opened Handshake
  import opened HandshakeStages
  import opened ClientProgress
  import opened ServerProgress

  datatype Net = Net(c: Client, s: Server, toServer: seq<Wire>, toClient: seq<Wire>)

  /** The client starts without knowing the outcome; `unset` is what its fields happen to hold. */
  function Start(g: Config, unset: Params): Net
  {
    Net(Client(StartConnect, Running, [], [], unset, false, g.clientHasCert),
        Server(StartAccept, Running, [], [], ServerConf(g.p, g.wantCert, g.requireCert, g.pskHint), false, false, false), [], [])
  }

  /** One end acts once; `ready` answers its question to the application, if it has one. */
  datatype Turn = Turn(byClient: bool, ready: bool)

  function Act(n: Net, t: Turn): Net
  {
    if t.byClient then
      ClientTakesArrived(n.c, n.toClient, t.ready);
      var a := ClientRun(n.c, n.toClient, t.ready);
      Net(a.c, n.s, n.toServer + a.flushed, n.toClient[a.used..])
    else
      ServerTakesArrived(n.s, n.toServer, t.ready);
      var a := ServerRun(n.s, n.toServer, t.ready);
      Net(n.c, a.s, n.toServer[a.used..], n.toClient + a.flushed)
  }

  /** Items on the way from one end to the other, sent or waiting to be flushed. */
  predicate Inv(g: Config, n: Net)
  {
    && Agreed(g) && ClientOk(g, n.c) && ServerOk(g, n.s)
    && Link(g, true, ServerStage(g, n.s), ClientStage(g, n.c), Items(n.toServer) + Items(n.c.pending))
    && Link(g, false, ClientStage(g, n.c), ServerStage(g, n.s), Items(n.toClient) + Items(n.s.pending))
    && MacsOk(g, n.toServer) && MacsOk(g, n.toClient) && MacsOk(g, n.c.pending) && MacsOk(g, n.s.pending)
  }

  lemma StartOk(g: Config, unset: Params)
    requires Agreed(g)
    ensures ClientOk(g, Start(g, unset).c) && ServerOk(g, Start(g, unset).s)
    ensures ClientStage(g, Start(g, unset).c) == 0 && ServerStage(g, Start(g, unset).s) == 0
  {
    hide At, AwaitsMessage, ServerAwaitsMessage, AsksCert, SendsKeyExchange;
  }

  lemma StartLinked(g: Config, byClient: bool)
    ensures Link(g, byClient, 0, 0, Items([]) + Items([]))
  {
    hide At, Items, Between;
    OneStage(g, byClient, 0);
    ItemsNone();
  }

  lemma StartInv(g: Config, unset: Params)
    requires Agreed(g)
    ensures Inv(g, Start(g, unset))
  {
    StartOk(g, unset);
    hide ClientOk, ServerOk, ClientStage, ServerStage, Link, Items, Agreed, MacsOk;
    StartLinked(g, true);
    StartLinked(g, false);
    MacsNone(g);
  }

  // ---------------------------------------------------------------- moving along the links

  lemma {:induction false} WriterMoves(g: Config, byClient: bool, r: nat, i: nat, j: nat, items: seq<Item>)
    requires i <= j && Link(g, byClient, r, i, items)
    ensures Link(g, byClient, r, j, items + Between(g, byClient, i, j))
    decreases j - i
  {
    hide Link, SentAt;
    if i == j {
      assert items + [] == items;
    } else {
      WriterAdvances(g, byClient, r, i, items);
      WriterMoves(g, byClient, r, i + 1, j, items + SentAt(g, byClient, i));
      assert items + SentAt(g, byClient, i) + Between(g, byClient, i + 1, j) == items + Between(g, byClient, i, j);
    }
  }

  lemma {:induction false} ReaderMoves(g: Config, byClient: bool, i: nat, j: nat, w: nat, items: seq<Item>)
    requires i <= j && Link(g, byClient, i, w, items) && Between(g, byClient, i, j) <= items
    ensures Link(g, byClient, j, w, items[|Between(g, byClient, i, j)|..])
    decreases j - i
  {
    hide Link, SentAt;
    if i == j {
    } else {
      var a, b := SentAt(g, byClient, i), Between(g, byClient, i + 1, j);
      assert Between(g, byClient, i, j) == a + b;
      ReaderAdvances(g, byClient, i, w, items);
      ReaderMoves(g, byClient, i + 1, j, w, items[|a|..]);
      assert items[|a|..][|b|..] == items[|a + b|..];
    }
  }

  lemma ItemsCat(a: seq<Wire>, b: seq<Wire>)
    ensures Items(a + b) == Items(a) + Items(b)
  {
  }

  lemma ItemsTail(a: seq<Wire>, k: nat)
    requires k <= |a|
    ensures Items(a[k..]) == Items(a)[k..] && Items(a[..k]) == Items(a)[..k]
  {
  }

  lemma MacsSplit(g: Config, a: seq<Wire>, k: nat)
    requires k <= |a| && MacsOk(g, a)
    ensures MacsOk(g, a[k..])
  {
    hide Hashed, FinishedStage;
  }

  lemma MacsCat(g: Config, a: seq<Wire>, b: seq<Wire>)
    requires MacsOk(g, a) && MacsOk(g, b)
    ensures MacsOk(g, a + b)
  {
    hide Hashed, FinishedStage;
  }

  /** A step of the client machine in its place in the connection. */
  lemma ClientMoveKeeps(g: Config, n: Net, t: ClientTurn)
    requires Inv(g, n) && ClientMoves(g, n.c, n.toClient, t)
    ensures Inv(g, Net(t.c, n.s, n.toServer + [], n.toClient[t.used..]))
  {
    hide Link, Items, MacsOk, ClientOk, ServerOk, ClientStage, ServerStage, Agreed, Between;
    var i, j, r := ClientStage(g, n.c), ClientStage(g, t.c), ServerStage(g, n.s);
    var out, inn := Items(n.toServer) + Items(n.c.pending), Items(n.toClient) + Items(n.s.pending);
    WriterMoves(g, true, r, i, j, out);
    assert out + Between(g, true, i, j) == Items(n.toServer) + Items(t.c.pending);
    assert n.toServer + [] == n.toServer;
    ItemsTail(n.toClient, t.used);
    assert inn[..t.used] == Between(g, false, i, j);
    ReaderMoves(g, false, i, j, r, inn);
    assert inn[t.used..] == Items(n.toClient[t.used..]) + Items(n.s.pending);
    MacsSplit(g, n.toClient, t.used);
  }

  lemma ServerMoveKeeps(g: Config, n: Net, t: ServerTurn)
    requires Inv(g, n) && ServerMoves(g, n.s, n.toServer, t)
    ensures Inv(g, Net(n.c, t.s, n.toServer[t.used..], n.toClient + []))
  {
    hide Link, Items, MacsOk, ClientOk, ServerOk, ClientStage, ServerStage, Agreed, Between;
    var i, j, r := ServerStage(g, n.s), ServerStage(g, t.s), ClientStage(g, n.c);
    var out, inn := Items(n.toClient) + Items(n.s.pending), Items(n.toServer) + Items(n.c.pending);
    WriterMoves(g, false, r, i, j, out);
    assert out + Between(g, false, i, j) == Items(n.toClient) + Items(t.s.pending);
    assert n.toClient + [] == n.toClient;
    ItemsTail(n.toServer, t.used);
    assert inn[..t.used] == Between(g, true, i, j);
    ReaderMoves(g, true, i, j, r, inn);
    assert inn[t.used..] == Items(n.toServer[t.used..]) + Items(n.c.pending);
    MacsSplit(g, n.toServer, t.used);
  }

  // ---------------------------------------------------------------- every action keeps the invariant

  lemma ClientMessageNext(g: Config, c: Client)
    requires ClientOk(g, c) && AwaitsMessage(c)
    ensures NextSent(g, false, ClientStage(g, c)).Some? && NextSent(g, false, ClientStage(g, c)).value.Hs?
  {
    hide Hashed, AsksCert, SendsKeyExchange;
    if !g.p.resumed {
      LaterKinds(g);
      StatusNext(g);
    }
  }

  lemma ClientCcsNext(g: Config, c: Client)
    requires ClientOk(g, c) && c.wait.ReadCcs?
    ensures At(g, ClientStage(g, c)) == Some(Event(false, Ccs))
    ensures NextSent(g, false, ClientStage(g, c)) == Some(Ccs)
  {
    hide Hashed, AsksCert, SendsKeyExchange;
  }

  lemma ClientStepMoves(g: Config, c: Client, inbox: seq<Wire>, ready: bool)
    requires ClientReady(g, c, inbox)
    ensures ClientMoves(g, c, inbox, ClientStep(c, inbox, ready))
  {
    hide ClientMoves, ClientReady, ClientStep;
    match c.state
    case StartConnect => ClientHelloMoves(g, c, inbox, ready);
    case EnterEarlyData => ClientHelloMoves(g, c, inbox, ready);
    case ReadServerHello => ClientHelloMoves(g, c, inbox, ready);
    case ReadServerCertificate => ClientCertificateMoves(g, c, inbox, ready);
    case ReadCertificateStatus => ClientStatusMoves(g, c, inbox, ready);
    case VerifyServerCertificate => ClientStatusMoves(g, c, inbox, ready);
    case ReadServerKeyExchange => ClientKeyExchangeMoves(g, c, inbox, ready);
    case ReadCertificateRequest => ClientRequestMoves(g, c, inbox, ready);
    case ReadServerHelloDone => ClientRequestMoves(g, c, inbox, ready);
    case SendClientCertificate => ClientReplyMoves(g, c, inbox, ready);
    case SendClientKeyExchange => ClientReplyMoves(g, c, inbox, ready);
    case SendClientCertificateVerify => ClientReplyMoves(g, c, inbox, ready);
    case SendClientFinished => ClientFinishedMoves(g, c, inbox, ready);
    case FinishFlight => ClientCipherMoves(g, c, inbox, ready);
    case ReadSessionTicket => ClientTicketMoves(g, c, inbox, ready);
    case ProcessChangeCipherSpec => ClientCipherMoves(g, c, inbox, ready);
    case ReadServerFinished => ClientVerifyMoves(g, c, inbox, ready);
    case FinishClientHandshake => ClientEndMoves(g, c, inbox, ready);
    case ClientDone => ClientEndMoves(g, c, inbox, ready);
  }

  lemma ServerStepMoves(g: Config, s: Server, inbox: seq<Wire>, ready: bool)
    requires ServerReady(g, s, inbox)
    ensures ServerMoves(g, s, inbox, ServerStep(s, inbox, ready))
  {
    hide ServerMoves, ServerReady, ServerStep;
    match s.state
    case StartAccept => ServerHelloMoves(g, s, inbox, ready);
    case ReadClientHello => ServerHelloMoves(g, s, inbox, ready);
    case SelectCertificate => ServerHelloMoves(g, s, inbox, ready);
    case SelectParameters => ServerHelloMoves(g, s, inbox, ready);
    case SendServerHello => ServerParametersMoves(g, s, inbox, ready);
    case SendServerCertificate => ServerCertificateMoves(g, s, inbox, ready);
    case SendServerKeyExchange => ServerKeyExchangeMoves(g, s, inbox, ready);
    case SendServerHelloDone => ServerHelloDoneMoves(g, s, inbox, ready);
    case ReadClientCertificate => ServerClientCertificateMoves(g, s, inbox, ready);
    case VerifyClientCertificate => ServerClientCertificateMoves(g, s, inbox, ready);
    case ReadClientKeyExchange => ServerKeyMoves(g, s, inbox, ready);
    case ReadClientCertificateVerify => ServerVerifyMoves(g, s, inbox, ready);
    case ReadChangeCipherSpec => ServerCipherMoves(g, s, inbox, ready);
    case ServerProcessChangeCipherSpec => ServerCipherMoves(g, s, inbox, ready);
    case ReadNextProto => ServerNextProtoMoves(g, s, inbox, ready);
    case ReadChannelId => ServerChannelIdMoves(g, s, inbox, ready);
    case ReadClientFinished => ServerCheckMoves(g, s, inbox, ready);
    case SendServerFinished => ServerFinishedMoves(g, s, inbox, ready);
    case FinishServerHandshake => ServerEndMoves(g, s, inbox, ready);
    case ServerDone => ServerEndMoves(g, s, inbox, ready);
  }

  /** What has arrived at the client is what it reads next. */
  lemma ClientArrival(g: Config, n: Net)
    requires Inv(g, n) && n.toClient != []
    ensures NextSent(g, false, ClientStage(g, n.c)) == Some(n.toClient[0].item)
  {
    hide At, ClientOk, ServerOk, ClientStage, ServerStage, NextSent, Link;
    HeadIsNext(g, false, ClientStage(g, n.c), ServerStage(g, n.s), Items(n.toClient) + Items(n.s.pending));
  }

  lemma ServerArrival(g: Config, n: Net)
    requires Inv(g, n) && n.toServer != []
    ensures NextSent(g, true, ServerStage(g, n.s)) == Some(n.toServer[0].item)
  {
    hide At, ClientOk, ServerOk, ClientStage, ServerStage, NextSent, Link;
    HeadIsNext(g, true, ServerStage(g, n.s), ClientStage(g, n.c), Items(n.toServer) + Items(n.c.pending));
  }

  lemma ClientFlushKeeps(g: Config, n: Net)
    requires Inv(g, n) && n.c.wait.Flush?
    ensures Inv(g, Net(n.c.(pending := [], wait := Running), n.s, n.toServer + n.c.pending, n.toClient[0..]))
  {
    hide Link, Items, ServerOk, ServerStage, Agreed, Hashed, At, MacsOk, AsksCert;
    ItemsCat(n.toServer, n.c.pending);
    assert n.toClient[0..] == n.toClient;
    assert Items([]) == [] by { ItemsNone(); }
    assert Items(n.toServer + n.c.pending) + [] == Items(n.toServer) + Items(n.c.pending);
    MacsCat(g, n.toServer, n.c.pending);
    MacsNone(g);
  }

  lemma ItemsNone()
    ensures Items([]) == []
  {
  }

  lemma MacsNone(g: Config)
    ensures MacsOk(g, [])
  {
  }

  lemma ServerFlushKeeps(g: Config, n: Net)
    requires Inv(g, n) && n.s.wait.Flush?
    ensures Inv(g, Net(n.c, n.s.(pending := [], wait := Running), n.toServer[0..], n.toClient + n.s.pending))
  {
    hide Link, Items, ClientOk, ClientStage, Agreed, Hashed, At, MacsOk, AsksCert, SendsKeyExchange;
    ItemsCat(n.toClient, n.s.pending);
    assert n.toServer[0..] == n.toServer;
    assert Items([]) == [] by { ItemsNone(); }
    assert Items(n.toClient + n.s.pending) + [] == Items(n.toClient) + Items(n.s.pending);
    MacsCat(g, n.toClient, n.s.pending);
    MacsNone(g);
  }

  /** Reading the expected ChangeCipherSpec is a move of one stage. */
  lemma ClientCcsMoves(g: Config, c: Client, inbox: seq<Wire>)
    requires ClientOk(g, c) && c.wait.ReadCcs? && MacsOk(g, c.pending) && inbox != [] && inbox[0].item.Ccs?
    ensures ClientMoves(g, c, inbox, ClientTurn(c.(wait := Running), 1))
  {
    hide Hashed, ClientMoves, AsksCert, SendsKeyExchange, MacsOk, NextSent, Items;
    ClientCcsNext(g, c);
    HashedStep(g, ClientStage(g, c));
    ClientTakes(g, c, inbox, c.(wait := Running));
  }

  lemma ServerCcsNext(g: Config, s: Server)
    requires ServerOk(g, s) && s.wait.ReadCcs?
    ensures At(g, ServerStage(g, s)) == Some(Event(true, Ccs))
    ensures NextSent(g, true, ServerStage(g, s)) == Some(Ccs)
  {
    hide Hashed, AsksCert, SendsKeyExchange;
  }

  lemma ServerCcsMoves(g: Config, s: Server, inbox: seq<Wire>)
    requires ServerOk(g, s) && s.wait.ReadCcs? && MacsOk(g, s.pending) && inbox != [] && inbox[0].item.Ccs?
    ensures ServerMoves(g, s, inbox, ServerTurn(s.(wait := Running), 1))
  {
    hide Hashed, ServerMoves, AsksCert, SendsKeyExchange, MacsOk, NextSent, Items;
    ServerCcsNext(g, s);
    HashedStep(g, ServerStage(g, s));
    ServerTakes(g, s, inbox, s.(wait := Running));
  }

  lemma ServerMessageNext(g: Config, s: Server)
    requires ServerOk(g, s) && ServerAwaitsMessage(s)
    ensures NextSent(g, true, ServerStage(g, s)).Some? && NextSent(g, true, ServerStage(g, s)).value.Hs?
  {
    hide Hashed, SendsKeyExchange;
  }

  lemma ClientActKeeps(g: Config, n: Net, ready: bool)
    requires Inv(g, n)
    ensures Inv(g, Act(n, Turn(true, ready)))
  {
    hide Link, Items, ClientOk, ServerOk, ServerStage, ClientStage, Agreed, MacsOk, ClientStep, ClientMoves, NextSent, AwaitsMessage;
    var c, inbox := n.c, n.toClient;
    ClientTakesArrived(c, inbox, ready);
    if inbox != [] { ClientArrival(g, n); }
    assert n.toServer + [] == n.toServer && inbox[0..] == inbox;
    NotError(g, c);
    match c.wait {
      case Flush => ClientFlushKeeps(g, n);
      case ReadCcs =>
        if inbox != [] {
          ClientCcsNext(g, c);
          ClientCcsMoves(g, c, inbox);
          ClientMoveKeeps(g, n, ClientTurn(c.(wait := Running), 1));
        }
      case ReadMessage =>
        ReadMessageAwaits(g, c);
        ClientMessageNext(g, c);
        ClientStepMoves(g, c, inbox, ready);
        ClientMoveKeeps(g, n, ClientStep(c, inbox, ready));
      case Running =>
        ClientStepMoves(g, c, inbox, ready);
        ClientMoveKeeps(g, n, ClientStep(c, inbox, ready));
      case Async =>
        ClientStepMoves(g, c, inbox, ready);
        ClientMoveKeeps(g, n, ClientStep(c, inbox, ready));
    }
  }

  lemma NotError(g: Config, c: Client)
    requires ClientOk(g, c)
    ensures !c.wait.Error?
  {
  }

  lemma ReadMessageAwaits(g: Config, c: Client)
    requires ClientOk(g, c)
    ensures c.wait.ReadMessage? ==> AwaitsMessage(c)
  {
  }

  lemma ServerNotError(g: Config, s: Server)
    requires ServerOk(g, s)
    ensures !s.wait.Error? && (s.wait.ReadMessage? ==> ServerAwaitsMessage(s))
  {
  }

  lemma ServerActKeeps(g: Config, n: Net, ready: bool)
    requires Inv(g, n)
    ensures Inv(g, Act(n, Turn(false, ready)))
  {
    hide Link, Items, ClientOk, ServerOk, ServerStage, ClientStage, Agreed, MacsOk, ServerStep, ServerMoves, NextSent, ServerAwaitsMessage;
    var s, inbox := n.s, n.toServer;
    ServerTakesArrived(s, inbox, ready);
    if inbox != [] { ServerArrival(g, n); }
    assert n.toClient + [] == n.toClient && inbox[0..] == inbox;
    ServerNotError(g, s);
    match s.wait {
      case Flush => ServerFlushKeeps(g, n);
      case ReadCcs =>
        if inbox != [] {
          ServerCcsNext(g, s);
          ServerCcsMoves(g, s, inbox);
          ServerMoveKeeps(g, n, ServerTurn(s.(wait := Running), 1));
        }
      case ReadMessage =>
        ServerMessageNext(g, s);
        ServerStepMoves(g, s, inbox, ready);
        ServerMoveKeeps(g, n, ServerStep(s, inbox, ready));
      case Running =>
        ServerStepMoves(g, s, inbox, ready);
        ServerMoveKeeps(g, n, ServerStep(s, inbox, ready));
      case Async =>
        ServerStepMoves(g, s, inbox, ready);
        ServerMoveKeeps(g, n, ServerStep(s, inbox, ready));
    }
  }

  // ---------------------------------------------------------------- no deadlock

  /** The end can do nothing until something arrives. */
  predicate ClientWaits(c: Client, inbox: seq<Wire>)
  {
    inbox == [] && (c.wait.ReadCcs? || (!c.wait.Flush? && AwaitsMessage(c)))
  }

  predicate ServerWaits(s: Server, inbox: seq<Wire>)
  {
    inbox == [] && (s.wait.ReadCcs? || (!s.wait.Flush? && ServerAwaitsMessage(s)))
  }

  /** The next event of the agreed course at stage i or later. */
  function NextEvent(g: Config, i: nat): Option<Event>
    decreases END - i
  {
    if At(g, i).Some? then At(g, i) else if i >= END then None else NextEvent(g, i + 1)
  }

  /** Without events in between the next event is the same. */
  lemma {:induction false} NextEventSame(g: Config, i: nat, j: nat)
    requires i <= j <= END && Between(g, true, i, j) == [] && Between(g, false, i, j) == []
    ensures NextEvent(g, i) == NextEvent(g, j)
    decreases j - i
  {
    hide At;
    if i < j {
      var e := At(g, i);
      assert Between(g, true, i, j) == SentAt(g, true, i) + Between(g, true, i + 1, j);
      assert Between(g, false, i, j) == SentAt(g, false, i) + Between(g, false, i + 1, j);
      assert SentAt(g, true, i) == [] && SentAt(g, false, i) == [];
      NextEventSame(g, i + 1, j);
    }
  }

  lemma ClientWaitsForServer(g: Config, c: Client)
    requires ClientOk(g, c) && (AwaitsMessage(c) || c.wait.ReadCcs?)
    ensures NextEvent(g, ClientStage(g, c)).Some? && !NextEvent(g, ClientStage(g, c)).value.byClient
  {
    hide Hashed, AsksCert, SendsKeyExchange;
    if !g.p.resumed { ServerEvents(g); }
  }

  lemma ServerEvents(g: Config)
    requires !g.p.resumed
    ensures forall i :: 3 <= i <= 6 ==> NextEvent(g, i).Some? && !NextEvent(g, i).value.byClient
  {
    hide AsksCert, SendsKeyExchange;
    assert NextEvent(g, 6) == Some(Event(false, Hs(ServerHelloDone)));
    assert NextEvent(g, 5) == if At(g, 5).Some? then At(g, 5) else NextEvent(g, 6);
    assert NextEvent(g, 4) == if At(g, 4).Some? then At(g, 4) else NextEvent(g, 5);
    assert NextEvent(g, 3) == if At(g, 3).Some? then At(g, 3) else NextEvent(g, 4);
  }

  lemma ServerWaitsForClient(g: Config, s: Server)
    requires ServerOk(g, s) && (ServerAwaitsMessage(s) || s.wait.ReadCcs?)
    ensures NextEvent(g, ServerStage(g, s)).Some? && NextEvent(g, ServerStage(g, s)).value.byClient
  {
    hide Hashed, SendsKeyExchange;
  }

  lemma NothingLeft(g: Config)
    ensures NextEvent(g, 17) == None && (g.p.resumed ==> NextEvent(g, 9) == None)
  {
    hide AsksCert, SendsKeyExchange;
    if g.p.resumed {
      assert NextEvent(g, 17) == NextEvent(g, 16) == NextEvent(g, 15) == NextEvent(g, 14) == NextEvent(g, 13);
      assert NextEvent(g, 13) == NextEvent(g, 12) == NextEvent(g, 11) == NextEvent(g, 10) == NextEvent(g, 9);
    }
  }

  lemma StagesBounded(g: Config, n: Net)
    requires ClientOk(g, n.c) && ServerOk(g, n.s)
    ensures ClientStage(g, n.c) <= END && ServerStage(g, n.s) <= END
  {
    hide Hashed, AsksCert, SendsKeyExchange, At;
  }

  /** The two ends are at the same point of the course when nothing is under way. */
  lemma SameNextEvent(g: Config, n: Net)
    requires Inv(g, n) && n.toServer == [] && n.toClient == [] && n.c.pending == [] && n.s.pending == []
    ensures NextEvent(g, ClientStage(g, n.c)) == NextEvent(g, ServerStage(g, n.s))
  {
    hide At, ClientOk, ServerOk, ClientStage, ServerStage, MacsOk, Agreed, NextEvent, Between, SentAt;
    StagesBounded(g, n);
    var i, j := ClientStage(g, n.c), ServerStage(g, n.s);
    if i <= j { NextEventSame(g, i, j); } else { NextEventSame(g, j, i); }
  }

  lemma WaitingIsFlushed(g: Config, n: Net)
    requires ClientOk(g, n.c) && ServerOk(g, n.s)
    ensures ClientWaits(n.c, n.toClient) || (n.c.state.ClientDone? && !n.c.wait.Flush?) ==> n.c.pending == []
    ensures ServerWaits(n.s, n.toServer) || (n.s.state.ServerDone? && !n.s.wait.Flush?) ==> n.s.pending == []
  {
    hide Hashed, AsksCert, SendsKeyExchange, At;
  }

  predicate Done(n: Net)
  {
    n.c.state.ClientDone? && n.s.state.ServerDone?
  }

  /** Deadlock freedom: in every reachable state in which the handshake is not over, some end can
    * move. */
  lemma NoDeadlock(g: Config, n: Net)
    requires Inv(g, n) && !Done(n)
    ensures || (!n.c.state.ClientDone? && !ClientWaits(n.c, n.toClient))
            || (!n.s.state.ServerDone? && !ServerWaits(n.s, n.toServer))
  {
    hide At, ClientOk, ServerOk, MacsOk, Agreed, NextEvent, Link, AwaitsMessage, ServerAwaitsMessage, Items;
    if (n.c.state.ClientDone? || ClientWaits(n.c, n.toClient)) && (n.s.state.ServerDone? || ServerWaits(n.s, n.toServer)) {
      NothingLeft(g);
      WaitingIsFlushed(g, n);
      DoneNotFlushing(g, n);
      EndsEmpty(g, n);
      SameNextEvent(g, n);
      if ClientWaits(n.c, n.toClient) && !n.c.state.ClientDone? { ClientWaitsForServer(g, n.c); }
      if ServerWaits(n.s, n.toServer) && !n.s.state.ServerDone? { ServerWaitsForClient(g, n.s); }
    }
  }

  lemma DoneNotFlushing(g: Config, n: Net)
    requires ClientOk(g, n.c) && ServerOk(g, n.s)
    ensures n.c.state.ClientDone? ==> !n.c.wait.Flush?
    ensures n.s.state.ServerDone? ==> !n.s.wait.Flush?
  {
    hide Hashed, AsksCert, SendsKeyExchange, At;
  }

  /** Nothing is sent to an end that is done. */
  lemma EndsEmpty(g: Config, n: Net)
    requires Inv(g, n)
    ensures n.c.state.ClientDone? ==> n.toClient == []
    ensures n.s.state.ServerDone? ==> n.toServer == []
  {
    hide At, ClientOk, ServerOk, MacsOk, Agreed, NextSent, Link, Items;
    if n.c.state.ClientDone? && n.toClient != [] {
      ClientArrival(g, n);
      NothingSentAtEnd(g, false);
    }
    if n.s.state.ServerDone? && n.toServer != [] {
      ServerArrival(g, n);
      NothingSentAtEnd(g, true);
    }
  }

  lemma NothingSentAtEnd(g: Config, byClient: bool)
    ensures NextSent(g, byClient, 17) == None && (g.p.resumed ==> NextSent(g, byClient, 9) == None)
  {
    hide AsksCert, SendsKeyExchange;
    if g.p.resumed {
      assert NextSent(g, byClient, 17) == NextSent(g, byClient, 16) == NextSent(g, byClient, 15) == NextSent(g, byClient, 14);
      assert NextSent(g, byClient, 14) == NextSent(g, byClient, 13) == NextSent(g, byClient, 12) == NextSent(g, byClient, 11);
      assert NextSent(g, byClient, 11) == NextSent(g, byClient, 10) == NextSent(g, byClient, 9);
    }
  }

  // ---------------------------------------------------------------- progress

  function ClientRank(g: Config, c: Client): nat
  {
    2 * (18 - ClientOrder(g.p.resumed, c.state)) + if c.wait.Flush? || c.wait.ReadCcs? then 1 else 0
  }

  function ServerRank(g: Config, s: Server): nat
  {
    2 * (19 - ServerOrder(g.p.resumed, s.state)) + if s.wait.Flush? || s.wait.ReadCcs? then 1 else 0
  }

  function Rank(g: Config, n: Net): nat
  {
    ClientRank(g, n.c) + ServerRank(g, n.s)
  }

  /** A client that has nothing to wait for moves on; and none ever moves back. */
  lemma ClientAdvances(g: Config, n: Net, ready: bool)
    requires Inv(g, n)
    ensures var c := Act(n, Turn(true, ready)).c;
            && ClientRank(g, c) <= ClientRank(g, n.c)
            && (ready && !n.c.state.ClientDone? && !ClientWaits(n.c, n.toClient) ==> ClientRank(g, c) < ClientRank(g, n.c))
  {
    hide Link, Items, ServerOk, ServerStage, Agreed, MacsOk, Hashed, At, NextSent, AsksCert, ClientOk, ClientStage, ClientStep,
         ClientOrder, AwaitsMessage, Between;
    NotError(g, n.c);
    if n.toClient != [] {
      ClientArrival(g, n);
      if AwaitsMessage(n.c) { ClientMessageNext(g, n.c); }
      if n.c.wait.ReadCcs? { ClientCcsNext(g, n.c); }
    }
    if !n.c.wait.Flush? && !n.c.wait.ReadCcs? {
      ReadMessageAwaits(g, n.c);
      ClientStepMoves(g, n.c, n.toClient, ready);
      if !n.c.state.ClientDone? { ClientReadyNotAsync(n.c, n.toClient); }
    }
  }

  lemma ServerAdvances(g: Config, n: Net, ready: bool)
    requires Inv(g, n)
    ensures var s := Act(n, Turn(false, ready)).s;
            && ServerRank(g, s) <= ServerRank(g, n.s)
            && (ready && !n.s.state.ServerDone? && !ServerWaits(n.s, n.toServer) ==> ServerRank(g, s) < ServerRank(g, n.s))
  {
    hide Link, Items, ClientOk, ClientStage, Agreed, MacsOk, Hashed, At, NextSent, AsksCert, SendsKeyExchange, ServerOk, ServerStage,
         ServerStep, ServerOrder, ServerAwaitsMessage, Between;
    ServerNotError(g, n.s);
    if n.toServer != [] {
      ServerArrival(g, n);
      if ServerAwaitsMessage(n.s) { ServerMessageNext(g, n.s); }
      if n.s.wait.ReadCcs? { ServerCcsNext(g, n.s); }
    }
    if !n.s.wait.Flush? && !n.s.wait.ReadCcs? {
      ServerStepMoves(g, n.s, n.toServer, ready);
      if !n.s.state.ServerDone? { ServerReadyNotAsync(n.s, n.toServer); }
    }
  }

  // ---------------------------------------------------------------- every run

  lemma ActKeeps(g: Config, n: Net, t: Turn)
    requires Inv(g, n)
    ensures Inv(g, Act(n, t))
  {
    hide Inv, Act;
    if t.byClient { ClientActKeeps(g, n, t.ready); } else { ServerActKeeps(g, n, t.ready); }
  }

  function Run(n: Net, turns: seq<Turn>): Net
    decreases |turns|
  {
    if turns == [] then n else Run(Act(n, turns[0]), turns[1..])
  }

  lemma {:induction false} RunKeeps(g: Config, n: Net, turns: seq<Turn>)
    requires Inv(g, n)
    ensures Inv(g, Run(n, turns))
    decreases |turns|
  {
    hide Inv, Act;
    if turns != [] {
      ActKeeps(g, n, turns[0]);
      RunKeeps(g, Act(n, turns[0]), turns[1..]);
    }
  }

  /** In every run neither end fails, and unless both are done one of them can move on. */
  lemma {:induction false} RunsDoNotFail(g: Config, unset: Params, turns: seq<Turn>)
    requires Agreed(g)
    ensures var n := Run(Start(g, unset), turns);
            && n.c.wait != Error && n.s.wait != Error
            && (!Done(n) ==>
                  || (!n.c.state.ClientDone? && !ClientWaits(n.c, n.toClient))
                  || (!n.s.state.ServerDone? && !ServerWaits(n.s, n.toServer)))
  {
    StartInv(g, unset);
    hide Start, Run;
    RunKeeps(g, Start(g, unset), turns);
    var n := Run(Start(g, unset), turns);
    NotError(g, n.c);
    ServerNotError(g, n.s);
    if !Done(n) { NoDeadlock(g, n); }
  }

  /** From every reachable state the handshake can be completed, with at most Rank(n) turns; turns
    * in which the application keeps an end waiting never undo progress. */
  lemma {:induction false} CanComplete(g: Config, n: Net) returns (turns: seq<Turn>)
    requires Inv(g, n)
    ensures Done(Run(n, turns)) && |turns| <= Rank(g, n)
    decreases Rank(g, n)
  {
    hide Inv, Done, ClientWaits, ServerWaits, ClientRank, ServerRank;
    if Done(n) {
      turns := [];
    } else {
      NoDeadlock(g, n);
      ClientAdvances(g, n, true);
      ServerAdvances(g, n, true);
      ActFrames(n);
      var byClient := !n.c.state.ClientDone? && !ClientWaits(n.c, n.toClient);
      ActKeeps(g, n, Turn(byClient, true));
      var rest := CanComplete(g, Act(n, Turn(byClient, true)));
      turns := [Turn(byClient, true)] + rest;
      assert turns[1..] == rest;
    }
  }

  lemma ActFrames(n: Net)
    ensures Act(n, Turn(true, true)).s == n.s && Act(n, Turn(false, true)).c == n.c
  {
  }

  // ---------------------------------------------------------------- what is reached

  /** The whole course of messages. */
  function Course(g: Config): seq<Kind>
  {
    Hashed(g, if g.p.resumed then 9 else 17)
  }

  /** When both ends are done nothing is left on the wire and both have hashed the whole course. */
  lemma EndState(g: Config, n: Net)
    requires Inv(g, n) && Done(n)
    ensures n.toServer == [] && n.toClient == [] && n.c.pending == [] && n.s.pending == []
    ensures n.c.transcript == n.s.transcript == Course(g)
  {
    hide Hashed, At, Link, Items, MacsOk, NextSent, AsksCert, SendsKeyExchange;
    EndsEmpty(g, n);
    WaitingIsFlushed(g, n);
    DoneNotFlushing(g, n);
  }

  /** Every Finished that arrives vouches for exactly what its reader has hashed so far. */
  lemma FinishedVerifies(g: Config, n: Net)
    requires Inv(g, n)
    ensures n.toClient != [] && n.toClient[0].item == Hs(Finished(true)) && n.c.state.ReadServerFinished? ==>
              n.toClient[0].mac == n.c.transcript
    ensures n.toServer != [] && n.toServer[0].item == Hs(Finished(false)) && n.s.state.ReadClientFinished? ==>
              n.toServer[0].mac == n.s.transcript
  {
    hide Hashed, At, Link, Items, AsksCert, SendsKeyExchange;
  }

  /** In every run each Finished that arrives matches its reader's transcript, and when both ends are
    * done nothing is under way and both have hashed the whole course. */
  lemma {:induction false} RunsAgree(g: Config, unset: Params, turns: seq<Turn>)
    requires Agreed(g)
    ensures var n := Run(Start(g, unset), turns);
            && (n.toClient != [] && n.toClient[0].item == Hs(Finished(true)) && n.c.state.ReadServerFinished? ==>
                  n.toClient[0].mac == n.c.transcript)
            && (n.toServer != [] && n.toServer[0].item == Hs(Finished(false)) && n.s.state.ReadClientFinished? ==>
                  n.toServer[0].mac == n.s.transcript)
            && (Done(n) ==>
                  && n.toServer == [] && n.toClient == [] && n.c.pending == [] && n.s.pending == []
                  && n.c.transcript == n.s.transcript == Course(g))
  {
    StartInv(g, unset);
    hide Start, Run, Inv, Done, Course;
    RunKeeps(g, Start(g, unset), turns);
    var n := Run(Start(g, unset), turns);
    FinishedVerifies(g, n);
    if Done(n) { EndState(g, n); }
  }

  /** However a run began, it can still be completed. */
  lemma {:induction false} RunsCanComplete(g: Config, unset: Params, turns: seq<Turn>) returns (more: seq<Turn>)
    requires Agreed(g)
    ensures var n := Run(Start(g, unset), turns); Done(Run(n, more)) && |more| <= Rank(g, n)
  {
    StartInv(g, unset);
    hide Start, Run, Inv, Done, Rank;
    RunKeeps(g, Start(g, unset), turns);
    more := CanComplete(g, Run(Start(g, unset), turns));
  }

  function Opt(b: bool, k: Kind): seq<Kind>
  {
    if b then [k] else []
  }

  /** What stage i adds to the transcript. */
  function HashedAt(g: Config, i: nat): seq<Kind>
  {
    var e := At(g, i);
    Opt(e.Some? && e.value.item.Hs?, if e.Some? && e.value.item.Hs? then e.value.item.kind else ClientHello)
  }

  lemma HashedAdds(g: Config, i: nat)
    ensures Hashed(g, i + 1) == Hashed(g, i) + HashedAt(g, i)
    ensures HashedAt(g, i) == [] ==> Hashed(g, i + 1) == Hashed(g, i)
  {
    hide At;
  }

  lemma ServerKinds(g: Config)
    requires !g.p.resumed
    ensures HashedAt(g, 0) == [ClientHello] && HashedAt(g, 1) == [ServerHello(g.p)]
    ensures HashedAt(g, 2) == Opt(g.p.certAuth, Certificate(true)) && HashedAt(g, 3) == Opt(g.p.certAuth && g.p.ocsp, CertificateStatus)
    ensures HashedAt(g, 4) == Opt(SendsKeyExchange(g), ServerKeyExchange) && HashedAt(g, 5) == Opt(AsksCert(g), CertificateRequest)
    ensures HashedAt(g, 6) == [ServerHelloDone]
  {
    hide AsksCert, SendsKeyExchange;
  }

  lemma ReplyKinds(g: Config)
    requires !g.p.resumed
    ensures HashedAt(g, 7) == Opt(AsksCert(g), Certificate(g.clientHasCert)) && HashedAt(g, 8) == [ClientKeyExchange]
    ensures HashedAt(g, 9) == Opt(AsksCert(g) && g.clientHasCert, CertificateVerify) && HashedAt(g, 10) == []
  {
    hide AsksCert, SendsKeyExchange;
  }

  lemma FinishKinds(g: Config)
    requires !g.p.resumed
    ensures HashedAt(g, 11) == Opt(g.p.npn, NextProto) && HashedAt(g, 12) == Opt(g.p.channelId, ChannelId)
    ensures HashedAt(g, 13) == [Finished(false)] && HashedAt(g, 14) == Opt(g.p.ticket, NewSessionTicket)
    ensures HashedAt(g, 15) == [] && HashedAt(g, 16) == [Finished(true)]
  {
    hide AsksCert, SendsKeyExchange;
  }

  lemma ResumedKinds(g: Config)
    requires g.p.resumed
    ensures HashedAt(g, 0) == [ClientHello] && HashedAt(g, 1) == [ServerHello(g.p)]
    ensures HashedAt(g, 2) == Opt(g.p.ticket, NewSessionTicket) && HashedAt(g, 3) == [] && HashedAt(g, 4) == [Finished(true)]
    ensures HashedAt(g, 5) == [] && HashedAt(g, 6) == Opt(g.p.npn, NextProto)
    ensures HashedAt(g, 7) == Opt(g.p.channelId, ChannelId) && HashedAt(g, 8) == [Finished(false)]
  {
    hide AsksCert, SendsKeyExchange;
  }

  /** The first flight of a full handshake, with the ClientHello it answers. */
  function ServerFlight(g: Config): seq<Kind>
  {
    [ClientHello] + [ServerHello(g.p)] + Opt(g.p.certAuth, Certificate(true)) + Opt(g.p.certAuth && g.p.ocsp, CertificateStatus)
    + Opt(SendsKeyExchange(g), ServerKeyExchange) + Opt(AsksCert(g), CertificateRequest) + [ServerHelloDone]
  }

  lemma ServerFlightHashed(g: Config)
    requires !g.p.resumed
    ensures Hashed(g, 7) == ServerFlight(g)
  {
    hide AsksCert, SendsKeyExchange, Hashed, HashedAt, Opt;
    ServerKinds(g);
    assert Hashed(g, 0) == [] by { HashedNone(g); }
    HashedAdds(g, 0);
    HashedAdds(g, 1);
    HashedAdds(g, 2);
    HashedAdds(g, 3);
    HashedAdds(g, 4);
    HashedAdds(g, 5);
    HashedAdds(g, 6);
  }

  lemma HashedNone(g: Config)
    ensures Hashed(g, 0) == []
  {
  }

  function ClientFlight(g: Config): seq<Kind>
  {
    ServerFlight(g) + Opt(AsksCert(g), Certificate(g.clientHasCert)) + [ClientKeyExchange]
    + Opt(AsksCert(g) && g.clientHasCert, CertificateVerify)
    + Opt(g.p.npn, NextProto) + Opt(g.p.channelId, ChannelId) + [Finished(false)]
  }

  lemma ClientFlightHashed(g: Config)
    requires !g.p.resumed
    ensures Hashed(g, 14) == ClientFlight(g)
  {
    hide AsksCert, SendsKeyExchange, Hashed, ServerFlight, HashedAt, Opt;
    ReplyKinds(g);
    FinishKinds(g);
    ServerFlightHashed(g);
    HashedAdds(g, 7);
    HashedAdds(g, 8);
    HashedAdds(g, 9);
    HashedAdds(g, 10);
    HashedAdds(g, 11);
    HashedAdds(g, 12);
    HashedAdds(g, 13);
  }

  /** The messages of a full handshake, each once, with the client's Finished before the server's. */
  lemma FullCourse(g: Config)
    requires !g.p.resumed
    ensures Course(g) == ClientFlight(g) + Opt(g.p.ticket, NewSessionTicket) + [Finished(true)]
  {
    hide AsksCert, SendsKeyExchange, Hashed, ClientFlight, HashedAt, Opt;
    FinishKinds(g);
    ClientFlightHashed(g);
    HashedAdds(g, 14);
    HashedAdds(g, 15);
    HashedAdds(g, 16);
  }

  /** The messages of a resumed handshake, each once, with the server's Finished before the client's. */
  lemma ResumedCourse(g: Config)
    requires g.p.resumed
    ensures Course(g) ==
            [ClientHello] + [ServerHello(g.p)] + Opt(g.p.ticket, NewSessionTicket) + [Finished(true)]
            + Opt(g.p.npn, NextProto) + Opt(g.p.channelId, ChannelId) + [Finished(false)]
  {
    hide AsksCert, SendsKeyExchange, Hashed, HashedAt, Opt;
    ResumedKinds(g);
    assert Hashed(g, 0) == [] by { HashedNone(g); }
    HashedAdds(g, 0);
    HashedAdds(g, 1);
    HashedAdds(g, 2);
    HashedAdds(g, 3);
    HashedAdds(g, 4);
    HashedAdds(g, 5);
    HashedAdds(g, 6);
    HashedAdds(g, 7);
    HashedAdds(g, 8);
  }
}
