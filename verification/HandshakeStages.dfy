/**
 * The agreed course of a TLS 1.2 handshake (RFC 5246 section 7.3, RFC 5077 section 3.3) as numbered
 * stages, and where in it each state of the two machines stands.
 */
module HandshakeStages {
  import opened Bytes
  import opened Handshake

  // ---------------------------------------------------------------- the agreed message sequence

  /** A negotiation outcome and the two ends' configuration. */
  datatype Config = Config(p: Params, wantCert: bool, requireCert: bool, pskHint: bool, clientHasCert: bool)

  predicate AsksCert(g: Config)
  {
    !g.p.resumed && g.wantCert && g.p.certAuth
  }

  predicate SendsKeyExchange(g: Config)
  {
    g.p.kx == ECDHE || (!g.p.certAuth && g.pskHint)
  }

  /** Cipher suites that exist, and a client certificate where the server insists on one. */
  predicate Agreed(g: Config)
  {
    && (g.p.kx == RSA ==> g.p.certAuth)
    && (g.p.kx == PSK ==> !g.p.certAuth)
    && (AsksCert(g) && g.requireCert ==> g.clientHasCert)
  }

  datatype Event = Event(byClient: bool, item: Item)

  const END: nat := 17

  /** What happens at a stage of the handshake, if it happens in this configuration. Full handshakes
    * are figure 1 of RFC 5246, resumed ones figure 2, with the ticket of RFC 5077. */
  function At(g: Config, i: nat): Option<Event>
  {
    if g.p.resumed then
      if i == 0 then Some(Event(true, Hs(ClientHello)))
      else if i == 1 then Some(Event(false, Hs(ServerHello(g.p))))
      else if i == 2 then if g.p.ticket then Some(Event(false, Hs(NewSessionTicket))) else None
      else if i == 3 then Some(Event(false, Ccs))
      else if i == 4 then Some(Event(false, Hs(Finished(true))))
      else if i == 5 then Some(Event(true, Ccs))
      else if i == 6 then if g.p.npn then Some(Event(true, Hs(NextProto))) else None
      else if i == 7 then if g.p.channelId then Some(Event(true, Hs(ChannelId))) else None
      else if i == 8 then Some(Event(true, Hs(Finished(false))))
      else None
    else
      if i == 0 then Some(Event(true, Hs(ClientHello)))
      else if i == 1 then Some(Event(false, Hs(ServerHello(g.p))))
      else if i == 2 then if g.p.certAuth then Some(Event(false, Hs(Certificate(true)))) else None
      else if i == 3 then if g.p.certAuth && g.p.ocsp then Some(Event(false, Hs(CertificateStatus))) else None
      else if i == 4 then if SendsKeyExchange(g) then Some(Event(false, Hs(ServerKeyExchange))) else None
      else if i == 5 then if AsksCert(g) then Some(Event(false, Hs(CertificateRequest))) else None
      else if i == 6 then Some(Event(false, Hs(ServerHelloDone)))
      else if i == 7 then if AsksCert(g) then Some(Event(true, Hs(Certificate(g.clientHasCert)))) else None
      else if i == 8 then Some(Event(true, Hs(ClientKeyExchange)))
      else if i == 9 then if AsksCert(g) && g.clientHasCert then Some(Event(true, Hs(CertificateVerify))) else None
      else if i == 10 then Some(Event(true, Ccs))
      else if i == 11 then if g.p.npn then Some(Event(true, Hs(NextProto))) else None
      else if i == 12 then if g.p.channelId then Some(Event(true, Hs(ChannelId))) else None
      else if i == 13 then Some(Event(true, Hs(Finished(false))))
      else if i == 14 then if g.p.ticket then Some(Event(false, Hs(NewSessionTicket))) else None
      else if i == 15 then Some(Event(false, Ccs))
      else if i == 16 then Some(Event(false, Hs(Finished(true))))
      else None
  }

  /** What one end sends at a stage. */
  function SentAt(g: Config, byClient: bool, i: nat): seq<Item>
  {
    var e := At(g, i);
    if e.Some? && e.value.byClient == byClient then [e.value.item] else []
  }

  /** What one end sends in stages i to j. */
  function Between(g: Config, byClient: bool, i: nat, j: nat): seq<Item>
    decreases j - i
  {
    if i >= j then [] else SentAt(g, byClient, i) + Between(g, byClient, i + 1, j)
  }

  /** The messages hashed before stage i. */
  function Hashed(g: Config, i: nat): seq<Kind>
  {
    if i == 0 then []
    else
      var e := At(g, i - 1);
      Hashed(g, i - 1) + if e.Some? && e.value.item.Hs? then [e.value.item.kind] else []
  }

  /** Stage of a Finished message. */
  function FinishedStage(g: Config, byServer: bool): nat
  {
    if g.p.resumed then if byServer then 4 else 8 else if byServer then 16 else 13
  }

  lemma {:induction false} BetweenSnoc(g: Config, byClient: bool, i: nat, j: nat)
    requires i <= j
    ensures Between(g, byClient, i, j + 1) == Between(g, byClient, i, j) + SentAt(g, byClient, j)
    decreases j - i
  {
    hide At;
    if i < j {
      BetweenSnoc(g, byClient, i + 1, j);
    } else {
      assert Between(g, byClient, j + 1, j + 1) == [];
    }
  }

  // ---------------------------------------------------------------- channels

  /** One direction of the connection: the writer has done all stages before w and the reader all
    * before r, and `items` are under way. */
  predicate Link(g: Config, byClient: bool, r: nat, w: nat, items: seq<Item>)
  {
    items == Between(g, byClient, r, w) && Between(g, byClient, w, r) == []
  }

  lemma WriterAdvances(g: Config, byClient: bool, r: nat, w: nat, items: seq<Item>)
    requires Link(g, byClient, r, w, items)
    ensures Link(g, byClient, r, w + 1, items + SentAt(g, byClient, w))
  {
    hide At;
    if r <= w {
      BetweenSnoc(g, byClient, r, w);
      assert Between(g, byClient, w + 1, r) == [];
    } else {
      assert Between(g, byClient, w, r) == SentAt(g, byClient, w) + Between(g, byClient, w + 1, r);
      assert SentAt(g, byClient, w) == [];
      assert items == [] && Between(g, byClient, r, w + 1) == [];
    }
  }

  /** The reader finds what the stage says, or waits for it. */
  lemma ReaderFinds(g: Config, byClient: bool, r: nat, w: nat, items: seq<Item>)
    requires Link(g, byClient, r, w, items)
    ensures items != [] && SentAt(g, byClient, r) != [] ==> items[0] == SentAt(g, byClient, r)[0]
    ensures items != [] && SentAt(g, byClient, r) == [] ==> Link(g, byClient, r + 1, w, items)
  {
    hide At;
    if items != [] {
      assert r < w;
      assert Between(g, byClient, r, w) == SentAt(g, byClient, r) + Between(g, byClient, r + 1, w);
    }
  }

  lemma ReaderAdvances(g: Config, byClient: bool, r: nat, w: nat, items: seq<Item>)
    requires Link(g, byClient, r, w, items)
    requires SentAt(g, byClient, r) != [] ==> items != []
    ensures |SentAt(g, byClient, r)| <= |items|
    ensures Link(g, byClient, r + 1, w, items[|SentAt(g, byClient, r)|..])
  {
    hide At;
    if r < w {
      assert Between(g, byClient, r, w) == SentAt(g, byClient, r) + Between(g, byClient, r + 1, w);
    } else {
      assert SentAt(g, byClient, r) == [];
      BetweenSnoc(g, byClient, w, r);
      assert Between(g, byClient, r + 1, w) == [];
    }
  }

  // ---------------------------------------------------------------- where each machine stands

  function ClientStage(g: Config, c: Client): nat
  {
    match c.state
    case StartConnect => 0
    case EnterEarlyData => 1
    case ReadServerHello => 1
    case ReadServerCertificate => 2
    case ReadCertificateStatus => 3
    case VerifyServerCertificate => 4
    case ReadServerKeyExchange => 4
    case ReadCertificateRequest => 5
    case ReadServerHelloDone => 6
    case SendClientCertificate => 7
    case SendClientKeyExchange => 8
    case SendClientCertificateVerify => 9
    case SendClientFinished => if g.p.resumed then 5 else 10
    case FinishFlight => if g.p.resumed then 9 else 14
    case ReadSessionTicket => if g.p.resumed then 2 else 14
    case ProcessChangeCipherSpec => (if g.p.resumed then 3 else 15) + if c.wait == ReadCcs then 0 else 1
    case ReadServerFinished => if g.p.resumed then 4 else 16
    case FinishClientHandshake => if g.p.resumed then 9 else 17
    case ClientDone => if g.p.resumed then 9 else 17
  }

  /** The client is where the configuration leads it: it knows the negotiated parameters once it has
    * read ServerHello, has hashed what lies behind it, and its Finished vouches for that. */
  predicate ClientOk(g: Config, c: Client)
  {
    && c.wait != Error && c.hasCert == g.clientHasCert
    && (ClientStage(g, c) >= 2 ==> c.p == g.p)
    && (g.p.resumed ==> !ClientOnlyFull(c.state))
    && c.certRequest == (ClientStage(g, c) >= 6 && AsksCert(g))
    && c.transcript == Hashed(g, ClientStage(g, c))
    && (c.wait.Flush? ==> c.state.EnterEarlyData? || c.state.FinishFlight?)
    && (c.wait.ReadCcs? ==> c.state.ProcessChangeCipherSpec?)
    && (c.wait.ReadMessage? ==> AwaitsMessage(c))
    && (c.pending == [] || c.wait.Flush? || ClientComposing(c.state))
  }

  /** The state reads a handshake message next. */
  predicate AwaitsMessage(c: Client)
  {
    match c.state
    case ReadServerHello => true
    case ReadServerCertificate => c.p.certAuth
    case ReadCertificateStatus => c.p.ocsp
    case ReadServerKeyExchange => true
    case ReadCertificateRequest => c.p.certAuth
    case ReadServerHelloDone => true
    case ReadSessionTicket => c.p.ticket
    case ReadServerFinished => true
    case _ => false
  }

  predicate ClientOnlyFull(st: CState)
  {
    || st.ReadServerCertificate? || st.ReadCertificateStatus? || st.VerifyServerCertificate? || st.ReadServerKeyExchange?
    || st.ReadCertificateRequest? || st.ReadServerHelloDone? || st.SendClientCertificate? || st.SendClientKeyExchange?
    || st.SendClientCertificateVerify?
  }

  predicate ClientComposing(st: CState)
  {
    st.SendClientKeyExchange? || st.SendClientCertificateVerify? || st.SendClientFinished?
  }

  function ServerStage(g: Config, s: Server): nat
  {
    match s.state
    case StartAccept => 0
    case ReadClientHello => 0
    case SelectCertificate => 0
    case SelectParameters => 0
    case SendServerHello => 1
    case SendServerCertificate => 2
    case SendServerKeyExchange => 4
    case SendServerHelloDone => 5
    case ReadClientCertificate => 7
    case VerifyClientCertificate => 8
    case ReadClientKeyExchange => 8
    case ReadClientCertificateVerify => 9
    case ReadChangeCipherSpec => if g.p.resumed then 5 else 10
    case ServerProcessChangeCipherSpec => (if g.p.resumed then 5 else 10) + if s.wait == ReadCcs then 0 else 1
    case ReadNextProto => if g.p.resumed then 6 else 11
    case ReadChannelId => if g.p.resumed then 7 else 12
    case ReadClientFinished => if g.p.resumed then 8 else 13
    case SendServerFinished => if g.p.resumed then 2 else 14
    case FinishServerHandshake => if g.p.resumed then 9 else 17
    case ServerDone => if g.p.resumed then 9 else 17
  }

  /** The server is where the configuration leads it, in every field. */
  predicate ServerOk(g: Config, s: Server)
  {
    && s.wait != Error && s.conf == ServerConf(g.p, g.wantCert, g.requireCert, g.pskHint)
    && (g.p.resumed ==> !OnlyFull(s.state))
    && s.certRequest == (ServerStage(g, s) >= 1 && AsksCert(g))
    && s.serverParams == (s.state.SendServerKeyExchange? && SendsKeyExchange(g))
    && s.peerKey == (ServerStage(g, s) >= 8 && AsksCert(g) && g.clientHasCert)
    && s.transcript == Hashed(g, ServerStage(g, s))
    && (s.wait.Flush? ==> s.state.ReadClientCertificate? || s.state.ReadChangeCipherSpec? || s.state.FinishServerHandshake?)
    && (s.wait.ReadCcs? ==> s.state.ServerProcessChangeCipherSpec?)
    && (s.wait.ReadMessage? ==> ServerAwaitsMessage(s))
    && (s.pending == [] || s.wait.Flush? || Composing(s.state))
  }

  predicate ServerAwaitsMessage(s: Server)
  {
    match s.state
    case ReadClientHello => true
    case SelectCertificate => true
    case SelectParameters => true
    case ReadClientCertificate => s.certRequest
    case ReadClientKeyExchange => true
    case ReadClientCertificateVerify => s.peerKey
    case ReadNextProto => s.conf.p.npn
    case ReadChannelId => s.conf.p.channelId
    case ReadClientFinished => true
    case _ => false
  }

  /** States that a resumed handshake does not visit. */
  predicate OnlyFull(st: SState)
  {
    || st.SendServerCertificate? || st.SendServerKeyExchange? || st.SendServerHelloDone? || st.ReadClientCertificate?
    || st.VerifyClientCertificate? || st.ReadClientKeyExchange? || st.ReadClientCertificateVerify?
  }

  /** States between the messages of a flight. */
  predicate Composing(st: SState)
  {
    st.SendServerCertificate? || st.SendServerKeyExchange? || st.SendServerHelloDone? || st.SendServerFinished?
  }

  /** Position of a state on the way to the end, which differs in full and resumed handshakes. */
  function ClientOrder(resumed: bool, st: CState): (k: nat)
    ensures k <= 18
  {
    match st
    case StartConnect => 0
    case EnterEarlyData => 1
    case ReadServerHello => 2
    case ReadServerCertificate => 3
    case ReadCertificateStatus => 4
    case VerifyServerCertificate => 5
    case ReadServerKeyExchange => 6
    case ReadCertificateRequest => 7
    case ReadServerHelloDone => 8
    case SendClientCertificate => 9
    case SendClientKeyExchange => 10
    case SendClientCertificateVerify => 11
    case SendClientFinished => 12
    case FinishFlight => 13
    case ReadSessionTicket => if resumed then 3 else 14
    case ProcessChangeCipherSpec => if resumed then 4 else 15
    case ReadServerFinished => if resumed then 5 else 16
    case FinishClientHandshake => 17
    case ClientDone => 18
  }

  function ServerOrder(resumed: bool, st: SState): (k: nat)
    ensures k <= 19
  {
    match st
    case StartAccept => 0
    case ReadClientHello => 1
    case SelectCertificate => 2
    case SelectParameters => 3
    case SendServerHello => 4
    case SendServerCertificate => 5
    case SendServerKeyExchange => 6
    case SendServerHelloDone => 7
    case ReadClientCertificate => 8
    case VerifyClientCertificate => 9
    case ReadClientKeyExchange => 10
    case ReadClientCertificateVerify => 11
    case ReadChangeCipherSpec => 12
    case ServerProcessChangeCipherSpec => 13
    case ReadNextProto => 14
    case ReadChannelId => 15
    case ReadClientFinished => 16
    case SendServerFinished => if resumed then 5 else 17
    case FinishServerHandshake => 18
    case ServerDone => 19
  }

  /** From c to c' the client goes forward, or else waits for an answer or a message or is done. */
  predicate ClientOnward(g: Config, c: Client, inbox: seq<Wire>, c': Client)
  {
    if c'.state != c.state then ClientOrder(g.p.resumed, c.state) < ClientOrder(g.p.resumed, c'.state)
    else (c.state.ClientDone? && c' == c) || (c.wait.ReadCcs? && c'.wait.Running?) || c'.wait.Async? || (c'.wait.ReadMessage? && AwaitsMessage(c) && Peek(inbox).None?)
  }

  predicate ServerOnward(g: Config, s: Server, inbox: seq<Wire>, s': Server)
  {
    if s'.state != s.state then ServerOrder(g.p.resumed, s.state) < ServerOrder(g.p.resumed, s'.state)
    else (s.state.ServerDone? && s' == s) || (s.wait.ReadCcs? && s'.wait.Running?) || s'.wait.Async? || (s'.wait.ReadMessage? && ServerAwaitsMessage(s) && Peek(inbox).None?)
  }

  /** Every Finished vouches for the messages before it. */
  predicate MacsOk(g: Config, ws: seq<Wire>)
  {
    forall i :: 0 <= i < |ws| && ws[i].item.Hs? && ws[i].item.kind.Finished? ==>
                  ws[i].mac == Hashed(g, FinishedStage(g, ws[i].item.kind.byServer))
  }

  /** The first item one end sends at stage i or later. */
  function NextSent(g: Config, byClient: bool, i: nat): Option<Item>
    decreases END - i
  {
    if SentAt(g, byClient, i) != [] then Some(SentAt(g, byClient, i)[0])
    else if i >= END then None
    else NextSent(g, byClient, i + 1)
  }

  /** What arrives is the next thing the other end sends. */
  lemma {:induction false} HeadIsNext(g: Config, byClient: bool, r: nat, w: nat, items: seq<Item>)
    requires Link(g, byClient, r, w, items) && items != []
    ensures NextSent(g, byClient, r) == Some(items[0])
    decreases END - r
  {
    hide At;
    ReaderFinds(g, byClient, r, w, items);
    if SentAt(g, byClient, r) == [] {
      if r >= END {
        NothingAfterEnd(g, byClient, r, w);
      } else {
        HeadIsNext(g, byClient, r + 1, w, items);
      }
    }
  }

  lemma {:induction false} NothingAfterEnd(g: Config, byClient: bool, r: nat, w: nat)
    requires r >= END
    ensures Between(g, byClient, r, w) == []
    decreases w - r
  {
    if r < w { NothingAfterEnd(g, byClient, r + 1, w); }
  }

  lemma OneStage(g: Config, byClient: bool, i: nat)
    ensures Between(g, byClient, i, i) == [] && Between(g, byClient, i, i + 1) == SentAt(g, byClient, i)
  {
    hide At;
    assert Between(g, byClient, i + 1, i + 1) == [];
  }

  lemma ItemsSnoc(ws: seq<Wire>, w: Wire)
    ensures Items(ws + [w]) == Items(ws) + [w.item]
  {
  }

  lemma HashedStep(g: Config, i: nat)
    ensures var e := At(g, i);
            Hashed(g, i + 1) == if e.Some? && e.value.item.Hs? then Hashed(g, i) + [e.value.item.kind] else Hashed(g, i)
  {
    hide At;
    assert Hashed(g, i) + [] == Hashed(g, i);
  }

  lemma FourStages(g: Config, byClient: bool, i: nat)
    ensures Between(g, byClient, i, i + 4) ==
            SentAt(g, byClient, i) + SentAt(g, byClient, i + 1) + SentAt(g, byClient, i + 2) + SentAt(g, byClient, i + 3)
  {
    hide At;
    OneStage(g, byClient, i);
    BetweenSnoc(g, byClient, i, i + 1);
    BetweenSnoc(g, byClient, i, i + 2);
    BetweenSnoc(g, byClient, i, i + 3);
  }

  /** What the server can send next after its certificate. */
  lemma LaterKinds(g: Config)
    requires !g.p.resumed
    ensures NextSent(g, false, 6) == Some(Hs(ServerHelloDone))
    ensures NextSent(g, false, 5) == Some(Hs(if AsksCert(g) then CertificateRequest else ServerHelloDone))
    ensures NextSent(g, false, 4) == if SendsKeyExchange(g) then Some(Hs(ServerKeyExchange)) else NextSent(g, false, 5)
  {
    hide AsksCert, SendsKeyExchange;
  }

  /** After the certificate comes its status, if it is sent. */
  lemma StatusNext(g: Config)
    requires !g.p.resumed
    ensures NextSent(g, false, 3) == if g.p.certAuth && g.p.ocsp then Some(Hs(CertificateStatus)) else NextSent(g, false, 4)
    ensures NextSent(g, false, 4).Some? && NextSent(g, false, 4).value.Hs? && NextSent(g, false, 4) != Some(Hs(CertificateStatus))
  {
    LaterKinds(g);
  }

  function OptWire(b: bool, k: Kind): seq<Wire>
  {
    if b then [Wire(Hs(k), [])] else []
  }
}
