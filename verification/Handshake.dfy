/**
 * The TLS 1.2 client and server handshake machines as step functions (handshake_client.cc,
 * handshake_server.cc, handshake.cc). Cryptography is ideal: a Finished message carries the
 * transcript it authenticates.
 */
module Handshake {
  import opened Bytes

  datatype KeyExchange = RSA | ECDHE | PSK

  /** What ServerHello settles. */
  datatype Params = Params(resumed: bool, kx: KeyExchange, certAuth: bool, ocsp: bool, ticket: bool, npn: bool, channelId: bool)

  /** Handshake messages; Certificate says whether it holds one. */
  datatype Kind =
    | ClientHello | ServerHello(p: Params) | Certificate(some: bool) | CertificateStatus | ServerKeyExchange
    | CertificateRequest | ServerHelloDone | ClientKeyExchange | CertificateVerify | NextProto | ChannelId
    | NewSessionTicket | Finished(byServer: bool)

  datatype Item = Ccs | Hs(kind: Kind)

  /** An item on the wire; `mac` is the transcript a Finished message vouches for. */
  datatype Wire = Wire(item: Item, mac: seq<Kind>)

  /** ssl_hs_wait_t. Async stands for every wait on the application. */
  datatype Wait = Running | Flush | ReadMessage | ReadCcs | Async | Error

  function Items(ws: seq<Wire>): (r: seq<Item>)
    ensures |r| == |ws|
  {
    seq(|ws|, i requires 0 <= i < |ws| => ws[i].item)
  }

  /** get_message: the next handshake message, if it has arrived. */
  function Peek(inbox: seq<Wire>): Option<Kind>
  {
    if inbox != [] && inbox[0].item.Hs? then Some(inbox[0].item.kind) else None
  }

  // ---------------------------------------------------------------- client

  datatype CState =
    | StartConnect | EnterEarlyData | ReadServerHello | ReadServerCertificate | ReadCertificateStatus
    | VerifyServerCertificate | ReadServerKeyExchange | ReadCertificateRequest | ReadServerHelloDone
    | SendClientCertificate | SendClientKeyExchange | SendClientCertificateVerify | SendClientFinished
    | FinishFlight | ReadSessionTicket | ProcessChangeCipherSpec | ReadServerFinished
    | FinishClientHandshake | ClientDone

  datatype Client = Client(state: CState, wait: Wait, pending: seq<Wire>, transcript: seq<Kind>,
                           p: Params, certRequest: bool, hasCert: bool)

  /** The state after a step and how many items it took from the inbox. */
  datatype ClientTurn = ClientTurn(c: Client, used: nat)

  function ClientAdd(c: Client, k: Kind): Client
  {
    c.(pending := c.pending + [Wire(Hs(k), [])], transcript := c.transcript + [k])
  }

  function ClientAddCcs(c: Client): Client
  {
    c.(pending := c.pending + [Wire(Ccs, [])])
  }

  /** ssl_send_finished */
  function ClientAddFinished(c: Client): Client
  {
    c.(pending := c.pending + [Wire(Hs(Finished(false)), c.transcript)], transcript := c.transcript + [Finished(false)])
  }

  function ClientGo(c: Client, s: CState): ClientTurn
  {
    ClientTurn(c.(state := s, wait := Running), 0)
  }

  function ClientWait(c: Client, w: Wait): ClientTurn
  {
    ClientTurn(c.(wait := w), 0)
  }

  /** ssl_hash_message and next_message. */
  function ClientTake(c: Client, k: Kind, s: CState): ClientTurn
  {
    ClientTurn(c.(transcript := c.transcript + [k], state := s, wait := Running), 1)
  }

  /** Reading one expected message. */
  function ClientExpect(c: Client, inbox: seq<Wire>, k: Kind, s: CState): ClientTurn
  {
    match Peek(inbox)
    case None => ClientWait(c, ReadMessage)
    case Some(m) => if m == k then ClientTake(c, k, s) else ClientWait(c, Error)
  }

  /** The do_* functions. `ready` says whether a question to the application is answered yet. */
  function ClientStep(c: Client, inbox: seq<Wire>, ready: bool): ClientTurn
  {
    match c.state
    case StartConnect => ClientTurn(ClientAdd(c, ClientHello).(state := EnterEarlyData, wait := Flush), 0)
    case EnterEarlyData => ClientGo(c, ReadServerHello)
    case ReadServerHello =>
      (match Peek(inbox)
       case None => ClientWait(c, ReadMessage)
       case Some(ServerHello(p)) =>
         ClientTake(c.(p := p), ServerHello(p), if p.resumed then ReadSessionTicket else ReadServerCertificate)
       case Some(_) => ClientWait(c, Error))
    case ReadServerCertificate =>
      if !c.p.certAuth then ClientGo(c, ReadCertificateStatus)
      else ClientExpect(c, inbox, Certificate(true), ReadCertificateStatus)
    case ReadCertificateStatus =>
      if !c.p.ocsp then ClientGo(c, VerifyServerCertificate)
      else
        (match Peek(inbox)
         case None => ClientWait(c, ReadMessage)
         case Some(k) =>
           // the server may have changed its mind
           if k == CertificateStatus then ClientTake(c, k, VerifyServerCertificate) else ClientGo(c, VerifyServerCertificate))
    case VerifyServerCertificate =>
      if c.p.certAuth && !ready then ClientWait(c, Async) else ClientGo(c, ReadServerKeyExchange)
    case ReadServerKeyExchange =>
      (match Peek(inbox)
       case None => ClientWait(c, ReadMessage)
       case Some(k) =>
         if k != ServerKeyExchange then
           if c.p.kx == ECDHE then ClientWait(c, Error) else ClientGo(c, ReadCertificateRequest)
         else if c.p.kx == RSA then ClientWait(c, Error)
         else ClientTake(c, k, ReadCertificateRequest))
    case ReadCertificateRequest =>
      if !c.p.certAuth then ClientGo(c, ReadServerHelloDone)
      else
        (match Peek(inbox)
         case None => ClientWait(c, ReadMessage)
         case Some(k) =>
           if k == ServerHelloDone then ClientGo(c, ReadServerHelloDone)
           else if k == CertificateRequest then ClientTake(c.(certRequest := true), k, ReadServerHelloDone)
           else ClientWait(c, Error))
    case ReadServerHelloDone => ClientExpect(c, inbox, ServerHelloDone, SendClientCertificate)
    case SendClientCertificate =>
      if !c.certRequest then ClientGo(c, SendClientKeyExchange)
      else if !ready then ClientWait(c, Async)
      else ClientGo(ClientAdd(c, Certificate(c.hasCert)), SendClientKeyExchange)
    case SendClientKeyExchange => ClientGo(ClientAdd(c, ClientKeyExchange), SendClientCertificateVerify)
    case SendClientCertificateVerify =>
      if !c.certRequest || !c.hasCert then ClientGo(c, SendClientFinished)
      else if !ready then ClientWait(c, Async)
      else ClientGo(ClientAdd(c, CertificateVerify), SendClientFinished)
    case SendClientFinished =>
      if c.p.channelId && !ready then ClientWait(c, Async)
      else
        var c1 := ClientAddCcs(c);
        var c2 := if c.p.npn then ClientAdd(c1, NextProto) else c1;
        var c3 := if c.p.channelId then ClientAdd(c2, ChannelId) else c2;
        ClientTurn(ClientAddFinished(c3).(state := FinishFlight, wait := Flush), 0)
    case FinishFlight => ClientGo(c, if c.p.resumed then FinishClientHandshake else ReadSessionTicket)
    case ReadSessionTicket =>
      if !c.p.ticket then ClientTurn(c.(state := ProcessChangeCipherSpec, wait := ReadCcs), 0)
      else
        var t := ClientExpect(c, inbox, NewSessionTicket, ProcessChangeCipherSpec);
        if t.used == 1 then t.(c := t.c.(wait := ReadCcs)) else t
    case ProcessChangeCipherSpec => ClientGo(c, ReadServerFinished)
    case ReadServerFinished =>
      if Peek(inbox) == Some(Finished(true)) && inbox[0].mac != c.transcript then ClientWait(c, Error)
      else ClientExpect(c, inbox, Finished(true), if c.p.resumed then SendClientFinished else FinishClientHandshake)
    case FinishClientHandshake => ClientGo(c, ClientDone)
    case ClientDone => ClientTurn(c, 0)
  }

  // ---------------------------------------------------------------- server

  datatype SState =
    | StartAccept | ReadClientHello | SelectCertificate | SelectParameters | SendServerHello
    | SendServerCertificate | SendServerKeyExchange | SendServerHelloDone | ReadClientCertificate
    | VerifyClientCertificate | ReadClientKeyExchange | ReadClientCertificateVerify | ReadChangeCipherSpec
    | ServerProcessChangeCipherSpec | ReadNextProto | ReadChannelId | ReadClientFinished | SendServerFinished
    | FinishServerHandshake | ServerDone

  /** The server's configuration and, in p, what it makes of the ClientHello. */
  datatype ServerConf = ServerConf(p: Params, wantCert: bool, requireCert: bool, pskHint: bool)

  datatype Server = Server(state: SState, wait: Wait, pending: seq<Wire>, transcript: seq<Kind>, conf: ServerConf,
                           certRequest: bool, serverParams: bool, peerKey: bool)

  datatype ServerTurn = ServerTurn(s: Server, used: nat)

  function ServerAdd(s: Server, k: Kind): Server
  {
    s.(pending := s.pending + [Wire(Hs(k), [])], transcript := s.transcript + [k])
  }

  function ServerAddCcs(s: Server): Server
  {
    s.(pending := s.pending + [Wire(Ccs, [])])
  }

  function ServerAddFinished(s: Server): Server
  {
    s.(pending := s.pending + [Wire(Hs(Finished(true)), s.transcript)], transcript := s.transcript + [Finished(true)])
  }

  function ServerGo(s: Server, t: SState): ServerTurn
  {
    ServerTurn(s.(state := t, wait := Running), 0)
  }

  function ServerWait(s: Server, w: Wait): ServerTurn
  {
    ServerTurn(s.(wait := w), 0)
  }

  function ServerTake(s: Server, k: Kind, t: SState): ServerTurn
  {
    ServerTurn(s.(transcript := s.transcript + [k], state := t, wait := Running), 1)
  }

  function ServerExpect(s: Server, inbox: seq<Wire>, k: Kind, t: SState): ServerTurn
  {
    match Peek(inbox)
    case None => ServerWait(s, ReadMessage)
    case Some(m) => if m == k then ServerTake(s, k, t) else ServerWait(s, Error)
  }

  function ServerStep(s: Server, inbox: seq<Wire>, ready: bool): ServerTurn
  {
    match s.state
    case StartAccept => ServerGo(s, ReadClientHello)
    case ReadClientHello =>
      (match Peek(inbox)
       case None => ServerWait(s, ReadMessage)
       case Some(k) =>
         if k != ClientHello then ServerWait(s, Error)
         else if !ready then ServerWait(s, Async)
         else ServerGo(s, SelectCertificate))
    case SelectCertificate =>
      if Peek(inbox).None? then ServerWait(s, ReadMessage)
      else if !ready then ServerWait(s, Async)
      else ServerGo(s, SelectParameters)
    case SelectParameters =>
      if Peek(inbox).None? then ServerWait(s, ReadMessage)
      else if !ready then ServerWait(s, Async)
      else ServerTake(s.(certRequest := !s.conf.p.resumed && s.conf.wantCert && s.conf.p.certAuth), Peek(inbox).value, SendServerHello)
    case SendServerHello =>
      ServerGo(ServerAdd(s, ServerHello(s.conf.p)), if s.conf.p.resumed then SendServerFinished else SendServerCertificate)
    case SendServerCertificate =>
      var s1 := if s.conf.p.certAuth then ServerAdd(s, Certificate(true)) else s;
      var s2 := if s.conf.p.certAuth && s.conf.p.ocsp then ServerAdd(s1, CertificateStatus) else s1;
      ServerGo(s2.(serverParams := s.conf.p.kx == ECDHE || (!s.conf.p.certAuth && s.conf.pskHint)), SendServerKeyExchange)
    case SendServerKeyExchange =>
      if !s.serverParams then ServerGo(s, SendServerHelloDone)
      else if s.conf.p.certAuth && !ready then ServerWait(s, Async)
      else ServerGo(ServerAdd(s, ServerKeyExchange).(serverParams := false), SendServerHelloDone)
    case SendServerHelloDone =>
      var s1 := if s.certRequest then ServerAdd(s, CertificateRequest) else s;
      ServerTurn(ServerAdd(s1, ServerHelloDone).(state := ReadClientCertificate, wait := Flush), 0)
    case ReadClientCertificate =>
      if !s.certRequest then ServerGo(s, VerifyClientCertificate)
      else
        (match Peek(inbox)
         case None => ServerWait(s, ReadMessage)
         case Some(Certificate(some)) =>
           if !some && s.conf.requireCert then ServerWait(s, Error)
           else ServerTake(s.(peerKey := some), Certificate(some), VerifyClientCertificate)
         case Some(_) => ServerWait(s, Error))
    case VerifyClientCertificate =>
      if s.peerKey && !ready then ServerWait(s, Async) else ServerGo(s, ReadClientKeyExchange)
    case ReadClientKeyExchange =>
      if Peek(inbox) == Some(ClientKeyExchange) && s.conf.p.kx == RSA && !ready then ServerWait(s, Async)
      else ServerExpect(s, inbox, ClientKeyExchange, ReadClientCertificateVerify)
    case ReadClientCertificateVerify =>
      if !s.peerKey then ServerGo(s, ReadChangeCipherSpec)
      else ServerExpect(s, inbox, CertificateVerify, ReadChangeCipherSpec)
    case ReadChangeCipherSpec => ServerTurn(s.(state := ServerProcessChangeCipherSpec, wait := ReadCcs), 0)
    case ServerProcessChangeCipherSpec => ServerGo(s, ReadNextProto)
    case ReadNextProto =>
      if !s.conf.p.npn then ServerGo(s, ReadChannelId) else ServerExpect(s, inbox, NextProto, ReadChannelId)
    case ReadChannelId =>
      if !s.conf.p.channelId then ServerGo(s, ReadClientFinished) else ServerExpect(s, inbox, ChannelId, ReadClientFinished)
    case ReadClientFinished =>
      if Peek(inbox) == Some(Finished(false)) && inbox[0].mac != s.transcript then ServerWait(s, Error)
      else ServerExpect(s, inbox, Finished(false), if s.conf.p.resumed then FinishServerHandshake else SendServerFinished)
    case SendServerFinished =>
      var s1 := if s.conf.p.ticket then ServerAdd(s, NewSessionTicket) else s;
      ServerTurn(ServerAddFinished(ServerAddCcs(s1)).(
                   state := if s.conf.p.resumed then ReadChangeCipherSpec else FinishServerHandshake, wait := Flush), 0)
    case FinishServerHandshake => ServerGo(s, ServerDone)
    case ServerDone => ServerTurn(s, 0)
  }

  // ---------------------------------------------------------------- the driver, ssl_run_handshake

  /** What one side does to the connection: its state, items taken, items put on the wire. */
  datatype ClientAct = ClientAct(c: Client, used: nat, flushed: seq<Wire>)

  datatype ServerAct = ServerAct(s: Server, used: nat, flushed: seq<Wire>)

  /** Resolves what the handshake waits for, or else runs the machine one step. */
  function ClientRun(c: Client, inbox: seq<Wire>, ready: bool): ClientAct
  {
    match c.wait
    case Error => ClientAct(c, 0, [])
    case Flush => ClientAct(c.(pending := [], wait := Running), 0, c.pending)
    case ReadCcs =>
      if inbox == [] then ClientAct(c, 0, [])
      else if inbox[0].item.Ccs? then ClientAct(c.(wait := Running), 1, [])
      else ClientAct(c.(wait := Error), 0, [])
    case ReadMessage =>
      if inbox != [] && inbox[0].item.Ccs? then ClientAct(c.(wait := Error), 0, [])
      else
        var t := ClientStep(c, inbox, ready);
        ClientAct(t.c, t.used, [])
    case _ =>
      var t := ClientStep(c, inbox, ready);
      ClientAct(t.c, t.used, [])
  }

  function ServerRun(s: Server, inbox: seq<Wire>, ready: bool): ServerAct
  {
    match s.wait
    case Error => ServerAct(s, 0, [])
    case Flush => ServerAct(s.(pending := [], wait := Running), 0, s.pending)
    case ReadCcs =>
      if inbox == [] then ServerAct(s, 0, [])
      else if inbox[0].item.Ccs? then ServerAct(s.(wait := Running), 1, [])
      else ServerAct(s.(wait := Error), 0, [])
    case ReadMessage =>
      if inbox != [] && inbox[0].item.Ccs? then ServerAct(s.(wait := Error), 0, [])
      else
        var t := ServerStep(s, inbox, ready);
        ServerAct(t.s, t.used, [])
    case _ =>
      var t := ServerStep(s, inbox, ready);
      ServerAct(t.s, t.used, [])
  }

  /** At most the first item of the inbox is taken. */
  lemma ClientTakesArrived(c: Client, inbox: seq<Wire>, ready: bool)
    ensures ClientRun(c, inbox, ready).used <= if inbox == [] then 0 else 1
  {
    assert ClientStep(c, inbox, ready).used <= if Peek(inbox).None? then 0 else 1;
  }

  lemma ServerTakesArrived(s: Server, inbox: seq<Wire>, ready: bool)
    ensures ServerRun(s, inbox, ready).used <= if inbox == [] then 0 else 1
  {
    assert ServerStep(s, inbox, ready).used <= if Peek(inbox).None? then 0 else 1;
  }

  /** Only an unanswered question keeps an end in an Async wait. */
  lemma ClientReadyNotAsync(c: Client, inbox: seq<Wire>)
    requires !c.state.ClientDone?
    ensures !ClientStep(c, inbox, true).c.wait.Async?
  {
  }

  lemma ServerReadyNotAsync(s: Server, inbox: seq<Wire>)
    requires !s.state.ServerDone?
    ensures !ServerStep(s, inbox, true).s.wait.Async?
  {
  }
}
