/**
 * Each end of the handshake on its own, against whatever arrives (handshake_client.cc,
 * handshake_server.cc): the messages it can have hashed in each state, and what vouches for them.
 */
module HandshakeCourses {
  import opened Bytes
  import opened Handshake

  /** What is open once ServerHello is known: CertificateStatus, ServerKeyExchange, CertificateRequest,
    * and whether the client's Certificate holds one. */
  datatype Choice = Choice(status: bool, keyExchange: bool, request: bool, cert: bool)

  function Opt(b: bool, k: Kind): seq<Kind>
  {
    if b then [k] else []
  }

  /** What stage n adds to the hello messages. */
  function Piece(p: Params, h: Choice, n: nat): seq<Kind>
  {
    if p.resumed then
      match n
      case 1 => Opt(p.ticket, NewSessionTicket)
      case 2 => [Finished(true)]
      case 3 => Opt(p.npn, NextProto)
      case 4 => Opt(p.channelId, ChannelId)
      case 5 => [Finished(false)]
      case _ => []
    else
      match n
      case 1 => Opt(p.certAuth, Certificate(true))
      case 2 => Opt(h.status, CertificateStatus)
      case 3 => Opt(h.keyExchange, ServerKeyExchange)
      case 4 => Opt(h.request, CertificateRequest)
      case 5 => [ServerHelloDone]
      case 6 => Opt(h.request, Certificate(h.cert))
      case 7 => [ClientKeyExchange]
      case 8 => Opt(h.request && h.cert, CertificateVerify)
      case 9 => Opt(p.npn, NextProto)
      case 10 => Opt(p.channelId, ChannelId)
      case 11 => [Finished(false)]
      case 12 => Opt(p.ticket, NewSessionTicket)
      case 13 => [Finished(true)]
      case _ => []
  }

  /** The messages up to stage n. */
  function CourseTo(p: Params, h: Choice, n: nat): seq<Kind>
  {
    if n == 0 then [ClientHello, ServerHello(p)] else CourseTo(p, h, n - 1) + Piece(p, h, n)
  }

  lemma {:induction false} SameCourse(p: Params, h: Choice, h': Choice, n: nat)
    requires forall i :: 1 <= i <= n ==> Piece(p, h, i) == Piece(p, h', i)
    ensures CourseTo(p, h, n) == CourseTo(p, h', n)
  {
    if n > 0 { SameCourse(p, h, h', n - 1); }
  }

  /** The stages in front of the two Finished messages, and the last. */
  function ServerFinishedStage(p: Params): nat { if p.resumed then 1 else 12 }

  function ClientFinishedStage(p: Params): nat { if p.resumed then 4 else 10 }

  /** The Finished messages that vouch for the course in front of them. */
  function ServerFinished(p: Params, h: Choice): Wire { Wire(Hs(Finished(true)), CourseTo(p, h, ServerFinishedStage(p))) }

  function ClientFinished(p: Params, h: Choice): Wire { Wire(Hs(Finished(false)), CourseTo(p, h, ClientFinishedStage(p))) }

  function LastStage(p: Params): nat { if p.resumed then 5 else 13 }

  function IfFinished(w: Wire): seq<Wire>
  {
    if w.item.Hs? && w.item.kind.Finished? then [w] else []
  }

  /** The Finished messages among some items. */
  function FinishedOf(ws: seq<Wire>): seq<Wire>
  {
    if ws == [] then [] else FinishedOf(ws[..|ws| - 1]) + IfFinished(ws[|ws| - 1])
  }

  lemma FinishedLast(ws: seq<Wire>, w: Wire)
    ensures FinishedOf(ws + [w]) == FinishedOf(ws) + IfFinished(w)
  {
    assert (ws + [w])[..|ws|] == ws;
  }

  lemma FinishedFew(w: Wire)
    ensures FinishedOf([]) == []
    ensures FinishedOf([w]) == IfFinished(w)
  {
    assert [w][..0] == [];
  }

  lemma {:induction false} FinishedCat(a: seq<Wire>, b: seq<Wire>)
    ensures FinishedOf(a + b) == FinishedOf(a) + FinishedOf(b)
  {
    hide IfFinished;
    if b == [] {
      assert a + b == a;
      FinishedFew(Wire(Ccs, []));
    } else {
      var n := |b| - 1;
      FinishedCat(a, b[..n]);
      FinishedStep(a, b[..n], b[n]);
      assert b[..n] + [b[n]] == b;
    }
  }

  lemma FinishedStep(a: seq<Wire>, b: seq<Wire>, w: Wire)
    requires FinishedOf(a + b) == FinishedOf(a) + FinishedOf(b)
    ensures FinishedOf(a + (b + [w])) == FinishedOf(a) + FinishedOf(b + [w])
  {
    hide FinishedOf, IfFinished;
    FinishedLast(b, w);
    FinishedLast(a + b, w);
    assert a + (b + [w]) == a + b + [w];
  }

  // ---------------------------------------------------------------- client

  predicate Early(c: Client)
  {
    c.state.StartConnect? || c.state.EnterEarlyData? || c.state.ReadServerHello?
  }

  /** How far the client is, from ServerHello on. */
  function ClientStage(state: CState, resumed: bool): nat
  {
    match state
    case ReadServerCertificate => 0
    case ReadCertificateStatus => 1
    case VerifyServerCertificate => 2
    case ReadServerKeyExchange => 2
    case ReadCertificateRequest => 3
    case ReadServerHelloDone => 4
    case SendClientCertificate => 5
    case SendClientKeyExchange => 6
    case SendClientCertificateVerify => 7
    case SendClientFinished => if resumed then 2 else 8
    case FinishFlight => if resumed then 5 else 11
    case ReadSessionTicket => if resumed then 0 else 11
    case ProcessChangeCipherSpec => if resumed then 1 else 12
    case ReadServerFinished => if resumed then 1 else 12
    case FinishClientHandshake => if resumed then 5 else 13
    case ClientDone => if resumed then 5 else 13
    case _ => 0
  }

  predicate OnlyFull(state: CState)
  {
    || state.ReadServerCertificate? || state.ReadCertificateStatus? || state.VerifyServerCertificate?
    || state.ReadServerKeyExchange? || state.ReadCertificateRequest? || state.ReadServerHelloDone?
    || state.SendClientCertificate? || state.SendClientKeyExchange? || state.SendClientCertificateVerify?
  }

  function ClientHashed(c: Client, h: Choice): seq<Kind>
  {
    if c.state.StartConnect? then []
    else if Early(c) then [ClientHello]
    else CourseTo(c.p, h, ClientStage(c.state, c.p.resumed))
  }

  /** The choices a client accepts: ECDHE needs a ServerKeyExchange and RSA forbids it; CertificateStatus
    * must have been announced, and CertificateRequest goes with certificates. */
  predicate ClientAllows(p: Params, h: Choice)
  {
    && (h.status ==> p.ocsp)
    && (h.keyExchange ==> p.kx != RSA)
    && (h.request ==> p.certAuth)
  }

  /** Nothing is chosen before its stage. */
  predicate ClientUndecided(n: nat, h: Choice)
  {
    && (n < 2 ==> !h.status)
    && (n < 3 ==> !h.keyExchange)
    && (n < 4 ==> !h.request)
  }

  predicate ClientSettled(c: Client, h: Choice)
  {
    && h.request == c.certRequest && h.cert == c.hasCert
    && (Early(c) ==> h == Choice(false, false, false, c.hasCert))
    && (!Early(c) ==> ClientAllows(c.p, h))
    && (OnlyFull(c.state) ==> !c.p.resumed && ClientUndecided(ClientStage(c.state, false), h))
    && (!Early(c) && !c.p.resumed && ClientStage(c.state, false) >= 3 && c.p.kx == ECDHE ==> h.keyExchange)
  }

  predicate ClientLegal(c: Client, h: Choice)
  {
    c.transcript == ClientHashed(c, h) && ClientSettled(c, h)
  }

  predicate ClientTookFinished(c: Client)
  {
    match c.state
    case SendClientFinished => c.p.resumed
    case FinishFlight => c.p.resumed
    case FinishClientHandshake => true
    case ClientDone => true
    case _ => false
  }

  predicate ClientSentFinished(c: Client)
  {
    match c.state
    case FinishFlight => true
    case ReadSessionTicket => !c.p.resumed
    case ProcessChangeCipherSpec => !c.p.resumed
    case ReadServerFinished => !c.p.resumed
    case FinishClientHandshake => true
    case ClientDone => true
    case _ => false
  }

  /** What the client has hashed, and that the Finished it took and the one it sent vouch for what it had
    * hashed before them. */
  predicate ClientInv(c: Client, h: Choice, took: seq<Wire>, sent: seq<Wire>)
  {
    && ClientLegal(c, h)
    && FinishedOf(took) == (if ClientTookFinished(c) then [ServerFinished(c.p, h)] else [])
    && FinishedOf(sent + c.pending) == (if ClientSentFinished(c) then [ClientFinished(c.p, h)] else [])
  }

  /** The choices after a step. */
  function ClientChoice(c: Client, h: Choice, t: ClientTurn): Choice
  {
    Choice(h.status || (c.state.ReadCertificateStatus? && t.used == 1),
           h.keyExchange || (c.state.ReadServerKeyExchange? && t.used == 1), t.c.certRequest, t.c.hasCert)
  }

  lemma NextStage(p: Params, h: Choice, n: nat)
    ensures CourseTo(p, h, n + 1) == CourseTo(p, h, n) + Piece(p, h, n + 1)
  {
  }

  /** Stage 0, and no piece. */
  lemma FirstStage(p: Params, h: Choice)
    ensures CourseTo(p, h, 0) == [ClientHello, ServerHello(p)]
    ensures forall s: seq<Kind> :: s + [] == s
  {
  }

  lemma ClientEarlyKeeps(c: Client, h: Choice, inbox: seq<Wire>, ready: bool)
    requires ClientLegal(c, h) && Early(c)
    ensures var t := ClientStep(c, inbox, ready); ClientLegal(t.c, ClientChoice(c, h, t))
  {
    hide CourseTo, Piece;
    if Peek(inbox).Some? && Peek(inbox).value.ServerHello? { FirstStage(Peek(inbox).value.p, h); }
  }

  /** The choice made in a step does not concern the stages before it. */
  lemma ClientSameChoice(c: Client, h: Choice, t: ClientTurn)
    requires !c.p.resumed && h.request == c.certRequest && h.cert == c.hasCert == t.c.hasCert
    requires c.certRequest != t.c.certRequest ==> c.state.ReadCertificateRequest?
    ensures c.state.ReadCertificateStatus? ==> CourseTo(c.p, ClientChoice(c, h, t), 1) == CourseTo(c.p, h, 1)
    ensures c.state.ReadServerKeyExchange? ==> CourseTo(c.p, ClientChoice(c, h, t), 2) == CourseTo(c.p, h, 2)
    ensures c.state.ReadCertificateRequest? ==> CourseTo(c.p, ClientChoice(c, h, t), 3) == CourseTo(c.p, h, 3)
  {
    hide CourseTo;
    var h' := ClientChoice(c, h, t);
    if c.state.ReadCertificateStatus? {
      SameCourse(c.p, h, h', 1);
    } else if c.state.ReadServerKeyExchange? {
      SameCourse(c.p, h, h', 2);
    } else if c.state.ReadCertificateRequest? {
      SameCourse(c.p, h, h', 3);
    }
  }

  lemma ClientCertificateKeeps(c: Client, h: Choice, inbox: seq<Wire>, ready: bool)
    requires ClientLegal(c, h) && (c.state.ReadServerCertificate? || c.state.VerifyServerCertificate?)
    ensures var t := ClientStep(c, inbox, ready); ClientLegal(t.c, ClientChoice(c, h, t))
  {
    hide CourseTo;
    FirstStage(c.p, h);
    NextStage(c.p, h, ClientStage(c.state, c.p.resumed));
  }

  lemma ClientStatusKeeps(c: Client, h: Choice, inbox: seq<Wire>, ready: bool)
    requires ClientLegal(c, h) && c.state.ReadCertificateStatus?
    ensures var t := ClientStep(c, inbox, ready); ClientLegal(t.c, ClientChoice(c, h, t))
  {
    hide CourseTo;
    var t := ClientStep(c, inbox, ready);
    FirstStage(c.p, h);
    ClientSameChoice(c, h, t);
    NextStage(c.p, ClientChoice(c, h, t), ClientStage(c.state, false));
  }

  lemma ClientKeyExchangeKeeps(c: Client, h: Choice, inbox: seq<Wire>, ready: bool)
    requires ClientLegal(c, h) && c.state.ReadServerKeyExchange?
    ensures var t := ClientStep(c, inbox, ready); ClientLegal(t.c, ClientChoice(c, h, t))
  {
    hide CourseTo;
    var t := ClientStep(c, inbox, ready);
    FirstStage(c.p, h);
    ClientSameChoice(c, h, t);
    NextStage(c.p, ClientChoice(c, h, t), ClientStage(c.state, false));
  }

  lemma ClientRequestKeeps(c: Client, h: Choice, inbox: seq<Wire>, ready: bool)
    requires ClientLegal(c, h) && c.state.ReadCertificateRequest?
    ensures var t := ClientStep(c, inbox, ready); ClientLegal(t.c, ClientChoice(c, h, t))
  {
    hide CourseTo;
    var t := ClientStep(c, inbox, ready);
    FirstStage(c.p, h);
    ClientSameChoice(c, h, t);
    NextStage(c.p, ClientChoice(c, h, t), ClientStage(c.state, false));
  }

  lemma ClientHelloDoneKeeps(c: Client, h: Choice, inbox: seq<Wire>, ready: bool)
    requires ClientLegal(c, h) && c.state.ReadServerHelloDone?
    ensures var t := ClientStep(c, inbox, ready); ClientLegal(t.c, ClientChoice(c, h, t))
  {
    hide CourseTo;
    FirstStage(c.p, h);
    NextStage(c.p, h, ClientStage(c.state, c.p.resumed));
  }

  lemma ClientReplyKeeps(c: Client, h: Choice, inbox: seq<Wire>, ready: bool)
    requires ClientLegal(c, h)
    requires c.state.SendClientCertificate? || c.state.SendClientKeyExchange? || c.state.SendClientCertificateVerify?
    ensures var t := ClientStep(c, inbox, ready); ClientLegal(t.c, ClientChoice(c, h, t))
  {
    hide CourseTo;
    FirstStage(c.p, h);
    NextStage(c.p, h, ClientStage(c.state, false));
  }

  /** The client's last messages. */
  lemma FlightStages(p: Params, h: Choice, n: nat)
    requires n == if p.resumed then 2 else 8
    ensures CourseTo(p, h, n + 2) == CourseTo(p, h, n) + Opt(p.npn, NextProto) + Opt(p.channelId, ChannelId)
    ensures CourseTo(p, h, n + 3) == CourseTo(p, h, n + 2) + [Finished(false)]
  {
    hide CourseTo;
    NextStage(p, h, n);
    NextStage(p, h, n + 1);
    NextStage(p, h, n + 2);
  }

  lemma TicketStage(p: Params, h: Choice)
    ensures var n := if p.resumed then 0 else 11; CourseTo(p, h, n + 1) == CourseTo(p, h, n) + Opt(p.ticket, NewSessionTicket)
  {
    hide CourseTo;
    NextStage(p, h, if p.resumed then 0 else 11);
  }

  lemma VerifyStage(p: Params, h: Choice)
    ensures var n := if p.resumed then 1 else 12; CourseTo(p, h, n + 1) == CourseTo(p, h, n) + [Finished(true)]
  {
    hide CourseTo;
    NextStage(p, h, if p.resumed then 1 else 12);
  }

  predicate ClientLate(c: Client)
  {
    !Early(c) && !OnlyFull(c.state)
  }

  /** Where the last states lead. */
  predicate ClientNext(c: Client, t: ClientTurn)
  {
    && t.c.p == c.p && t.c.certRequest == c.certRequest && t.c.hasCert == c.hasCert
    && match c.state
       case SendClientFinished => t.c.state == c.state || t.c.state == FinishFlight
       case FinishFlight => t.c.state == if c.p.resumed then FinishClientHandshake else ReadSessionTicket
       case ReadSessionTicket => t.c.state == c.state || t.c.state == ProcessChangeCipherSpec
       case ProcessChangeCipherSpec => t.c.state == ReadServerFinished
       case ReadServerFinished =>
         t.c.state == if t.used == 1 then if c.p.resumed then SendClientFinished else FinishClientHandshake else c.state
       case _ => t.c.state == ClientDone
  }

  lemma ClientNextFlight(c: Client, inbox: seq<Wire>, ready: bool)
    requires c.state.SendClientFinished?
    ensures ClientNext(c, ClientStep(c, inbox, ready))
  {
  }

  lemma ClientNextTicket(c: Client, inbox: seq<Wire>, ready: bool)
    requires c.state.FinishFlight? || c.state.ReadSessionTicket? || c.state.ProcessChangeCipherSpec?
    ensures ClientNext(c, ClientStep(c, inbox, ready))
  {
  }

  lemma ClientNextEnd(c: Client, inbox: seq<Wire>, ready: bool)
    requires c.state.ReadServerFinished? || c.state.FinishClientHandshake? || c.state.ClientDone?
    ensures ClientNext(c, ClientStep(c, inbox, ready))
  {
  }

  lemma ClientLateNext(c: Client, inbox: seq<Wire>, ready: bool)
    requires ClientLate(c)
    ensures ClientNext(c, ClientStep(c, inbox, ready))
  {
    hide ClientNext, ClientStep;
    match c.state {
      case SendClientFinished => ClientNextFlight(c, inbox, ready);
      case FinishFlight => ClientNextTicket(c, inbox, ready);
      case ReadSessionTicket => ClientNextTicket(c, inbox, ready);
      case ProcessChangeCipherSpec => ClientNextTicket(c, inbox, ready);
      case ReadServerFinished => ClientNextEnd(c, inbox, ready);
      case FinishClientHandshake => ClientNextEnd(c, inbox, ready);
      case ClientDone => ClientNextEnd(c, inbox, ready);
    }
  }

  lemma ClientFlightHashed(c: Client, h: Choice, inbox: seq<Wire>, ready: bool)
    requires ClientLegal(c, h) && c.state.SendClientFinished?
    ensures var t := ClientStep(c, inbox, ready); t.c.transcript == ClientHashed(t.c, h)
  {
    hide CourseTo, Piece, ClientSettled;
    FirstStage(c.p, h);
    FlightStages(c.p, h, ClientStage(c.state, c.p.resumed));
  }

  lemma ClientTicketHashed(c: Client, h: Choice, inbox: seq<Wire>, ready: bool)
    requires ClientLegal(c, h) && (c.state.FinishFlight? || c.state.ReadSessionTicket? || c.state.ProcessChangeCipherSpec?)
    ensures var t := ClientStep(c, inbox, ready); t.c.transcript == ClientHashed(t.c, h)
  {
    hide CourseTo, Piece, ClientSettled;
    FirstStage(c.p, h);
    TicketStage(c.p, h);
  }

  lemma ClientEndHashed(c: Client, h: Choice, inbox: seq<Wire>, ready: bool)
    requires ClientLegal(c, h) && (c.state.ReadServerFinished? || c.state.FinishClientHandshake? || c.state.ClientDone?)
    ensures var t := ClientStep(c, inbox, ready); t.c.transcript == ClientHashed(t.c, h)
  {
    hide CourseTo, Piece, ClientSettled;
    FirstStage(c.p, h);
    VerifyStage(c.p, h);
  }

  lemma ClientLateKeeps(c: Client, h: Choice, inbox: seq<Wire>, ready: bool)
    requires ClientLegal(c, h) && ClientLate(c)
    ensures var t := ClientStep(c, inbox, ready); ClientChoice(c, h, t) == h && ClientLegal(t.c, h)
  {
    hide ClientStep, ClientHashed;
    ClientLateNext(c, inbox, ready);
    if c.state.SendClientFinished? {
      ClientFlightHashed(c, h, inbox, ready);
    } else if c.state.FinishFlight? || c.state.ReadSessionTicket? || c.state.ProcessChangeCipherSpec? {
      ClientTicketHashed(c, h, inbox, ready);
    } else {
      ClientEndHashed(c, h, inbox, ready);
    }
  }

  lemma ClientStepKeeps(c: Client, h: Choice, inbox: seq<Wire>, ready: bool)
    requires ClientLegal(c, h)
    ensures var t := ClientStep(c, inbox, ready); ClientLegal(t.c, ClientChoice(c, h, t))
  {
    hide ClientLegal, ClientStep, ClientChoice;
    match c.state {
      case StartConnect => ClientEarlyKeeps(c, h, inbox, ready);
      case EnterEarlyData => ClientEarlyKeeps(c, h, inbox, ready);
      case ReadServerHello => ClientEarlyKeeps(c, h, inbox, ready);
      case ReadServerCertificate => ClientCertificateKeeps(c, h, inbox, ready);
      case ReadCertificateStatus => ClientStatusKeeps(c, h, inbox, ready);
      case VerifyServerCertificate => ClientCertificateKeeps(c, h, inbox, ready);
      case ReadServerKeyExchange => ClientKeyExchangeKeeps(c, h, inbox, ready);
      case ReadCertificateRequest => ClientRequestKeeps(c, h, inbox, ready);
      case ReadServerHelloDone => ClientHelloDoneKeeps(c, h, inbox, ready);
      case SendClientCertificate => ClientReplyKeeps(c, h, inbox, ready);
      case SendClientKeyExchange => ClientReplyKeeps(c, h, inbox, ready);
      case SendClientCertificateVerify => ClientReplyKeeps(c, h, inbox, ready);
      case _ => ClientLateKeeps(c, h, inbox, ready);
    }
  }

  /** What a step leaves to be sent: a Finished only at the end of the last flight, for what was hashed. */
  lemma ClientAdds(c: Client, h: Choice, inbox: seq<Wire>, ready: bool) returns (more: seq<Wire>)
    requires ClientLegal(c, h)
    ensures var t := ClientStep(c, inbox, ready);
            && t.c.pending == c.pending + more
            && FinishedOf(more) == if c.state.SendClientFinished? && t.c.state.FinishFlight?
                                   then [ClientFinished(c.p, h)] else []
  {
    hide CourseTo;
    var t := ClientStep(c, inbox, ready);
    if c.state.SendClientFinished? && t.c.state.FinishFlight? {
      more := ClientAddsFlight(c, h, inbox, ready);
    } else {
      more := ClientAddsOne(c, inbox, ready);
    }
  }

  lemma ClientAddsOne(c: Client, inbox: seq<Wire>, ready: bool) returns (more: seq<Wire>)
    requires !(c.state.SendClientFinished? && ClientStep(c, inbox, ready).c.state.FinishFlight?)
    ensures ClientStep(c, inbox, ready).c.pending == c.pending + more && FinishedOf(more) == []
  {
    hide FinishedOf, ClientStep;
    if Sends(c.state) {
      more := ClientAddsMessage(c, inbox, ready);
    } else {
      more := [];
      ClientAddsNone(c, inbox, ready);
      FinishedFew(Wire(Ccs, []));
      assert c.pending + [] == c.pending;
    }
  }

  predicate Sends(state: CState)
  {
    state.StartConnect? || state.SendClientCertificate? || state.SendClientKeyExchange? || state.SendClientCertificateVerify?
  }

  lemma ClientAddsNone(c: Client, inbox: seq<Wire>, ready: bool)
    requires !Sends(c.state) && !(c.state.SendClientFinished? && ClientStep(c, inbox, ready).c.state.FinishFlight?)
    ensures ClientStep(c, inbox, ready).c.pending == c.pending
  {
    hide ClientStep;
    if ClientLate(c) { ClientLateAdds(c, inbox, ready); } else { ClientReadAdds(c, inbox, ready); }
  }

  lemma ClientLateAdds(c: Client, inbox: seq<Wire>, ready: bool)
    requires ClientLate(c) && !(c.state.SendClientFinished? && ClientStep(c, inbox, ready).c.state.FinishFlight?)
    ensures ClientStep(c, inbox, ready).c.pending == c.pending
  {
  }

  lemma ClientReadAdds(c: Client, inbox: seq<Wire>, ready: bool)
    requires !ClientLate(c) && !Sends(c.state)
    ensures ClientStep(c, inbox, ready).c.pending == c.pending
  {
  }

  lemma ClientAddsMessage(c: Client, inbox: seq<Wire>, ready: bool) returns (more: seq<Wire>)
    requires Sends(c.state)
    ensures ClientStep(c, inbox, ready).c.pending == c.pending + more && FinishedOf(more) == []
  {
    hide FinishedOf;
    more := ClientStep(c, inbox, ready).c.pending[|c.pending|..];
    FinishedFew(Wire(Ccs, []));
    if more != [] { FinishedFew(more[0]); }
  }

  lemma ClientAddsFlight(c: Client, h: Choice, inbox: seq<Wire>, ready: bool) returns (more: seq<Wire>)
    requires ClientLegal(c, h) && c.state.SendClientFinished? && ClientStep(c, inbox, ready).c.state.FinishFlight?
    ensures ClientStep(c, inbox, ready).c.pending == c.pending + more
    ensures FinishedOf(more) == [ClientFinished(c.p, h)]
  {
    hide CourseTo, Piece, FinishedOf;
    var n := ClientStage(c.state, c.p.resumed);
    FirstStage(c.p, h);
    FlightStages(c.p, h, n);
    more := LastFlight(c.p, CourseTo(c.p, h, n + 2));
    LastFlightFinished(c.p, CourseTo(c.p, h, n + 2));
    LastFlightPending(c, inbox, ready);
  }

  /** The items of the client's last flight. */
  function LastFlight(p: Params, mac: seq<Kind>): seq<Wire>
  {
    [Wire(Ccs, [])] + (if p.npn then [Wire(Hs(NextProto), [])] else [])
    + (if p.channelId then [Wire(Hs(ChannelId), [])] else []) + [Wire(Hs(Finished(false)), mac)]
  }

  lemma LastFlightPending(c: Client, inbox: seq<Wire>, ready: bool)
    requires c.state.SendClientFinished? && ClientStep(c, inbox, ready).c.state.FinishFlight?
    ensures ClientStep(c, inbox, ready).c.pending ==
            c.pending + LastFlight(c.p, c.transcript + Opt(c.p.npn, NextProto) + Opt(c.p.channelId, ChannelId))
  {
    LastFlightIs(c, inbox, ready);
    hide ClientStep;
    var c2 := AddIf(ClientAddCcs(c), c.p.npn, NextProto);
    AddsIf(ClientAddCcs(c), c.p.npn, NextProto);
    AddsIf(c2, c.p.channelId, ChannelId);
  }

  function AddIf(c: Client, b: bool, k: Kind): Client
  {
    if b then ClientAdd(c, k) else c
  }

  lemma AddsIf(c: Client, b: bool, k: Kind)
    ensures AddIf(c, b, k).pending == c.pending + (if b then [Wire(Hs(k), [])] else [])
    ensures AddIf(c, b, k).transcript == c.transcript + Opt(b, k)
  {
    assert c.pending + [] == c.pending && c.transcript + [] == c.transcript;
  }

  lemma LastFlightIs(c: Client, inbox: seq<Wire>, ready: bool)
    requires c.state.SendClientFinished? && ClientStep(c, inbox, ready).c.state.FinishFlight?
    ensures ClientStep(c, inbox, ready).c.pending ==
            ClientAddFinished(AddIf(AddIf(ClientAddCcs(c), c.p.npn, NextProto), c.p.channelId, ChannelId)).pending
  {
  }

  lemma LastFlightFinished(p: Params, mac: seq<Kind>)
    ensures FinishedOf(LastFlight(p, mac)) == [Wire(Hs(Finished(false)), mac)]
  {
    hide FinishedOf;
    var a := [Wire(Ccs, [])];
    var b := if p.npn then [Wire(Hs(NextProto), [])] else [];
    var d := if p.channelId then [Wire(Hs(ChannelId), [])] else [];
    FinishedFew(a[0]);
    FinishedFew(Wire(Hs(NextProto), []));
    FinishedFew(Wire(Hs(ChannelId), []));
    FinishedCat(a, b);
    FinishedCat(a + b, d);
    FinishedLast(a + b + d, Wire(Hs(Finished(false)), mac));
  }

  /** What a step takes: a Finished only of the server, and only when it vouches for what was hashed. */
  lemma ClientTakes(c: Client, h: Choice, inbox: seq<Wire>, ready: bool)
    requires ClientLegal(c, h)
    ensures var t := ClientStep(c, inbox, ready);
            && t.used <= |inbox|
            && FinishedOf(inbox[..t.used]) == if c.state.ReadServerFinished? && t.used == 1
                                              then [ServerFinished(c.p, h)] else []
  {
    hide CourseTo, FinishedOf;
    var t := ClientStep(c, inbox, ready);
    assert t.used <= if Peek(inbox).None? then 0 else 1;
    FinishedFew(Wire(Ccs, []));
    if t.used == 1 {
      assert inbox[..1] == [inbox[0]];
      FinishedFew(inbox[0]);
    } else {
      assert inbox[..0] == [];
    }
  }

  lemma ClientTurnKeeps(c: Client, h: Choice, took: seq<Wire>, sent: seq<Wire>, inbox: seq<Wire>, ready: bool)
    requires ClientInv(c, h, took, sent)
    ensures var t := ClientStep(c, inbox, ready);
            t.used <= |inbox| && ClientInv(t.c, ClientChoice(c, h, t), took + inbox[..t.used], sent)
  {
    hide CourseTo, FinishedOf;
    var t := ClientStep(c, inbox, ready);
    ClientStepKeeps(c, h, inbox, ready);
    ClientTakes(c, h, inbox, ready);
    FinishedCat(took, inbox[..t.used]);
    var more := ClientAdds(c, h, inbox, ready);
    FinishedCat(sent + c.pending, more);
    assert sent + c.pending + more == sent + t.c.pending;
    ClientFlags(c, h, inbox, ready);
  }

  /** What a step does to the flags above. */
  predicate ClientFlagsMove(c: Client, h: Choice, t: ClientTurn)
  {
    && (ClientTookFinished(t.c) <==> ClientTookFinished(c) || (c.state.ReadServerFinished? && t.used == 1))
    && (ClientSentFinished(t.c) <==> ClientSentFinished(c) || (c.state.SendClientFinished? && t.c.state.FinishFlight?))
    && (ClientTookFinished(c) ==> !c.state.ReadServerFinished?)
    && (ClientSentFinished(c) ==> !c.state.SendClientFinished?)
    && (ClientTookFinished(t.c) || ClientSentFinished(t.c) ==> t.c.p == c.p && ClientChoice(c, h, t) == h)
  }

  lemma ClientFlags(c: Client, h: Choice, inbox: seq<Wire>, ready: bool)
    requires ClientLegal(c, h)
    ensures ClientFlagsMove(c, h, ClientStep(c, inbox, ready))
  {
    hide ClientHashed, ClientAllows, ClientStep, ClientFlagsMove, ClientUndecided;
    if Early(c) || OnlyFull(c.state) {
      ClientFlagsEarly(c, h, inbox, ready);
    } else {
      ClientFlagsLate(c, h, inbox, ready);
    }
  }

  lemma ClientFlagsEarly(c: Client, h: Choice, inbox: seq<Wire>, ready: bool)
    requires Early(c) || (OnlyFull(c.state) && !c.p.resumed)
    ensures ClientFlagsMove(c, h, ClientStep(c, inbox, ready))
  {
    assert !ClientTookFinished(c) && !ClientSentFinished(c);
    var t := ClientStep(c, inbox, ready);
    assert Early(t.c) || (OnlyFull(t.c.state) && !t.c.p.resumed) || (t.c.state.SendClientFinished? && !t.c.p.resumed)
           || (t.c.state.ReadSessionTicket? && t.c.p.resumed);
  }

  lemma ClientFlagsLate(c: Client, h: Choice, inbox: seq<Wire>, ready: bool)
    requires ClientLate(c) && h.request == c.certRequest && h.cert == c.hasCert
    ensures ClientFlagsMove(c, h, ClientStep(c, inbox, ready))
  {
    hide ClientStep;
    ClientLateNext(c, inbox, ready);
  }

  // ---------------------------------------------------------------- the client among its inputs

  lemma ClientInvWaits(c: Client, h: Choice, took: seq<Wire>, sent: seq<Wire>, w: Wait)
    requires ClientInv(c, h, took, sent)
    ensures ClientInv(c.(wait := w), h, took, sent)
  {
    hide CourseTo, FinishedOf;
  }

  lemma ClientInvFlushes(c: Client, h: Choice, took: seq<Wire>, sent: seq<Wire>)
    requires ClientInv(c, h, took, sent)
    ensures ClientInv(c.(pending := [], wait := Running), h, took, sent + c.pending)
  {
    hide CourseTo, FinishedOf;
    assert sent + c.pending + [] == sent + c.pending;
  }

  lemma ClientInvTakesCcs(c: Client, h: Choice, took: seq<Wire>, sent: seq<Wire>, w: Wire)
    requires ClientInv(c, h, took, sent) && w.item.Ccs?
    ensures ClientInv(c, h, took + [w], sent)
  {
    hide CourseTo, FinishedOf, ClientLegal;
    FinishedLast(took, w);
  }

  /** Waiting for a flush, a ChangeCipherSpec or nothing. */
  lemma ClientWaitKeeps(c: Client, h: Choice, took: seq<Wire>, sent: seq<Wire>, inbox: seq<Wire>, ready: bool)
    requires ClientInv(c, h, took, sent) && (c.wait.Error? || c.wait.Flush? || c.wait.ReadCcs? || (inbox != [] && inbox[0].item.Ccs?))
    requires !c.wait.Running? && !c.wait.Async?
    ensures var a := ClientRun(c, inbox, ready);
            a.used <= |inbox| && ClientInv(a.c, h, took + inbox[..a.used], sent + a.flushed)
  {
    hide ClientInv, ClientStep;
    assert sent + [] == sent && took + [] == took;
    ClientInvWaits(c, h, took, sent, Error);
    ClientInvWaits(c, h, took, sent, Running);
    ClientInvFlushes(c, h, took, sent);
    if inbox != [] && inbox[0].item.Ccs? {
      assert inbox[..1] == [inbox[0]];
      ClientInvTakesCcs(c.(wait := Running), h, took, sent, inbox[0]);
    }
  }

  /** Whatever is in the inbox, the client keeps to its courses. */
  lemma ClientKeeps(c: Client, h: Choice, took: seq<Wire>, sent: seq<Wire>, inbox: seq<Wire>, ready: bool) returns (h': Choice)
    requires ClientInv(c, h, took, sent)
    ensures var a := ClientRun(c, inbox, ready);
            a.used <= |inbox| && ClientInv(a.c, h', took + inbox[..a.used], sent + a.flushed)
  {
    hide ClientInv, ClientStep;
    if c.wait.Error? || c.wait.Flush? || c.wait.ReadCcs? || (c.wait.ReadMessage? && inbox != [] && inbox[0].item.Ccs?) {
      h' := h;
      ClientWaitKeeps(c, h, took, sent, inbox, ready);
    } else {
      h' := ClientChoice(c, h, ClientStep(c, inbox, ready));
      ClientTurnKeeps(c, h, took, sent, inbox, ready);
      assert sent + [] == sent;
    }
  }

  // ---------------------------------------------------------------- server

  predicate ServerEarly(s: Server)
  {
    || s.state.StartAccept? || s.state.ReadClientHello? || s.state.SelectCertificate? || s.state.SelectParameters?
    || s.state.SendServerHello?
  }

  /** How far the server is, from its hello on. */
  function ServerStage(state: SState, resumed: bool): nat
  {
    match state
    case SendServerCertificate => 0
    case SendServerKeyExchange => 2
    case SendServerHelloDone => 3
    case ReadClientCertificate => 5
    case VerifyClientCertificate => 6
    case ReadClientKeyExchange => 6
    case ReadClientCertificateVerify => 7
    case ReadChangeCipherSpec => if resumed then 2 else 8
    case ServerProcessChangeCipherSpec => if resumed then 2 else 8
    case ReadNextProto => if resumed then 2 else 8
    case ReadChannelId => if resumed then 3 else 9
    case ReadClientFinished => if resumed then 4 else 10
    case SendServerFinished => if resumed then 0 else 11
    case FinishServerHandshake => if resumed then 5 else 13
    case ServerDone => if resumed then 5 else 13
    case _ => 0
  }

  predicate ServerOnlyFull(state: SState)
  {
    || state.SendServerCertificate? || state.SendServerKeyExchange? || state.SendServerHelloDone?
    || state.ReadClientCertificate? || state.VerifyClientCertificate? || state.ReadClientKeyExchange?
    || state.ReadClientCertificateVerify?
  }

  /** The server's choices follow from its configuration, but for the client's certificate. */
  function ServerChoice(conf: ServerConf, cert: bool): Choice
  {
    Choice(conf.p.certAuth && conf.p.ocsp,
           conf.p.kx == ECDHE || (!conf.p.certAuth && conf.pskHint),
           !conf.p.resumed && conf.wantCert && conf.p.certAuth, cert)
  }

  function ServerHashed(s: Server): seq<Kind>
  {
    if s.state.SendServerHello? then [ClientHello]
    else if ServerEarly(s) then []
    else CourseTo(s.conf.p, ServerChoice(s.conf, s.peerKey), ServerStage(s.state, s.conf.p.resumed))
  }

  predicate ServerUnread(s: Server)
  {
    s.state.StartAccept? || s.state.ReadClientHello? || s.state.SelectCertificate? || s.state.SelectParameters?
  }

  /** Only a ClientHello gets the server past its first message; what is decided is decided as configured. */
  predicate ServerFlags(s: Server, inbox: seq<Wire>)
  {
    && (s.state.SelectCertificate? || s.state.SelectParameters? ==> Peek(inbox) == Some(ClientHello))
    && (ServerOnlyFull(s.state) ==> !s.conf.p.resumed)
    && (!ServerUnread(s) ==> s.certRequest == ServerChoice(s.conf, s.peerKey).request)
    && (s.state.SendServerKeyExchange? ==> s.serverParams == ServerChoice(s.conf, s.peerKey).keyExchange)
    && (s.peerKey ==> s.certRequest && !ServerEarly(s) && (s.conf.p.resumed || ServerStage(s.state, false) >= 6))
    && (!s.conf.p.resumed && ServerStage(s.state, false) >= 6 && s.certRequest && s.conf.requireCert ==> s.peerKey)
  }

  predicate ServerLegal(s: Server, inbox: seq<Wire>)
  {
    s.transcript == ServerHashed(s) && ServerFlags(s, inbox)
  }

  predicate ServerTookFinished(s: Server)
  {
    match s.state
    case SendServerFinished => !s.conf.p.resumed
    case FinishServerHandshake => true
    case ServerDone => true
    case _ => false
  }

  predicate ServerSentFinished(s: Server)
  {
    match s.state
    case ReadChangeCipherSpec => s.conf.p.resumed
    case ServerProcessChangeCipherSpec => s.conf.p.resumed
    case ReadNextProto => s.conf.p.resumed
    case ReadChannelId => s.conf.p.resumed
    case ReadClientFinished => s.conf.p.resumed
    case FinishServerHandshake => true
    case ServerDone => true
    case _ => false
  }

  predicate ServerInv(s: Server, inbox: seq<Wire>, took: seq<Wire>, sent: seq<Wire>)
  {
    var p, h := s.conf.p, ServerChoice(s.conf, s.peerKey);
    && ServerLegal(s, inbox)
    && FinishedOf(took) == (if ServerTookFinished(s) then [ClientFinished(p, h)] else [])
    && FinishedOf(sent + s.pending) == (if ServerSentFinished(s) then [ServerFinished(p, h)] else [])
  }

  lemma ServerEarlyFlags(s: Server, inbox: seq<Wire>, ready: bool)
    requires ServerFlags(s, inbox) && (ServerEarly(s))
    ensures var t := ServerStep(s, inbox, ready); t.used <= |inbox| && ServerFlags(t.s, inbox[t.used..])
  {
    assert inbox[0..] == inbox;
  }

  lemma ServerHelloFlags(s: Server, inbox: seq<Wire>, ready: bool)
    requires ServerFlags(s, inbox) && (s.state.SendServerCertificate? || s.state.SendServerKeyExchange? || s.state.SendServerHelloDone?)
    ensures var t := ServerStep(s, inbox, ready); t.used <= |inbox| && ServerFlags(t.s, inbox[t.used..])
  {
    assert inbox[0..] == inbox;
  }

  /** From the client's certificate on, only that certificate is still to be decided. */
  predicate ServerKept(s: Server, t: ServerTurn)
  {
    && t.s.conf == s.conf && t.s.certRequest == s.certRequest && t.s.peerKey == s.peerKey
    && (t.s.state == s.state || (!ServerEarly(t.s) && ServerStage(t.s.state, false) >= 6))
    && (s.conf.p.resumed ==> !ServerOnlyFull(t.s.state))
  }

  lemma ServerReadFrame(s: Server, inbox: seq<Wire>, ready: bool)
    requires !s.conf.p.resumed
    requires s.state.VerifyClientCertificate? || s.state.ReadClientKeyExchange? || s.state.ReadClientCertificateVerify?
    ensures ServerKept(s, ServerStep(s, inbox, ready))
  {
  }

  /** Where the last states lead. */
  predicate ServerNext(s: Server, t: ServerTurn)
  {
    && t.s.conf == s.conf && t.s.certRequest == s.certRequest && t.s.peerKey == s.peerKey
    && match s.state
       case ReadChangeCipherSpec => t.s.state == ServerProcessChangeCipherSpec
       case ServerProcessChangeCipherSpec => t.s.state == ReadNextProto
       case ReadNextProto => t.s.state == s.state || t.s.state == ReadChannelId
       case ReadChannelId => t.s.state == s.state || t.s.state == ReadClientFinished
       case ReadClientFinished =>
         t.s.state == if t.used == 1 then if s.conf.p.resumed then FinishServerHandshake else SendServerFinished else s.state
       case SendServerFinished => t.s.state == if s.conf.p.resumed then ReadChangeCipherSpec else FinishServerHandshake
       case _ => t.s.state == ServerDone
  }

  lemma ServerNextCipher(s: Server, inbox: seq<Wire>, ready: bool)
    requires s.state.ReadChangeCipherSpec? || s.state.ServerProcessChangeCipherSpec?
    ensures ServerNext(s, ServerStep(s, inbox, ready))
  {
  }

  lemma ServerNextProto(s: Server, inbox: seq<Wire>, ready: bool)
    requires s.state.ReadNextProto? || s.state.ReadChannelId?
    ensures ServerNext(s, ServerStep(s, inbox, ready))
  {
  }

  lemma ServerNextFinished(s: Server, inbox: seq<Wire>, ready: bool)
    requires s.state.ReadClientFinished?
    ensures ServerNext(s, ServerStep(s, inbox, ready))
  {
  }

  lemma ServerNextEnd(s: Server, inbox: seq<Wire>, ready: bool)
    requires s.state.SendServerFinished? || s.state.FinishServerHandshake? || s.state.ServerDone?
    ensures ServerNext(s, ServerStep(s, inbox, ready))
  {
  }

  lemma ServerLateNext(s: Server, inbox: seq<Wire>, ready: bool)
    requires !ServerEarly(s) && !ServerOnlyFull(s.state)
    ensures ServerNext(s, ServerStep(s, inbox, ready))
  {
    hide ServerNext, ServerStep;
    match s.state {
      case ReadChangeCipherSpec => ServerNextCipher(s, inbox, ready);
      case ServerProcessChangeCipherSpec => ServerNextCipher(s, inbox, ready);
      case ReadNextProto => ServerNextProto(s, inbox, ready);
      case ReadChannelId => ServerNextProto(s, inbox, ready);
      case ReadClientFinished => ServerNextFinished(s, inbox, ready);
      case SendServerFinished => ServerNextEnd(s, inbox, ready);
      case FinishServerHandshake => ServerNextEnd(s, inbox, ready);
      case ServerDone => ServerNextEnd(s, inbox, ready);
    }
  }

  lemma ServerLateFrame(s: Server, inbox: seq<Wire>, ready: bool)
    requires !ServerEarly(s) && !ServerOnlyFull(s.state)
    ensures ServerKept(s, ServerStep(s, inbox, ready))
  {
    ServerLateNext(s, inbox, ready);
    hide ServerStep;
  }

  lemma ServerKeptFlags(s: Server, inbox: seq<Wire>, ready: bool)
    requires ServerFlags(s, inbox) && !ServerEarly(s) && ServerStage(s.state, false) >= 6 && ServerKept(s, ServerStep(s, inbox, ready))
    ensures var t := ServerStep(s, inbox, ready); t.used <= |inbox| && ServerFlags(t.s, inbox[t.used..])
  {
    ServerStepTakes(s, inbox, ready);
    hide ServerStep, ServerChoice;
  }

  lemma ServerStepTakes(s: Server, inbox: seq<Wire>, ready: bool)
    ensures ServerStep(s, inbox, ready).used <= if Peek(inbox).None? then 0 else 1
    ensures ServerStep(s, inbox, ready).used <= |inbox|
  {
  }

  lemma ServerCertificateFlags(s: Server, inbox: seq<Wire>, ready: bool)
    requires ServerFlags(s, inbox) && s.state.ReadClientCertificate?
    ensures var t := ServerStep(s, inbox, ready); t.used <= |inbox| && ServerFlags(t.s, inbox[t.used..])
  {
    hide ServerChoice;
    ChoiceOfCertificate(s.conf, s.peerKey);
    ServerStepTakes(s, inbox, ready);
  }

  lemma ChoiceOfCertificate(conf: ServerConf, cert: bool)
    ensures forall b :: ServerChoice(conf, b) == ServerChoice(conf, cert).(cert := b)
  {
  }

  lemma ServerFlagsKeep(s: Server, inbox: seq<Wire>, ready: bool)
    requires ServerFlags(s, inbox)
    ensures var t := ServerStep(s, inbox, ready); t.used <= |inbox| && ServerFlags(t.s, inbox[t.used..])
  {
    hide ServerFlags, ServerStep;
    if ServerEarly(s) {
      ServerEarlyFlags(s, inbox, ready);
    } else if s.state.SendServerCertificate? || s.state.SendServerKeyExchange? || s.state.SendServerHelloDone? {
      ServerHelloFlags(s, inbox, ready);
    } else if s.state.ReadClientCertificate? {
      ServerCertificateFlags(s, inbox, ready);
    } else if ServerOnlyFull(s.state) {
      ServerFlagsFull(s, inbox);
      ServerReadFrame(s, inbox, ready);
      ServerKeptFlags(s, inbox, ready);
    } else {
      ServerLateFrame(s, inbox, ready);
      ServerKeptFlags(s, inbox, ready);
    }
  }

  lemma ServerFlagsFull(s: Server, inbox: seq<Wire>)
    requires ServerFlags(s, inbox) && ServerOnlyFull(s.state)
    ensures !s.conf.p.resumed
  {
  }

  lemma ServerEarlyKeeps(s: Server, inbox: seq<Wire>, ready: bool)
    requires ServerLegal(s, inbox) && ServerEarly(s)
    ensures var t := ServerStep(s, inbox, ready); t.s.transcript == ServerHashed(t.s)
  {
    hide CourseTo, Piece, ServerChoice;
    var p, h := s.conf.p, ServerChoice(s.conf, s.peerKey);
    FirstStage(p, h);
  }

  lemma ServerCertificateKeeps(s: Server, inbox: seq<Wire>, ready: bool)
    requires ServerLegal(s, inbox) && s.state.SendServerCertificate?
    ensures var t := ServerStep(s, inbox, ready); t.s.transcript == ServerHashed(t.s)
  {
    hide CourseTo;
    var p, h := s.conf.p, ServerChoice(s.conf, s.peerKey);
    FirstStage(p, h);
    NextStage(p, h, 0);
    NextStage(p, h, 1);
  }

  lemma ServerKeyExchangeKeeps(s: Server, inbox: seq<Wire>, ready: bool)
    requires ServerLegal(s, inbox) && s.state.SendServerKeyExchange?
    ensures var t := ServerStep(s, inbox, ready); t.s.transcript == ServerHashed(t.s)
  {
    hide CourseTo;
    var p, h := s.conf.p, ServerChoice(s.conf, s.peerKey);
    FirstStage(p, h);
    NextStage(p, h, 2);
  }

  lemma ServerHelloDoneKeeps(s: Server, inbox: seq<Wire>, ready: bool)
    requires ServerLegal(s, inbox) && s.state.SendServerHelloDone?
    ensures var t := ServerStep(s, inbox, ready); t.s.transcript == ServerHashed(t.s)
  {
    hide CourseTo;
    var p, h := s.conf.p, ServerChoice(s.conf, s.peerKey);
    FirstStage(p, h);
    NextStage(p, h, 3);
    NextStage(p, h, 4);
  }

  /** The client's certificate is decided at stage 6. */
  lemma CertificateStage(p: Params, h: Choice, cert: bool)
    requires !p.resumed
    ensures CourseTo(p, h.(cert := cert), 5) == CourseTo(p, h, 5)
    ensures CourseTo(p, h.(cert := cert), 6) == CourseTo(p, h, 5) + Opt(h.request, Certificate(cert))
  {
    hide CourseTo;
    var h' := h.(cert := cert);
    assert forall i :: 1 <= i <= 5 ==> Piece(p, h', i) == Piece(p, h, i);
    SameCourse(p, h', h, 5);
    NextStage(p, h', 5);
  }

  lemma ServerReadCertificateKeeps(s: Server, inbox: seq<Wire>, ready: bool)
    requires ServerLegal(s, inbox) && s.state.ReadClientCertificate?
    ensures var t := ServerStep(s, inbox, ready); t.s.transcript == ServerHashed(t.s)
  {
    hide CourseTo, Piece, ServerChoice;
    var p, h := s.conf.p, ServerChoice(s.conf, s.peerKey);
    FirstStage(p, h);
    ChoiceOfCertificate(s.conf, s.peerKey);
    CertificateStage(p, h, s.peerKey);
    CertificateStage(p, h, ServerStep(s, inbox, ready).s.peerKey);
  }

  /** The client's key and the signature behind it. */
  lemma KeyStage(p: Params, h: Choice)
    ensures !p.resumed ==> CourseTo(p, h, 7) == CourseTo(p, h, 6) + [ClientKeyExchange]
    ensures !p.resumed ==> CourseTo(p, h, 8) == CourseTo(p, h, 7) + Opt(h.request && h.cert, CertificateVerify)
  {
    hide CourseTo;
    NextStage(p, h, 6);
    NextStage(p, h, 7);
  }

  lemma ServerReadKeyKeeps(s: Server, inbox: seq<Wire>, ready: bool)
    requires ServerLegal(s, inbox) && (s.state.VerifyClientCertificate? || s.state.ReadClientKeyExchange?)
    ensures var t := ServerStep(s, inbox, ready); t.s.transcript == ServerHashed(t.s)
  {
    hide CourseTo, Piece, ServerChoice;
    var p, h := s.conf.p, ServerChoice(s.conf, s.peerKey);
    KeyStage(p, h);
  }

  lemma ServerReadVerifyKeeps(s: Server, inbox: seq<Wire>, ready: bool)
    requires ServerLegal(s, inbox) && s.state.ReadClientCertificateVerify?
    ensures var t := ServerStep(s, inbox, ready); t.s.transcript == ServerHashed(t.s)
  {
    hide CourseTo, Piece;
    var p, h := s.conf.p, ServerChoice(s.conf, s.peerKey);
    FirstStage(p, h);
    KeyStage(p, h);
  }

  lemma ServerReadCipherKeeps(s: Server, inbox: seq<Wire>, ready: bool)
    requires ServerLegal(s, inbox) && (s.state.ReadChangeCipherSpec? || s.state.ServerProcessChangeCipherSpec?)
    ensures var t := ServerStep(s, inbox, ready); t.s.transcript == ServerHashed(t.s)
  {
    hide CourseTo;
  }

  lemma FlightPieces(p: Params, h: Choice)
    ensures var n := if p.resumed then 2 else 8;
            && CourseTo(p, h, n + 1) == CourseTo(p, h, n) + Opt(p.npn, NextProto)
            && CourseTo(p, h, n + 2) == CourseTo(p, h, n + 1) + Opt(p.channelId, ChannelId)
            && CourseTo(p, h, n + 3) == CourseTo(p, h, n + 2) + [Finished(false)]
  {
    hide CourseTo;
    var n := if p.resumed then 2 else 8;
    NextStage(p, h, n);
    NextStage(p, h, n + 1);
    NextStage(p, h, n + 2);
  }

  lemma ServerReadProtoKeeps(s: Server, inbox: seq<Wire>, ready: bool)
    requires ServerLegal(s, inbox) && s.state.ReadNextProto?
    ensures var t := ServerStep(s, inbox, ready); t.s.transcript == ServerHashed(t.s)
  {
    hide CourseTo, Piece, ServerChoice;
    var p, h := s.conf.p, ServerChoice(s.conf, s.peerKey);
    FirstStage(p, h);
    FlightPieces(p, h);
  }

  lemma ServerReadIdKeeps(s: Server, inbox: seq<Wire>, ready: bool)
    requires ServerLegal(s, inbox) && s.state.ReadChannelId?
    ensures var t := ServerStep(s, inbox, ready); t.s.transcript == ServerHashed(t.s)
  {
    hide CourseTo, Piece, ServerChoice;
    var p, h := s.conf.p, ServerChoice(s.conf, s.peerKey);
    FirstStage(p, h);
    FlightPieces(p, h);
  }

  lemma ServerReadFinishedKeeps(s: Server, inbox: seq<Wire>, ready: bool)
    requires ServerLegal(s, inbox) && s.state.ReadClientFinished?
    ensures var t := ServerStep(s, inbox, ready); t.s.transcript == ServerHashed(t.s)
  {
    hide CourseTo, Piece, ServerChoice;
    var p, h := s.conf.p, ServerChoice(s.conf, s.peerKey);
    FirstStage(p, h);
    FlightPieces(p, h);
  }

  lemma ServerFlightKeeps(s: Server, inbox: seq<Wire>, ready: bool)
    requires ServerLegal(s, inbox) && s.state.SendServerFinished?
    ensures var t := ServerStep(s, inbox, ready); t.s.transcript == ServerHashed(t.s)
  {
    hide CourseTo, Piece, ServerChoice;
    var p, h := s.conf.p, ServerChoice(s.conf, s.peerKey);
    FirstStage(p, h);
    TicketStage(p, h);
    VerifyStage(p, h);
  }

  lemma ServerEndKeeps(s: Server, inbox: seq<Wire>, ready: bool)
    requires ServerLegal(s, inbox) && (s.state.FinishServerHandshake? || s.state.ServerDone?)
    ensures var t := ServerStep(s, inbox, ready); t.s.transcript == ServerHashed(t.s)
  {
    hide CourseTo;
  }

  lemma ServerStepKeeps(s: Server, inbox: seq<Wire>, ready: bool)
    requires ServerLegal(s, inbox)
    ensures var t := ServerStep(s, inbox, ready); t.used <= |inbox| && ServerLegal(t.s, inbox[t.used..])
  {
    hide ServerFlags, ServerStep;
    ServerFlagsKeep(s, inbox, ready);
    match s.state {
      case StartAccept => ServerEarlyKeeps(s, inbox, ready);
      case ReadClientHello => ServerEarlyKeeps(s, inbox, ready);
      case SelectCertificate => ServerEarlyKeeps(s, inbox, ready);
      case SelectParameters => ServerEarlyKeeps(s, inbox, ready);
      case SendServerHello => ServerEarlyKeeps(s, inbox, ready);
      case SendServerCertificate => ServerCertificateKeeps(s, inbox, ready);
      case SendServerKeyExchange => ServerKeyExchangeKeeps(s, inbox, ready);
      case SendServerHelloDone => ServerHelloDoneKeeps(s, inbox, ready);
      case ReadClientCertificate => ServerReadCertificateKeeps(s, inbox, ready);
      case VerifyClientCertificate => ServerReadKeyKeeps(s, inbox, ready);
      case ReadClientKeyExchange => ServerReadKeyKeeps(s, inbox, ready);
      case ReadClientCertificateVerify => ServerReadVerifyKeeps(s, inbox, ready);
      case ReadChangeCipherSpec => ServerReadCipherKeeps(s, inbox, ready);
      case ServerProcessChangeCipherSpec => ServerReadCipherKeeps(s, inbox, ready);
      case ReadNextProto => ServerReadProtoKeeps(s, inbox, ready);
      case ReadChannelId => ServerReadIdKeeps(s, inbox, ready);
      case ReadClientFinished => ServerReadFinishedKeeps(s, inbox, ready);
      case SendServerFinished => ServerFlightKeeps(s, inbox, ready);
      case _ => ServerEndKeeps(s, inbox, ready);
    }
  }

  /** What a step leaves to be sent: a Finished only at the end of the last flight, for what was hashed. */
  lemma ServerAdds(s: Server, inbox: seq<Wire>, ready: bool) returns (more: seq<Wire>)
    requires ServerLegal(s, inbox)
    ensures var t := ServerStep(s, inbox, ready);
            && t.s.pending == s.pending + more
            && FinishedOf(more) == if s.state.SendServerFinished?
                                   then [ServerFinished(s.conf.p, ServerChoice(s.conf, s.peerKey))]
                                   else []
  {
    hide ServerLegal, ServerStep, FinishedOf, CourseTo;
    if s.state.SendServerFinished? {
      more := ServerAddsFlight(s, inbox, ready);
    } else if s.state.SendServerCertificate? || s.state.SendServerHelloDone? {
      more := ServerAddsTwo(s, inbox, ready);
    } else {
      more := ServerAddsOne(s, inbox, ready);
    }
  }

  lemma ServerAddsOne(s: Server, inbox: seq<Wire>, ready: bool) returns (more: seq<Wire>)
    requires !s.state.SendServerFinished? && !s.state.SendServerCertificate? && !s.state.SendServerHelloDone?
    ensures ServerStep(s, inbox, ready).s.pending == s.pending + more && FinishedOf(more) == []
  {
    hide FinishedOf;
    var t := ServerStep(s, inbox, ready);
    if s.state.SendServerHello? || s.state.SendServerKeyExchange? {
      more := t.s.pending[|s.pending|..];
      if more != [] { FinishedFew(more[0]); }
    } else {
      more := [];
    }
    FinishedFew(Wire(Ccs, []));
  }

  lemma ServerAddsTwo(s: Server, inbox: seq<Wire>, ready: bool) returns (more: seq<Wire>)
    requires s.state.SendServerCertificate? || s.state.SendServerHelloDone?
    ensures ServerStep(s, inbox, ready).s.pending == s.pending + more && FinishedOf(more) == []
  {
    hide FinishedOf;
    var a := Wire(Hs(if s.state.SendServerCertificate? then Certificate(true) else CertificateRequest), []);
    var b := Wire(Hs(if s.state.SendServerCertificate? then CertificateStatus else ServerHelloDone), []);
    FinishedFew(a);
    FinishedFew(b);
    FinishedLast([a], b);
    assert s.pending + [a] + [b] == s.pending + ([a] + [b]) && s.pending + [] == s.pending;
    var p := ServerStep(s, inbox, ready).s.pending;
    more := if p == s.pending then [] else if p == s.pending + [a] then [a] else if p == s.pending + [b] then [b] else [a] + [b];
  }

  lemma ServerAddsFlight(s: Server, inbox: seq<Wire>, ready: bool) returns (more: seq<Wire>)
    requires ServerLegal(s, inbox) && s.state.SendServerFinished?
    ensures ServerStep(s, inbox, ready).s.pending == s.pending + more
    ensures FinishedOf(more) ==
            [ServerFinished(s.conf.p, ServerChoice(s.conf, s.peerKey))]
  {
    hide FinishedOf, CourseTo, Piece, ServerChoice, ServerFlags;
    var p, h := s.conf.p, ServerChoice(s.conf, s.peerKey);
    FirstStage(p, h);
    TicketStage(p, h);
    var a := if p.ticket then [Wire(Hs(NewSessionTicket), [])] else [];
    var w := ServerFinished(p, h);
    more := a + [Wire(Ccs, [])] + [w];
    FinishedFew(Wire(Hs(NewSessionTicket), []));
    FinishedLast(a, Wire(Ccs, []));
    FinishedLast(a + [Wire(Ccs, [])], w);
    assert s.pending + more == s.pending + a + [Wire(Ccs, [])] + [w];
  }

  /** What a step takes: a Finished only of the client, and only when it vouches for what was hashed. */
  lemma ServerTakes(s: Server, inbox: seq<Wire>, ready: bool)
    requires ServerLegal(s, inbox)
    ensures var t := ServerStep(s, inbox, ready);
            && t.used <= |inbox|
            && FinishedOf(inbox[..t.used]) == if s.state.ReadClientFinished? && t.used == 1
                                              then [ClientFinished(s.conf.p, ServerChoice(s.conf, s.peerKey))]
                                              else []
  {
    hide CourseTo, FinishedOf, ServerChoice;
    var t := ServerStep(s, inbox, ready);
    ServerStepTakes(s, inbox, ready);
    FinishedFew(Wire(Ccs, []));
    if t.used == 1 {
      assert inbox[..1] == [inbox[0]];
      FinishedFew(inbox[0]);
    } else {
      assert inbox[..0] == [];
    }
  }

  predicate ServerFlagsMove(s: Server, t: ServerTurn)
  {
    && (ServerTookFinished(t.s) <==> ServerTookFinished(s) || (s.state.ReadClientFinished? && t.used == 1))
    && (ServerSentFinished(t.s) <==> ServerSentFinished(s) || s.state.SendServerFinished?)
    && (ServerTookFinished(s) ==> !s.state.ReadClientFinished?)
    && (ServerSentFinished(s) ==> !s.state.SendServerFinished?)
    && t.s.conf == s.conf
    && (ServerTookFinished(t.s) || ServerSentFinished(t.s) ==> t.s.peerKey == s.peerKey)
  }

  lemma ServerMoves(s: Server, inbox: seq<Wire>, ready: bool)
    requires ServerOnlyFull(s.state) ==> !s.conf.p.resumed
    ensures ServerFlagsMove(s, ServerStep(s, inbox, ready))
  {
    hide ServerFlagsMove, ServerStep;
    if ServerEarly(s) {
      ServerMovesEarly(s, inbox, ready);
    } else if ServerOnlyFull(s.state) {
      ServerMovesFull(s, inbox, ready);
    } else {
      ServerMovesLate(s, inbox, ready);
    }
  }

  lemma ServerMovesEarly(s: Server, inbox: seq<Wire>, ready: bool)
    requires ServerEarly(s)
    ensures ServerFlagsMove(s, ServerStep(s, inbox, ready))
  {
  }

  lemma ServerMovesFull(s: Server, inbox: seq<Wire>, ready: bool)
    requires ServerOnlyFull(s.state) && !s.conf.p.resumed
    ensures ServerFlagsMove(s, ServerStep(s, inbox, ready))
  {
    hide ServerFlagsMove, ServerStep;
    if s.state.SendServerCertificate? || s.state.SendServerKeyExchange? || s.state.SendServerHelloDone? {
      ServerMovesHello(s, inbox, ready);
    } else {
      ServerMovesRead(s, inbox, ready);
    }
  }

  lemma ServerMovesHello(s: Server, inbox: seq<Wire>, ready: bool)
    requires !s.conf.p.resumed && (s.state.SendServerCertificate? || s.state.SendServerKeyExchange? || s.state.SendServerHelloDone?)
    ensures ServerFlagsMove(s, ServerStep(s, inbox, ready))
  {
  }

  lemma ServerMovesRead(s: Server, inbox: seq<Wire>, ready: bool)
    requires !s.conf.p.resumed
    requires s.state.ReadClientCertificate? || s.state.VerifyClientCertificate? || s.state.ReadClientKeyExchange?
             || s.state.ReadClientCertificateVerify?
    ensures ServerFlagsMove(s, ServerStep(s, inbox, ready))
  {
  }

  lemma ServerMovesLate(s: Server, inbox: seq<Wire>, ready: bool)
    requires !ServerEarly(s) && !ServerOnlyFull(s.state)
    ensures ServerFlagsMove(s, ServerStep(s, inbox, ready))
  {
    hide ServerStep;
    ServerLateNext(s, inbox, ready);
  }

  lemma ServerTurnKeeps(s: Server, took: seq<Wire>, sent: seq<Wire>, inbox: seq<Wire>, ready: bool)
    requires ServerInv(s, inbox, took, sent)
    ensures var t := ServerStep(s, inbox, ready);
            t.used <= |inbox| && t.s.conf == s.conf && ServerInv(t.s, inbox[t.used..], took + inbox[..t.used], sent)
  {
    hide CourseTo, FinishedOf, ServerStep, ServerChoice, ServerTookFinished, ServerSentFinished;
    var t := ServerStep(s, inbox, ready);
    ServerStepKeeps(s, inbox, ready);
    ServerTakes(s, inbox, ready);
    FinishedCat(took, inbox[..t.used]);
    var more := ServerAdds(s, inbox, ready);
    FinishedCat(sent + s.pending, more);
    assert sent + s.pending + more == sent + t.s.pending;
    ServerMoves(s, inbox, ready);
  }

  // ---------------------------------------------------------------- the server among its inputs

  lemma ServerWaitKeeps(s: Server, took: seq<Wire>, sent: seq<Wire>, inbox: seq<Wire>, ready: bool)
    requires ServerInv(s, inbox, took, sent) && (s.wait.Error? || s.wait.Flush? || s.wait.ReadCcs? || (inbox != [] && inbox[0].item.Ccs?))
    requires !s.wait.Running? && !s.wait.Async?
    ensures var a := ServerRun(s, inbox, ready);
            a.used <= |inbox| && a.s.conf == s.conf && ServerInv(a.s, inbox[a.used..], took + inbox[..a.used], sent + a.flushed)
  {
    hide CourseTo, FinishedOf, ServerStep, ServerChoice;
    var a := ServerRun(s, inbox, ready);
    assert sent + [] == sent && took + [] == took && sent + s.pending + [] == sent + s.pending && inbox[0..] == inbox;
    if a.used == 1 {
      assert took + inbox[..1] == took + [inbox[0]];
      FinishedLast(took, inbox[0]);
    }
  }

  lemma ServerKeeps(s: Server, took: seq<Wire>, sent: seq<Wire>, inbox: seq<Wire>, ready: bool)
    requires ServerInv(s, inbox, took, sent)
    ensures var a := ServerRun(s, inbox, ready);
            a.used <= |inbox| && a.s.conf == s.conf && ServerInv(a.s, inbox[a.used..], took + inbox[..a.used], sent + a.flushed)
  {
    hide ServerInv, ServerStep;
    if s.wait.Error? || s.wait.Flush? || s.wait.ReadCcs? || (s.wait.ReadMessage? && inbox != [] && inbox[0].item.Ccs?) {
      ServerWaitKeeps(s, took, sent, inbox, ready);
    } else {
      ServerTurnKeeps(s, took, sent, inbox, ready);
      assert sent + [] == sent;
    }
  }

  /** More to read does not disturb the server. */
  lemma ServerHears(s: Server, took: seq<Wire>, sent: seq<Wire>, inbox: seq<Wire>, w: Wire)
    requires ServerInv(s, inbox, took, sent)
    ensures ServerInv(s, inbox + [w], took, sent)
  {
    hide CourseTo, FinishedOf, ServerChoice;
  }
}
