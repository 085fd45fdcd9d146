/**
 * The two handshake machines as they run: SSL_HANDSHAKE objects whose do_* steps change fields in
 * place inside a loop over the state (ssl_client_handshake, ssl_server_handshake). Each step takes
 * the object to what the step functions of Handshake say.
 */
module HandshakeMachines {
  import opened Bytes
  import opened Handshake
  import opened HandshakeStages

  /** One action after another, each on what its predecessors left of the inbox: the items taken and
    * the items put on the wire add up. */
  function ClientRuns(c: Client, inbox: seq<Wire>, ready: seq<bool>): (a: ClientAct)
    ensures a.used <= |inbox|
    decreases |ready|
  {
    if ready == [] then ClientAct(c, 0, [])
    else
      var a := ClientRuns(c, inbox, ready[..|ready| - 1]);
      ClientTakesArrived(a.c, inbox[a.used..], ready[|ready| - 1]);
      var b := ClientRun(a.c, inbox[a.used..], ready[|ready| - 1]);
      ClientAct(b.c, a.used + b.used, a.flushed + b.flushed)
  }

  lemma ClientRunsOne(c: Client, inbox: seq<Wire>, ready: seq<bool>, r: bool)
    ensures var a := ClientRuns(c, inbox, ready);
            var b := ClientRun(a.c, inbox[a.used..], r);
            ClientRuns(c, inbox, ready + [r]) == ClientAct(b.c, a.used + b.used, a.flushed + b.flushed)
  {
    hide ClientRun;
    assert (ready + [r])[..|ready|] == ready;
  }

  lemma {:induction false} ClientRunsMore(c: Client, inbox: seq<Wire>, ready: seq<bool>, more: seq<bool>)
    ensures var a := ClientRuns(c, inbox, ready);
            var b := ClientRuns(a.c, inbox[a.used..], more);
            ClientRuns(c, inbox, ready + more) == ClientAct(b.c, a.used + b.used, a.flushed + b.flushed)
    decreases |more|
  {
    hide ClientRun, ClientRuns;
    var a := ClientRuns(c, inbox, ready);
    if more == [] {
      ClientRunsNone(a.c, inbox[a.used..]);
      assert ready + more == ready && a.flushed + [] == a.flushed;
    } else {
      var n := |more| - 1;
      ClientRunsMore(c, inbox, ready, more[..n]);
      assert more == more[..n] + [more[n]] && ready + more == (ready + more[..n]) + [more[n]];
      ClientRunsOne(c, inbox, ready + more[..n], more[n]);
      ClientRunsOne(a.c, inbox[a.used..], more[..n], more[n]);
      var m := ClientRuns(a.c, inbox[a.used..], more[..n]);
      assert inbox[a.used..][m.used..] == inbox[a.used + m.used..];
      var b := ClientRun(m.c, inbox[a.used + m.used..], more[n]);
      assert (a.flushed + m.flushed) + b.flushed == a.flushed + (m.flushed + b.flushed);
    }
  }

  lemma ClientRunsNone(c: Client, inbox: seq<Wire>)
    ensures ClientRuns(c, inbox, []) == ClientAct(c, 0, [])
  {
  }

  /** What resolves the waits that are not for the application. */
  lemma ClientResolves(c: Client, inbox: seq<Wire>)
    ensures var a := ClientRun(c, inbox, true);
            && (c.wait.Flush? ==> a == ClientAct(c.(pending := [], wait := Running), 0, c.pending))
            && (c.wait.ReadCcs? && inbox != [] ==>
                  a == if inbox[0].item.Ccs? then ClientAct(c.(wait := Running), 1, []) else ClientAct(c.(wait := Error), 0, []))
            && (c.wait.ReadMessage? && inbox != [] && inbox[0].item.Ccs? ==> a == ClientAct(c.(wait := Error), 0, []))
            && (c.wait.ReadMessage? && inbox != [] && !inbox[0].item.Ccs? ==> Peek(inbox).Some?)
  {
    hide ClientStep;
  }

  /** The machine can take a step: it waits for nothing that ssl_run_handshake resolves. */
  predicate ClientRunnable(c: Client, inbox: seq<Wire>)
  {
    c.wait.Running? || c.wait.Async? || (c.wait.ReadMessage? && Peek(inbox).Some?)
  }

  lemma ClientRunIsStep(c: Client, inbox: seq<Wire>, ready: bool)
    requires ClientRunnable(c, inbox)
    ensures var t := ClientStep(c, inbox, ready); ClientRun(c, inbox, ready) == ClientAct(t.c, t.used, [])
  {
    hide ClientStep;
  }

  /** Bounds the turns of the loop: states only go forward. */
  function ClientFuel(st: CState, resumed: bool): nat
  {
    match st
    case StartConnect => 40
    case EnterEarlyData => 39
    case ReadServerHello => 38
    case _ => 18 - ClientOrder(resumed, st)
  }

  lemma ClientFuelBounds(st: CState, resumed: bool)
    ensures ClientFuel(st, resumed) <= 40 && (!st.ClientDone? ==> ClientFuel(st, resumed) >= 1)
  {
  }

  /** A step goes forward, or stays and waits for a message that has not come, for the application,
    * or for nothing any more. */
  predicate ClientForward(c: Client, inbox: seq<Wire>, t: ClientTurn)
  {
    && (|| ClientFuel(t.c.state, t.c.p.resumed) < ClientFuel(c.state, c.p.resumed)
        || (t.c.state == c.state && t.c.p == c.p &&
            (t.c.wait.Async? || t.c.wait.Error? || (t.c.wait.ReadMessage? && Peek(inbox).None?))))
    && (t.c.wait.ReadMessage? ==> t.used == 0 && Peek(inbox).None?)
  }

  lemma Neutral(inbox: seq<Wire>)
    ensures [] + [true] == [true] && inbox[0..] == inbox
    ensures forall ws: seq<Wire> :: [] + ws == ws
  {
  }

  lemma PeekHead(inbox: seq<Wire>)
    ensures Peek(inbox).Some? ==> inbox != []
  {
  }

  /** The step out of SendClientFinished. */
  lemma ClientLastFlight(c: Client, inbox: seq<Wire>, ready: bool)
    requires c.state.SendClientFinished?
    ensures ClientStep(c, inbox, ready) ==
            if c.p.channelId && !ready then ClientWait(c, Async)
            else
              var c1 := ClientAddCcs(c);
              var c2 := if c.p.npn then ClientAdd(c1, NextProto) else c1;
              var c3 := if c.p.channelId then ClientAdd(c2, ChannelId) else c2;
              ClientTurn(ClientAddFinished(c3).(state := FinishFlight, wait := Flush), 0)
  {
  }

  /** The application answers every question at once. */
  ghost predicate ClientAnswers(ready: CState -> bool)
  {
    forall st :: ready(st)
  }

  class ClientMachine {
    var state: CState
    var wait: Wait
    var pending: seq<Wire>
    var transcript: seq<Kind>
    var p: Params
    var certRequest: bool
    const hasCert: bool

    ghost function Abs(): Client
      reads this
    {
      Client(state, wait, pending, transcript, p, certRequest, hasCert)
    }

    /** ssl_handshake_new, for a client with or without a certificate; `unset` stands for the parameters
      * that ServerHello will bring. */
    constructor (hasCert: bool, unset: Params)
      ensures Abs() == Client(StartConnect, Running, [], [], unset, false, hasCert)
    {
      state, wait, pending, transcript, p, certRequest := StartConnect, Running, [], [], unset, false;
      this.hasCert := hasCert;
    }

    method Add(k: Kind)
      modifies this
      ensures Abs() == ClientAdd(old(Abs()), k)
      ensures state == old(state) && p == old(p)
    {
      pending := pending + [Wire(Hs(k), [])];
      transcript := transcript + [k];
    }

    method AddCcs()
      modifies this
      ensures Abs() == ClientAddCcs(old(Abs()))
      ensures state == old(state) && p == old(p)
    {
      pending := pending + [Wire(Ccs, [])];
    }

    /** ssl_send_finished: the snapshot is taken before the message is hashed. */
    method SendFinished()
      modifies this
      ensures Abs() == ClientAddFinished(old(Abs()))
      ensures state == old(state) && p == old(p)
    {
      pending := pending + [Wire(Hs(Finished(false)), transcript)];
      transcript := transcript + [Finished(false)];
    }

    /** ssl_hash_message and next_message. */
    method Take(k: Kind, next: CState)
      modifies this
      ensures ClientTake(old(Abs()), k, next) == ClientTurn(Abs(), 1)
      ensures state == next && wait == Running && p == old(p)
    {
      transcript := transcript + [k];
      state := next;
      wait := Running;
    }

    method Go(next: CState)
      modifies this
      ensures ClientGo(old(Abs()), next) == ClientTurn(Abs(), 0)
      ensures state == next && wait == Running && p == old(p)
    {
      state := next;
      wait := Running;
    }

    method Stop(w: Wait)
      modifies this
      ensures ClientWait(old(Abs()), w) == ClientTurn(Abs(), 0)
      ensures state == old(state) && wait == w && p == old(p)
    {
      wait := w;
    }

    /** Reads one message that must be of kind k. */
    method Expect(inbox: seq<Wire>, k: Kind, next: CState) returns (used: nat)
      modifies this
      ensures ClientExpect(old(Abs()), inbox, k, next) == ClientTurn(Abs(), used)
      ensures p == old(p) && used <= 1
      ensures if used == 1 then state == next && wait == Running
              else state == old(state) && (wait.Error? || (wait.ReadMessage? && Peek(inbox).None?))
    {
      hide Peek, ClientTake, ClientWait;
      var m := Peek(inbox);
      if m.None? {
        Stop(ReadMessage);
        return 0;
      }
      if m.value != k {
        Stop(Error);
        return 0;
      }
      Take(k, next);
      return 1;
    }

    /** do_start_connect, do_enter_early_data and do_read_server_hello */
    method Greet(inbox: seq<Wire>, ready: bool) returns (used: nat)
      requires state.StartConnect? || state.EnterEarlyData? || state.ReadServerHello?
      modifies this
      ensures ClientStep(old(Abs()), inbox, ready) == ClientTurn(Abs(), used)
      ensures ClientForward(old(Abs()), inbox, ClientTurn(Abs(), used))
    {
      hide Peek, ClientTake, ClientGo, ClientWait, ClientAdd, ClientAddCcs, ClientAddFinished, ClientExpect;
      PeekHead(inbox);
      used := 0;
      if state.StartConnect? {
        Add(ClientHello);
        state := EnterEarlyData;
        wait := Flush;
      } else if state.EnterEarlyData? {
        Go(ReadServerHello);
      } else {
        var m := Peek(inbox);
        if m.None? {
          Stop(ReadMessage);
        } else if !m.value.ServerHello? {
          Stop(Error);
        } else {
          p := m.value.p;
          Take(m.value, if p.resumed then ReadSessionTicket else ReadServerCertificate);
          used := 1;
        }
      }
    }

    /** do_read_server_certificate, do_read_certificate_status and do_verify_server_certificate */
    method ReadCertificate(inbox: seq<Wire>, ready: bool) returns (used: nat)
      requires state.ReadServerCertificate? || state.ReadCertificateStatus? || state.VerifyServerCertificate?
      modifies this
      ensures ClientStep(old(Abs()), inbox, ready) == ClientTurn(Abs(), used)
      ensures ClientForward(old(Abs()), inbox, ClientTurn(Abs(), used))
    {
      hide Peek, ClientTake, ClientGo, ClientWait, ClientAdd, ClientAddCcs, ClientAddFinished, ClientExpect;
      PeekHead(inbox);
      used := 0;
      if state.ReadServerCertificate? {
        if !p.certAuth {
          Go(ReadCertificateStatus);
          return;
        }
        used := Expect(inbox, Certificate(true), ReadCertificateStatus);
      } else if state.ReadCertificateStatus? {
        if !p.ocsp {
          Go(VerifyServerCertificate);
          return;
        }
        var m := Peek(inbox);
        if m.None? {
          Stop(ReadMessage);
        } else if m.value != CertificateStatus {
          Go(VerifyServerCertificate);
        } else {
          Take(CertificateStatus, VerifyServerCertificate);
          used := 1;
        }
      } else {
        if p.certAuth && !ready {
          Stop(Async);
          return;
        }
        Go(ReadServerKeyExchange);
      }
    }

    /** do_read_server_key_exchange, do_read_certificate_request and do_read_server_hello_done */
    method ReadKeyExchange(inbox: seq<Wire>, ready: bool) returns (used: nat)
      requires state.ReadServerKeyExchange? || state.ReadCertificateRequest? || state.ReadServerHelloDone?
      modifies this
      ensures ClientStep(old(Abs()), inbox, ready) == ClientTurn(Abs(), used)
      ensures ClientForward(old(Abs()), inbox, ClientTurn(Abs(), used))
    {
      hide Peek, ClientTake, ClientGo, ClientWait, ClientAdd, ClientAddCcs, ClientAddFinished, ClientExpect;
      PeekHead(inbox);
      used := 0;
      var m := Peek(inbox);
      if state.ReadServerKeyExchange? {
        if m.None? {
          Stop(ReadMessage);
        } else if m.value != ServerKeyExchange {
          if p.kx == ECDHE {
            Stop(Error);
            return;
          }
          Go(ReadCertificateRequest);
        } else if p.kx == RSA {
          Stop(Error);
        } else {
          Take(ServerKeyExchange, ReadCertificateRequest);
          used := 1;
        }
      } else if state.ReadCertificateRequest? {
        if !p.certAuth {
          Go(ReadServerHelloDone);
          return;
        }
        if m.None? {
          Stop(ReadMessage);
        } else if m.value == ServerHelloDone {
          Go(ReadServerHelloDone);
        } else if m.value != CertificateRequest {
          Stop(Error);
        } else {
          certRequest := true;
          Take(CertificateRequest, ReadServerHelloDone);
          used := 1;
        }
      } else {
        used := Expect(inbox, ServerHelloDone, SendClientCertificate);
      }
    }

    /** do_send_client_certificate, do_send_client_key_exchange and do_send_client_certificate_verify */
    method SendReply(inbox: seq<Wire>, ready: bool) returns (used: nat)
      requires state.SendClientCertificate? || state.SendClientKeyExchange? || state.SendClientCertificateVerify?
      modifies this
      ensures ClientStep(old(Abs()), inbox, ready) == ClientTurn(Abs(), used)
      ensures ClientForward(old(Abs()), inbox, ClientTurn(Abs(), used))
    {
      hide Peek, ClientTake, ClientGo, ClientWait, ClientAdd, ClientAddCcs, ClientAddFinished, ClientExpect;
      PeekHead(inbox);
      used := 0;
      if state.SendClientCertificate? {
        if !certRequest {
          Go(SendClientKeyExchange);
          return;
        }
        if !ready {
          Stop(Async);
          return;
        }
        Add(Certificate(hasCert));
        Go(SendClientKeyExchange);
      } else if state.SendClientKeyExchange? {
        Add(ClientKeyExchange);
        Go(SendClientCertificateVerify);
      } else {
        if !certRequest || !hasCert {
          Go(SendClientFinished);
          return;
        }
        if !ready {
          Stop(Async);
          return;
        }
        Add(CertificateVerify);
        Go(SendClientFinished);
      }
    }

    /** do_send_client_finished */
    method SendFinishedFlight(inbox: seq<Wire>, ready: bool) returns (used: nat)
      requires state.SendClientFinished?
      modifies this
      ensures ClientStep(old(Abs()), inbox, ready) == ClientTurn(Abs(), used)
      ensures ClientForward(old(Abs()), inbox, ClientTurn(Abs(), used))
    {
      hide ClientStep, Peek, ClientWait, ClientAdd, ClientAddCcs, ClientAddFinished;
      ClientLastFlight(Abs(), inbox, ready);
      used := 0;
      if p.channelId && !ready {
        Stop(Async);
        return;
      }
      AddCcs();
      if p.npn {
        Add(NextProto);
      }
      if p.channelId {
        Add(ChannelId);
      }
      SendFinished();
      state := FinishFlight;
      wait := Flush;
    }

    /** do_finish_flight */
    method FinishFlightStep(inbox: seq<Wire>, ready: bool) returns (used: nat)
      requires state.FinishFlight?
      modifies this
      ensures ClientStep(old(Abs()), inbox, ready) == ClientTurn(Abs(), used)
      ensures ClientForward(old(Abs()), inbox, ClientTurn(Abs(), used))
    {
      hide Peek, ClientTake, ClientGo, ClientWait, ClientAdd, ClientAddCcs, ClientAddFinished, ClientExpect;
      used := 0;
      Go(if p.resumed then FinishClientHandshake else ReadSessionTicket);
    }

    /** do_read_session_ticket and do_process_change_cipher_spec */
    method ReadTicket(inbox: seq<Wire>, ready: bool) returns (used: nat)
      requires state.ReadSessionTicket? || state.ProcessChangeCipherSpec?
      modifies this
      ensures ClientStep(old(Abs()), inbox, ready) == ClientTurn(Abs(), used)
      ensures ClientForward(old(Abs()), inbox, ClientTurn(Abs(), used))
    {
      hide Peek, ClientTake, ClientGo, ClientWait, ClientAdd, ClientAddCcs, ClientAddFinished, ClientExpect;
      PeekHead(inbox);
      used := 0;
      if state.ReadSessionTicket? {
        if !p.ticket {
          state := ProcessChangeCipherSpec;
          wait := ReadCcs;
          return;
        }
        used := Expect(inbox, NewSessionTicket, ProcessChangeCipherSpec);
        if used == 1 {
          wait := ReadCcs;
        }
      } else {
        Go(ReadServerFinished);
      }
    }

    /** do_read_server_finished and do_finish_client_handshake */
    method ReadFinished(inbox: seq<Wire>, ready: bool) returns (used: nat)
      requires state.ReadServerFinished? || state.FinishClientHandshake?
      modifies this
      ensures ClientStep(old(Abs()), inbox, ready) == ClientTurn(Abs(), used)
      ensures ClientForward(old(Abs()), inbox, ClientTurn(Abs(), used))
    {
      hide Peek, ClientTake, ClientGo, ClientWait, ClientAdd, ClientAddCcs, ClientAddFinished, ClientExpect;
      PeekHead(inbox);
      used := 0;
      if state.ReadServerFinished? {
        if Peek(inbox) == Some(Finished(true)) && inbox[0].mac != transcript {
          Stop(Error);
          return;
        }
        used := Expect(inbox, Finished(true), if p.resumed then SendClientFinished else FinishClientHandshake);
      } else {
        Go(ClientDone);
      }
    }

    /** One turn of the loop. */
    method Step(inbox: seq<Wire>, ready: bool) returns (used: nat)
      modifies this
      ensures ClientStep(old(Abs()), inbox, ready) == ClientTurn(Abs(), used)
      ensures !old(state).ClientDone? ==> ClientForward(old(Abs()), inbox, ClientTurn(Abs(), used))
    {
      if state.StartConnect? || state.EnterEarlyData? || state.ReadServerHello? {
        used := Greet(inbox, ready);
      } else if state.ReadServerCertificate? || state.ReadCertificateStatus? || state.VerifyServerCertificate? {
        used := ReadCertificate(inbox, ready);
      } else if state.ReadServerKeyExchange? || state.ReadCertificateRequest? || state.ReadServerHelloDone? {
        used := ReadKeyExchange(inbox, ready);
      } else if state.SendClientCertificate? || state.SendClientKeyExchange? || state.SendClientCertificateVerify? {
        used := SendReply(inbox, ready);
      } else if state.SendClientFinished? {
        used := SendFinishedFlight(inbox, ready);
      } else if state.FinishFlight? {
        used := FinishFlightStep(inbox, ready);
      } else if state.ReadSessionTicket? || state.ProcessChangeCipherSpec? {
        used := ReadTicket(inbox, ready);
      } else if state.ReadServerFinished? || state.FinishClientHandshake? {
        used := ReadFinished(inbox, ready);
      } else {
        used := 0;
      }
    }

    /** ssl_client_handshake: turns until the machine is done or has to wait. */
    method Handshake(inbox: seq<Wire>, ready: CState -> bool) returns (used: nat, ghost turns: seq<bool>)
      requires ClientRunnable(Abs(), inbox)
      modifies this
      ensures ClientRuns(old(Abs()), inbox, turns) == ClientAct(Abs(), used, [])
      ensures |turns| <= 40 && (state.ClientDone? || !wait.Running?)
      ensures state.ClientDone? || ClientFuel(state, p.resumed) < ClientFuel(old(state), old(p.resumed)) ||
              (ClientFuel(state, p.resumed) == ClientFuel(old(state), old(p.resumed)) && !wait.Flush? && !wait.ReadCcs?)
      ensures used <= |inbox| && (wait.ReadMessage? && !state.ClientDone? ==> Peek(inbox[used..]).None?)
      ensures ClientAnswers(ready) ==> (forall t :: t in turns ==> t) && (state.ClientDone? || !wait.Async?)
    {
      hide ClientStep, ClientFuel, ClientRuns, Peek;
      used, turns := 0, [];
      var running := true;
      ghost var c := Abs();
      ClientFuelBounds(state, p.resumed);
      ClientRunsNone(c, inbox);
      while !state.ClientDone? && running
        invariant used <= |inbox| && ClientRuns(c, inbox, turns) == ClientAct(Abs(), used, [])
        invariant running ==> ClientRunnable(Abs(), inbox[used..])
        invariant |turns| + ClientFuel(state, p.resumed) <= if running then 40 else 41
        invariant |turns| <= 40 && (!running ==> !wait.Running?)
        invariant ClientFuel(state, p.resumed) <= ClientFuel(c.state, c.p.resumed)
        invariant !running ==> ClientFuel(state, p.resumed) < ClientFuel(c.state, c.p.resumed) || (!wait.Flush? && !wait.ReadCcs?)
        invariant !running && wait.ReadMessage? ==> Peek(inbox[used..]).None?
        invariant ClientAnswers(ready) ==> (forall t :: t in turns ==> t) && (!running ==> !wait.Async?)
        decreases running, ClientFuel(state, p.resumed)
      {
        ClientFuelBounds(state, p.resumed);
        ClientRunIsStep(Abs(), inbox[used..], ready(state));
        ClientTakesArrived(Abs(), inbox[used..], ready(state));
        ClientRunsOne(c, inbox, turns, ready(state));
        if ready(state) { ClientReadyNotAsync(Abs(), inbox[used..]); }
        turns := turns + [ready(state)];
        var k := Step(inbox[used..], ready(state));
        used := used + k;
        running := wait.Running?;
      }
    }

    /** The switch in ssl_run_handshake: resolves what the machine waits for, if it can be. */
    method Resolve(inbox: seq<Wire>) returns (go: bool, used: nat, flushed: seq<Wire>, ghost turns: seq<bool>)
      modifies this`wait, this`pending
      ensures ClientRuns(old(Abs()), inbox, turns) == ClientAct(Abs(), used, flushed)
      ensures used <= |inbox|
      ensures if go then ClientRunnable(Abs(), inbox[used..]) && !(wait.ReadMessage? && Peek(inbox[used..]).None?)
              else wait.Error? || ((wait.ReadMessage? || wait.ReadCcs?) && used == |inbox|)
      ensures go ==> if old(wait.Flush? || wait.ReadCcs?) then wait.Running? else wait == old(wait) && used == 0
      ensures (forall t :: t in turns ==> t) && (go || !wait.Async?)
    {
      hide ClientRuns, ClientRun, Peek;
      used, flushed, turns := 0, [], [];
      ClientRunsNone(Abs(), inbox);
      ClientRunsOne(Abs(), inbox, [], true);
      ClientResolves(Abs(), inbox);
      Neutral(inbox);
      if wait.Flush? {
        flushed := pending;
        pending := [];
        wait := Running;
        turns := [true];
      } else if wait.ReadCcs? || wait.ReadMessage? {
        if inbox == [] {
          return false, used, flushed, turns;
        }
        if wait.ReadCcs? != inbox[0].item.Ccs? {
          wait := Error;
          turns := [true];
        } else if wait.ReadCcs? {
          used := 1;
          wait := Running;
          turns := [true];
        }
      }
      return !wait.Error?, used, flushed, turns;
    }

    /** ssl_run_handshake: resolve what the machine waits for and run it again, until it is done, has
      * failed, or waits for the application or for something that has not arrived. What it does is
      * `turns` of the actions that make up HandshakeRun's runs. */
    method RunHandshake(inbox: seq<Wire>, ready: CState -> bool) returns (used: nat, flushed: seq<Wire>, ghost turns: seq<bool>)
      modifies this
      ensures ClientRuns(old(Abs()), inbox, turns) == ClientAct(Abs(), used, flushed)
      ensures used <= |inbox|
      ensures state.ClientDone? || wait.Async? || wait.Error? || ((wait.ReadMessage? || wait.ReadCcs?) && used == |inbox|)
      ensures ClientAnswers(ready) ==> (forall t :: t in turns ==> t) && (state.ClientDone? || !wait.Async?)
    {
      hide ClientRuns, ClientRun, Peek, ClientRunnable;
      used, flushed, turns := 0, [], [];
      ghost var c := Abs();
      ClientRunsNone(c, inbox);
      while true
        invariant used <= |inbox| && ClientRuns(c, inbox, turns) == ClientAct(Abs(), used, flushed)
        invariant ClientAnswers(ready) ==> forall t :: t in turns ==> t
        decreases 2 * ClientFuel(state, p.resumed) + (if wait.Flush? || wait.ReadCcs? then 1 else 0),
                  !(wait.ReadMessage? && Peek(inbox[used..]).None?)
      {
        var go, k, out;
        ghost var more;
        go, k, out, more := Resolve(inbox[used..]);
        ClientRunsMore(c, inbox, turns, more);
        assert inbox[used..][k..] == inbox[used + k..];
        used, flushed, turns := used + k, flushed + out, turns + more;
        if !go {
          return;
        }
        k, more := Handshake(inbox[used..], ready);
        ClientRunsMore(c, inbox, turns, more);
        assert inbox[used..][k..] == inbox[used + k..];
        assert flushed + [] == flushed;
        used, turns := used + k, turns + more;
        if state.ClientDone? || wait.Async? || wait.Error? {
          return;
        }
      }
    }
  }

  /** One action after another, each on what its predecessors left of the inbox: the items taken and
    * the items put on the wire add up. */
  function ServerRuns(s: Server, inbox: seq<Wire>, ready: seq<bool>): (a: ServerAct)
    ensures a.used <= |inbox|
    decreases |ready|
  {
    if ready == [] then ServerAct(s, 0, [])
    else
      var a := ServerRuns(s, inbox, ready[..|ready| - 1]);
      ServerTakesArrived(a.s, inbox[a.used..], ready[|ready| - 1]);
      var b := ServerRun(a.s, inbox[a.used..], ready[|ready| - 1]);
      ServerAct(b.s, a.used + b.used, a.flushed + b.flushed)
  }

  lemma ServerRunsOne(s: Server, inbox: seq<Wire>, ready: seq<bool>, r: bool)
    ensures var a := ServerRuns(s, inbox, ready);
            var b := ServerRun(a.s, inbox[a.used..], r);
            ServerRuns(s, inbox, ready + [r]) == ServerAct(b.s, a.used + b.used, a.flushed + b.flushed)
  {
    hide ServerRun;
    assert (ready + [r])[..|ready|] == ready;
  }

  lemma {:induction false} ServerRunsMore(s: Server, inbox: seq<Wire>, ready: seq<bool>, more: seq<bool>)
    ensures var a := ServerRuns(s, inbox, ready);
            var b := ServerRuns(a.s, inbox[a.used..], more);
            ServerRuns(s, inbox, ready + more) == ServerAct(b.s, a.used + b.used, a.flushed + b.flushed)
    decreases |more|
  {
    hide ServerRun, ServerRuns;
    var a := ServerRuns(s, inbox, ready);
    if more == [] {
      ServerRunsNone(a.s, inbox[a.used..]);
      assert ready + more == ready && a.flushed + [] == a.flushed;
    } else {
      var n := |more| - 1;
      ServerRunsMore(s, inbox, ready, more[..n]);
      assert more == more[..n] + [more[n]] && ready + more == (ready + more[..n]) + [more[n]];
      ServerRunsOne(s, inbox, ready + more[..n], more[n]);
      ServerRunsOne(a.s, inbox[a.used..], more[..n], more[n]);
      var m := ServerRuns(a.s, inbox[a.used..], more[..n]);
      assert inbox[a.used..][m.used..] == inbox[a.used + m.used..];
      var b := ServerRun(m.s, inbox[a.used + m.used..], more[n]);
      assert (a.flushed + m.flushed) + b.flushed == a.flushed + (m.flushed + b.flushed);
    }
  }

  lemma ServerRunsNone(s: Server, inbox: seq<Wire>)
    ensures ServerRuns(s, inbox, []) == ServerAct(s, 0, [])
  {
  }

  /** What resolves the waits that are not for the application. */
  lemma ServerResolves(s: Server, inbox: seq<Wire>)
    ensures var a := ServerRun(s, inbox, true);
            && (s.wait.Flush? ==> a == ServerAct(s.(pending := [], wait := Running), 0, s.pending))
            && (s.wait.ReadCcs? && inbox != [] ==>
                  a == if inbox[0].item.Ccs? then ServerAct(s.(wait := Running), 1, []) else ServerAct(s.(wait := Error), 0, []))
            && (s.wait.ReadMessage? && inbox != [] && inbox[0].item.Ccs? ==> a == ServerAct(s.(wait := Error), 0, []))
            && (s.wait.ReadMessage? && inbox != [] && !inbox[0].item.Ccs? ==> Peek(inbox).Some?)
  {
    hide ServerStep;
  }

  /** The machine can take a step: it waits for nothing that ssl_run_handshake resolves. */
  predicate ServerRunnable(s: Server, inbox: seq<Wire>)
  {
    s.wait.Running? || s.wait.Async? || (s.wait.ReadMessage? && Peek(inbox).Some?)
  }

  lemma ServerRunIsStep(s: Server, inbox: seq<Wire>, ready: bool)
    requires ServerRunnable(s, inbox)
    ensures var t := ServerStep(s, inbox, ready); ServerRun(s, inbox, ready) == ServerAct(t.s, t.used, [])
  {
    hide ServerStep;
  }

  predicate ServerForward(s: Server, inbox: seq<Wire>, t: ServerTurn)
  {
    && t.s.conf == s.conf
    && (|| ServerOrder(s.conf.p.resumed, s.state) < ServerOrder(s.conf.p.resumed, t.s.state)
        || (t.s.state == s.state && (t.s.wait.Async? || t.s.wait.Error? || (t.s.wait.ReadMessage? && Peek(inbox).None?))))
    && (t.s.wait.ReadMessage? ==> t.used == 0 && Peek(inbox).None?)
  }

  /** The step out of SendServerFinished. */
  lemma ServerLastFlight(s: Server, inbox: seq<Wire>, ready: bool)
    requires s.state.SendServerFinished?
    ensures var s1 := if s.conf.p.ticket then ServerAdd(s, NewSessionTicket) else s;
            var next := if s.conf.p.resumed then ReadChangeCipherSpec else FinishServerHandshake;
            ServerStep(s, inbox, ready) == ServerTurn(ServerAddFinished(ServerAddCcs(s1)).(state := next, wait := Flush), 0)
  {
  }

  /** The application answers every question at once. */
  ghost predicate ServerAnswers(ready: SState -> bool)
  {
    forall st :: ready(st)
  }

  class ServerMachine {
    var state: SState
    var wait: Wait
    var pending: seq<Wire>
    var transcript: seq<Kind>
    const conf: ServerConf
    var certRequest: bool
    var serverParams: bool
    var peerKey: bool

    /** How many states are ahead at most. */
    function Ahead(st: SState): nat
    {
      19 - ServerOrder(conf.p.resumed, st)
    }

    ghost function Abs(): Server
      reads this
    {
      Server(state, wait, pending, transcript, conf, certRequest, serverParams, peerKey)
    }

    /** ssl_handshake_new, for a server and what it will negotiate. */
    constructor (conf: ServerConf)
      ensures Abs() == Server(StartAccept, Running, [], [], conf, false, false, false)
    {
      state, wait, pending, transcript := StartAccept, Running, [], [];
      certRequest, serverParams, peerKey := false, false, false;
      this.conf := conf;
    }

    method Add(k: Kind)
      modifies this
      ensures Abs() == ServerAdd(old(Abs()), k) && state == old(state)
    {
      pending := pending + [Wire(Hs(k), [])];
      transcript := transcript + [k];
    }

    method AddCcs()
      modifies this
      ensures Abs() == ServerAddCcs(old(Abs())) && state == old(state)
    {
      pending := pending + [Wire(Ccs, [])];
    }

    /** ssl_send_finished: the snapshot is taken before the message is hashed. */
    method SendFinished()
      modifies this
      ensures Abs() == ServerAddFinished(old(Abs())) && state == old(state)
    {
      pending := pending + [Wire(Hs(Finished(true)), transcript)];
      transcript := transcript + [Finished(true)];
    }

    /** ssl_hash_message and next_message. */
    method Take(k: Kind, next: SState)
      modifies this
      ensures ServerTake(old(Abs()), k, next) == ServerTurn(Abs(), 1)
      ensures state == next && wait == Running
    {
      transcript := transcript + [k];
      state := next;
      wait := Running;
    }

    method Go(next: SState)
      modifies this
      ensures ServerGo(old(Abs()), next) == ServerTurn(Abs(), 0)
      ensures state == next && wait == Running
    {
      state := next;
      wait := Running;
    }

    method Stop(w: Wait)
      modifies this
      ensures ServerWait(old(Abs()), w) == ServerTurn(Abs(), 0)
      ensures state == old(state) && wait == w
    {
      wait := w;
    }

    /** Reads one message that must be of kind k. */
    method Expect(inbox: seq<Wire>, k: Kind, next: SState) returns (used: nat)
      modifies this
      ensures ServerExpect(old(Abs()), inbox, k, next) == ServerTurn(Abs(), used)
      ensures used <= 1
      ensures if used == 1 then state == next && wait == Running
              else state == old(state) && (wait.Error? || (wait.ReadMessage? && Peek(inbox).None?))
    {
      hide Peek, ServerTake, ServerWait;
      var m := Peek(inbox);
      if m.None? {
        Stop(ReadMessage);
        return 0;
      }
      if m.value != k {
        Stop(Error);
        return 0;
      }
      Take(k, next);
      return 1;
    }

    /** do_start_accept, do_read_client_hello and do_select_certificate */
    method Greet(inbox: seq<Wire>, ready: bool) returns (used: nat)
      requires state.StartAccept? || state.ReadClientHello? || state.SelectCertificate?
      modifies this
      ensures ServerStep(old(Abs()), inbox, ready) == ServerTurn(Abs(), used)
      ensures ServerForward(old(Abs()), inbox, ServerTurn(Abs(), used))
    {
      hide Peek, ServerTake, ServerGo, ServerWait, ServerAdd, ServerAddCcs, ServerAddFinished, ServerExpect;
      PeekHead(inbox);
      used := 0;
      if state.StartAccept? {
        Go(ReadClientHello);
        return;
      }
      var m := Peek(inbox);
      if m.None? {
        Stop(ReadMessage);
      } else if state.ReadClientHello? && m.value != ClientHello {
        Stop(Error);
      } else if !ready {
        Stop(Async);
      } else {
        Go(if state.ReadClientHello? then SelectCertificate else SelectParameters);
      }
    }

    /** do_select_parameters and do_send_server_hello */
    method SendHello(inbox: seq<Wire>, ready: bool) returns (used: nat)
      requires state.SelectParameters? || state.SendServerHello?
      modifies this
      ensures ServerStep(old(Abs()), inbox, ready) == ServerTurn(Abs(), used)
      ensures ServerForward(old(Abs()), inbox, ServerTurn(Abs(), used))
    {
      hide Peek, ServerTake, ServerGo, ServerWait, ServerAdd, ServerAddCcs, ServerAddFinished, ServerExpect;
      PeekHead(inbox);
      used := 0;
      if state.SelectParameters? {
        var m := Peek(inbox);
        if m.None? {
          Stop(ReadMessage);
          return;
        }
        if !ready {
          Stop(Async);
          return;
        }
        certRequest := !conf.p.resumed && conf.wantCert && conf.p.certAuth;
        Take(m.value, SendServerHello);
        used := 1;
      } else {
        Add(ServerHello(conf.p));
        Go(if conf.p.resumed then SendServerFinished else SendServerCertificate);
      }
    }

    /** do_send_server_certificate */
    method SendCertificate(inbox: seq<Wire>, ready: bool) returns (used: nat)
      requires state.SendServerCertificate?
      modifies this
      ensures ServerStep(old(Abs()), inbox, ready) == ServerTurn(Abs(), used)
      ensures ServerForward(old(Abs()), inbox, ServerTurn(Abs(), used))
    {
      hide Peek, ServerTake, ServerGo, ServerWait, ServerAdd, ServerAddCcs, ServerAddFinished, ServerExpect;
      PeekHead(inbox);
      used := 0;
      if conf.p.certAuth {
        Add(Certificate(true));
        if conf.p.ocsp {
          Add(CertificateStatus);
        }
      }
      serverParams := conf.p.kx == ECDHE || (!conf.p.certAuth && conf.pskHint);
      Go(SendServerKeyExchange);
    }

    /** do_send_server_key_exchange */
    method SendKeyExchange(inbox: seq<Wire>, ready: bool) returns (used: nat)
      requires state.SendServerKeyExchange?
      modifies this
      ensures ServerStep(old(Abs()), inbox, ready) == ServerTurn(Abs(), used)
      ensures ServerForward(old(Abs()), inbox, ServerTurn(Abs(), used))
    {
      hide Peek, ServerTake, ServerGo, ServerWait, ServerAdd, ServerAddCcs, ServerAddFinished, ServerExpect;
      used := 0;
      if !serverParams {
        Go(SendServerHelloDone);
        return;
      }
      if conf.p.certAuth && !ready {
        Stop(Async);
        return;
      }
      Add(ServerKeyExchange);
      serverParams := false;
      Go(SendServerHelloDone);
    }

    /** do_send_server_hello_done */
    method SendHelloDone(inbox: seq<Wire>, ready: bool) returns (used: nat)
      requires state.SendServerHelloDone?
      modifies this
      ensures ServerStep(old(Abs()), inbox, ready) == ServerTurn(Abs(), used)
      ensures ServerForward(old(Abs()), inbox, ServerTurn(Abs(), used))
    {
      hide Peek, ServerTake, ServerGo, ServerWait, ServerAdd, ServerAddCcs, ServerAddFinished, ServerExpect;
      used := 0;
      if certRequest {
        Add(CertificateRequest);
      }
      Add(ServerHelloDone);
      state := ReadClientCertificate;
      wait := Flush;
    }

    /** do_read_client_certificate and do_verify_client_certificate */
    method ReadCertificate(inbox: seq<Wire>, ready: bool) returns (used: nat)
      requires state.ReadClientCertificate? || state.VerifyClientCertificate?
      modifies this
      ensures ServerStep(old(Abs()), inbox, ready) == ServerTurn(Abs(), used)
      ensures ServerForward(old(Abs()), inbox, ServerTurn(Abs(), used))
    {
      hide Peek, ServerTake, ServerGo, ServerWait, ServerAdd, ServerAddCcs, ServerAddFinished, ServerExpect;
      PeekHead(inbox);
      used := 0;
      if state.ReadClientCertificate? {
        if !certRequest {
          Go(VerifyClientCertificate);
          return;
        }
        var m := Peek(inbox);
        if m.None? {
          Stop(ReadMessage);
        } else if !m.value.Certificate? || (!m.value.some && conf.requireCert) {
          Stop(Error);
        } else {
          peerKey := m.value.some;
          Take(m.value, VerifyClientCertificate);
          used := 1;
        }
      } else {
        if peerKey && !ready {
          Stop(Async);
          return;
        }
        Go(ReadClientKeyExchange);
      }
    }

    /** do_read_client_key_exchange and do_read_client_certificate_verify */
    method ReadKeyExchange(inbox: seq<Wire>, ready: bool) returns (used: nat)
      requires state.ReadClientKeyExchange? || state.ReadClientCertificateVerify?
      modifies this
      ensures ServerStep(old(Abs()), inbox, ready) == ServerTurn(Abs(), used)
      ensures ServerForward(old(Abs()), inbox, ServerTurn(Abs(), used))
    {
      hide Peek, ServerTake, ServerGo, ServerWait, ServerAdd, ServerAddCcs, ServerAddFinished, ServerExpect;
      PeekHead(inbox);
      used := 0;
      if state.ReadClientKeyExchange? {
        if Peek(inbox) == Some(ClientKeyExchange) && conf.p.kx == RSA && !ready {
          Stop(Async);
          return;
        }
        used := Expect(inbox, ClientKeyExchange, ReadClientCertificateVerify);
      } else {
        if !peerKey {
          Go(ReadChangeCipherSpec);
          return;
        }
        used := Expect(inbox, CertificateVerify, ReadChangeCipherSpec);
      }
    }

    /** do_read_change_cipher_spec and do_process_change_cipher_spec */
    method ReadCipher(inbox: seq<Wire>, ready: bool) returns (used: nat)
      requires state.ReadChangeCipherSpec? || state.ServerProcessChangeCipherSpec?
      modifies this
      ensures ServerStep(old(Abs()), inbox, ready) == ServerTurn(Abs(), used)
      ensures ServerForward(old(Abs()), inbox, ServerTurn(Abs(), used))
    {
      hide Peek, ServerTake, ServerGo, ServerWait, ServerAdd, ServerAddCcs, ServerAddFinished, ServerExpect;
      PeekHead(inbox);
      used := 0;
      if state.ReadChangeCipherSpec? {
        state := ServerProcessChangeCipherSpec;
        wait := ReadCcs;
      } else {
        Go(ReadNextProto);
      }
    }

    /** do_read_next_proto and do_read_channel_id */
    method ReadExtensions(inbox: seq<Wire>, ready: bool) returns (used: nat)
      requires state.ReadNextProto? || state.ReadChannelId?
      modifies this
      ensures ServerStep(old(Abs()), inbox, ready) == ServerTurn(Abs(), used)
      ensures ServerForward(old(Abs()), inbox, ServerTurn(Abs(), used))
    {
      hide Peek, ServerTake, ServerGo, ServerWait, ServerAdd, ServerAddCcs, ServerAddFinished, ServerExpect;
      PeekHead(inbox);
      used := 0;
      if state.ReadNextProto? {
        if !conf.p.npn {
          Go(ReadChannelId);
          return;
        }
        used := Expect(inbox, NextProto, ReadChannelId);
      } else {
        if !conf.p.channelId {
          Go(ReadClientFinished);
          return;
        }
        used := Expect(inbox, ChannelId, ReadClientFinished);
      }
    }

    /** do_read_client_finished */
    method ReadFinished(inbox: seq<Wire>, ready: bool) returns (used: nat)
      requires state.ReadClientFinished?
      modifies this
      ensures ServerStep(old(Abs()), inbox, ready) == ServerTurn(Abs(), used)
      ensures ServerForward(old(Abs()), inbox, ServerTurn(Abs(), used))
    {
      hide Peek, ServerTake, ServerGo, ServerWait, ServerAdd, ServerAddCcs, ServerAddFinished, ServerExpect;
      PeekHead(inbox);
      used := 0;
      if Peek(inbox) == Some(Finished(false)) && inbox[0].mac != transcript {
        Stop(Error);
        return;
      }
      used := Expect(inbox, Finished(false), if conf.p.resumed then FinishServerHandshake else SendServerFinished);
    }

    /** do_send_server_finished */
    method SendFinishedFlight(inbox: seq<Wire>, ready: bool) returns (used: nat)
      requires state.SendServerFinished?
      modifies this
      ensures ServerStep(old(Abs()), inbox, ready) == ServerTurn(Abs(), used)
      ensures ServerForward(old(Abs()), inbox, ServerTurn(Abs(), used))
    {
      hide ServerStep, ServerAdd, ServerAddCcs, ServerAddFinished, Peek;
      ServerLastFlight(Abs(), inbox, ready);
      used := 0;
      if conf.p.ticket {
        Add(NewSessionTicket);
      }
      AddCcs();
      SendFinished();
      state := if conf.p.resumed then ReadChangeCipherSpec else FinishServerHandshake;
      wait := Flush;
    }

    /** do_finish_server_handshake */
    method FinishHandshake(inbox: seq<Wire>, ready: bool) returns (used: nat)
      requires state.FinishServerHandshake?
      modifies this
      ensures ServerStep(old(Abs()), inbox, ready) == ServerTurn(Abs(), used)
      ensures ServerForward(old(Abs()), inbox, ServerTurn(Abs(), used))
    {
      hide Peek, ServerTake, ServerGo, ServerWait, ServerAdd, ServerAddCcs, ServerAddFinished, ServerExpect;
      used := 0;
      Go(ServerDone);
    }

    /** One turn of the loop. */
    method Step(inbox: seq<Wire>, ready: bool) returns (used: nat)
      modifies this
      ensures ServerStep(old(Abs()), inbox, ready) == ServerTurn(Abs(), used)
      ensures !old(state).ServerDone? ==> ServerForward(old(Abs()), inbox, ServerTurn(Abs(), used))
    {
      if state.StartAccept? || state.ReadClientHello? || state.SelectCertificate? {
        used := Greet(inbox, ready);
      } else if state.SelectParameters? || state.SendServerHello? {
        used := SendHello(inbox, ready);
      } else if state.SendServerCertificate? {
        used := SendCertificate(inbox, ready);
      } else if state.SendServerKeyExchange? {
        used := SendKeyExchange(inbox, ready);
      } else if state.SendServerHelloDone? {
        used := SendHelloDone(inbox, ready);
      } else if state.ReadClientCertificate? || state.VerifyClientCertificate? {
        used := ReadCertificate(inbox, ready);
      } else if state.ReadClientKeyExchange? || state.ReadClientCertificateVerify? {
        used := ReadKeyExchange(inbox, ready);
      } else if state.ReadChangeCipherSpec? || state.ServerProcessChangeCipherSpec? {
        used := ReadCipher(inbox, ready);
      } else if state.ReadNextProto? || state.ReadChannelId? {
        used := ReadExtensions(inbox, ready);
      } else if state.ReadClientFinished? {
        used := ReadFinished(inbox, ready);
      } else if state.SendServerFinished? {
        used := SendFinishedFlight(inbox, ready);
      } else if state.FinishServerHandshake? {
        used := FinishHandshake(inbox, ready);
      } else {
        used := 0;
      }
    }

    /** ssl_server_handshake: turns until the machine is done or has to wait. */
    method Handshake(inbox: seq<Wire>, ready: SState -> bool) returns (used: nat, ghost turns: seq<bool>)
      requires ServerRunnable(Abs(), inbox)
      modifies this
      ensures ServerRuns(old(Abs()), inbox, turns) == ServerAct(Abs(), used, [])
      ensures |turns| <= 20 && (state.ServerDone? || !wait.Running?)
      ensures state.ServerDone? || Ahead(state) < Ahead(old(state)) ||
              (Ahead(state) == Ahead(old(state)) && !wait.Flush? && !wait.ReadCcs?)
      ensures used <= |inbox| && (wait.ReadMessage? && !state.ServerDone? ==> Peek(inbox[used..]).None?)
      ensures ServerAnswers(ready) ==> (forall t :: t in turns ==> t) && (state.ServerDone? || !wait.Async?)
    {
      hide ServerStep, ServerRuns, Peek;
      used, turns := 0, [];
      var running := true;
      ghost var s := Abs();
      ServerRunsNone(s, inbox);
      while !state.ServerDone? && running
        invariant used <= |inbox| && ServerRuns(s, inbox, turns) == ServerAct(Abs(), used, [])
        invariant running ==> ServerRunnable(Abs(), inbox[used..])
        invariant |turns| + Ahead(state) <= if running then 19 else 20
        invariant |turns| <= 20 && (!running ==> !wait.Running?)
        invariant Ahead(state) <= Ahead(s.state)
        invariant !running ==> Ahead(state) < Ahead(s.state) || (!wait.Flush? && !wait.ReadCcs?)
        invariant !running && wait.ReadMessage? ==> Peek(inbox[used..]).None?
        invariant ServerAnswers(ready) ==> (forall t :: t in turns ==> t) && (!running ==> !wait.Async?)
        decreases running, Ahead(state)
      {
        ServerRunIsStep(Abs(), inbox[used..], ready(state));
        ServerTakesArrived(Abs(), inbox[used..], ready(state));
        ServerRunsOne(s, inbox, turns, ready(state));
        if ready(state) { ServerReadyNotAsync(Abs(), inbox[used..]); }
        turns := turns + [ready(state)];
        var k := Step(inbox[used..], ready(state));
        used := used + k;
        running := wait.Running?;
      }
    }

    /** The switch in ssl_run_handshake: resolves what the machine waits for, if it can be. */
    method Resolve(inbox: seq<Wire>) returns (go: bool, used: nat, flushed: seq<Wire>, ghost turns: seq<bool>)
      modifies this`wait, this`pending
      ensures ServerRuns(old(Abs()), inbox, turns) == ServerAct(Abs(), used, flushed)
      ensures used <= |inbox|
      ensures if go then ServerRunnable(Abs(), inbox[used..]) && !(wait.ReadMessage? && Peek(inbox[used..]).None?)
              else wait.Error? || ((wait.ReadMessage? || wait.ReadCcs?) && used == |inbox|)
      ensures go ==> if old(wait.Flush? || wait.ReadCcs?) then wait.Running? else wait == old(wait) && used == 0
      ensures (forall t :: t in turns ==> t) && (go || !wait.Async?)
    {
      hide ServerRuns, ServerRun, Peek;
      used, flushed, turns := 0, [], [];
      ServerRunsNone(Abs(), inbox);
      ServerRunsOne(Abs(), inbox, [], true);
      ServerResolves(Abs(), inbox);
      Neutral(inbox);
      if wait.Flush? {
        flushed := pending;
        pending := [];
        wait := Running;
        turns := [true];
      } else if wait.ReadCcs? || wait.ReadMessage? {
        if inbox == [] {
          return false, used, flushed, turns;
        }
        if wait.ReadCcs? != inbox[0].item.Ccs? {
          wait := Error;
          turns := [true];
        } else if wait.ReadCcs? {
          used := 1;
          wait := Running;
          turns := [true];
        }
      }
      return !wait.Error?, used, flushed, turns;
    }

    /** ssl_run_handshake: resolve what the machine waits for and run it again, until it is done, has
      * failed, or waits for the application or for something that has not arrived. What it does is
      * `turns` of the actions that make up HandshakeRun's runs. */
    method RunHandshake(inbox: seq<Wire>, ready: SState -> bool) returns (used: nat, flushed: seq<Wire>, ghost turns: seq<bool>)
      modifies this
      ensures ServerRuns(old(Abs()), inbox, turns) == ServerAct(Abs(), used, flushed)
      ensures used <= |inbox|
      ensures state.ServerDone? || wait.Async? || wait.Error? || ((wait.ReadMessage? || wait.ReadCcs?) && used == |inbox|)
      ensures ServerAnswers(ready) ==> (forall t :: t in turns ==> t) && (state.ServerDone? || !wait.Async?)
    {
      hide ServerRuns, ServerRun, Peek, ServerRunnable;
      used, flushed, turns := 0, [], [];
      ghost var s := Abs();
      ServerRunsNone(s, inbox);
      while true
        invariant used <= |inbox| && ServerRuns(s, inbox, turns) == ServerAct(Abs(), used, flushed)
        invariant ServerAnswers(ready) ==> forall t :: t in turns ==> t
        decreases 2 * Ahead(state) + (if wait.Flush? || wait.ReadCcs? then 1 else 0),
                  !(wait.ReadMessage? && Peek(inbox[used..]).None?)
      {
        var go, k, out;
        ghost var more;
        go, k, out, more := Resolve(inbox[used..]);
        ServerRunsMore(s, inbox, turns, more);
        assert inbox[used..][k..] == inbox[used + k..];
        used, flushed, turns := used + k, flushed + out, turns + more;
        if !go {
          return;
        }
        k, more := Handshake(inbox[used..], ready);
        ServerRunsMore(s, inbox, turns, more);
        assert inbox[used..][k..] == inbox[used + k..];
        assert flushed + [] == flushed;
        used, turns := used + k, turns + more;
        if state.ServerDone? || wait.Async? || wait.Error? {
          return;
        }
      }
    }
  }
}
