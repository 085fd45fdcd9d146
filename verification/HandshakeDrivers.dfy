/**
 * The two drivers (ssl_run_handshake over ssl_client_handshake and ssl_server_handshake) at both
 * ends of a connection: whatever one call does is a run of HandshakeRun, so what is proved of the
 * runs holds of the objects.
 */
module HandshakeDrivers {
  import opened Handshake
  import opened HandshakeStages
  import opened HandshakeRun
  import opened HandshakeMachines
  import opened HandshakeSchedules

  /** Turns of one end. */
  function Turns(byClient: bool, ready: seq<bool>): (turns: seq<Turn>)
    ensures |turns| == |ready|
  {
    seq(|ready|, i requires 0 <= i < |ready| => Turn(byClient, ready[i]))
  }

  lemma TurnsSnoc(byClient: bool, ready: seq<bool>)
    requires ready != []
    ensures Turns(byClient, ready) == Turns(byClient, ready[..|ready| - 1]) + [Turn(byClient, ready[|ready| - 1])]
  {
  }

  lemma {:induction false} RunCat(n: Net, a: seq<Turn>, b: seq<Turn>)
    ensures Run(n, a + b) == Run(Run(n, a), b)
    decreases |a|
  {
    hide Act;
    if a == [] {
      assert a + b == b;
    } else {
      assert (a + b)[0] == a[0] && (a + b)[1..] == a[1..] + b;
      RunCat(Act(n, a[0]), a[1..], b);
    }
  }

  lemma RunOne(n: Net, t: Turn)
    ensures Run(n, [t]) == Act(n, t)
  {
    hide Act;
    assert [t][1..] == [] && Run(Act(n, t), []) == Act(n, t);
  }

  /** What a client driver does on its own is a run of the connection. */
  lemma {:induction false} ClientDriverRuns(n: Net, ready: seq<bool>)
    ensures var a := ClientRuns(n.c, n.toClient, ready);
            Run(n, Turns(true, ready)) == Net(a.c, n.s, n.toServer + a.flushed, n.toClient[a.used..])
    decreases |ready|
  {
    hide ClientRun;
    if ready != [] {
      var k := |ready| - 1;
      var a := ClientRuns(n.c, n.toClient, ready[..k]);
      ClientDriverRuns(n, ready[..k]);
      TurnsSnoc(true, ready);
      RunCat(n, Turns(true, ready[..k]), [Turn(true, ready[k])]);
      var m := Run(n, Turns(true, ready[..k]));
      RunOne(m, Turn(true, ready[k]));
      ClientTakesArrived(a.c, n.toClient[a.used..], ready[k]);
      var b := ClientRun(a.c, n.toClient[a.used..], ready[k]);
      assert n.toClient[a.used..][b.used..] == n.toClient[a.used + b.used..];
      assert (n.toServer + a.flushed) + b.flushed == n.toServer + (a.flushed + b.flushed);
    } else {
      assert n.toServer + [] == n.toServer && n.toClient[0..] == n.toClient;
    }
  }

  /** And so is what a server driver does. */
  lemma {:induction false} ServerDriverRuns(n: Net, ready: seq<bool>)
    ensures var a := ServerRuns(n.s, n.toServer, ready);
            Run(n, Turns(false, ready)) == Net(n.c, a.s, n.toServer[a.used..], n.toClient + a.flushed)
    decreases |ready|
  {
    hide ServerRun;
    if ready != [] {
      var k := |ready| - 1;
      var a := ServerRuns(n.s, n.toServer, ready[..k]);
      ServerDriverRuns(n, ready[..k]);
      TurnsSnoc(false, ready);
      RunCat(n, Turns(false, ready[..k]), [Turn(false, ready[k])]);
      var m := Run(n, Turns(false, ready[..k]));
      RunOne(m, Turn(false, ready[k]));
      ServerTakesArrived(a.s, n.toServer[a.used..], ready[k]);
      var b := ServerRun(a.s, n.toServer[a.used..], ready[k]);
      assert n.toServer[a.used..][b.used..] == n.toServer[a.used + b.used..];
      assert (n.toClient + a.flushed) + b.flushed == n.toClient + (a.flushed + b.flushed);
    } else {
      assert n.toClient + [] == n.toClient && n.toServer[0..] == n.toServer;
    }
  }

  /** A call of one end's driver, with the application's answers at each state. */
  datatype Call = ClientCall(clientReady: CState -> bool) | ServerCall(serverReady: SState -> bool)

  /** Client and server objects, driven by any sequence of calls: together they do a run, so neither
    * ever fails, unless both are done one can move on, and when both are done they have hashed the
    * same messages and nothing is left over. */
  method Converse(client: ClientMachine, server: ServerMachine, ghost g: Config, ghost unset: Params, calls: seq<Call>)
    returns (toServer: seq<Wire>, toClient: seq<Wire>, ghost turns: seq<Turn>)
    requires Agreed(g) && Net(client.Abs(), server.Abs(), [], []) == Start(g, unset)
    modifies client, server
    ensures Net(client.Abs(), server.Abs(), toServer, toClient) == Run(Start(g, unset), turns)
    ensures client.wait != Error && server.wait != Error
    ensures client.state.ClientDone? && server.state.ServerDone? ==>
              toServer == [] && toClient == [] && client.transcript == server.transcript == Course(g)
    ensures !(client.state.ClientDone? && server.state.ServerDone?) ==>
              || (!client.state.ClientDone? && !ClientWaits(client.Abs(), toClient))
              || (!server.state.ServerDone? && !ServerWaits(server.Abs(), toServer))
  {
    hide Run, Start, ClientRuns, ServerRuns, ClientWaits, ServerWaits, Course, Done;
    toServer, toClient, turns := [], [], [];
    ghost var start := Start(g, unset);
    RunNone(start);
    for i := 0 to |calls|
      invariant Net(client.Abs(), server.Abs(), toServer, toClient) == Run(start, turns)
    {
      ghost var n := Run(start, turns);
      var used, flushed;
      ghost var ready;
      match calls[i] {
        case ClientCall(answers) =>
          used, flushed, ready := client.RunHandshake(toClient, answers);
          ClientDriverRuns(n, ready);
          toClient, toServer := toClient[used..], toServer + flushed;
          RunCat(start, turns, Turns(true, ready));
          turns := turns + Turns(true, ready);
        case ServerCall(answers) =>
          used, flushed, ready := server.RunHandshake(toServer, answers);
          ServerDriverRuns(n, ready);
          toServer, toClient := toServer[used..], toClient + flushed;
          RunCat(start, turns, Turns(false, ready));
          turns := turns + Turns(false, ready);
      }
    }
    RunsDoNotFail(g, unset, turns);
    RunsAgree(g, unset, turns);
    WhenDone(Run(start, turns));
  }

  lemma RunNone(n: Net)
    ensures Run(n, []) == n
  {
  }

  lemma WhenDone(n: Net)
    ensures Done(n) <==> n.c.state.ClientDone? && n.s.state.ServerDone?
  {
  }

  // ---------------------------------------------------------------- calls in turn

  /** A driver that has come to rest with nothing left to read waits. */
  lemma Rests(g: Config, n: Net)
    requires Inv(g, n)
    ensures n.toClient == [] && (n.c.wait.ReadMessage? || n.c.wait.ReadCcs?) ==> ClientWaits(n.c, n.toClient)
    ensures n.toServer == [] && (n.s.wait.ReadMessage? || n.s.wait.ReadCcs?) ==> ServerWaits(n.s, n.toServer)
    ensures !n.c.wait.Error? && !n.s.wait.Error?
  {
    NotError(g, n.c);
    ServerNotError(g, n.s);
    ReadMessageAwaits(g, n.c);
  }

  lemma CallKeeps(g: Config, n: Net, byClient: bool, ready: seq<bool>)
    requires Inv(g, n)
    ensures var m := Run(n, Turns(byClient, ready));
            Inv(g, m) && Rank(g, m) <= Rank(g, n) && (Done(n) ==> Done(m))
  {
    hide Inv, Run, Rank, Done, Effectives;
    RunKeeps(g, n, Turns(byClient, ready));
    EffectivesBounded(g, n, Turns(byClient, ready));
    if Done(n) { DoneStays(g, n, Turns(byClient, ready)); }
  }

  lemma NoTurns(n: Net)
    ensures Run(n, Turns(false, [])) == n
  {
  }

  /** After the client has been called, calling the server brings the two closer, unless they are
    * done. */
  lemma ServerCallAdvances(g: Config, n: Net, ready: seq<bool>)
    requires Inv(g, n) && !Done(n) && (n.c.state.ClientDone? || ClientWaits(n.c, n.toClient))
    requires forall t :: t in ready ==> t
    requires var m := Run(n, Turns(false, ready)); m.s.state.ServerDone? || ServerWaits(m.s, m.toServer)
    ensures Rank(g, Run(n, Turns(false, ready))) < Rank(g, n)
  {
    hide Inv, Act, Rank, ClientWaits, ServerWaits;
    NoDeadlock(g, n);
    NoTurns(n);
    if ready != [] {
      assert ready[0] in ready;
      assert Effective(n, Turns(false, ready)[0]);
      EffectivesBounded(g, n, Turns(false, ready));
    }
  }

  /** A call of each driver by an application that answers. */
  method CallBoth(client: ClientMachine, server: ServerMachine, toServer: seq<Wire>, toClient: seq<Wire>, ghost g: Config)
    returns (toServer': seq<Wire>, toClient': seq<Wire>, ghost turns: seq<Turn>)
    requires Inv(g, Net(client.Abs(), server.Abs(), toServer, toClient))
    modifies client, server
    ensures var n := Net(old(client.Abs()), old(server.Abs()), toServer, toClient);
            var n' := Net(client.Abs(), server.Abs(), toServer', toClient');
            && n' == Run(n, turns) && Inv(g, n')
            && (Done(n') || Rank(g, n') < Rank(g, n))
  {
    hide Run, ClientRuns, ServerRuns, ClientWaits, ServerWaits, Inv, Rank;
    ghost var n := Net(client.Abs(), server.Abs(), toServer, toClient);
    var used, flushed;
    ghost var first, second;
    used, flushed, first := client.RunHandshake(toClient, (st: CState) => true);
    ClientDriverRuns(n, first);
    toClient', toServer' := toClient[used..], toServer + flushed;
    ghost var m := Net(client.Abs(), server.Abs(), toServer', toClient');
    CallKeeps(g, n, true, first);
    Rests(g, m);
    used, flushed, second := server.RunHandshake(toServer', (st: SState) => true);
    ServerDriverRuns(m, second);
    toServer', toClient' := toServer'[used..], toClient' + flushed;
    CallKeeps(g, m, false, second);
    Rests(g, Net(client.Abs(), server.Abs(), toServer', toClient'));
    if !Done(m) { ServerCallAdvances(g, m, second); }
    turns := Turns(true, first) + Turns(false, second);
    RunCat(n, Turns(true, first), Turns(false, second));
  }

  /** Two new objects, called in turn by an application that answers, complete the handshake. */
  method Complete(g: Config, unset: Params) returns (client: ClientMachine, server: ServerMachine)
    requires Agreed(g)
    ensures fresh(client) && fresh(server)
    ensures client.state.ClientDone? && server.state.ServerDone?
    ensures client.transcript == server.transcript == Course(g)
  {
    hide Run, Course, Inv, Rank;
    client := new ClientMachine(g.clientHasCert, unset);
    server := new ServerMachine(ServerConf(g.p, g.wantCert, g.requireCert, g.pskHint));
    var toServer, toClient: seq<Wire> := [], [];
    ghost var turns: seq<Turn> := [];
    ghost var start := Start(g, unset);
    RunNone(start);
    StartInv(g, unset);
    while !(client.state.ClientDone? && server.state.ServerDone?)
      invariant fresh(client) && fresh(server)
      invariant Net(client.Abs(), server.Abs(), toServer, toClient) == Run(start, turns)
      invariant Inv(g, Run(start, turns))
      decreases !(client.state.ClientDone? && server.state.ServerDone?), Rank(g, Run(start, turns))
    {
      ghost var more;
      toServer, toClient, more := CallBoth(client, server, toServer, toClient, g);
      RunCat(start, turns, more);
      turns := turns + more;
    }
    RunsAgree(g, unset, turns);
    WhenDone(Run(start, turns));
  }
}
