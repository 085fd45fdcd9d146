/**
 * Which schedules complete a handshake: every one with as many effective turns as the rank of the
 * state, and in particular the one in which both ends take turns.
 */
module HandshakeSchedules {
  import opened Handshake
  import opened HandshakeStages
  import opened HandshakeRun

  /** The turn is given to an end that can move, with an answer to its question if it has one. */
  predicate Effective(n: Net, t: Turn)
  {
    t.ready && if t.byClient then !n.c.state.ClientDone? && !ClientWaits(n.c, n.toClient)
               else !n.s.state.ServerDone? && !ServerWaits(n.s, n.toServer)
  }

  /** How many turns of the schedule are effective. */
  function Effectives(n: Net, turns: seq<Turn>): nat
    decreases |turns|
  {
    if turns == [] then 0
    else (if Effective(n, turns[0]) then 1 else 0) + Effectives(Act(n, turns[0]), turns[1..])
  }

  lemma TurnAdvances(g: Config, n: Net, t: Turn)
    requires Inv(g, n)
    ensures Rank(g, Act(n, t)) + (if Effective(n, t) then 1 else 0) <= Rank(g, n)
  {
    hide Inv, ClientRank, ServerRank, ClientWaits, ServerWaits, ClientRun, ServerRun;
    if t.byClient { ClientAdvances(g, n, t.ready); } else { ServerAdvances(g, n, t.ready); }
  }

  /** Every effective turn brings the end closer, and no turn puts it off. */
  lemma {:induction false} EffectivesBounded(g: Config, n: Net, turns: seq<Turn>)
    requires Inv(g, n)
    ensures Effectives(n, turns) + Rank(g, Run(n, turns)) <= Rank(g, n)
    decreases |turns|
  {
    hide Inv, Rank, Act, Effective;
    if turns != [] {
      TurnAdvances(g, n, turns[0]);
      ActKeeps(g, n, turns[0]);
      EffectivesBounded(g, Act(n, turns[0]), turns[1..]);
    }
  }

  /** A schedule with as many effective turns as the rank completes the handshake, whatever turns lie
    * between; and while it is not complete, some turn is effective. */
  lemma {:induction false} ScheduleCompletes(g: Config, unset: Params, turns: seq<Turn>)
    requires Agreed(g)
    ensures Effectives(Start(g, unset), turns) >= Rank(g, Start(g, unset)) ==> Done(Run(Start(g, unset), turns))
    ensures !Done(Run(Start(g, unset), turns)) ==> exists t :: Effective(Run(Start(g, unset), turns), t)
  {
    StartInv(g, unset);
    hide Inv, Run, Start, Effectives, ClientWaits, ServerWaits;
    var n := Run(Start(g, unset), turns);
    EffectivesBounded(g, Start(g, unset), turns);
    RunKeeps(g, Start(g, unset), turns);
    RankZero(g, n);
    if !Done(n) {
      NoDeadlock(g, n);
      assert Effective(n, Turn(true, true)) || Effective(n, Turn(false, true));
    }
  }

  lemma RankZero(g: Config, n: Net)
    ensures Rank(g, n) == 0 ==> Done(n)
  {
  }

  // ---------------------------------------------------------------- taking turns

  /** Both ends in turn, k times. */
  function Alternation(k: nat): seq<Turn>
  {
    if k == 0 then [] else [Turn(true, true), Turn(false, true)] + Alternation(k - 1)
  }

  /** An end that waits still waits after a turn that cannot help it. */
  lemma ClientStillWaits(g: Config, n: Net)
    requires Inv(g, n) && (n.c.state.ClientDone? || ClientWaits(n.c, n.toClient))
    ensures var m := Act(n, Turn(true, true)); m.c.state == n.c.state && (m.c.state.ClientDone? || ClientWaits(m.c, m.toClient))
  {
    hide Inv, ClientRun, AwaitsMessage;
    NotErrorYet(g, n);
    if n.c.state.ClientDone? {
      DoneStaysDone(n.c, n.toClient);
    } else {
      WaitingStaysWaiting(n.c);
    }
  }

  lemma DoneStaysDone(c: Client, inbox: seq<Wire>)
    requires c.state.ClientDone?
    ensures ClientRun(c, inbox, true).c.state.ClientDone?
  {
  }

  lemma WaitingStaysWaiting(c: Client)
    requires ClientWaits(c, []) && !c.wait.Error?
    ensures var a := ClientRun(c, [], true); a.used == 0 && a.c.state == c.state && ClientWaits(a.c, [])
  {
    hide ClientAdd, ClientAddCcs, ClientAddFinished, ClientTake, ClientGo;
  }

  lemma NotErrorYet(g: Config, n: Net)
    requires Inv(g, n)
    ensures !n.c.wait.Error? && (n.c.wait.ReadMessage? ==> AwaitsMessage(n.c)) && (n.c.state.ClientDone? ==> !n.c.wait.Flush?)
  {
    NotError(g, n.c);
    ReadMessageAwaits(g, n.c);
    DoneAtRest(g, n);
  }

  /** A round of turns brings the end closer until it is reached. */
  lemma RoundAdvances(g: Config, n: Net)
    requires Inv(g, n) && !Done(n)
    ensures Inv(g, Run(n, Alternation(1))) && Rank(g, Run(n, Alternation(1))) < Rank(g, n)
  {
    hide Inv, Rank, Act, ClientWaits, ServerWaits;
    var t, u := Turn(true, true), Turn(false, true);
    var m := Act(n, t);
    assert Alternation(1) == [t, u] && [t, u][1..] == [u] && [u][1..] == [];
    assert Run(n, [t, u]) == Run(m, [u]) == Run(Act(m, u), []) == Act(m, u);
    TurnAdvances(g, n, t);
    ActKeeps(g, n, t);
    TurnAdvances(g, m, u);
    ActKeeps(g, m, u);
    if !Effective(n, t) {
      ClientStillWaits(g, n);
      ServerUntouched(n);
      NoDeadlock(g, m);
    }
  }

  lemma ServerUntouched(n: Net)
    ensures Act(n, Turn(true, true)).s == n.s
    ensures n.c.state.ClientDone? && !n.c.wait.Flush? && !n.c.wait.ReadCcs? ==> Act(n, Turn(true, true)).c.state.ClientDone?
  {
  }

  /** If both ends take turns and the application always answers, the handshake completes. */
  lemma {:induction false} AlternationCompletes(g: Config, n: Net, k: nat)
    requires Inv(g, n) && k >= Rank(g, n)
    ensures Done(Run(n, Alternation(k)))
    decreases k
  {
    hide Inv, Rank, Act, Done;
    RankZero(g, n);
    if Done(n) {
      DoneStays(g, n, Alternation(k));
    } else {
      assert k > 0;
      RoundAdvances(g, n);
      var m := Run(n, Alternation(1));
      AlternationCompletes(g, m, k - 1);
      AlternationSplit(n, k);
    }
  }

  lemma AlternationSplit(n: Net, k: nat)
    requires k > 0
    ensures Run(n, Alternation(k)) == Run(Run(n, Alternation(1)), Alternation(k - 1))
  {
    hide Act;
    var t, u := Turn(true, true), Turn(false, true);
    var rest := Alternation(k - 1);
    assert ([t, u] + rest)[0] == t && ([t, u] + rest)[1..] == [u] + rest && ([u] + rest)[0] == u && ([u] + rest)[1..] == rest;
    assert Alternation(1) == [t, u] && [t, u][1..] == [u] && [u][1..] == [];
    assert Run(n, [t, u]) == Run(Act(n, t), [u]) == Run(Act(Act(n, t), u), []);
    assert Run(n, [t, u] + rest) == Run(Act(n, t), [u] + rest) == Run(Act(Act(n, t), u), rest);
  }

  /** What is done stays done. */
  lemma {:induction false} DoneStays(g: Config, n: Net, turns: seq<Turn>)
    requires Inv(g, n) && Done(n)
    ensures Done(Run(n, turns))
    decreases |turns|
  {
    hide Inv, Act;
    if turns != [] {
      DoneTurn(g, n, turns[0]);
      ActKeeps(g, n, turns[0]);
      DoneStays(g, Act(n, turns[0]), turns[1..]);
    }
  }

  lemma DoneTurn(g: Config, n: Net, t: Turn)
    requires Inv(g, n) && Done(n)
    ensures Done(Act(n, t))
  {
    hide Inv, Rank, Act;
    TurnAdvances(g, n, t);
    DoneRank(g, n, Act(n, t));
  }

  /** The rank tells done ends from others. */
  lemma DoneRank(g: Config, n: Net, m: Net)
    requires Inv(g, n) && Done(n) && Rank(g, m) <= Rank(g, n)
    ensures Done(m)
  {
    hide Inv;
    DoneAtRest(g, n);
  }

  lemma DoneAtRest(g: Config, n: Net)
    requires Inv(g, n)
    ensures n.c.state.ClientDone? ==> !n.c.wait.Flush? && !n.c.wait.ReadCcs?
    ensures n.s.state.ServerDone? ==> !n.s.wait.Flush? && !n.s.wait.ReadCcs?
  {
    hide Link, Items, MacsOk, ClientStage, ServerStage, Hashed, AsksCert, SendsKeyExchange, Agreed;
  }
}
