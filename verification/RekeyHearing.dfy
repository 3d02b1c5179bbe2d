/** Whether the client can open what the server sends: exactly which steps end and restore that. */
module RekeyHearing {
  import opened Common
  import opened RekeySpec
  import opened RekeySafety

  /** The client holds the epoch the server sends under, if it sends at all. */
  predicate Heard(w: World) { w.server.tx.None? || Filed(w.client, w.server.tx.value) }

  /** The client's attempt ends with this epoch. */
  predicate Adopts(w: World, s: Step, e: Epoch) {
    s.GetResp? && s.m == Resp(e) && w.current == Some(Attempt(e.attempt, e.clientId))
  }

  /** A packet under the pending epoch makes the server send under it. */
  predicate Promotes(w: World, s: Step) {
    s.ServerGets? && s.m.ToServer? && w.server.pending == Some(s.m.epoch) && Resolves(w, s.m.epoch)
  }

  /** The server starts to send under its first epoch before the client has it; or the client
      prunes the epoch the server still sends under, the grace period being over; or files another
      epoch under the same receiver id. */
  predicate Silences(w: World, s: Step) {
    if w.server.tx.None? then s.GetInit? && s.m.Init? && s.m.ts > w.lastTs
    else
      var x := w.server.tx.value;
      || (s.PruneClient? && x.clientId in w.client.epochs && Expired(w.client.epochs[x.clientId], s.now))
      || (s.GetResp? && s.m.Resp? && s.m.epoch != x && s.m.epoch.clientId == x.clientId && Adopts(w, s, s.m.epoch))
  }

  /** The client adopts that epoch, or the server moves on. */
  predicate Restores(w: World, s: Step) {
    (w.server.tx.Some? && Adopts(w, s, w.server.tx.value)) || Promotes(w, s)
  }

  // ----- What the client holds it has adopted -----

  ghost predicate HeldWereAdopted(w: World) {
    forall id <- w.client.epochs :: w.client.epochs[id].epoch in w.adopted && w.client.epochs[id].epoch.clientId == id
  }

  lemma HeldStays(w: World, s: Step)
    requires Inv(w) && Enabled(w, s) && HeldWereAdopted(w)
    ensures HeldWereAdopted(Next(w, s))
  {
    hide Stamped, NetSent, InAttemptOrder, CurrentIsNewest, LiveOrOutdated, IndexOk, TxOk, Offer, Confirm;
  }

  /** The epoch the server moves to is the one the client sends under. */
  lemma PromotedIsClients(w: World, s: Step)
    requires Inv(w) && Enabled(w, s) && Promotes(w, s)
    ensures w.client.tx == Some(s.m.epoch) && Filed(w.client, s.m.epoch)
  {
    hide Stamped, NetSent, CurrentIsNewest, LiveOrOutdated, IndexOk, TxOk;
    var e := s.m.epoch;
    ConfirmedIsAdopted(w, s.m);
    var last := |w.accepted| - 1;
    var c := w.adopted[|w.adopted| - 1];
    assert c in w.adopted;
    var j :| 0 <= j < |w.accepted| && w.accepted[j] == c;
    var k :| 0 <= k < |w.adopted| && w.adopted[k] == e;
    assert w.accepted[last] == e && e in w.adopted;
  }

  // ----- The steps -----

  /** Steps of the server: only its first accepted handshake and a promotion change what it
      sends under. */
  lemma ServerSide(w: World, s: Step)
    requires Inv(w) && Enabled(w, s)
    ensures Promotes(w, s) ==> Next(w, s).server.tx == Some(s.m.epoch) && Next(w, s).client == w.client
    ensures !Promotes(w, s) && !(w.server.tx.None? && Silences(w, s)) ==> Next(w, s).server.tx == w.server.tx
    ensures w.server.tx.None? && Silences(w, s) ==> Next(w, s).client == w.client && Next(w, s).server.tx.Some?
  {
    hide Stamped, NetSent, InAttemptOrder, CurrentIsNewest, LiveOrOutdated, IndexOk, ClientOk;
  }

  /** Steps of the client: what becomes of one epoch it holds or does not hold. */
  lemma ClientSide(w: World, s: Step, x: Epoch)
    requires Inv(w) && Enabled(w, s) && HeldWereAdopted(w) && w.server.tx == Some(x)
    ensures Filed(Next(w, s).client, x) <==> Adopts(w, s, x) || (Filed(w.client, x) && !Silences(w, s))
    ensures Adopts(w, s, x) ==> !Silences(w, s)
  {
    hide Stamped, NetSent, InAttemptOrder, CurrentIsNewest, LiveOrOutdated, IndexOk, TxOk, Offer, Confirm;
  }

  lemma NothingHeldAtFirst(w: World, x: Epoch)
    requires Inv(w) && HeldWereAdopted(w) && w.server.tx.None?
    ensures !Filed(w.client, x) && w.server.pending.None?
  {
    hide Stamped, NetSent, CurrentIsNewest, LiveOrOutdated, IndexOk;
  }

  /** One step: what was heard stays heard unless the step silences it, and what was not becomes
      heard exactly by a step that restores it. */
  lemma HeardIff(w: World, s: Step)
    requires Inv(w) && Enabled(w, s) && HeldWereAdopted(w)
    ensures Heard(Next(w, s)) <==> if Heard(w) then !Silences(w, s) || Promotes(w, s) else Restores(w, s)
  {
    hide Inv, Enabled, Next, Silences, Promotes, Adopts, HeldWereAdopted, Filed;
    ServerSide(w, s);
    if Promotes(w, s) {
      PromotedIsClients(w, s);
    } else if w.server.tx.Some? {
      ClientSide(w, s, w.server.tx.value);
    } else if Silences(w, s) {
      NothingHeldAtFirst(w, Next(w, s).server.tx.value);
    }
  }

  // ----- Runs -----

  /** Whether the server is out of the client's hearing after the run, told from the steps alone. */
  ghost predicate SilentAlong(w: World, ss: seq<Step>, silent: bool)
    requires Possible(w, ss)
    decreases ss
  {
    if ss == [] then silent
    else SilentAlong(Next(w, ss[0]), ss[1..], if silent then !Restores(w, ss[0]) else Silences(w, ss[0]))
  }

  /** A promotion is no silencing step. */
  lemma PromotionIsNoSilence(w: World, s: Step)
    requires Inv(w) && Promotes(w, s)
    ensures !Silences(w, s)
  {
    hide Stamped, NetSent, InAttemptOrder, CurrentIsNewest, LiveOrOutdated, IndexOk, ClientOk;
  }

  lemma {:induction false} RunHeard(w: World, ss: seq<Step>)
    requires Inv(w) && HeldWereAdopted(w) && Possible(w, ss)
    ensures Inv(After(w, ss)) && HeldWereAdopted(After(w, ss))
    ensures Heard(After(w, ss)) <==> !SilentAlong(w, ss, !Heard(w))
    decreases ss
  {
    if ss != [] {
      hide Inv, Enabled, Next, Silences, Promotes, Restores, HeldWereAdopted, Heard;
      StepKeeps(w, ss[0]);
      HeldStays(w, ss[0]);
      HeardIff(w, ss[0]);
      if Promotes(w, ss[0]) {
        PromotionIsNoSilence(w, ss[0]);
      }
      RunHeard(Next(w, ss[0]), ss[1..]);
    }
  }

  /** After every run the client can open what the server sends, exactly unless a silencing step
      was not followed by a restoring one; and always while both send under the same epoch. */
  lemma HeardAfterRun(ss: seq<Step>)
    requires Possible(Start(), ss)
    ensures var w := After(Start(), ss);
            && (Heard(w) <==> !SilentAlong(Start(), ss, false))
            && (w.server.tx.Some? && w.client.tx == w.server.tx ==> Heard(w))
  {
    hide *;
    StartIsOk();
    HeardAtStart();
    RunHeard(Start(), ss);
    SameIsHeard(After(Start(), ss));
  }

  lemma HeardAtStart()
    ensures HeldWereAdopted(Start()) && Heard(Start())
  {
  }

  lemma SameIsHeard(w: World)
    requires Inv(w)
    ensures w.server.tx.Some? && w.client.tx == w.server.tx ==> Heard(w)
  {
    hide Stamped, NetSent, InAttemptOrder, CurrentIsNewest, LiveOrOutdated, IndexOk, TxOk;
  }

  // ----- Runs that end in silence -----

  /** The server answers its first handshake and the response is lost. */
  lemma FirstIsUnheard()
    ensures exists ss: seq<Step> :: Possible(Start(), ss) && !Heard(After(Start(), ss)) && |ss| == 2
  {
    var m0 := Init(0, 1, 10);
    var w0 := Next(Start(), Begin(1, 10));
    var s1: seq<Step> := [];
    var s0 := [GetInit(m0, 100, 0)] + s1;
    Extend(w0, GetInit(m0, 100, 0), s1);
    Extend(Start(), Begin(1, 10), s0);
    assert !Heard(After(Start(), [Begin(1, 10)] + s0));
  }

  /** The client adopts a second epoch, nothing it sends under that arrives, and after the grace
      period it prunes the first one, under which the server still sends. */
  lemma PrunedIsUnheard()
    ensures exists ss: seq<Step> ::
              && Possible(Start(), ss)
              && var w := After(Start(), ss); !Heard(w) && w.server.tx.Some? && w.server.tx.value in w.adopted
  {
    var w := ClientMovedOn();
    var prune := PruneClient(100);
    assert Next(w, prune).client.epochs == map[2 := Entry(Epoch(1, 2, 101), None)];
    assert Epoch(0, 1, 100) in Next(w, prune).adopted;
    Extend(w, prune, []);
    hide Next;
    SecondHandshake([prune] + []);
  }

  /** The world after two complete handshakes with nothing sent under the second. */
  function ClientMovedOn(): World {
    var e0, e1 := Epoch(0, 1, 100), Epoch(1, 2, 101);
    World(Keys(Client, Some(e1), None, map[1 := Entry(e0, Some(0)), 2 := Entry(e1, None)]), None,
          Keys(Server, Some(e0), Some(e1), map[100 := Entry(e0, None), 101 := Entry(e1, None)]), 20,
          map[100 := Some(e0), 101 := Some(e1)], {}, {Init(0, 1, 10), Resp(e0), Init(1, 2, 20), Resp(e1)},
          [10, 20], [1, 2], [e0, e1], [e0, e1])
  }

  lemma SecondHandshake(rest: seq<Step>)
    requires Possible(ClientMovedOn(), rest)
    ensures exists ss: seq<Step> :: Possible(Start(), ss) && After(Start(), ss) == After(ClientMovedOn(), rest)
  {
    var t1, t2, t3 := Begin(2, 20), GetInit(Init(1, 2, 20), 101, 0), GetResp(Resp(Epoch(1, 2, 101)), 0);
    var w2 := BothHold(1, 10, 100);
    var w3 := Next(w2, t1);
    var w4 := Next(w3, t2);
    assert Next(w4, t3) == ClientMovedOn();
    var s4 := [t3] + rest;
    var s3 := [t2] + s4;
    Extend(w4, t3, rest);
    Extend(w3, t2, s4);
    Extend(w2, t1, s3);
    hide Next;
    FirstHandshake(1, 10, 100, [t1] + s3);
  }

  /** The world after one complete handshake. */
  function BothHold(rxId: nat, ts: nat, serverId: nat): World {
    var e := Epoch(0, rxId, serverId);
    World(Keys(Client, Some(e), None, map[rxId := Entry(e, None)]), None,
          Keys(Server, Some(e), None, map[serverId := Entry(e, None)]), ts, map[serverId := Some(e)], {},
          {Init(0, rxId, ts), Resp(e)}, [ts], [rxId], [e], [e])
  }

  lemma FirstHandshake(rxId: nat, ts: nat, serverId: nat, rest: seq<Step>)
    requires ts > 0 && Possible(BothHold(rxId, ts, serverId), rest)
    ensures exists ss: seq<Step> ::
              Possible(Start(), ss) && After(Start(), ss) == After(BothHold(rxId, ts, serverId), rest)
  {
    var e := Epoch(0, rxId, serverId);
    var t0, t1, t2 := Begin(rxId, ts), GetInit(Init(0, rxId, ts), serverId, 0), GetResp(Resp(e), 0);
    var w0 := Next(Start(), t0);
    var w1 := Next(w0, t1);
    var w2 := Next(w1, t2);
    assert w2 == BothHold(rxId, ts, serverId);
    var s1 := [t2] + rest;
    var s0 := [t1] + s1;
    Extend(w1, t2, rest);
    Extend(w0, t1, s1);
    Extend(Start(), t0, s0);
    assert Possible(Start(), [t0] + s0);
  }
}
