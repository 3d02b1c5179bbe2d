/** Rekeying gets somewhere: an attempt whose response arrives is adopted, the server follows, and a
    superseded epoch stays readable for 90 seconds. */
module RekeyProgress {
  import opened Common
  import opened RekeySpec
  import opened RekeySafety

  // ----- An attempt that is answered -----

  /** The step neither begins nor ends an attempt under this id. */
  predicate LeavesAttempt(s: Step, rxId: nat) {
    !s.Begin? && !s.GiveUp? && !(s.GetResp? && s.m.Resp? && s.m.epoch.clientId == rxId)
  }

  lemma StepLeaves(w: World, s: Step, a: Attempt)
    requires Enabled(w, s) && w.current == Some(a) && LeavesAttempt(s, a.rxId)
    ensures var v := Next(w, s);
            v.current == Some(a) && v.adopted == w.adopted && v.client.tx == w.client.tx && w.net <= v.net
  {
  }

  /** Whatever else happens, stale responses under other ids included, the attempt goes on. */
  lemma {:induction false} AttemptGoesOn(w: World, ss: seq<Step>, a: Attempt)
    requires Possible(w, ss) && w.current == Some(a) && forall s <- ss :: LeavesAttempt(s, a.rxId)
    ensures var v := After(w, ss);
            v.current == Some(a) && v.adopted == w.adopted && v.client.tx == w.client.tx && w.net <= v.net
    decreases ss
  {
    hide Next, Enabled, LeavesAttempt;
    if ss != [] {
      assert ss[0] in ss;
      StepLeaves(w, ss[0], a);
      assert forall s <- ss[1..] :: s in ss;
      AttemptGoesOn(Next(w, ss[0]), ss[1..], a);
    }
  }

  /** An attempt under way whose own response arrives, after any number of other steps, ends with that
      epoch: the client sends under it, holds it and has adopted it last. */
  lemma AttemptCompletes(w: World, rxId: nat, ts: nat, ss: seq<Step>, e: Epoch, now: int)
    requires Possible(Next(w, Begin(rxId, ts)), ss) && forall s <- ss :: LeavesAttempt(s, rxId)
    requires e.attempt == |w.stamps| && e.clientId == rxId
    requires Resp(e) in After(Next(w, Begin(rxId, ts)), ss).net && w.client.role == Client
    ensures var v := After(Next(w, Begin(rxId, ts)), ss); var s := GetResp(Resp(e), now);
            && Enabled(v, s)
            && var u := Next(v, s);
               u.client.tx == Some(e) && u.adopted == w.adopted + [e] && u.current == None && Filed(u.client, e)
  {
    var w0 := Next(w, Begin(rxId, ts));
    AttemptGoesOn(w0, ss, Attempt(|w.stamps|, rxId));
    RoleStays(w0, ss);
  }

  lemma {:induction false} RoleStays(w: World, ss: seq<Step>)
    requires Possible(w, ss)
    ensures After(w, ss).client.role == w.client.role
    decreases ss
  {
    if ss != [] {
      RoleStep(w, ss[0]);
      RoleStays(Next(w, ss[0]), ss[1..]);
    }
  }

  lemma RoleStep(w: World, s: Step)
    requires Enabled(w, s)
    ensures Next(w, s).client.role == w.client.role
  {
  }

  /** A response that does not belong to the attempt under way but bears its id ends it without an
      epoch; one under another id changes nothing. */
  lemma OtherResponses(w: World, e: Epoch, now: int)
    requires Resp(e) in w.net
    ensures var v := Next(w, GetResp(Resp(e), now));
            && (w.current.None? || w.current.value.rxId != e.clientId ==> v == w)
            && (w.current.Some? && w.current.value.rxId == e.clientId && w.current.value.no != e.attempt ==>
                  v == w.(current := None))
  {
  }

  /** A whole rekey: from any state that runs reach, a new timestamp, an unused id at the server and
      four messages that arrive make both sides send under the new epoch. */
  lemma RekeySucceeds(w: World, rxId: nat, ts: nat, serverId: nat, now: int)
    requires Inv(w) && ts > w.lastTs && serverId !in w.byRxID
    ensures var e := Epoch(|w.stamps|, rxId, serverId);
            var w1 := Next(w, Begin(rxId, ts));
            var s2 := GetInit(Init(|w.stamps|, rxId, ts), serverId, now);
            && Enabled(w1, s2)
            && var w2 := Next(w1, s2); var s3 := GetResp(Resp(e), now);
            && Enabled(w2, s3)
            && var w3 := Next(w2, s3);
            && w3.client.tx == Some(e) && Enabled(w3, ClientSends)
            && var w4 := Next(w3, ClientSends); var s5 := ServerGets(ToServer(e), now);
            && Enabled(w4, s5)
            && var w5 := Next(w4, s5);
               w5.client.tx == Some(e) == w5.server.tx && w5.server.pending == None
  {
    hide Stamped, NetSent, InAttemptOrder, CurrentIsNewest, LiveOrOutdated, IndexOk;
  }

  // ----- The grace period -----

  /** No pruning on this side after the given time. */
  predicate PrunesBy(s: Step, server: bool, t: int) {
    (server && s.PruneServer? ==> s.now <= t) && (!server && s.PruneClient? ==> s.now <= t)
  }

  /** The moment the server moves on, the epoch it sent under is superseded. */
  lemma ServerSupersedes(w: World, m: Message, now: int)
    requires Inv(w) && m in w.net && m.ToServer? && w.server.pending == Some(m.epoch) && w.server.tx.Some?
    ensures var x := w.server.tx.value; var k := Receive(w, m, now).server;
            k.tx == Some(m.epoch) && x.serverId in k.epochs && k.epochs[x.serverId] == Entry(x, Some(now))
  {
    PendingIsFiled(w, m.epoch);
    hide Stamped, NetSent, InAttemptOrder, CurrentIsNewest, LiveOrOutdated, ClientOk;
  }

  lemma ServerStepKeeps(w: World, s: Step, e: Epoch, t: int)
    requires Inv(w) && Enabled(w, s) && PrunesBy(s, true, t + 90)
    requires e.serverId in w.server.epochs && w.server.epochs[e.serverId] == Entry(e, Some(t))
    ensures var k := Next(w, s).server;
            e.serverId in k.epochs && k.epochs[e.serverId] == Entry(e, Some(t)) && Resolves(Next(w, s), e)
  {
    hide Stamped, NetSent, InAttemptOrder, CurrentIsNewest, LiveOrOutdated, ClientOk, BeginAttempt;
    match s
    case Begin(_, _) => BeginIsQuiet(w, s);
    case ServerGets(m, _) =>
      if w.server.pending == Some(m.epoch) {
        PendingIsFiled(w, m.epoch);
      }
    case _ =>
  }

  /** At the server an epoch superseded at time `t` opens what arrives over every run that prunes no
      later than 90 seconds after; a pruning after that takes it away. */
  lemma {:induction false} ServerGrace(w: World, ss: seq<Step>, e: Epoch, t: int)
    requires Inv(w) && Possible(w, ss) && forall s <- ss :: PrunesBy(s, true, t + 90)
    requires e.serverId in w.server.epochs && w.server.epochs[e.serverId] == Entry(e, Some(t)) && Resolves(w, e)
    ensures var v := After(w, ss);
            && Inv(v) && Resolves(v, e)
            && e.serverId in v.server.epochs && v.server.epochs[e.serverId] == Entry(e, Some(t))
            && forall now | now > t + 90 :: e.serverId !in Prune(v.server, now).epochs
    decreases ss
  {
    if ss != [] {
      hide Inv, Next, Enabled, PrunesBy, Resolves, Prune;
      assert ss[0] in ss;
      ServerStepKeeps(w, ss[0], e, t);
      StepKeeps(w, ss[0]);
      assert forall s <- ss[1..] :: s in ss;
      ServerGrace(Next(w, ss[0]), ss[1..], e, t);
    }
  }

  /** The client adopts no other epoch under this id. */
  predicate KeepsId(s: Step, e: Epoch) { s.GetResp? && s.m.Resp? ==> s.m.epoch.clientId != e.clientId }

  lemma ClientStepKeeps(w: World, s: Step, e: Epoch, t: int)
    requires Inv(w) && Enabled(w, s) && PrunesBy(s, false, t + 90) && KeepsId(s, e)
    requires e.clientId in w.client.epochs && w.client.epochs[e.clientId] == Entry(e, Some(t))
    ensures var k := Next(w, s).client;
            e.clientId in k.epochs && k.epochs[e.clientId] == Entry(e, Some(t))
  {
    hide Stamped, NetSent, InAttemptOrder, CurrentIsNewest, LiveOrOutdated, IndexOk, TxOk, Offer, Confirm;
  }

  /** The same at the client, while it adopts no other epoch under that id. */
  lemma {:induction false} ClientGrace(w: World, ss: seq<Step>, e: Epoch, t: int)
    requires Inv(w) && Possible(w, ss) && forall s <- ss :: PrunesBy(s, false, t + 90) && KeepsId(s, e)
    requires e.clientId in w.client.epochs && w.client.epochs[e.clientId] == Entry(e, Some(t))
    ensures var v := After(w, ss);
            && Inv(v) && Filed(v.client, e)
            && e.clientId in v.client.epochs && v.client.epochs[e.clientId] == Entry(e, Some(t))
            && forall now | now > t + 90 :: e.clientId !in Prune(v.client, now).epochs
    decreases ss
  {
    if ss == [] {
      ClientRole(w);
    } else {
      hide Inv, Next, Enabled, PrunesBy, KeepsId, Prune, Filed;
      assert ss[0] in ss;
      ClientStepKeeps(w, ss[0], e, t);
      StepKeeps(w, ss[0]);
      assert forall s <- ss[1..] :: s in ss;
      ClientGrace(Next(w, ss[0]), ss[1..], e, t);
    }
  }

  lemma ClientRole(w: World)
    requires Inv(w)
    ensures w.client.role == Client
  {
    hide Stamped, NetSent, InAttemptOrder, CurrentIsNewest, LiveOrOutdated, IndexOk, TxOk;
  }

  // ----- Timestamps -----

  lemma {:induction false} TimestampsGrow(w: World, ss: seq<Step>)
    requires Possible(w, ss)
    ensures w.lastTs <= After(w, ss).lastTs
    decreases ss
  {
    if ss != [] {
      StepGrows(w, ss[0]);
      TimestampsGrow(Next(w, ss[0]), ss[1..]);
    }
  }

  lemma StepGrows(w: World, s: Step)
    requires Enabled(w, s)
    ensures w.lastTs <= Next(w, s).lastTs
  {
  }

  /** A handshake once looked at, answered or not, is not accepted in any later state. */
  lemma NotAcceptedLater(w: World, s: Step, ss: seq<Step>, serverId: nat, now: int)
    requires Enabled(w, s) && (s.Refuse? || s.GetInit?) && Possible(Next(w, s), ss)
    ensures var v := After(Next(w, s), ss); AcceptInit(v, s.m, serverId, now) == v
  {
    TimestampsGrow(Next(w, s), ss);
  }

  // ----- The index follows the session -----

  /** Every id the index gives to this session is of an epoch the session files, or is about to be
      removed. */
  ghost predicate IndexTight(w: World) {
    forall id <- w.byRxID :: w.byRxID[id].Some? ==>
      id in w.unindexing || (id in w.server.epochs && w.server.epochs[id].epoch == w.byRxID[id].value)
  }

  lemma TightStays(w: World, s: Step)
    requires Inv(w) && Enabled(w, s) && IndexTight(w)
    ensures IndexTight(Next(w, s))
  {
    hide Stamped, NetSent, InAttemptOrder, CurrentIsNewest, LiveOrOutdated, ClientOk, BeginAttempt;
    match s
    case Begin(_, _) => BeginLeavesIndex(w, s);
    case ServerGets(m, _) =>
      if w.server.pending == Some(m.epoch) {
        PendingIsFiled(w, m.epoch);
      }
    case _ =>
  }

  lemma BeginLeavesIndex(w: World, s: Step)
    requires s.Begin?
    ensures Next(w, s).server == w.server && Next(w, s).byRxID == w.byRxID && Next(w, s).unindexing == w.unindexing
  {
  }

  lemma {:induction false} RunTight(w: World, ss: seq<Step>)
    requires Inv(w) && Possible(w, ss) && IndexTight(w)
    ensures Inv(After(w, ss)) && IndexTight(After(w, ss))
    decreases ss
  {
    if ss != [] {
      hide Inv, Next, Enabled, IndexTight;
      StepKeeps(w, ss[0]);
      TightStays(w, ss[0]);
      RunTight(Next(w, ss[0]), ss[1..]);
    }
  }

  /** After every run, once the ids pruned so far have been removed from it, the index resolves exactly
      the epochs the session files. */
  lemma IndexIsSession(ss: seq<Step>, e: Epoch)
    requires Possible(Start(), ss)
    ensures var v := Next(After(Start(), ss), Unindex); Resolves(v, e) <==> Filed(v.server, e)
  {
    hide Inv, IndexTight, Resolves, Filed, After, Possible, Start;
    StartIsOk();
    StartIsTight();
    RunTight(Start(), ss);
    UnindexIs(After(Start(), ss), e);
  }

  lemma StartIsTight()
    ensures IndexTight(Start())
  {
  }

  lemma UnindexIs(w: World, e: Epoch)
    requires Inv(w) && IndexTight(w)
    ensures var v := Next(w, Unindex); Resolves(v, e) <==> Filed(v.server, e)
  {
    hide Stamped, NetSent, InAttemptOrder, CurrentIsNewest, LiveOrOutdated, ClientOk;
  }
}
