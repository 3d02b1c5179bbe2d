/** Safety of rekeying over every interleaving. */
module RekeySafety {
  import opened Common
  import opened RekeySpec

  type Index = map<nat, Option<Epoch>>

  // ----- The invariant -----

  /** Handshakes are accepted in strictly increasing timestamp order. */
  ghost predicate Stamped(stamps: seq<nat>, ids: seq<nat>, accepted: seq<Epoch>, lastTs: nat) {
    && |ids| == |stamps|
    && (forall e <- accepted :: e.attempt < |stamps| && stamps[e.attempt] <= lastTs)
    && (forall i, j | 0 <= i < j < |accepted| && accepted[i].attempt < |stamps| && accepted[j].attempt < |stamps| ::
          stamps[accepted[i].attempt] < stamps[accepted[j].attempt])
  }

  predicate Sent(stamps: seq<nat>, ids: seq<nat>, accepted: seq<Epoch>, adopted: seq<Epoch>, m: Message) {
    match m
    case Init(no, clientId, ts) => no < |stamps| && ts == stamps[no] && no < |ids| && clientId == ids[no]
    case Resp(e) => e in accepted
    case ToServer(e) => e in adopted
    case ToClient(e) => e in accepted
  }

  ghost predicate NetSent(net: set<Message>, stamps: seq<nat>, ids: seq<nat>,
                          accepted: seq<Epoch>, adopted: seq<Epoch>) {
    forall m <- net :: Sent(stamps, ids, accepted, adopted, m)
  }

  /** The client adopts in attempt order, and an attempt begun after an adoption is accepted
      after the adopted one. */
  ghost predicate InAttemptOrder(accepted: seq<Epoch>, adopted: seq<Epoch>) {
    && (forall e <- adopted :: e in accepted)
    && (forall i, j | 0 <= i < j < |adopted| :: adopted[i].attempt < adopted[j].attempt)
    && (forall i, j | 0 <= i < |accepted| && 0 <= j < |accepted|
                      && accepted[i] in adopted && accepted[j].attempt > accepted[i].attempt :: i < j)
  }

  /** The attempt under way is the newest and not yet adopted. */
  ghost predicate CurrentIsNewest(current: Option<Attempt>, attempts: nat, adopted: seq<Epoch>) {
    current.Some? ==> current.value.no == attempts - 1 && forall e <- adopted :: e.attempt < attempts - 1
  }

  /** A later accepted epoch has been adopted by the client. */
  ghost predicate Outdated(accepted: seq<Epoch>, adopted: seq<Epoch>, i: nat) {
    exists j :: i < j < |accepted| && accepted[j] in adopted
  }

  /** The server still resolves the epoch and has not marked it superseded. */
  predicate Live(server: Keys, byRxID: Index, e: Epoch) {
    && e.serverId in byRxID && byRxID[e.serverId] == Some(e)
    && e.serverId in server.epochs && server.epochs[e.serverId] == Entry(e, None)
  }

  ghost predicate TxOk(server: Keys, byRxID: Index, accepted: seq<Epoch>, adopted: seq<Epoch>) {
    && server.role == Server
    && (server.tx.None? <==> accepted == [])
    && (server.tx.Some? ==>
          && server.tx.value in accepted && Live(server, byRxID, server.tx.value)
          && (server.tx.value == accepted[0] || server.tx.value in adopted))
    && (server.pending.Some? ==>
          && accepted != [] && server.pending.value == accepted[|accepted| - 1] && server.pending != server.tx)
  }

  ghost predicate IndexOk(server: Keys, byRxID: Index, unindexing: set<nat>) {
    && (forall id <- server.epochs ::
          server.epochs[id].epoch.serverId == id && id in byRxID && byRxID[id] == Some(server.epochs[id].epoch))
    && unindexing !! server.epochs.Keys
    && (forall id <- unindexing :: id in byRxID && byRxID[id].Some?)
  }

  ghost predicate LiveOrOutdated(server: Keys, byRxID: Index, accepted: seq<Epoch>, adopted: seq<Epoch>) {
    forall i | 0 <= i < |accepted| :: Live(server, byRxID, accepted[i]) || Outdated(accepted, adopted, i)
  }

  ghost predicate ClientOk(client: Keys, adopted: seq<Epoch>) {
    && client.role == Client
    && (if adopted == [] then client.tx.None?
        else
          var c := adopted[|adopted| - 1];
          && client.tx == Some(c)
          && c.clientId in client.epochs && client.epochs[c.clientId] == Entry(c, None))
  }

  ghost predicate Inv(w: World) {
    && Stamped(w.stamps, w.ids, w.accepted, w.lastTs)
    && NetSent(w.net, w.stamps, w.ids, w.accepted, w.adopted)
    && InAttemptOrder(w.accepted, w.adopted)
    && CurrentIsNewest(w.current, |w.stamps|, w.adopted)
    && TxOk(w.server, w.byRxID, w.accepted, w.adopted)
    && IndexOk(w.server, w.byRxID, w.unindexing)
    && LiveOrOutdated(w.server, w.byRxID, w.accepted, w.adopted)
    && ClientOk(w.client, w.adopted)
  }

  // ----- The steps -----

  lemma BeginKeeps(w: World, rxId: nat, ts: nat)
    requires Inv(w)
    ensures Inv(BeginAttempt(w, rxId, ts))
  {
    hide InAttemptOrder, TxOk, IndexOk, LiveOrOutdated, ClientOk;
    var v := BeginAttempt(w, rxId, ts);
    AdoptedAreAccepted(w);
    forall m <- v.net ensures Sent(v.stamps, v.ids, v.accepted, v.adopted, m) {
      assert m in w.net ==> Sent(w.stamps, w.ids, w.accepted, w.adopted, m);
    }
  }

  lemma AdoptedAreAccepted(w: World)
    requires Inv(w)
    ensures forall e <- w.adopted :: e in w.accepted && e.attempt < |w.stamps|
  {
    hide TxOk, IndexOk, LiveOrOutdated, ClientOk, NetSent;
  }

  /** A handshake accepted now was never accepted before. */
  lemma AcceptedOnce(w: World, m: Message)
    requires Inv(w) && m in w.net && m.Init? && m.ts > w.lastTs
    ensures m.no < |w.stamps| && w.stamps[m.no] == m.ts
    ensures forall e <- w.accepted :: e.attempt != m.no
  {
    hide InAttemptOrder, CurrentIsNewest, TxOk, IndexOk, LiveOrOutdated, ClientOk;
    assert Sent(w.stamps, w.ids, w.accepted, w.adopted, m);
  }

  lemma AcceptHistory(w: World, m: Message, e: Epoch)
    requires Inv(w) && m in w.net && m.Init? && m.ts > w.lastTs && e.attempt == m.no
    ensures Stamped(w.stamps, w.ids, w.accepted + [e], m.ts)
    ensures InAttemptOrder(w.accepted + [e], w.adopted)
    ensures NetSent(w.net + {Resp(e)}, w.stamps, w.ids, w.accepted + [e], w.adopted)
  {
    hide CurrentIsNewest, TxOk, IndexOk, LiveOrOutdated, ClientOk;
    AcceptedOnce(w, m);
    var accepted := w.accepted + [e];
    assert accepted[|w.accepted|] == e && forall i | 0 <= i < |w.accepted| :: accepted[i] == w.accepted[i];
    assert e !in w.adopted;
    forall x <- w.net + {Resp(e)} ensures Sent(w.stamps, w.ids, accepted, w.adopted, x) {
      assert x in w.net ==> Sent(w.stamps, w.ids, w.accepted, w.adopted, x);
    }
  }

  lemma OfferKeeps(w: World, e: Epoch, now: int)
    requires TxOk(w.server, w.byRxID, w.accepted, w.adopted) && IndexOk(w.server, w.byRxID, w.unindexing)
    requires e.serverId !in w.byRxID && e !in w.accepted
    ensures var k := Offer(w.server, e, now); var idx := w.byRxID[e.serverId := Some(e)];
            && TxOk(k, idx, w.accepted + [e], w.adopted)
            && IndexOk(k, idx, w.unindexing)
            && Live(k, idx, e)
            && forall x :: Live(w.server, w.byRxID, x) ==> Live(k, idx, x)
  {
    var accepted := w.accepted + [e];
    assert accepted[|w.accepted|] == e && (w.accepted != [] ==> accepted[0] == w.accepted[0]);
  }

  lemma OutdatedStays(accepted: seq<Epoch>, adopted: seq<Epoch>, accepted': seq<Epoch>, adopted': seq<Epoch>, i: nat)
    requires accepted <= accepted' && adopted <= adopted' && Outdated(accepted, adopted, i)
    ensures Outdated(accepted', adopted', i)
  {
    var j :| i < j < |accepted| && accepted[j] in adopted;
    assert accepted'[j] in adopted';
  }

  /** What was live or outdated stays so when live epochs stay live. */
  lemma LiveOrOutdatedStays(w: World, v: World)
    requires LiveOrOutdated(w.server, w.byRxID, w.accepted, w.adopted)
    requires w.accepted <= v.accepted && w.adopted <= v.adopted
    requires forall i | 0 <= i < |w.accepted| ::
               Live(w.server, w.byRxID, w.accepted[i]) ==>
                 Live(v.server, v.byRxID, w.accepted[i]) || Outdated(v.accepted, v.adopted, i)
    requires forall i | |w.accepted| <= i < |v.accepted| :: Live(v.server, v.byRxID, v.accepted[i])
    ensures LiveOrOutdated(v.server, v.byRxID, v.accepted, v.adopted)
  {
    hide Live;
    forall i | 0 <= i < |v.accepted|
      ensures Live(v.server, v.byRxID, v.accepted[i]) || Outdated(v.accepted, v.adopted, i)
    {
      if i < |w.accepted| && Outdated(w.accepted, w.adopted, i) {
        OutdatedStays(w.accepted, w.adopted, v.accepted, v.adopted, i);
      }
    }
  }

  lemma AcceptKeeps(w: World, m: Message, serverId: nat, now: int)
    requires Inv(w) && m in w.net && m.Init? && serverId !in w.byRxID
    ensures Inv(AcceptInit(w, m, serverId, now))
  {
    if m.ts > w.lastTs {
      hide Stamped, NetSent, InAttemptOrder, CurrentIsNewest, TxOk, IndexOk, LiveOrOutdated, ClientOk, Offer,
        Live, Outdated;
      var v := AcceptInit(w, m, serverId, now);
      var e := Epoch(m.no, m.clientId, serverId);
      AcceptedOnce(w, m);
      AcceptHistory(w, m, e);
      OfferKeeps(w, e, now);
      LiveOrOutdatedStays(w, v);
    }
  }

  lemma FinishHistory(w: World, m: Message)
    requires Inv(w) && m in w.net && m.Resp? && w.current.Some? && m.epoch.attempt == w.current.value.no
    ensures InAttemptOrder(w.accepted, w.adopted + [m.epoch])
    ensures NetSent(w.net, w.stamps, w.ids, w.accepted, w.adopted + [m.epoch])
  {
    hide TxOk, IndexOk, LiveOrOutdated, ClientOk;
    var e := m.epoch;
    var adopted := w.adopted + [e];
    assert Sent(w.stamps, w.ids, w.accepted, w.adopted, m);
    forall x <- w.net ensures Sent(w.stamps, w.ids, w.accepted, adopted, x) {
      assert Sent(w.stamps, w.ids, w.accepted, w.adopted, x);
    }
    assert forall a <- w.accepted :: a.attempt <= e.attempt;
  }

  lemma FinishKeys(w: World, e: Epoch, now: int)
    requires ClientOk(w.client, w.adopted)
    requires TxOk(w.server, w.byRxID, w.accepted, w.adopted)
    ensures ClientOk(Register(w.client, e, now), w.adopted + [e])
    ensures TxOk(w.server, w.byRxID, w.accepted, w.adopted + [e])
  {
  }

  lemma FinishKeeps(w: World, m: Message, now: int)
    requires Inv(w) && m in w.net && m.Resp?
    ensures Inv(FinishAttempt(w, m, now))
  {
    hide Stamped, NetSent, InAttemptOrder, TxOk, IndexOk, LiveOrOutdated, ClientOk, Register, Live, Outdated;
    if w.current.Some? && m.epoch.clientId == w.current.value.rxId && m.epoch.attempt == w.current.value.no {
      FinishHistory(w, m);
      FinishKeys(w, m.epoch, now);
      LiveOrOutdatedStays(w, FinishAttempt(w, m, now));
    }
  }

  lemma ConfirmKeeps(w: World, e: Epoch, now: int)
    requires TxOk(w.server, w.byRxID, w.accepted, w.adopted) && IndexOk(w.server, w.byRxID, w.unindexing)
    requires w.server.pending == Some(e) && e in w.adopted
    requires e.serverId in w.byRxID && w.byRxID[e.serverId] == Some(e)
    ensures var k := Confirm(w.server, e, now);
            TxOk(k, w.byRxID, w.accepted, w.adopted) && IndexOk(k, w.byRxID, w.unindexing - {e.serverId})
            && Live(k, w.byRxID, e)
  {
  }

  /** The pending epoch is still filed, so confirming it files it again under the same id. */
  lemma PendingIsFiled(w: World, e: Epoch)
    requires Inv(w) && w.server.pending == Some(e)
    ensures Live(w.server, w.byRxID, e) && e.serverId !in w.unindexing
  {
    hide Stamped, NetSent, InAttemptOrder, CurrentIsNewest, ClientOk;
    var i := |w.accepted| - 1;
    assert !Outdated(w.accepted, w.adopted, i);
  }

  lemma ReceiveKeeps(w: World, m: Message, now: int)
    requires Inv(w) && m in w.net && m.ToServer?
    ensures Inv(Receive(w, m, now))
  {
    hide Stamped, NetSent, InAttemptOrder, CurrentIsNewest, TxOk, IndexOk, LiveOrOutdated, ClientOk, Register, Live;
    var e := m.epoch;
    if w.server.pending == Some(e) && e.serverId in w.byRxID && w.byRxID[e.serverId] == Some(e) {
      var v := Receive(w, m, now);
      PendingIsFiled(w, e);
      ConfirmedIsAdopted(w, m);
      ConfirmKeeps(w, e, now);
      assert w.unindexing - {e.serverId} == w.unindexing;
      var last := |w.accepted| - 1;
      assert forall i | 0 <= i < last :: Outdated(w.accepted, w.adopted, i) by {
        assert w.accepted[last] in w.adopted;
      }
      LiveOrOutdatedStays(w, v);
    }
  }

  lemma ConfirmedIsAdopted(w: World, m: Message)
    requires Inv(w) && m in w.net && m.ToServer? && w.server.pending == Some(m.epoch)
    ensures m.epoch in w.adopted && w.accepted != [] && w.accepted[|w.accepted| - 1] == m.epoch
  {
    hide Stamped, InAttemptOrder, CurrentIsNewest, IndexOk, LiveOrOutdated, ClientOk, Live;
    assert Sent(w.stamps, w.ids, w.accepted, w.adopted, m);
  }

  /** Pruning and indexing: nothing that is live goes away. */
  lemma TablesKeep(w: World, s: Step)
    requires Inv(w) && Enabled(w, s) && (s.PruneServer? || s.Unindex? || s.OtherTakes? || s.OtherFrees?)
    ensures Inv(Next(w, s))
  {
    hide Stamped, NetSent, InAttemptOrder, CurrentIsNewest, LiveOrOutdated, ClientOk, Outdated;
    var v := Next(w, s);
    assert forall e :: Live(w.server, w.byRxID, e) ==> Live(v.server, v.byRxID, e);
    LiveOrOutdatedStays(w, v);
  }

  lemma SendKeeps(w: World, m: Message)
    requires Inv(w)
    requires (m.ToServer? && w.client.tx == Some(m.epoch)) || (m.ToClient? && w.server.tx == Some(m.epoch))
    ensures Inv(w.(net := w.net + {m}))
  {
    hide Stamped, InAttemptOrder, CurrentIsNewest, IndexOk, LiveOrOutdated, Live;
    assert Sent(w.stamps, w.ids, w.accepted, w.adopted, m);
    forall x <- w.net + {m} ensures Sent(w.stamps, w.ids, w.accepted, w.adopted, x) {
    }
  }

  lemma PruneClientKeeps(w: World, now: int)
    requires Inv(w)
    ensures Inv(w.(client := Prune(w.client, now)))
  {
    hide Stamped, NetSent, InAttemptOrder, CurrentIsNewest, TxOk, IndexOk, LiveOrOutdated;
  }

  lemma RefuseKeeps(w: World, ts: nat)
    requires Inv(w) && ts >= w.lastTs
    ensures Inv(w.(lastTs := ts))
  {
    hide NetSent, InAttemptOrder, CurrentIsNewest, TxOk, IndexOk, LiveOrOutdated, ClientOk;
  }

  lemma GiveUpKeeps(w: World)
    requires Inv(w)
    ensures Inv(w.(current := None))
  {
    hide Stamped, NetSent, InAttemptOrder, TxOk, IndexOk, LiveOrOutdated, ClientOk;
  }

  lemma StepKeeps(w: World, s: Step)
    requires Inv(w) && Enabled(w, s)
    ensures Inv(Next(w, s))
  {
    hide Inv, BeginAttempt, AcceptInit, FinishAttempt, Receive;
    match s
    case Begin(rxId, ts) => BeginKeeps(w, rxId, ts);
    case GiveUp => GiveUpKeeps(w);
    case GetInit(m, serverId, now) => AcceptKeeps(w, m, serverId, now);
    case Refuse(m) => if m.ts > w.lastTs { RefuseKeeps(w, m.ts); }
    case GetResp(m, now) => FinishKeeps(w, m, now);
    case ClientSends => SendKeeps(w, ToServer(w.client.tx.value));
    case ServerSends => SendKeeps(w, ToClient(w.server.tx.value));
    case ServerGets(m, now) => ReceiveKeeps(w, m, now);
    case PruneClient(now) => PruneClientKeeps(w, now);
    case _ => TablesKeep(w, s);
  }

  lemma {:induction false} RunKeeps(w: World, ss: seq<Step>)
    requires Inv(w) && Possible(w, ss)
    ensures Inv(After(w, ss))
    decreases ss
  {
    if ss != [] {
      hide Inv;
      StepKeeps(w, ss[0]);
      RunKeeps(Next(w, ss[0]), ss[1..]);
    }
  }

  // ----- Safety -----

  /** Nothing accepted after the client's newest epoch has been adopted: an epoch adopted
      before it belongs to an earlier attempt, hence was accepted earlier. */
  lemma NewestIsNotOutdated(accepted: seq<Epoch>, adopted: seq<Epoch>, i: nat)
    requires InAttemptOrder(accepted, adopted) && adopted != []
    requires i < |accepted| && accepted[i] == adopted[|adopted| - 1]
    requires forall j | 0 <= j < |accepted| && j != i :: accepted[j].attempt != accepted[i].attempt
    ensures !Outdated(accepted, adopted, i)
  {
    assert forall k | 0 <= k < |adopted| :: adopted[k].attempt <= accepted[i].attempt;
  }

  lemma DistinctAttempts(w: World)
    requires Inv(w)
    ensures forall i, j | 0 <= i < j < |w.accepted| :: w.accepted[i].attempt != w.accepted[j].attempt
  {
    hide NetSent, InAttemptOrder, CurrentIsNewest, TxOk, IndexOk, LiveOrOutdated, ClientOk;
  }

  /** The client's send epoch is one the server resolves and has not superseded. */
  lemma ClientEpochIsLive(w: World)
    requires Inv(w) && w.client.tx.Some?
    ensures Live(w.server, w.byRxID, w.client.tx.value)
  {
    hide Stamped, NetSent, CurrentIsNewest, TxOk, IndexOk, Live, Outdated;
    var c := w.client.tx.value;
    assert c in w.accepted;
    var i :| 0 <= i < |w.accepted| && w.accepted[i] == c;
    DistinctAttempts(w);
    NewestIsNotOutdated(w.accepted, w.adopted, i);
  }

  ghost predicate Safe(w: World) {
    && (w.client.tx.Some? ==>
          var c := w.client.tx.value;
          && Live(w.server, w.byRxID, c)
          && c.clientId in w.client.epochs && w.client.epochs[c.clientId] == Entry(c, None))
    && (w.server.tx.Some? ==>
          var x := w.server.tx.value;
          && Live(w.server, w.byRxID, x)
          && w.accepted != [] && (x == w.accepted[0] || x in w.adopted))
    && (forall i, j | 0 <= i < j < |w.accepted| :: w.accepted[i].attempt != w.accepted[j].attempt)
  }

  /** After every interleaving of handshakes, data, loss, duplication, reordering, pruning and
      foreign sessions, under arbitrary timestamps and receiver ids: the client's send epoch is
      indexed and not superseded at the server; each side still holds its own send epoch and
      has not superseded it; the server's send epoch is its first or one the client adopted;
      and no handshake was accepted twice. */
  lemma RekeyIsSafe(ss: seq<Step>)
    requires Possible(Start(), ss)
    ensures Safe(After(Start(), ss))
  {
    hide Inv, Safe, Next;
    StartIsOk();
    RunKeeps(Start(), ss);
    InvIsSafe(After(Start(), ss));
  }

  lemma StartIsOk()
    ensures Inv(Start())
  {
  }

  lemma InvIsSafe(w: World)
    requires Inv(w)
    ensures Safe(w)
  {
    hide Stamped, NetSent, InAttemptOrder, CurrentIsNewest, IndexOk, LiveOrOutdated, Live;
    DistinctAttempts(w);
    if w.client.tx.Some? {
      ClientEpochIsLive(w);
    }
  }

  /** When a step changes the server's send epoch, it moves to one accepted later. */
  lemma ServerMovesForward(w: World, s: Step)
    requires Inv(w) && Enabled(w, s) && w.server.tx.Some? && Next(w, s).server.tx != w.server.tx
    ensures exists i, j :: 0 <= i < j < |w.accepted| && w.server.tx == Some(w.accepted[i])
                           && Next(w, s).server.tx == Some(w.accepted[j])
  {
    hide Stamped, NetSent, InAttemptOrder, CurrentIsNewest, IndexOk, LiveOrOutdated, ClientOk, Live;
    var x := w.server.tx.value;
    var i :| 0 <= i < |w.accepted| && w.accepted[i] == x;
    var j := |w.accepted| - 1;
    assert s.ServerGets?;
    assert Next(w, s).server.tx == Some(w.accepted[j]);
    assert i < j;
  }

  lemma HistoryGrows(w: World, s: Step)
    requires Enabled(w, s)
    ensures w.accepted <= Next(w, s).accepted
    ensures w.server.tx.Some? ==> Next(w, s).server.tx.Some?
  {
  }

  /** Over every continuation of a run the server sends under an epoch accepted no earlier. */
  lemma {:induction false} ServerNeverGoesBack(w: World, ss: seq<Step>, i: nat) returns (j: nat)
    requires Inv(w) && Possible(w, ss) && i < |w.accepted| && w.server.tx == Some(w.accepted[i])
    ensures var v := After(w, ss);
            i <= j < |v.accepted| && v.server.tx == Some(v.accepted[j])
    decreases ss
  {
    j := i;
    if ss != [] {
      hide Inv, Next, Enabled;
      var s := ss[0];
      StepKeeps(w, s);
      HistoryGrows(w, s);
      if Next(w, s).server.tx != w.server.tx {
        ServerMovesForward(w, s);
        var a, b :| 0 <= a < b < |w.accepted| && w.server.tx == Some(w.accepted[a])
                    && Next(w, s).server.tx == Some(w.accepted[b]);
        DistinctAttempts(w);
        assert a == i;
        j := b;
      }
      j := ServerNeverGoesBack(Next(w, s), ss[1..], j);
    }
  }

  // ----- What is never pruned -----

  /** An accepted epoch that neither sends nor waits for confirmation, and is not superseded:
      what becomes of a pending epoch when the next handshake overwrites it. */
  ghost predicate Overwritten(w: World, e: Epoch) {
    Live(w.server, w.byRxID, e) && w.server.tx.Some? && w.server.tx != Some(e) && w.server.pending != Some(e)
  }

  lemma OverwrittenStays(w: World, s: Step, e: Epoch)
    requires Inv(w) && Enabled(w, s) && Overwritten(w, e)
    ensures Overwritten(Next(w, s), e)
  {
    hide Stamped, NetSent, InAttemptOrder, CurrentIsNewest, LiveOrOutdated, ClientOk, BeginAttempt, Prune;
    match s
    case Begin(_, _) => BeginIsQuiet(w, s);
    case PruneServer(now) => PruneKeepsLive(w, now, e);
    case _ =>
  }

  lemma BeginIsQuiet(w: World, s: Step)
    requires s.Begin?
    ensures Next(w, s).server == w.server && Next(w, s).byRxID == w.byRxID && Next(w, s).accepted == w.accepted
  {
  }

  lemma PruneKeepsLive(w: World, now: int, e: Epoch)
    requires Live(w.server, w.byRxID, e)
    ensures Live(Prune(w.server, now), w.byRxID, e)
    ensures Prune(w.server, now).tx == w.server.tx && Prune(w.server, now).pending == w.server.pending
  {
  }

  /** Such an epoch is never superseded and never pruned: it stays indexed for ever. */
  lemma {:induction false} OverwrittenForever(w: World, ss: seq<Step>, e: Epoch)
    requires Inv(w) && Possible(w, ss) && Overwritten(w, e)
    ensures Overwritten(After(w, ss), e)
    decreases ss
  {
    if ss != [] {
      hide Inv, Overwritten, Next;
      StepKeeps(w, ss[0]);
      OverwrittenStays(w, ss[0], e);
      OverwrittenForever(Next(w, ss[0]), ss[1..], e);
    }
  }

  lemma Extend(w: World, s: Step, ss: seq<Step>)
    requires Enabled(w, s) && Possible(Next(w, s), ss)
    ensures Possible(w, [s] + ss) && After(w, [s] + ss) == After(Next(w, s), ss)
  {
    assert ([s] + ss)[1..] == ss;
  }

  /** Three handshakes in a row without a packet under the second one leave its epoch so. */
  lemma OverwrittenHappens()
    ensures exists ss: seq<Step>, e: Epoch :: Possible(Start(), ss) && Overwritten(After(Start(), ss), e)
  {
    var m0, m1, m2 := Init(0, 1, 10), Init(1, 2, 20), Init(2, 3, 30);
    var w0 := Next(Start(), Begin(1, 10));
    var w1 := Next(w0, GetInit(m0, 100, 0));
    var w2 := Next(w1, Begin(2, 20));
    var w3 := Next(w2, GetInit(m1, 101, 0));
    var w4 := Next(w3, Begin(3, 30));
    var w5 := Next(w4, GetInit(m2, 102, 0));
    assert Overwritten(w5, Epoch(1, 2, 101));
    var s5: seq<Step> := [];
    var s4 := [GetInit(m2, 102, 0)] + s5;
    var s3 := [Begin(3, 30)] + s4;
    var s2 := [GetInit(m1, 101, 0)] + s3;
    var s1 := [Begin(2, 20)] + s2;
    var s0 := [GetInit(m0, 100, 0)] + s1;
    Extend(w4, GetInit(m2, 102, 0), s5);
    Extend(w3, Begin(3, 30), s4);
    Extend(w2, GetInit(m1, 101, 0), s3);
    Extend(w1, Begin(2, 20), s2);
    Extend(w0, GetInit(m0, 100, 0), s1);
    Extend(Start(), Begin(1, 10), s0);
    assert Overwritten(After(Start(), [Begin(1, 10)] + s0), Epoch(1, 2, 101));
  }
}
