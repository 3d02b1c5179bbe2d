/** Key epochs of one session: how each side files, switches and prunes them, and the
    two-party rekey protocol over a network that loses, duplicates and reorders. */
module RekeySpec {
  import opened Common

  /** How long a superseded epoch keeps accepting receives, in seconds. */
  const EPOCH_GRACE := 90

  /** The keys of one handshake; `attempt` identifies the handshake, the two ids are the
      receiver indices its sides chose. */
  datatype Epoch = Epoch(attempt: nat, clientId: nat, serverId: nat)

  datatype Role = Client | Server

  function RxId(role: Role, e: Epoch): nat { if role == Client then e.clientId else e.serverId }

  /** `superseded` is when a newer epoch took over sending. */
  datatype Entry = Entry(epoch: Epoch, superseded: Option<int>)

  datatype Keys = Keys(role: Role, tx: Option<Epoch>, pending: Option<Epoch>, epochs: map<nat, Entry>)

  function Fresh(role: Role): Keys { Keys(role, None, None, map[]) }

  function Supersede(k: Keys, now: int): map<nat, Entry> {
    if k.tx.None? then k.epochs
    else
      var id := RxId(k.role, k.tx.value);
      if id in k.epochs && k.epochs[id].superseded.None? then
        k.epochs[id := k.epochs[id].(superseded := Some(now))]
      else k.epochs
  }

  /** Files a fresh epoch for receiving and makes it the send epoch. */
  function Register(k: Keys, e: Epoch, now: int): Keys {
    k.(tx := Some(e), epochs := Supersede(k, now)[RxId(k.role, e) := Entry(e, None)])
  }

  /** The epoch is held for receiving, superseded or not. */
  predicate Filed(k: Keys, e: Epoch) { RxId(k.role, e) in k.epochs && k.epochs[RxId(k.role, e)].epoch == e }

  predicate Expired(en: Entry, now: int) { en.superseded.Some? && now - en.superseded.value > EPOCH_GRACE }

  function Prunable(k: Keys, now: int): set<nat> {
    set id | id in k.epochs && Expired(k.epochs[id], now)
  }

  function Prune(k: Keys, now: int): Keys { k.(epochs := k.epochs - Prunable(k, now)) }

  /** The server files the epoch of an accepted handshake: it waits for key confirmation
      unless there is nothing to send under yet. */
  function Offer(k: Keys, e: Epoch, now: int): Keys {
    var k1 := k.(epochs := k.epochs[RxId(k.role, e) := Entry(e, None)], pending := Some(e));
    if k.tx.None? then Register(k1.(pending := None), e, now) else k1
  }

  /** An authenticated receive under the pending epoch confirms it. */
  function Confirm(k: Keys, e: Epoch, now: int): Keys {
    if k.pending == Some(e) then Register(k.(pending := None), e, now) else k
  }

  // ----- The protocol -----

  datatype Attempt = Attempt(no: nat, rxId: nat)

  datatype Message =
    | Init(no: nat, clientId: nat, ts: nat)
    | Resp(epoch: Epoch)
    | ToServer(epoch: Epoch)
    | ToClient(epoch: Epoch)

  /** `byRxID` is the server's receive index, shared with other sessions (entry None);
      `unindexing` are ids pruned from the session but not yet from the index.  `stamps` and
      `ids` record timestamp and receiver index of each attempt, `accepted` the epochs the
      server accepted and `adopted` those the client switched to, both in order. */
  datatype World = World(client: Keys, current: Option<Attempt>, server: Keys, lastTs: nat,
                         byRxID: map<nat, Option<Epoch>>, unindexing: set<nat>, net: set<Message>,
                         stamps: seq<nat>, ids: seq<nat>, accepted: seq<Epoch>, adopted: seq<Epoch>)

  function Start(): World {
    World(Fresh(Client), None, Fresh(Server), 0, map[], {}, {}, [], [], [], [])
  }

  /** `Begin` starts an attempt under any id and timestamp, giving up on the one before.
      `Refuse` is a handshake whose response could not be built.  Every delivery may happen
      any number of times and in any order. */
  datatype Step =
    | Begin(rxId: nat, ts: nat)
    | GiveUp
    | GetInit(m: Message, serverId: nat, now: int)
    | Refuse(m: Message)
    | GetResp(m: Message, now: int)
    | ClientSends
    | ServerSends
    | ServerGets(m: Message, now: int)
    | PruneClient(now: int)
    | PruneServer(now: int)
    | Unindex
    | OtherTakes(id: nat)
    | OtherFrees(id: nat)

  predicate Enabled(w: World, s: Step) {
    match s
    case GetInit(m, serverId, _) => m in w.net && m.Init? && serverId !in w.byRxID
    case Refuse(m) => m in w.net && m.Init?
    case GetResp(m, _) => m in w.net && m.Resp?
    case ServerGets(m, _) => m in w.net && m.ToServer?
    case ClientSends => w.client.tx.Some?
    case ServerSends => w.server.tx.Some?
    case OtherTakes(id) => id !in w.byRxID
    case OtherFrees(id) => id in w.byRxID && w.byRxID[id].None?
    case _ => true
  }

  function BeginAttempt(w: World, rxId: nat, ts: nat): World {
    var no := |w.stamps|;
    w.(current := Some(Attempt(no, rxId)), stamps := w.stamps + [ts], ids := w.ids + [rxId],
       net := w.net + {Init(no, rxId, ts)})
  }

  /** `handleHandshakeInit`: the timestamp must advance. */
  function AcceptInit(w: World, m: Message, serverId: nat, now: int): World
    requires m.Init?
  {
    if m.ts <= w.lastTs then w
    else
      var e := Epoch(m.no, m.clientId, serverId);
      w.(lastTs := m.ts, byRxID := w.byRxID[serverId := Some(e)], server := Offer(w.server, e, now),
         net := w.net + {Resp(e)}, accepted := w.accepted + [e])
  }

  /** `handshakeOnce`: a response under another id is stale and skipped; one that does not
      belong to this handshake fails to open and ends the attempt. */
  function FinishAttempt(w: World, m: Message, now: int): World
    requires m.Resp?
  {
    if w.current.None? || m.epoch.clientId != w.current.value.rxId then w
    else if m.epoch.attempt != w.current.value.no then w.(current := None)
    else w.(current := None, client := Register(w.client, m.epoch, now), adopted := w.adopted + [m.epoch])
  }

  /** The server's index resolves the epoch's id to that epoch. */
  predicate Resolves(w: World, e: Epoch) { e.serverId in w.byRxID && w.byRxID[e.serverId] == Some(e) }

  /** The server resolves the header's id; only a packet sealed under that very epoch opens. */
  function Receive(w: World, m: Message, now: int): World
    requires m.ToServer?
  {
    if Resolves(w, m.epoch) then w.(server := Confirm(w.server, m.epoch, now)) else w
  }

  function Next(w: World, s: Step): World
    requires Enabled(w, s)
  {
    match s
    case Begin(rxId, ts) => BeginAttempt(w, rxId, ts)
    case GiveUp => w.(current := None)
    case GetInit(m, serverId, now) => AcceptInit(w, m, serverId, now)
    case Refuse(m) => if m.ts <= w.lastTs then w else w.(lastTs := m.ts)
    case GetResp(m, now) => FinishAttempt(w, m, now)
    case ClientSends => w.(net := w.net + {ToServer(w.client.tx.value)})
    case ServerSends => w.(net := w.net + {ToClient(w.server.tx.value)})
    case ServerGets(m, now) => Receive(w, m, now)
    case PruneClient(now) => w.(client := Prune(w.client, now))
    case PruneServer(now) =>
      w.(server := Prune(w.server, now), unindexing := w.unindexing + Prunable(w.server, now))
    case Unindex => w.(byRxID := w.byRxID - w.unindexing, unindexing := {})
    case OtherTakes(id) => w.(byRxID := w.byRxID[id := None])
    case OtherFrees(id) => w.(byRxID := w.byRxID - {id})
  }

  ghost predicate Possible(w: World, ss: seq<Step>)
    decreases ss
  {
    ss == [] || (Enabled(w, ss[0]) && Possible(Next(w, ss[0]), ss[1..]))
  }

  ghost function After(w: World, ss: seq<Step>): World
    requires Possible(w, ss)
    decreases ss
  {
    if ss == [] then w else After(Next(w, ss[0]), ss[1..])
  }
}
