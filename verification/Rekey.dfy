/** The epoch tables as the program keeps them: `session` on both sides and the server's
    receive index, updated in place. */
module Rekey {
  import opened Common
  import opened RekeySpec
  import W = BlockWindow

  class Session {
    const role: Role
    var tx: Option<Epoch>
    var pending: Option<Epoch>
    var epochs: map<nat, Entry>
    var lastHsTs: nat

    ghost function Model(): Keys
      reads this
    {
      Keys(role, tx, pending, epochs)
    }

    constructor (role: Role)
      ensures Model() == Fresh(role) && lastHsTs == 0
    {
      this.role := role;
      tx, pending, epochs, lastHsTs := None, None, map[], 0;
    }

    method RegisterEpoch(e: Epoch, now: int)
      modifies this`tx, this`epochs
      ensures Model() == Register(old(Model()), e, now)
    {
      if tx.Some? {
        var id := RxId(role, tx.value);
        if id in epochs && epochs[id].superseded.None? {
          epochs := epochs[id := epochs[id].(superseded := Some(now))];
        }
      }
      epochs := epochs[RxId(role, e) := Entry(e, None)];
      tx := Some(e);
    }

    /** A datagram that the peer sealed under `sealed`: the id in its header is looked up, it opens
        only under that very epoch, and `replay`, the epoch's window for the path, must not have
        seen its counter.  Only then is it taken; and what is taken stays readable. */
    method Receive(sealed: Epoch, replay: W.Bitmap, counter: nat, now: int) returns (taken: bool)
      requires replay.Valid()
      modifies this`tx, this`epochs, this`pending, replay, replay.blocks
      ensures replay.Valid()
      ensures taken <==> Filed(old(Model()), sealed) && old(replay.model).Check(counter).1
      ensures taken ==> Filed(Model(), sealed) && pending != Some(sealed)
      ensures taken && old(pending) == Some(sealed) ==> tx == Some(sealed)
      ensures Model() == if taken then Confirm(old(Model()), sealed, now) else old(Model())
      ensures replay.model
           == if Filed(old(Model()), sealed) then old(replay.model).Check(counter).0 else old(replay.model)
    {
      var e := LookupEpoch(RxId(role, sealed));
      if e != Some(sealed) {
        return false;
      }
      var ok := replay.Check(counter);
      if !ok {
        return false;
      }
      OnReceive(sealed, now);
      return true;
    }

    method LookupEpoch(rxId: nat) returns (e: Option<Epoch>)
      ensures e.None? <==> rxId !in epochs
      ensures e.Some? ==> rxId in epochs && epochs[rxId].epoch == e.value
    {
      return if rxId in epochs then Some(epochs[rxId].epoch) else None;
    }

    method PruneEpochs(now: int) returns (pruned: set<nat>)
      modifies this`epochs
      ensures Model() == Prune(old(Model()), now)
      ensures pruned == Prunable(old(Model()), now)
    {
      ghost var before := epochs;
      pruned := {};
      var todo := epochs.Keys;
      while todo != {}
        invariant todo <= before.Keys
        invariant pruned == set id | id in before && id !in todo && Expired(before[id], now)
        invariant epochs == before - pruned
        decreases todo
      {
        var id :| id in todo;
        if epochs[id].superseded.Some? && now - epochs[id].superseded.value > EPOCH_GRACE {
          epochs := epochs - {id};
          pruned := pruned + {id};
        }
        todo := todo - {id};
      }
    }

    /** The first authenticated receive under the pending epoch switches sending to it. */
    method OnReceive(e: Epoch, now: int)
      modifies this`tx, this`epochs, this`pending
      ensures Model() == Confirm(old(Model()), e, now)
    {
      if pending == Some(e) {
        pending := None;
        RegisterEpoch(e, now);
      }
    }

    /** The client's part of one attempt: responses are read until one under the attempt's id, any
        other being stale; that one opens only if it belongs to the attempt.  `responses` are those
        that arrive before the timeout. */
    method HandshakeOnce(no: nat, rxId: nat, responses: seq<Epoch>, now: int) returns (adopted: Option<Epoch>)
      modifies this`tx, this`epochs
      ensures adopted.Some? <==>
                exists i :: && 0 <= i < |responses| && responses[i].clientId == rxId && responses[i].attempt == no
                            && forall j | 0 <= j < i :: responses[j].clientId != rxId
      ensures adopted.Some? ==>
                && adopted.value in responses && adopted.value.attempt == no && adopted.value.clientId == rxId
                && tx == adopted && Model() == Register(old(Model()), adopted.value, now)
      ensures adopted.None? ==> Model() == old(Model())
    {
      for i := 0 to |responses|
        invariant forall j | 0 <= j < i :: responses[j].clientId != rxId
        invariant Model() == old(Model())
      {
        if responses[i].clientId != rxId {
          continue;
        }
        if responses[i].attempt != no {
          return None;
        }
        RegisterEpoch(responses[i], now);
        return Some(responses[i]);
      }
      return None;
    }

    method OfferEpoch(e: Epoch, now: int)
      modifies this`tx, this`epochs, this`pending
      ensures Model() == Offer(old(Model()), e, now)
    {
      epochs := epochs[RxId(role, e) := Entry(e, None)];
      pending := Some(e);
      if tx.None? {
        pending := None;
        RegisterEpoch(e, now);
      }
    }
  }

  /** The server's receive index; other sessions' ids map to None. */
  class Endpoint {
    var byRxID: map<nat, Option<Epoch>>

    constructor ()
      ensures byRxID == map[]
    {
      byRxID := map[];
    }

    /** Draws random ids until one is unused; `draws` are the random numbers. */
    method AllocRxID(draws: seq<nat>) returns (id: Option<nat>)
      ensures id.Some? ==> id.value in draws && id.value !in byRxID
      ensures id.None? ==> forall d <- draws :: d in byRxID
    {
      for i := 0 to |draws|
        invariant forall j | 0 <= j < i :: draws[j] in byRxID
      {
        if draws[i] !in byRxID {
          return Some(draws[i]);
        }
      }
      return None;
    }

    method UnindexRxIDs(ids: set<nat>)
      modifies this
      ensures byRxID == old(byRxID) - ids
    {
      var todo := ids;
      while todo != {}
        invariant todo <= ids
        invariant byRxID == old(byRxID) - (ids - todo)
        decreases todo
      {
        var id :| id in todo;
        byRxID := byRxID - {id};
        todo := todo - {id};
      }
    }

    /** A datagram from the client, sealed under `m.epoch`: the server's part of that step.  One
        that does not open or is a replay changes nothing but the window. */
    method HandleDatagram(s: Session, m: Message, replay: W.Bitmap, counter: nat, now: int, ghost w: World)
      returns (taken: bool)
      requires s.role == Server && m.ToServer? && replay.Valid()
      requires w.server == s.Model() && w.byRxID == byRxID
      modifies s, replay, replay.blocks
      ensures replay.Valid() && byRxID == w.byRxID && s.lastHsTs == old(s.lastHsTs)
      ensures s.Model() == if taken then RekeySpec.Receive(w, m, now).server else w.server
      ensures taken <==> Resolves(w, m.epoch) && old(replay.model).Check(counter).1
      ensures replay.model == if Resolves(w, m.epoch) then old(replay.model).Check(counter).0 else old(replay.model)
    {
      var id := m.epoch.serverId;
      if id !in byRxID || byRxID[id] != Some(m.epoch) {
        return false;
      }
      var ok := replay.Check(counter);
      if !ok {
        return false;
      }
      s.OnReceive(m.epoch, now);
      return true;
    }

    /** An authenticated HandshakeInit: the server's part of one protocol step.  While every id
        drawn so far is taken there is no answer yet, only the timestamp has moved. */
    method HandleHandshakeInit(s: Session, m: Message, draws: seq<nat>, now: int, ghost w: World)
      returns (resp: Option<Epoch>)
      requires s.role == Server && m.Init?
      requires w.server == s.Model() && w.lastTs == s.lastHsTs && w.byRxID == byRxID
      modifies this, s
      ensures resp.Some? <==> m.ts > w.lastTs && exists d <- draws :: d !in w.byRxID
      ensures resp.None? ==>
                && s.Model() == w.server && byRxID == w.byRxID
                && s.lastHsTs == if m.ts > w.lastTs then m.ts else w.lastTs
      ensures resp.Some? ==>
                && resp.value.serverId in draws && resp.value.serverId !in w.byRxID
                && var v := AcceptInit(w, m, resp.value.serverId, now);
                   && s.Model() == v.server && byRxID == v.byRxID && s.lastHsTs == v.lastTs
                   && Resp(resp.value) in v.net
    {
      if m.ts <= s.lastHsTs {
        return None;
      }
      s.lastHsTs := m.ts;
      var id := AllocRxID(draws);
      if id.None? {
        return None;
      }
      var e := Epoch(m.no, m.clientId, id.value);
      byRxID := byRxID[id.value := Some(e)];
      s.OfferEpoch(e, now);
      return Some(e);
    }
  }
}
