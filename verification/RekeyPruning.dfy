/** Which epochs the server prunes in the end: exactly when one is kept for ever. */
module RekeyPruning {
  import opened Common
  import opened RekeySpec
  import opened RekeySafety

  /** The step accepts a handshake while `e` still waits for confirmation. */
  predicate Overwrites(w: World, s: Step, e: Epoch) {
    s.GetInit? && s.m.Init? && s.m.ts > w.lastTs && w.server.pending == Some(e)
  }

  ghost predicate FiledWereAccepted(w: World) {
    forall id <- w.server.epochs :: w.server.epochs[id].epoch in w.accepted
  }

  lemma FiledStays(w: World, s: Step)
    requires Inv(w) && Enabled(w, s) && FiledWereAccepted(w)
    ensures FiledWereAccepted(Next(w, s))
  {
    hide Stamped, NetSent, InAttemptOrder, CurrentIsNewest, LiveOrOutdated, ClientOk, IndexOk, Live, BeginAttempt;
    match s
    case Begin(_, _) => BeginIsQuiet(w, s);
    case _ =>
  }

  /** An accepted epoch becomes overwritten exactly by an accepted handshake that finds it
      pending. */
  lemma BecomesOverwrittenIff(w: World, s: Step, e: Epoch)
    requires Inv(w) && Enabled(w, s) && e in w.accepted && !Overwritten(w, e)
    ensures Overwritten(Next(w, s), e) <==> Overwrites(w, s, e)
  {
    hide Stamped, NetSent, InAttemptOrder, CurrentIsNewest, LiveOrOutdated, ClientOk, BeginAttempt;
    match s
    case Begin(_, _) => BeginIsQuiet(w, s);
    case GetInit(m, _, _) =>
      if m.ts > w.lastTs {
        AcceptedOnce(w, m);
        if w.server.pending == Some(e) {
          PendingIsFiled(w, e);
        }
      }
    case _ =>
  }

  /** An epoch not accepted yet is not overwritten, nor is one just accepted. */
  lemma NewIsNotOverwritten(w: World, s: Step, e: Epoch)
    requires Inv(w) && Enabled(w, s) && FiledWereAccepted(w) && e !in w.accepted
    ensures !Overwritten(Next(w, s), e) && !Overwrites(w, s, e)
  {
    hide Stamped, NetSent, InAttemptOrder, CurrentIsNewest, LiveOrOutdated, ClientOk, IndexOk, BeginAttempt;
    match s
    case Begin(_, _) => BeginIsQuiet(w, s);
    case _ =>
  }

  /** Some step of the run overwrites `e`. */
  ghost predicate OverwritesAlong(w: World, ss: seq<Step>, e: Epoch)
    requires Possible(w, ss)
    decreases ss
  {
    ss != [] && (Overwrites(w, ss[0], e) || OverwritesAlong(Next(w, ss[0]), ss[1..], e))
  }

  lemma StepOverwrites(w: World, s: Step, e: Epoch)
    requires Inv(w) && Enabled(w, s) && FiledWereAccepted(w)
    ensures Overwritten(Next(w, s), e) <==> Overwritten(w, e) || Overwrites(w, s, e)
  {
    hide Inv, Next, Enabled, Overwrites;
    if Overwritten(w, e) {
      OverwrittenStays(w, s, e);
    } else if e in w.accepted {
      BecomesOverwrittenIff(w, s, e);
    } else {
      NewIsNotOverwritten(w, s, e);
    }
  }

  lemma {:induction false} RunOverwrites(w: World, ss: seq<Step>, e: Epoch)
    requires Inv(w) && Possible(w, ss) && FiledWereAccepted(w)
    ensures Inv(After(w, ss)) && FiledWereAccepted(After(w, ss))
    ensures Overwritten(After(w, ss), e) <==> Overwritten(w, e) || OverwritesAlong(w, ss, e)
    decreases ss
  {
    if ss != [] {
      hide Inv, Next, Enabled, Overwrites, Overwritten, FiledWereAccepted;
      StepKeeps(w, ss[0]);
      FiledStays(w, ss[0]);
      StepOverwrites(w, ss[0], e);
      RunOverwrites(Next(w, ss[0]), ss[1..], e);
    }
  }

  /** Over every run: an epoch ends up overwritten exactly when some handshake was accepted
      while it was pending. */
  lemma OverwrittenIff(ss: seq<Step>, e: Epoch)
    requires Possible(Start(), ss)
    ensures Overwritten(After(Start(), ss), e) <==> OverwritesAlong(Start(), ss, e)
  {
    hide *;
    StartIsOk();
    NothingAtStart(e);
    RunOverwrites(Start(), ss, e);
  }

  lemma NothingAtStart(e: Epoch)
    ensures FiledWereAccepted(Start()) && !Overwritten(Start(), e)
  {
  }

  /** The grace period of every superseded epoch is over. */
  ghost predicate GraceOver(k: Keys, now: int) {
    forall id <- k.epochs :: k.epochs[id].superseded.Some? ==> Expired(k.epochs[id], now)
  }

  /** What pruning leaves once the grace periods are over: besides the send epoch and the pending
      one exactly the overwritten epochs. */
  lemma PruneLeavesIff(w: World, now: int, e: Epoch)
    requires Inv(w) && FiledWereAccepted(w) && GraceOver(w.server, now)
    ensures Filed(Prune(w.server, now), e)
            <==> w.server.tx == Some(e) || w.server.pending == Some(e) || Overwritten(w, e)
  {
    hide Stamped, NetSent, InAttemptOrder, CurrentIsNewest, LiveOrOutdated, ClientOk;
    if w.server.pending == Some(e) {
      PendingIsFiled(w, e);
    }
  }

  /** Hence after every run, a handshake accepted while it was pending decides whether an epoch
      that is neither sending nor pending is kept or pruned. */
  lemma KeptIffOverwritten(ss: seq<Step>, now: int, e: Epoch)
    requires Possible(Start(), ss)
    requires var k := After(Start(), ss).server;
             GraceOver(k, now) && k.tx != Some(e) && k.pending != Some(e)
    ensures Filed(Prune(After(Start(), ss).server, now), e) <==> OverwritesAlong(Start(), ss, e)
  {
    hide *;
    StartIsOk();
    NothingAtStart(e);
    RunOverwrites(Start(), ss, e);
    OverwrittenIff(ss, e);
    PruneLeavesIff(After(Start(), ss), now, e);
  }
}
