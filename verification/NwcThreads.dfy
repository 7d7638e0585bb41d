/** What the daemon's threads do to each other. Several threads handle requests at once, one for each
    relay, beside an invoice watcher and the management server; between two store calls of one of
    them the others may run. A trail records who performed which operation; Steps says what every
    call guarantees to the calls it runs beside, and so what each may rely on. */
module NwcThreads {
  import opened Wrappers
  import opened Ledger
  import opened LedgerRuns

  /** Who performed an operation: a daemon that ran before this one, or one call of a handler, with the
      request event it serves, if any. */
  datatype Actor = Restored | Call(number: nat, event: Option<string>)

  /** The operations so far and who performed them, the events marked as processed, the call that marked
      each of them, and the marked events whose request is still to be dispatched. */
  datatype Trail = Trail(log: seq<Op>, actors: seq<Actor>, processed: set<string>, owner: map<string, Actor>,
                         claims: set<string>)

  function Tables(t: Trail): Db {
    After(t.log).db
  }

  // ---- Every trail ---------------------------------------------------------------------

  predicate Reserves(t: Trail, i: nat, me: Actor)
    requires i < |t.log| == |t.actors|
  {
    t.log[i].OpReserve? && t.actors[i] == me
  }

  predicate Owns(t: Trail, me: Actor) {
    me.Call? && me.event.Some? && me.event.value in t.owner && t.owner[me.event.value] == me
  }

  /** The call marked its event and has dispatched the request. */
  predicate Serves(t: Trail, me: Actor) {
    Owns(t, me) && me.event.value !in t.claims
  }

  /** The call marked its event and has yet to dispatch the request. */
  predicate Claims(t: Trail, me: Actor) {
    Owns(t, me) && me.event.value in t.claims
  }

  predicate HasReserved(t: Trail, me: Actor)
    requires |t.log| == |t.actors|
  {
    exists i :: 0 <= i < |t.log| && Reserves(t, i, me)
  }

  /** Only a call that serves an event reserves funds, and no call does so twice. */
  ghost predicate ReservationsFit(t: Trail)
    requires |t.actors| == |t.log|
  {
    && (forall i :: 0 <= i < |t.log| && t.log[i].OpReserve? && t.actors[i].Call? ==> Serves(t, t.actors[i]))
    && (forall i, j :: 0 <= i < j < |t.log| && t.actors[i].Call? && Reserves(t, i, t.actors[i]) ==>
          !Reserves(t, j, t.actors[i]))
  }

  /** Operation j of the run reserves payment id. */
  predicate Hands(log: seq<Op>, j: nat, id: Id)
    requires j < |log|
  {
    var db := After(log[..j]).db;
    log[j].OpReserve? && Outcome(db, log[j]).Ok? && db.nextTx == id
  }

  /** The call reserved payment id. */
  predicate Pays(t: Trail, me: Actor, id: Id)
    requires |t.actors| == |t.log|
  {
    exists j :: 0 <= j < |t.log| && t.actors[j] == me && Hands(t.log, j, id)
  }

  /** Only the call that reserved a payment finalises it. */
  ghost predicate PaymentsFit(t: Trail)
    requires |t.actors| == |t.log|
  {
    forall i :: 0 <= i < |t.log| && t.log[i].OpFinalize? && t.actors[i].Call? ==> Pays(t, t.actors[i], t.log[i].id)
  }

  ghost predicate Consistent(t: Trail) {
    && |t.actors| == |t.log| && Legal(t.log)
    && t.claims <= t.owner.Keys <= t.processed
    && ReservationsFit(t) && PaymentsFit(t)
  }

  /** However often an event is delivered, on however many relays, at most one reservation is ever
      performed for it. */
  lemma OneReservationPerEvent(t: Trail, i: nat, j: nat)
    requires Consistent(t) && i < |t.log| && j < |t.log|
    requires t.log[i].OpReserve? && t.log[j].OpReserve? && t.actors[i].Call? && t.actors[j].Call?
    requires t.actors[i].event == t.actors[j].event
    ensures i == j
  {
    assert Serves(t, t.actors[i]) && Serves(t, t.actors[j]);
    assert Reserves(t, i, t.actors[i]) && Reserves(t, j, t.actors[i]);
  }

  /** A call that has done nothing yet. */
  ghost predicate NeverSeen(t: Trail, me: Actor) {
    me !in t.actors && forall e :: e in t.owner ==> t.owner[e] != me
  }

  /** A call that may reserve: it serves an event and has not reserved yet. */
  ghost predicate MayReserve(t: Trail, me: Actor) {
    |t.log| == |t.actors| && Serves(t, me) && !HasReserved(t, me)
  }

  function Then(t: Trail, op: Op, me: Actor): Trail {
    t.(log := t.log + [op], actors := t.actors + [me])
  }

  /** What the rules of the trail ask of an operation. */
  ghost predicate Permitted(t: Trail, op: Op, me: Actor) {
    && |t.log| == |t.actors| && me.Call? && Allowed(After(t.log), op)
    && (op.OpReserve? ==> MayReserve(t, me))
    && (op.OpFinalize? ==> Pays(t, me, op.id))
  }

  lemma ThenConsistent(t: Trail, op: Op, me: Actor)
    requires Consistent(t) && Permitted(t, op, me)
    ensures Consistent(Then(t, op, me))
  {
    hide Allowed, Hands;
    Extend(t.log, op);
    hide After, Legal;
    var t' := Then(t, op, me);
    assert forall i :: 0 <= i < |t.log| ==> t'.log[i] == t.log[i] && t'.actors[i] == t.actors[i];
    assert ReservationsFit(t') by {
      hide PaymentsFit;
      assert forall a :: Serves(t', a) == Serves(t, a);
      assert forall i, a :: 0 <= i < |t.log| ==> Reserves(t', i, a) == Reserves(t, i, a);
    }
    hide ReservationsFit, MayReserve;
    forall i | 0 <= i < |t'.log| && t'.log[i].OpFinalize? && t'.actors[i].Call?
      ensures Pays(t', t'.actors[i], t'.log[i].id)
    {
      PaysLater(t, t', t'.actors[i], t'.log[i].id);
    }
  }

  predicate Grew(t0: Trail, t1: Trail) {
    |t0.log| == |t0.actors| && |t1.log| == |t1.actors| && t0.log <= t1.log && t0.actors <= t1.actors
  }

  lemma PaysLater(t0: Trail, t1: Trail, me: Actor, id: Id)
    requires Grew(t0, t1) && Pays(t0, me, id)
    ensures Pays(t1, me, id)
  {
    hide Hands;
    var j :| 0 <= j < |t0.log| && t0.actors[j] == me && Hands(t0.log, j, id);
    HandsLater(t0.log, t1.log, j, id);
  }

  lemma HandsLater(log: seq<Op>, log': seq<Op>, j: nat, id: Id)
    requires log <= log' && j < |log|
    ensures Hands(log, j, id) == Hands(log', j, id)
  {
    hide After, Outcome;
    assert log'[..j] == log[..j];
  }

  // ---- What calls guarantee and rely on -------------------------------------------------

  /** What a thread looks at: a wallet, and the calls it makes. */
  datatype Watch = Watch(wallet: Wallet, calls: set<Actor>)

  function Joined(w: Watch, me: Actor): Watch {
    w.(calls := w.calls + {me})
  }

  /** The wallet exists and may not spend through requests. */
  predicate Guarded(db: Db, b: Wallet) {
    Present(db, b) && "pay_invoice" !in db.apps[b.id].scopes
  }

  /** The operation takes nothing from a guarded wallet. */
  predicate Harmless(db: Db, op: Op, w: Watch) {
    Guarded(db, w.wallet) ==> NoDebit(op, w.wallet)
  }

  predicate Polite(t: Trail, i: nat, w: Watch)
    requires i < |t.log| == |t.actors|
  {
    t.actors[i].Call? && t.actors[i] !in w.calls && Harmless(After(t.log[..i]).db, t.log[i], w)
  }

  /** Marked events stay marked and keep the call that marked them; none is dispatched twice, and those
      of the thread's own calls are dispatched by nobody else. */
  ghost predicate EventsKept(t0: Trail, t1: Trail, w: Watch) {
    && t0.processed <= t1.processed
    && (forall e :: e in t1.processed && e !in t0.processed ==> e in t1.owner)
    && (forall e :: e in t0.owner ==> e in t1.owner && t1.owner[e] == t0.owner[e])
    && (forall e :: e in t0.owner && e !in t0.claims ==> e !in t1.claims)
    && (forall e :: e in t1.owner && t1.owner[e] in w.calls ==> e in t0.owner && (e in t0.claims ==> e in t1.claims))
  }

  ghost predicate AllPolite(t: Trail, n: nat, w: Watch)
    requires |t.log| == |t.actors|
  {
    forall i :: n <= i < |t.log| ==> Polite(t, i, w)
  }

  /** The trail grew by steps of calls other than the thread's own. */
  ghost predicate Steps(t0: Trail, t1: Trail, w: Watch) {
    Grew(t0, t1) && AllPolite(t1, |t0.log|, w) && EventsKept(t0, t1, w)
  }

  lemma NoSteps(t: Trail, w: Watch)
    requires |t.actors| == |t.log|
    ensures Steps(t, t, w)
  {
  }

  lemma PoliteLater(t1: Trail, t2: Trail, i: nat, w: Watch)
    requires |t1.actors| == |t1.log| && |t2.actors| == |t2.log| && t1.log <= t2.log && t1.actors <= t2.actors
    requires i < |t1.log|
    ensures Polite(t1, i, w) == Polite(t2, i, w)
  {
    hide Harmless, After;
    assert t2.log[..i] == t1.log[..i];
  }

  lemma StepsTwice(t0: Trail, t1: Trail, t2: Trail, w: Watch)
    requires Steps(t0, t1, w) && Steps(t1, t2, w)
    ensures Steps(t0, t2, w)
  {
    hide Polite, EventsKept;
    forall i | |t0.log| <= i < |t2.log| ensures Polite(t2, i, w) {
      if i < |t1.log| { PoliteLater(t1, t2, i, w); }
    }
    EventsTwice(t0, t1, t2, w);
  }

  lemma EventsTwice(t0: Trail, t1: Trail, t2: Trail, w: Watch)
    requires EventsKept(t0, t1, w) && EventsKept(t1, t2, w)
    ensures EventsKept(t0, t2, w)
  {
  }

  /** A thread that looks at less sees no more. */
  lemma StepsFewer(t0: Trail, t1: Trail, w: Watch, w': Watch)
    requires Steps(t0, t1, w) && w'.wallet == w.wallet && w'.calls <= w.calls
    ensures Steps(t0, t1, w')
  {
    hide After, NoDebit, Guarded;
    forall i | |t0.log| <= i < |t1.log| ensures Polite(t1, i, w') {
      assert Polite(t1, i, w);
    }
  }

  /** One operation of one call. */
  lemma ThenSteps(t: Trail, op: Op, me: Actor, w: Watch)
    requires |t.actors| == |t.log| && me.Call? && me !in w.calls && Harmless(After(t.log).db, op, w)
    ensures Steps(t, Then(t, op, me), w)
  {
    hide After, Harmless;
    var t' := Then(t, op, me);
    assert t'.log[..|t.log|] == t.log;
  }

  // ---- The operations of one call -------------------------------------------------------

  function OwnOps(log: seq<Op>, actors: seq<Actor>, me: Actor): seq<Op>
    requires |log| == |actors|
  {
    if log == [] then []
    else
      var n := |log| - 1;
      OwnOps(log[..n], actors[..n], me) + (if actors[n] == me then [log[n]] else [])
  }

  /** What the call did between two trails. */
  function Done(t0: Trail, t1: Trail, me: Actor): seq<Op>
    requires Grew(t0, t1)
  {
    OwnOps(t1.log[|t0.log|..], t1.actors[|t0.log|..], me)
  }

  lemma {:induction false} OwnOpsConcat(log: seq<Op>, actors: seq<Actor>, log': seq<Op>, actors': seq<Actor>, me: Actor)
    requires |log| == |actors| && |log'| == |actors'|
    ensures OwnOps(log + log', actors + actors', me) == OwnOps(log, actors, me) + OwnOps(log', actors', me)
  {
    if log' == [] {
      assert log + log' == log && actors + actors' == actors;
    } else {
      var n := |log'| - 1;
      assert (log + log')[..|log| + n] == log + log'[..n];
      assert (actors + actors')[..|log| + n] == actors + actors'[..n];
      OwnOpsConcat(log, actors, log'[..n], actors'[..n], me);
    }
  }

  lemma DoneGrows(t0: Trail, t1: Trail, t2: Trail, me: Actor)
    requires Grew(t0, t1) && Grew(t1, t2)
    ensures Done(t0, t2, me) == Done(t0, t1, me) + Done(t1, t2, me)
  {
    hide OwnOps;
    var m, n := |t0.log|, |t1.log|;
    assert t2.log[m..] == t1.log[m..] + t2.log[n..];
    assert t2.actors[m..] == t1.actors[m..] + t2.actors[n..];
    OwnOpsConcat(t1.log[m..], t1.actors[m..], t2.log[n..], t2.actors[n..], me);
  }

  lemma DoneOnce(t: Trail, op: Op, me: Actor)
    requires |t.actors| == |t.log|
    ensures Done(t, Then(t, op, me), me) == [op]
  {
    assert Then(t, op, me).log[|t.log|..] == [op] && Then(t, op, me).actors[|t.log|..] == [me];
    assert OwnOps([], [], me) == [];
  }

  lemma {:induction false} NotAmong(log: seq<Op>, actors: seq<Actor>, me: Actor)
    requires |log| == |actors| && me !in actors
    ensures OwnOps(log, actors, me) == []
  {
    if log != [] { NotAmong(log[..|log| - 1], actors[..|log| - 1], me); }
  }

  /** While others run, a call does nothing. */
  lemma DoneByOthers(t0: Trail, t1: Trail, w: Watch, me: Actor)
    requires Steps(t0, t1, w) && me in w.calls
    ensures Done(t0, t1, me) == []
  {
    hide OwnOps, Harmless, EventsKept;
    var rest := t1.actors[|t0.log|..];
    forall k | 0 <= k < |rest| ensures rest[k] != me {
      assert Polite(t1, |t0.log| + k, w);
    }
    NotAmong(t1.log[|t0.log|..], rest, me);
  }

  lemma {:induction false} OwnAt(log: seq<Op>, actors: seq<Actor>, me: Actor, op: Op) returns (i: nat)
    requires |log| == |actors| && op in OwnOps(log, actors, me)
    ensures i < |log| && log[i] == op && actors[i] == me
  {
    var n := |log| - 1;
    if op in OwnOps(log[..n], actors[..n], me) {
      i := OwnAt(log[..n], actors[..n], me, op);
    } else {
      i := n;
    }
  }

  /** What a call did stands in the run, at a place of its own. */
  lemma DoneAt(t0: Trail, t1: Trail, me: Actor, op: Op) returns (i: nat)
    requires Grew(t0, t1) && op in Done(t0, t1, me)
    ensures |t0.log| <= i < |t1.log| && t1.log[i] == op && t1.actors[i] == me
  {
    hide OwnOps;
    var k := OwnAt(t1.log[|t0.log|..], t1.actors[|t0.log|..], me, op);
    i := |t0.log| + k;
  }

  /** First a call waits while others run, then it acts. */
  lemma OthersFirst(t0: Trail, t1: Trail, t2: Trail, w: Watch, me: Actor)
    requires Steps(t0, t1, Joined(w, me)) && Steps(t1, t2, w)
    ensures Steps(t0, t2, w) && Done(t0, t2, me) == Done(t1, t2, me)
  {
    hide AllPolite, EventsKept, Done;
    StepsFewer(t0, t1, Joined(w, me), w);
    StepsTwice(t0, t1, t2, w);
    DoneGrows(t0, t1, t2, me);
    DoneByOthers(t0, t1, Joined(w, me), me);
  }

  /** A call acts, then waits while others run. */
  lemma ThenOthers(t0: Trail, t1: Trail, t2: Trail, w: Watch, me: Actor)
    requires Steps(t0, t1, w) && Steps(t1, t2, Joined(w, me))
    ensures Steps(t0, t2, w) && Done(t0, t2, me) == Done(t0, t1, me)
  {
    hide AllPolite, EventsKept, Done;
    StepsFewer(t1, t2, Joined(w, me), w);
    StepsTwice(t0, t1, t2, w);
    DoneGrows(t0, t1, t2, me);
    DoneByOthers(t1, t2, Joined(w, me), me);
  }

  /** A call acts twice in turn. */
  lemma InTurn(t0: Trail, t1: Trail, t2: Trail, w: Watch, me: Actor)
    requires Steps(t0, t1, w) && Steps(t1, t2, w)
    ensures Steps(t0, t2, w) && Done(t0, t2, me) == Done(t0, t1, me) + Done(t1, t2, me)
  {
    hide AllPolite, EventsKept, Done;
    StepsTwice(t0, t1, t2, w);
    DoneGrows(t0, t1, t2, me);
  }

  // ---- What others leave alone ----------------------------------------------------------

  lemma StillClaims(t0: Trail, t1: Trail, w: Watch, me: Actor)
    requires Steps(t0, t1, w) && me in w.calls && Claims(t0, me)
    ensures Claims(t1, me)
  {
    hide Polite;
  }

  /** Marking an event that was not yet processed. */
  function Marked(t: Trail, event: string, me: Actor): Trail {
    t.(processed := t.processed + {event}, owner := t.owner[event := me], claims := t.claims + {event})
  }

  lemma MarkSteps(t: Trail, event: string, me: Actor, w: Watch)
    requires Consistent(t) && me.Call? && me.event == Some(event) && event !in t.processed && me !in w.calls
    ensures Consistent(Marked(t, event, me)) && Steps(t, Marked(t, event, me), w) && Claims(Marked(t, event, me), me)
    ensures Done(t, Marked(t, event, me), me) == []
  {
    hide Legal, Polite, Hands;
    var t' := Marked(t, event, me);
    assert forall a :: Serves(t, a) ==> Serves(t', a);
    assert forall i, a :: 0 <= i < |t.log| ==> Reserves(t', i, a) == Reserves(t, i, a);
    assert PaymentsFit(t');
    assert t.log[|t.log|..] == [];
  }

  /** Dispatching the request of an event. */
  function Dispatched(t: Trail, event: string): Trail {
    t.(claims := t.claims - {event})
  }

  lemma DispatchSteps(t: Trail, event: string, me: Actor, w: Watch)
    requires Consistent(t) && Claims(t, me) && me.event == Some(event) && me !in w.calls
    ensures var t' := Dispatched(t, event);
            Consistent(t') && Steps(t, t', w) && MayReserve(t', me) && Done(t, t', me) == []
  {
    hide Legal, Polite, Hands;
    var t' := Dispatched(t, event);
    assert forall a :: Serves(t, a) ==> Serves(t', a);
    assert forall i, a :: 0 <= i < |t.log| ==> Reserves(t', i, a) == Reserves(t, i, a);
    assert forall i :: 0 <= i < |t.log| && Reserves(t', i, me) ==> Reserves(t, i, t.actors[i]);
    assert PaymentsFit(t');
    assert t.log[|t.log|..] == [];
  }

  // ---- What holds of the tables while others run ----------------------------------------

  /** A guarded wallet never loses anything. */
  lemma {:induction false} GuardedKept(t0: Trail, t1: Trail, w: Watch, n: nat)
    requires Legal(t1.log) && Steps(t0, t1, w) && Guarded(Tables(t0), w.wallet) && |t0.log| <= n <= |t1.log|
    ensures NotLowered(Tables(t0), After(t1.log[..n]).db, w.wallet)
    decreases n
  {
    if n == |t0.log| {
      assert t1.log[..n] == t0.log;
    } else {
      hide After, Legal, EventsKept, Inv, Allowed, NoDebit, Perform;
      GuardedKept(t0, t1, w, n - 1);
      LegalPrefix(t1.log, n - 1);
      InvHolds(t1.log[..n - 1]);
      assert Polite(t1, n - 1, w);
      NoDebitStep(After(t1.log[..n - 1]), t1.log[n - 1], w.wallet);
    }
  }

  /** a was the key of a wallet with these scopes, and is no other wallet's. */
  predicate WalletWas(db: Db, a: Id, scopes: seq<string>) {
    a < db.nextApp && (a in db.apps ==> db.apps[a].scopes == scopes)
  }

  lemma WalletWasStep(s: State, op: Op, a: Id, scopes: seq<string>)
    requires Inv(s) && WalletWas(s.db, a, scopes)
    ensures WalletWas(Perform(s.db, op), a, scopes)
  {
    hide Perform;
    CountersGrow(s.db, op);
    ScopesStep(s.db, op, a);
    if a in Perform(s.db, op).apps && a !in s.db.apps { OldAppsOnly(s.db, op, a); }
    hide Inv;
  }

  lemma ScopesStep(db: Db, op: Op, a: Id)
    requires a < db.nextApp
    ensures a in db.apps && a in Perform(db, op).apps ==> Perform(db, op).apps[a].scopes == db.apps[a].scopes
  {
    hide LatestIncoming, Sum, InternalInvoice, Creditable, WithinBudget, Total;
  }

  /** Scopes are never changed and keys never used again. */
  lemma {:induction false} WalletStays(ops: seq<Op>, n: nat, m: nat, a: Id, scopes: seq<string>)
    requires Legal(ops) && n <= m <= |ops| && WalletWas(After(ops[..n]).db, a, scopes)
    ensures WalletWas(After(ops[..m]).db, a, scopes)
    decreases m
  {
    hide *;
    if n < m {
      WalletStays(ops, n, m - 1, a, scopes);
      WalletStaysOnce(ops, m - 1, a, scopes);
    }
  }

  lemma WalletStaysOnce(ops: seq<Op>, m: nat, a: Id, scopes: seq<string>)
    requires Legal(ops) && m < |ops| && WalletWas(After(ops[..m]).db, a, scopes)
    ensures WalletWas(After(ops[..m + 1]).db, a, scopes)
  {
    hide *;
    LegalPrefix(ops, m);
    InvHolds(ops[..m]);
    WalletWasStep(After(ops[..m]), ops[m], a, scopes);
  }

  /** id is spent, and its row, while it exists, has this app, kind and hash. */
  predicate RowWas(db: Db, id: Id, a: Id, kind: Kind, hash: string) {
    id < db.nextTx && (id in db.txs ==> db.txs[id].app == a && db.txs[id].kind == kind && db.txs[id].paymentHash == hash)
  }

  lemma RowWasStep(s: State, op: Op, id: Id, a: Id, kind: Kind, hash: string)
    requires Inv(s) && RowWas(s.db, id, a, kind, hash)
    ensures RowWas(Perform(s.db, op), id, a, kind, hash)
  {
    CountersGrow(s.db, op);
    if id in Perform(s.db, op).txs { RowsArise(s.db, op, id); }
    hide Perform, Inv;
  }

  lemma {:induction false} RowStays(ops: seq<Op>, n: nat, m: nat, id: Id, a: Id, kind: Kind, hash: string)
    requires Legal(ops) && n <= m <= |ops| && RowWas(After(ops[..n]).db, id, a, kind, hash)
    ensures RowWas(After(ops[..m]).db, id, a, kind, hash)
    decreases m
  {
    hide *;
    if n < m {
      RowStays(ops, n, m - 1, id, a, kind, hash);
      RowStaysOnce(ops, m - 1, id, a, kind, hash);
    }
  }

  lemma RowStaysOnce(ops: seq<Op>, m: nat, id: Id, a: Id, kind: Kind, hash: string)
    requires Legal(ops) && m < |ops| && RowWas(After(ops[..m]).db, id, a, kind, hash)
    ensures RowWas(After(ops[..m + 1]).db, id, a, kind, hash)
  {
    hide *;
    LegalPrefix(ops, m);
    InvHolds(ops[..m]);
    RowWasStep(After(ops[..m]), ops[m], id, a, kind, hash);
  }

  /** id is spent, and its row, while it exists, is a pending outgoing payment. */
  ghost predicate InFlight(db: Db, id: Id) {
    id < db.nextTx && (id in db.txs ==> db.txs[id].kind == Outgoing && db.txs[id].state == Pending)
  }

  lemma InFlightStep(s: State, op: Op, id: Id)
    requires Inv(s) && InFlight(s.db, id) && (op.OpFinalize? ==> op.id != id)
    ensures InFlight(Perform(s.db, op), id)
  {
    CountersGrow(s.db, op);
    CreditedIsUnsettledInvoice(s.db, op);
    if id in Perform(s.db, op).txs {
      RowsArise(s.db, op, id);
      hide Inv, Perform, CreditedRow, Outcome;
    }
  }

  /** A reservation uses up the next key. */
  lemma Handing(log: seq<Op>, j: nat, id: Id)
    requires Legal(log) && j < |log| && Hands(log, j, id)
    ensures Legal(log[..j]) && After(log[..j]).db.nextTx == id
    ensures After(log[..j + 1]).db.nextTx == id + 1 && id in After(log[..j + 1]).issued
  {
    hide After, Legal, Allowed, Outcome, Perform, Inv, CreditedRow, OverrunAfter, SentAfter;
    LegalPrefix(log, j);
    InvHolds(log[..j]);
    ReservationCounts(After(log[..j]), log[j]);
  }

  lemma ReservationCounts(s: State, op: Op)
    requires Inv(s) && op.OpReserve? && Outcome(s.db, op).Ok?
    ensures Step(s, op).db.nextTx == s.db.nextTx + 1 && s.db.nextTx in Step(s, op).issued
  {
    hide Perform, CreditedRow;
    CountersGrow(s.db, op);
  }

  /** A reserved payment has a key of its own. */
  lemma HandedOnce(log: seq<Op>, i: nat, j: nat, id: Id)
    requires Legal(log) && i < j < |log| && Hands(log, i, id)
    ensures !Hands(log, j, id)
  {
    hide *;
    if Hands(log, j, id) {
      Handing(log, i, id);
      Handing(log, j, id);
      assert log[..i + 1] + log[i + 1..j] == log[..j];
      CountersMonotone(log[..i + 1], log[i + 1..j]);
    }
  }

  /** Its key stays handed out. */
  lemma HandedForGood(log: seq<Op>, j: nat, id: Id)
    requires Legal(log) && j < |log| && Hands(log, j, id)
    ensures id in After(log).issued
  {
    hide *;
    Handing(log, j, id);
    assert log[..j + 1] + log[j + 1..] == log;
    IssuedForGood(log[..j + 1], log[j + 1..], id);
  }

  lemma PaysIssued(t: Trail, me: Actor, id: Id)
    requires Consistent(t) && Pays(t, me, id)
    ensures id in After(t.log).issued
  {
    hide After, Legal, Hands, ReservationsFit, PaymentsFit;
    var j :| 0 <= j < |t.log| && t.actors[j] == me && Hands(t.log, j, id);
    HandedForGood(t.log, j, id);
  }

  /** No call but the one that reserved a payment finalises it. */
  lemma NobodyElsePays(t: Trail, me: Actor, id: Id, i: nat)
    requires Consistent(t) && Pays(t, me, id)
    requires i < |t.log| && t.log[i].OpFinalize? && t.log[i].id == id && t.actors[i].Call?
    ensures t.actors[i] == me
  {
    hide After, Legal, Hands, ReservationsFit;
    var j :| 0 <= j < |t.log| && t.actors[j] == me && Hands(t.log, j, id);
    var k :| 0 <= k < |t.log| && t.actors[k] == t.actors[i] && Hands(t.log, k, id);
    if j < k { HandedOnce(t.log, j, k, id); }
    if k < j { HandedOnce(t.log, k, j, id); }
  }

  /** Until the call that reserved a payment finalises it, the payment stays pending, or is deleted with its
      wallet, whatever others do. */
  lemma {:induction false} InFlightUntilFinalised(t0: Trail, t1: Trail, w: Watch, me: Actor, id: Id, n: nat)
    requires Consistent(t1) && Steps(t0, t1, w) && me in w.calls && Pays(t1, me, id) && |t0.log| <= n <= |t1.log|
    requires InFlight(Tables(t0), id)
    ensures InFlight(After(t1.log[..n]).db, id)
    decreases n
  {
    hide After, Legal, EventsKept, Inv, Allowed, Harmless, Perform, InFlight, Outcome, ReservationsFit, PaymentsFit,
         Pays;
    if n == |t0.log| {
      assert t1.log[..n] == t0.log;
    } else {
      InFlightUntilFinalised(t0, t1, w, me, id, n - 1);
      LegalPrefix(t1.log, n - 1);
      InvHolds(t1.log[..n - 1]);
      assert Polite(t1, n - 1, w);
      var op := t1.log[n - 1];
      if op.OpFinalize? && op.id == id { NobodyElsePays(t1, me, id, n - 1); }
      InFlightStep(After(t1.log[..n - 1]), op, id);
    }
  }

  // ---- From one trail to a later one ------------------------------------------------------

  lemma NothingDone(t: Trail, w: Watch, me: Actor)
    requires Consistent(t)
    ensures Steps(t, t, w) && Done(t, t, me) == []
  {
    hide Polite;
  }

  lemma StaysDispatched(t0: Trail, t1: Trail, event: string, w: Watch)
    requires Steps(t0, t1, w) && event in t0.owner && event !in t0.claims
    ensures event !in t1.claims
  {
  }

  lemma StaysOwner(t0: Trail, t1: Trail, event: string, w: Watch)
    requires Steps(t0, t1, w) && event in t0.owner
    ensures event in t1.owner && t1.owner[event] == t0.owner[event]
  {
  }

  lemma NeverOwned(t0: Trail, t1: Trail, w: Watch, me: Actor)
    requires NeverSeen(t0, me) && Steps(t0, t1, w) && (t0 == t1 || me in w.calls)
    ensures !Owns(t1, me)
  {
    hide AllPolite;
  }

  lemma MarkedByThen(t0: Trail, t1: Trail, event: string, w: Watch)
    requires Steps(t0, t1, w)
    ensures event in t0.processed ==> event in t1.processed
    ensures event in t1.processed && event !in t0.processed ==> event in t1.owner
  {
  }

  lemma NothingLost(t0: Trail, t1: Trail, w: Watch)
    requires Consistent(t1) && Steps(t0, t1, w)
    ensures Guarded(Tables(t0), w.wallet) ==> NotLowered(Tables(t0), Tables(t1), w.wallet)
  {
    hide After, Legal, Guarded, NotLowered, ReservationsFit, PaymentsFit, AllPolite, EventsKept;
    if Guarded(Tables(t0), w.wallet) {
      GuardedKept(t0, t1, w, |t1.log|);
      assert t1.log[..|t1.log|] == t1.log;
    }
  }

  /** Scopes are kept and keys are not used again while a run grows. */
  lemma WalletKept(t0: Trail, t1: Trail, a: Id, scopes: seq<string>)
    requires Consistent(t1) && Grew(t0, t1) && WalletWas(Tables(t0), a, scopes)
    ensures WalletWas(Tables(t1), a, scopes)
  {
    hide After, Legal, WalletWas, ReservationsFit, PaymentsFit;
    assert t1.log[..|t0.log|] == t0.log && t1.log[..|t1.log|] == t1.log;
    WalletStays(t1.log, |t0.log|, |t1.log|, a, scopes);
  }

  lemma RowKept(t0: Trail, t1: Trail, id: Id, a: Id, kind: Kind, hash: string)
    requires Legal(t1.log) && Grew(t0, t1) && RowWas(Tables(t0), id, a, kind, hash)
    ensures RowWas(Tables(t1), id, a, kind, hash)
  {
    hide After, Legal, RowWas;
    assert t1.log[..|t0.log|] == t0.log && t1.log[..|t1.log|] == t1.log;
    RowStays(t1.log, |t0.log|, |t1.log|, id, a, kind, hash);
  }

  /** A call that has reserved just now. */
  lemma PaysNow(t: Trail, op: Op, me: Actor)
    requires |t.actors| == |t.log| && op.OpReserve? && Outcome(Tables(t), op).Ok?
    ensures Pays(Then(t, op, me), me, Tables(t).nextTx)
  {
    hide After, Outcome;
    var t' := Then(t, op, me);
    assert t'.log[..|t.log|] == t.log;
    assert Hands(t'.log, |t.log|, Tables(t).nextTx);
  }

  lemma StillInFlight(t0: Trail, t1: Trail, w: Watch, me: Actor, id: Id)
    requires Consistent(t1) && Steps(t0, t1, w) && me in w.calls && Pays(t0, me, id) && InFlight(Tables(t0), id)
    ensures InFlight(Tables(t1), id) && id in After(t1.log).issued && Pays(t1, me, id)
  {
    hide After, Legal, InFlight, Pays, ReservationsFit, PaymentsFit, AllPolite, EventsKept;
    PaysLater(t0, t1, me, id);
    PaysIssued(t1, me, id);
    InFlightUntilFinalised(t0, t1, w, me, id, |t1.log|);
    assert t1.log[..|t1.log|] == t1.log;
  }
}
