/** The store object: tables updated in place inside transactions, with rollback on error, proved
    to do what the ledger functions say. The log lists the operations performed, so every state of
    a store is a state of a run. */
module NwcStore {
  import opened Wrappers
  import opened Ledger
  import opened LedgerRuns
  import opened LedgerEffects

  class NwcStore {
    var apps: map<Id, App>
    var txs: map<Id, Tx>
    var nextApp: Id
    var nextTx: Id
    var processed: set<string>
    ghost var log: seq<Op>

    function Tables(): Db
      reads this
    {
      Db(apps, txs, nextApp, nextTx)
    }

    ghost predicate Valid()
      reads this
    {
      WellFormed(Tables()) && Tables() == After(log).db
    }

    /** The call performed op: the tables and the error, if any, are those of the ledger, and on an
        error nothing changed. */
    twostate predicate Performed(op: Op, error: Option<StoreError>)
      reads this
    {
      && log == old(log) + [op]
      && processed == old(processed)
      && match Outcome(old(Tables()), op)
         case Ok(db) => error == None && Tables() == db
         case Err(e) => error == Some(e) && Tables() == old(Tables())
    }

    constructor ()
      ensures Valid() && Tables() == EMPTY && log == [] && processed == {}
    {
      apps, txs, nextApp, nextTx := map[], map[], 1, 1;
      processed, log := {}, [];
    }

    // ---- Transactions and row updates --------------------------------------------------

    method Rollback(saved: Db)
      modifies this`apps, this`txs, this`nextApp, this`nextTx
      ensures Tables() == saved
    {
      apps, txs, nextApp, nextTx := saved.apps, saved.txs, saved.nextApp, saved.nextTx;
    }

    method UpdateBalance(a: Id, delta: int)
      modifies this`apps
      ensures Tables() == AddBalance(old(Tables()), a, delta)
    {
      if a in apps {
        apps := apps[a := apps[a].(balance := apps[a].balance + delta)];
      }
    }

    method InsertTx(tx: Tx) returns (id: Id)
      modifies this`txs, this`nextTx
      ensures id == old(nextTx) && Tables() == Insert(old(Tables()), tx)
    {
      id := nextTx;
      txs := txs[id := tx];
      nextTx := id + 1;
    }

    method UpdateTx(id: Id, tx: Tx)
      modifies this`txs
      ensures Tables() == SetRow(old(Tables()), id, tx)
    {
      txs := txs[id := tx];
    }

    ghost method Record(op: Op)
      requires Valid()
      modifies this`log
      ensures log == old(log) + [op] && After(log).db == Perform(Tables(), op)
      ensures WellFormed(Perform(Tables(), op))
    {
      Extend(log, op);
      WellFormedKept(Tables(), op);
      log := log + [op];
    }

    // ---- The store's operations --------------------------------------------------------

    /** The public keys are inputs: create_app draws both key pairs at random. */
    method CreateApp(appPubkey: string, walletPubkey: string, maxAmountSat: int, scopes: seq<string>)
      returns (r: Result<Id, StoreError>)
      requires Valid()
      modifies this
      ensures Valid()
      ensures Performed(OpCreate(appPubkey, walletPubkey, maxAmountSat, scopes), if r.Ok? then None else Some(r.error))
      ensures r.Ok? ==> r.value == old(nextApp) && r.value in apps
    {
      hide WellFormed, After, LatestIncoming, Sum;
      Record(OpCreate(appPubkey, walletPubkey, maxAmountSat, scopes));
      if exists a :: a in apps && (apps[a].appPubkey == appPubkey || apps[a].walletPubkey == walletPubkey) {
        return Err(UniqueViolation);
      }
      var id := nextApp;
      apps := apps[id := App(appPubkey, walletPubkey, 0, maxAmountSat, scopes)];
      nextApp := id + 1;
      return Ok(id);
    }

    method DeleteAppByPubkey(appPubkey: string) returns (deleted: bool)
      requires Valid()
      modifies this
      ensures Valid() && Performed(OpDelete(appPubkey), None)
      ensures deleted <==> exists a :: a in old(apps) && old(apps)[a].appPubkey == appPubkey
      ensures forall a :: a in apps <==> a in old(apps) && old(apps)[a].appPubkey != appPubkey
      ensures forall id :: id in txs <==> id in old(txs) && old(txs)[id].app in apps
    {
      hide WellFormed, After, LatestIncoming, Sum;
      Record(OpDelete(appPubkey));
      var kept := map a | a in apps && apps[a].appPubkey != appPubkey :: apps[a];
      deleted := exists a :: a in apps && apps[a].appPubkey == appPubkey;
      txs := map id | id in txs && txs[id].app in kept :: txs[id];
      apps := kept;
    }

    /** The paying wallet is debited and its row inserted before the destination is looked up; a missing
        destination undoes both. */
    method Transfer(from: Option<Id>, to: Option<Id>, amount: int) returns (r: Result<int, StoreError>)
      requires Valid()
      modifies this
      ensures Valid() && Performed(OpTransfer(from, to, amount), if r.Ok? then None else Some(r.error))
      ensures r.Ok? ==> r.value == amount
    {
      hide WellFormed, After, LatestIncoming, Sum;
      Record(OpTransfer(from, to, amount));
      if amount <= 0 { return Err(InvalidAmount); }
      if from.None? && to.None? { return Err(InvalidTransfer); }
      var saved := Tables();
      if from.Some? {
        if from.value !in apps { Rollback(saved); return Err(NotFound); }
        if apps[from.value].balance < amount { Rollback(saved); return Err(InsufficientBalance); }
        UpdateBalance(from.value, -amount);
        var _ := InsertTx(TransferRow(from.value, Outgoing, amount));
      }
      if to.Some? {
        if to.value !in apps { Rollback(saved); return Err(NotFound); }
        UpdateBalance(to.value, amount);
        var _ := InsertTx(TransferRow(to.value, Incoming, amount));
      }
      return Ok(amount);
    }

    method RecordIncomingInvoice(a: Id, hash: string, amount: int) returns (r: Result<Id, StoreError>)
      requires Valid()
      modifies this
      ensures Valid() && Performed(OpRecord(a, hash, amount), if r.Ok? then None else Some(r.error))
      ensures r.Ok? ==> r.value == old(nextTx)
    {
      hide WellFormed, After, LatestIncoming, Sum;
      Record(OpRecord(a, hash, amount));
      if a !in apps { return Err(NotFound); }
      var id := InsertTx(Tx(a, Incoming, Pending, amount, 0, 0, hash, ""));
      return Ok(id);
    }

    method SettleIncomingByPaymentHash(hash: string, amount: Option<int>, preimage: string)
      returns (row: Option<Id>, newly: bool)
      requires Valid()
      modifies this
      ensures Valid() && Performed(OpSettle(hash, amount, preimage), None)
      ensures Settles(old(Tables()), Tables(), hash, amount, preimage)
      ensures newly <==> Creditable(old(Tables()), hash).Some?
      ensures newly ==> row == Creditable(old(Tables()), hash)
      ensures row.Some? ==> row.value in txs
    {
      hide WellFormed, After, LatestIncoming, Sum, Settles;
      SettleExactly(Tables(), hash, amount, preimage);
      Record(OpSettle(hash, amount, preimage));
      row := LatestIncoming(txs, hash, false, nextTx);
      if row.None? { return None, false; }
      var tx := txs[row.value];
      if tx.state == Settled { return row, false; }
      var credit := if amount.Some? then amount.value else tx.amount;
      UpdateTx(row.value, tx.(state := Settled, amount := credit,
                              preimage := if preimage != "" then preimage else tx.preimage));
      UpdateBalance(tx.app, credit);
      return row, true;
    }

    method CheckBudget(a: Id, needed: int) returns (ok: bool)
      requires a in apps
      ensures ok <==> WithinBudget(Tables(), a, needed)
    {
      var maxSat := apps[a].maxAmountSat;
      if maxSat <= 0 { return true; }
      var used := Total(Spending(a), Tables());
      return used + needed <= maxSat * 1000;
    }

    method ReserveOutgoingPayment(a: Id, amount: int, feeReserve: int, hash: string)
      returns (r: Result<(Id, Option<Id>), StoreError>)
      requires Valid()
      modifies this
      ensures Valid() && Performed(OpReserve(a, amount, feeReserve, hash), if r.Ok? then None else Some(r.error))
      ensures r.Ok? ==> r.value.0 == old(nextTx) && r.value.0 in txs
      ensures r.Ok? ==> (r.value.1.Some? <==> InternalInvoice(old(Tables()), hash).Some?)
      ensures r.Ok? && r.value.1.Some? ==> r.value.1.value == old(txs)[InternalInvoice(old(Tables()), hash).value].app
    {
      hide WellFormed, After, LatestIncoming, Sum;
      Record(OpReserve(a, amount, feeReserve, hash));
      if a !in apps { return Err(NotFound); }
      var internalInc := if hash != "" then LatestIncoming(txs, hash, true, nextTx) else None;
      if internalInc.Some? {
        if apps[a].balance < amount { return Err(InsufficientBalance); }
        var within := CheckBudget(a, amount);
        if !within { return Err(QuotaExceeded); }
        var inv := txs[internalInc.value];
        UpdateBalance(a, -amount);
        UpdateBalance(inv.app, amount);
        UpdateTx(internalInc.value, inv.(state := Settled, amount := amount));
        var outId := InsertTx(Tx(a, Outgoing, Settled, amount, 0, 0, hash, inv.preimage));
        return Ok((outId, Some(inv.app)));
      }
      var totalReserve := amount + feeReserve;
      if apps[a].balance < totalReserve { return Err(InsufficientBalance); }
      var within := CheckBudget(a, totalReserve);
      if !within { return Err(QuotaExceeded); }
      UpdateBalance(a, -totalReserve);
      var outId := InsertTx(Tx(a, Outgoing, Pending, amount, 0, feeReserve, hash, ""));
      return Ok((outId, None));
    }

    method FinalizeOutgoingPayment(id: Id, succeeded: bool, preimage: string, feesPaid: int)
      returns (r: Result<Tx, StoreError>)
      requires Valid()
      modifies this
      ensures Valid() && Performed(OpFinalize(id, succeeded, preimage, feesPaid), if r.Ok? then None else Some(r.error))
      ensures r.Ok? ==> id in txs && r.value == txs[id]
    {
      hide WellFormed, After, LatestIncoming, Sum;
      Record(OpFinalize(id, succeeded, preimage, feesPaid));
      if id !in txs { return Err(NotFound); }
      var tx := txs[id];
      if tx.state != Pending { return Ok(tx); }
      if succeeded {
        var actualFee := Max(0, feesPaid);
        var refund := Max(0, tx.feeReserve - actualFee);
        AddZero(Tables(), tx.app);
        if refund > 0 {
          UpdateBalance(tx.app, refund);
        }
        UpdateTx(id, tx.(state := Settled, feesPaid := actualFee, feeReserve := 0, preimage := preimage));
      } else {
        UpdateBalance(tx.app, tx.amount + tx.feeReserve);
        UpdateTx(id, tx.(state := Failed, feeReserve := 0));
      }
      return Ok(txs[id]);
    }

    method SetPreimageForHash(hash: string, preimage: string)
      requires Valid()
      modifies this
      ensures Valid() && Performed(OpSetPreimage(hash, preimage), None)
    {
      hide WellFormed, After, LatestIncoming, Sum;
      Record(OpSetPreimage(hash, preimage));
      if hash == "" || preimage == "" { return; }
      txs := map id | id in txs :: if txs[id].paymentHash == hash then txs[id].(preimage := preimage) else txs[id];
    }

    /** True exactly when the event is new. */
    method MarkEventProcessed(eventId: string) returns (isNew: bool)
      requires Valid()
      modifies this`processed
      ensures Valid()
      ensures isNew <==> eventId !in old(processed)
      ensures processed == old(processed) + {eventId}
    {
      if eventId in processed { return false; }
      processed := processed + {eventId};
      return true;
    }
  }
}
