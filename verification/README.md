# Sovran NWC: a verified model

`packages/sovran-nwc` gives each paired app a sub-wallet on one Lightning node and serves it over
Nostr Wallet Connect (NIP-47). This project models its ledger, its payment handlers and the
cryptography and codecs beneath them, and proves what they promise.

| module | what it models |
|---|---|
| `Ledger`, `LedgerRuns` | what every store operation does to the two tables, and what holds after any interleaving of operations |
| `LedgerEffects` | when each operation is refused, and exactly which balances and rows it changes otherwise |
| `SpendingCaps` | which operations take a wallet past its spending cap |
| `NwcStore` | the store object, its tables updated in place inside transactions with rollback, proved to do what `Ledger` says |
| `NwcThreads` | who performed which operation, what every call of a handler guarantees to the calls beside it, and what follows over any run |
| `NwcDaemon` | the NIP-47 handlers over the store, with other threads running between any two store calls |
| `ModularArithmetic`, `Secp256k1`, `ScalarMultiplication`, `Bip340` | Jacobian curve arithmetic, the double-and-add loop, lifting of abscissas, Schnorr signatures and x-only key agreement |
| `AesSbox`, `AesSboxOrigin`, `Gf256`, `Aes256`, `AesStandard`, `Aes256Cbc` | AES-256, proved to be the cipher and key expansion of FIPS 197, CBC and PKCS#7 |
| `ChaCha20`, `ChaCha20Examples`, `Nip44`, `NostrEncryption` | ChaCha20, proved on the example of RFC 8439, NIP-44 padding and envelope, and NIP-44 and NIP-04 messages end to end |
| `WebSocket` | the client's frames, fragments, pings and pongs |
| `BitRegrouping`, `Bech32` | bit regrouping, the Bech32 checksum and text form |
| `RateLimiter`, `Pagination` | the LNURL service's sliding windows, the hub client's page loop |
| `Bytes`, `Hex`, `Primitives`, `Wrappers` | byte strings, hexadecimal text, library calls as parameters, optional values and errors |

Code that loops or updates fields is a method or a class here, and its contract equates the result
with a specification function; the promises are lemmas about those functions. Every lemma holds for
all inputs, all runs and all interleavings that its `requires` admits.

## Hypotheses

- The curve (`ScalarMultiplication.Group`): `z^(p-2)` inverts every nonzero `z`, `p` is 3 modulo 4, the
  affine law is associative on the curve, the base point is on the curve and its `n`-fold sum is the
  point at infinity, and no point has abscissa 0. What can be computed of this for secp256k1 is in
  `Bip340.Secp256k1Constants`. The group law of two on-curve points is proved to stay on the curve,
  not assumed.
- Hashes are arbitrary functions; where a length matters, digests are 32 bytes.
- Base64 and UTF-8 decode what they encode, base64 gives four characters per three bytes begun, and its
  alphabet has neither `#` nor `?` (`Primitives.Library`).
- The node and the callers (`LedgerRuns.Allowed`): amounts the node reports are not negative, payments
  are positive, and only ids handed out by a reservation are finalised. Two further conditions are
  named where a result needs them: fees within the reserve (`FeesWithinReserve`), which the node is
  given as a limit, and a hash of its own for each invoice (`FreshHashes`).
- Between two store calls of a handler other threads take any number of steps that follow the rules every
  handler is itself proved to follow (`NwcThreads.Consistent`, `NwcThreads.Steps`): reservations are made only by
  a call that marked its event, once; a payment is finalised only by the call that reserved it; events keep
  the call that marked them; and a wallet without the spend scope is neither debited nor deleted. An
  operator's debit or delete of such a wallet is outside the last rule, and is covered by the lemmas of
  `LedgerRuns` and `SpendingCaps`, which bar nothing.
- Each store call is atomic, as the store's lock and its immediate transactions make it.

## Where the code and its words part

The model follows the code.

- A wallet's balance equals its rows exactly when no fee of its payments exceeded the reserve: a larger fee
  is settled in full in the row, but not taken from the balance (`LedgerIdentity`, with a failing run in
  `FeeAboveReserveBreaksIdentity`).
- The spending cap counts operator transfers out but does not hold them back. A run keeps a wallet within its
  cap exactly when no transfer out of it, and no fee reported for it, exceeds what the cap has left at
  that point (`SpendingCaps.CapIff`, with a failing run in `TransferOutPassesCap`). It is a lifetime cap: the
  stored budget renewal is read by nothing.
- `_finish_internal_payment` speaks of a verifiable preimage; the response carries an empty string exactly when
  neither the ledger nor the node has one.
- `_check_alias_rate_limit` says that its alias is already validated; the request handler calls it with the
  path segment as received, before any validation. Keys are arbitrary strings here.
- `_bech32_encode` sets no bound on length or characters, as BIP-173 does; a `1` in the human-readable
  part is still decoded rightly, since readers split at the last one.
- `recv_message` takes frames where RFC 6455 has the connection failed: with reserved bits set or with a length
  form longer than needed (`PrintedFormIff` says exactly which, `OverlongAccepted` shows one), and control frames
  of any length, final or not, and unknown opcodes, which it skips (`OtherFrames`). A close frame is not
  answered by one.
- `_paginate` collects a list API completely, it says. Its listing has other apps than the last state it met
  exactly when an app it had read was deleted before the last request (`ListingIff`); it can then miss an app
  that was there throughout (`DeletedAppHidesAnother`).

## Model

| member | source | states |
|---|---|---|
| LedgerRuns.LedgerIdentity | packages/sovran-nwc/nwc_daemon.py:324-824 | over every interleaving a balance is never negative and equals settled incoming minus settled outgoing with fees minus pending outgoing with reserves, plus excess fees; the plain identity holds if and only if no operation of the run completed a payment of that wallet with a fee above its reserve |
| LedgerRuns.ExactIdentity | packages/sovran-nwc/nwc_daemon.py:604-824 | with fees within their reserves the plain accounting identity and non-overdraft hold in every reachable state |
| LedgerRuns.FeeAboveReserveBreaksIdentity | packages/sovran-nwc/nwc_daemon.py:782-803 | a run in which a fee above the reserve leaves the balance above what the rows account for |
| LedgerRuns.SpendingCap | packages/sovran-nwc/nwc_daemon.py:734-755 | settled and pending spending of a capped app exceeds the cap by no more than excess fees and operator transfers out |
| LedgerRuns.ExactSpendingCap | packages/sovran-nwc/nwc_daemon.py:650-755 | without those, amount, fees and reserves over all settled and pending outgoing rows stay within the cap in every run, however many payments are in flight |
| LedgerRuns.TransferOutPassesCap | packages/sovran-nwc/nwc_daemon.py:324-394 | a run in which an operator transfer takes a wallet past its cap |
| SpendingCaps.CapStepIff | packages/sovran-nwc/nwc_daemon.py:324-824 | from any reachable state within the cap, an operation leaves the wallet within it exactly unless it is a transfer out, or a fee reported, that exceeds what the cap has left; every reservation stays within it |
| SpendingCaps.CapIff | packages/sovran-nwc/nwc_daemon.py:324-824 | every state of a run is within the cap if and only if no operation of the run is of those two kinds at its point |
| LedgerRuns.CreditedAtMostOnce | packages/sovran-nwc/nwc_daemon.py:443-498 | no incoming row is credited twice in any run, by reconciliation, internal payment or repetition |
| LedgerRuns.InvoiceCreditedAtMostOnce | packages/sovran-nwc/nwc_daemon.py:443-693 | with distinct invoice hashes each invoice raises a balance in at most one step of any run, deletions included |
| LedgerRuns.InvoiceCreditedExactlyOnce | packages/sovran-nwc/nwc_daemon.py:443-693 | with distinct hashes, an invoice that exists is settled if and only if exactly one step of the run credited it |
| LedgerRuns.SettleTwice | packages/sovran-nwc/nwc_daemon.py:467-483 | settling a hash again, with whatever amount and preimage, leaves both tables equal |
| LedgerRuns.FinalizeTwice | packages/sovran-nwc/nwc_daemon.py:774-776 | finalising a row that is no longer pending, or finalising again, leaves both tables equal |
| LedgerRuns.CreditRaisesPayee | packages/sovran-nwc/nwc_daemon.py:470-498 | a credit settles its row and raises the payee's balance by the row's amount, net of the debit when a wallet pays itself |
| LedgerRuns.TerminalRows | packages/sovran-nwc/nwc_daemon.py:774-776 | a settled or failed row keeps every column but its preimage through any further run, and its key is never used again |
| LedgerRuns.NeverLowered | packages/sovran-nwc/nwc_daemon.py:604-732 | a wallet that no operation of a run debits or deletes keeps at least its balance, and its scopes |
| LedgerRuns.InternalPaymentConserves | packages/sovran-nwc/nwc_daemon.py:639-693 | a wallet-to-wallet payment, self-payment included, leaves the sum of all balances as it was |
| LedgerRuns.TransferConserves | packages/sovran-nwc/nwc_daemon.py:324-394 | a transfer between wallets leaves the sum of all balances as it was |
| LedgerRuns.WellFormedKept | packages/sovran-nwc/nwc_daemon.py:94-149 | every operation keeps keys below their counters, foreign keys resolved and public keys unique, the cascade on delete included |
| LedgerRuns.InvHolds | packages/sovran-nwc/nwc_daemon.py:324-824 | the whole invariant, rows and books of every app, in every reachable state |
| LedgerEffects.RecordExactly | packages/sovran-nwc/nwc_daemon.py:396-441 | a recorded invoice is a pending row of exactly the amount asked for, for the asking wallet; it is refused only for a missing wallet |
| LedgerEffects.SettleExactly | packages/sovran-nwc/nwc_daemon.py:443-498 | the latest invoice with the hash, unless settled before, becomes settled at the amount reported, or else recorded, its wallet is richer by just that amount, and nothing else changes |
| LedgerEffects.ReportSettles | packages/sovran-nwc/nwc_daemon.py:443-498 | with distinct hashes, a report that an invoice is settled makes its wallet richer by the amount reported, unless it was settled before |
| LedgerEffects.ReportedStaysSettled | packages/sovran-nwc/nwc_daemon.py:443-498 | and the invoice stays settled for as long as it exists |
| LedgerEffects.TransferExactly | packages/sovran-nwc/nwc_daemon.py:324-394 | a transfer succeeds if and only if its amount is positive, it has an end, each end exists and the payer holds the amount; it moves that amount and adds one settled row for each end |
| LedgerEffects.ReserveIff | packages/sovran-nwc/nwc_daemon.py:604-755 | a reservation succeeds if and only if the wallet exists, holds the amount (and the reserve, unless the invoice is this node's own) and has room for it under its cap over the rows so far; the error says which fails first |
| LedgerEffects.ReserveExactly | packages/sovran-nwc/nwc_daemon.py:639-732 | a payment of this node's own invoice moves the amount to its wallet and settles both rows with the invoice's preimage; any other holds amount and reserve in a pending row |
| LedgerEffects.FinalizeExactly | packages/sovran-nwc/nwc_daemon.py:757-824 | a pending payment that succeeded keeps its fee and gives back the rest of the reserve, one that failed gives back everything, any other row is left alone |
| LedgerEffects.CreateExactly | packages/sovran-nwc/nwc_daemon.py:230-299 | a new app starts empty under the next key and is refused exactly for a used public key |
| LedgerEffects.DeleteExactly | packages/sovran-nwc/nwc_daemon.py:301-315 | a deleted app goes with its rows and everything else stays |
| LedgerEffects.SetPreimageExactly | packages/sovran-nwc/nwc_daemon.py:545-560 | a preimage is written to the rows with the hash and to no other column or row |
| NwcStore.NwcStore.CreateApp | packages/sovran-nwc/nwc_daemon.py:230-299 | performs the ledger's creation; a key in use is refused and changes nothing |
| NwcStore.NwcStore.DeleteAppByPubkey | packages/sovran-nwc/nwc_daemon.py:301-315 | removes the app with that key and every row of it, nothing else |
| NwcStore.NwcStore.Transfer | packages/sovran-nwc/nwc_daemon.py:324-394 | all or nothing: a missing destination found after the debit and the insertion undoes both |
| NwcStore.NwcStore.RecordIncomingInvoice | packages/sovran-nwc/nwc_daemon.py:396-441 | adds a pending incoming row for an existing app |
| NwcStore.NwcStore.SettleIncomingByPaymentHash | packages/sovran-nwc/nwc_daemon.py:443-498 | credits the latest invoice with the hash, unless settled before, with the amount given or else recorded, and changes nothing else; reports the row and whether it was newly settled |
| NwcStore.NwcStore.CheckBudget | packages/sovran-nwc/nwc_daemon.py:734-755 | admits a need exactly when spending so far plus the need is within a positive cap |
| NwcStore.NwcStore.ReserveOutgoingPayment | packages/sovran-nwc/nwc_daemon.py:604-732 | settles a pending invoice of the node at once or holds amount and reserve; refused, it changes nothing |
| NwcStore.NwcStore.FinalizeOutgoingPayment | packages/sovran-nwc/nwc_daemon.py:757-824 | returns what the fee left of the reserve, or everything on failure; on a row that is not pending it changes nothing |
| NwcStore.NwcStore.SetPreimageForHash | packages/sovran-nwc/nwc_daemon.py:545-560 | fills the preimage in on all rows with the hash |
| NwcStore.NwcStore.MarkEventProcessed | packages/sovran-nwc/nwc_daemon.py:826-847 | true exactly for a new event, which is recorded |
| NwcDaemon.ScopesToNip47Methods | packages/sovran-nwc/nwc_daemon.py:38-65 | offers exactly the methods of the scopes held, each once |
| NwcDaemon.PendingHashes | packages/sovran-nwc/nwc_daemon.py:500-517 | lists exactly the nonempty hashes of pending incoming rows, of one app or of all |
| NwcDaemon.FindApp | packages/sovran-nwc/nwc_daemon.py:210-228 | finds an app by client key, and wallet key when one is given, if there is one |
| NwcDaemon.OfferedIff | packages/sovran-nwc/nwc_daemon.py:38-65 | each method is offered by exactly one scope, the sending methods by the spend scope |
| NwcDaemon.InvoiceCharged | packages/sovran-nwc/nwc_daemon.py:1256-1291 | an invoice that names an amount is charged that amount under its own hash, whatever the request says; one that names none is charged the requested amount; with neither, or unreadable, nothing is done |
| NwcDaemon.KeysendCharged | packages/sovran-nwc/nwc_daemon.py:1321-1390 | a well-formed keysend is charged the requested amount under the hash of the preimage given, else of the one in the first record of its type, else of the one drawn; anything else does nothing |
| NwcDaemon.ReserveForFees | packages/sovran-nwc/nwc_daemon.py:1278 | the reserve is the least integer that is at least 10 sat and a hundredth of the amount |
| NwcDaemon.InvoiceRecorded | packages/sovran-nwc/nwc_daemon.py:1152-1194 | a request for an invoice records one of the amount requested under the hash of the invoice made, and its preimage when the node reveals it |
| NwcDaemon.LookedUpRow | packages/sovran-nwc/nwc_daemon.py:1196-1212 | a lookup names the asking wallet's latest row for the hash given, else for that of the invoice given |
| NwcDaemon.ReconciledInvoice | packages/sovran-nwc/nwc_daemon.py:958-978 | an invoice pending when reconciliation starts that the node reports settled makes its wallet richer by what the node reported, in a step of the call, unless another thread had it settled just before |
| NwcDaemon.OnlyReportedSettled | packages/sovran-nwc/nwc_daemon.py:958-978 | nothing is settled but what is pending and reported settled |
| NwcThreads.OneReservationPerEvent | packages/sovran-nwc/nwc_daemon.py:982-1002 | over any run, however often and on however many relays an event is delivered, at most one reservation is performed for it |
| NwcThreads.ThenConsistent | packages/sovran-nwc/nwc_daemon.py:604-824 | an operation that the rules permit keeps them: reservations by serving calls only and once each, finalisations by the reserving call only |
| NwcThreads.NobodyElsePays | packages/sovran-nwc/nwc_daemon.py:1278-1311 | no call but the one that reserved a payment ever finalises it |
| NwcThreads.InFlightUntilFinalised | packages/sovran-nwc/nwc_daemon.py:1286-1311 | a reserved payment stays pending, or goes with its wallet, whatever other threads do until its own call finalises it |
| NwcThreads.GuardedKept | packages/sovran-nwc/nwc_daemon.py:1096-1122 | whatever the calls do, a wallet without the spend scope keeps at least its balance, and its scopes |
| NwcThreads.WalletStays | packages/sovran-nwc/nwc_daemon.py:94-149 | a wallet's scopes never change and its key is never another's, however the run goes on |
| NwcThreads.RowStays | packages/sovran-nwc/nwc_daemon.py:396-498 | a ledger row keeps its wallet, kind and hash for as long as it exists |
| NwcDaemon.Daemon.ReconcilePendingInvoices | packages/sovran-nwc/nwc_daemon.py:958-978 | performs, in order, the settlement of every invoice pending at the start that the node reports settled, with the node's amount and preimage, and nothing else |
| NwcDaemon.Daemon.FinishInternalPayment | packages/sovran-nwc/nwc_daemon.py:1426-1466 | answers with the preimage of the payer's latest row for the hash, else the node's, which is then recorded, else none; no fee |
| NwcDaemon.Daemon.SendPayment | packages/sovran-nwc/nwc_daemon.py:1278-1319 | all it does is one reservation of the amount and the larger of one percent and 10 sat, never repeated, and then: nothing after a refusal, which is reported; the preimage recorded for an internal payment; the settlement of its own row for an external one, with the response that row calls for |
| NwcDaemon.Daemon.PayThroughNode | packages/sovran-nwc/nwc_daemon.py:1292-1319 | whatever other threads do meanwhile, all it does is the settlement the node's answer calls for, and the response agrees with the row it leaves |
| NwcDaemon.Daemon.PayInvoicePayload | packages/sovran-nwc/nwc_daemon.py:1256-1319 | makes exactly one payment, of the invoice's own amount, else the requested one, or does nothing without a positive amount |
| NwcDaemon.Daemon.PayKeysendPayload | packages/sovran-nwc/nwc_daemon.py:1321-1424 | makes exactly one payment, under the hash of the preimage given, else of a valid one among the records, else of a random one, or does nothing for a bad key, amount or preimage |
| NwcDaemon.Daemon.FindPreimage | packages/sovran-nwc/nwc_daemon.py:1360-1369 | the first record of the preimage type decides, and only 32 bytes count |
| NwcDaemon.Daemon.MakeInvoicePayload | packages/sovran-nwc/nwc_daemon.py:1152-1194 | records exactly one invoice, and the preimage the node reveals; the row returned is the one recorded, for the asking wallet and that hash |
| NwcDaemon.Daemon.LookupInvoicePayload | packages/sovran-nwc/nwc_daemon.py:1196-1212 | settles the wallet's paid invoices, then answers with its latest row for the hash asked for, and with not found only if it has none |
| NwcDaemon.Daemon.HandleNip47Method | packages/sovran-nwc/nwc_daemon.py:1096-1252 | dispatches its event's request, once: unknown and unoffered methods touch nothing, and for every other method the operations done and the response are exactly those called for |
| NwcDaemon.Daemon.ProcessNip47Event | packages/sovran-nwc/nwc_daemon.py:982-1056 | of all deliveries of an event, concurrent ones included, exactly the one call that marks it answers, on the wallet the signer is paired with, and does exactly what one dispatch of the request calls for; every other call performs no operation; and no wallet without the spend scope ever has less |
| Hex.FromToHex | packages/sovran-nwc/nwc_daemon.py:1370-1377 | the hexadecimal form of any bytes is read back and has twice their length |
| Hex.FromHexIff | packages/sovran-nwc/nwc_daemon.py:1337-1359 | text without white space is accepted exactly when it is pairs of hexadecimal digits |
| Hex.SpaceSkipped | packages/sovran-nwc/nwc_daemon.py:1337-1359 | white space between pairs is skipped |
| Secp256k1.Curve.JacDoubleIsGroupDouble | packages/sovran-nwc/nwc_nostr.py:45-56 | doubling keeps the triple reduced and on the curve and stands for the tangent law, infinity and vertical tangents included |
| Secp256k1.Curve.JacAddIsGroupAdd | packages/sovran-nwc/nwc_nostr.py:59-84 | addition stands for the chord, tangent or vanishing sum in every branch, for any choice of denominators |
| Secp256k1.Curve.AddOnCurve | packages/sovran-nwc/nwc_nostr.py:45-84 | the affine tangent and chord law stays on the curve |
| Secp256k1.Curve.JacOnCurveIff | packages/sovran-nwc/nwc_nostr.py:101-108 | a triple satisfies the Jacobian equation exactly when its affine point is on the curve |
| Secp256k1.Curve.ToAffineRepresents | packages/sovran-nwc/nwc_nostr.py:101-108 | the affine point is the one the triple stands for, in reduced coordinates |
| ScalarMultiplication.JacMul | packages/sovran-nwc/nwc_nostr.py:87-98 | the double-and-add loop computes the (k mod n)-fold sum |
| ScalarMultiplication.MultipleMul | packages/sovran-nwc/nwc_nostr.py:87-98 | multiples of multiples multiply |
| ScalarMultiplication.MultipleMod | packages/sovran-nwc/nwc_nostr.py:87-90 | scalars count modulo the order, so reducing them first is sound |
| ScalarMultiplication.ComplementIsNeg | packages/sovran-nwc/nwc_nostr.py:171-184 | n - k times the base point is the opposite of k times it, as both even-y negations assume |
| Bip340.LiftXRecovers | packages/sovran-nwc/nwc_nostr.py:111-120 | lifting the abscissa of a curve point gives the one of it and its opposite with even ordinate |
| Bip340.LiftXSound | packages/sovran-nwc/nwc_nostr.py:111-120 | what is lifted is on the curve with that abscissa and even ordinate; it fails only where no such point is |
| Bip340.PubkeyFromPrivkey | packages/sovran-nwc/nwc_nostr.py:136-146 | returns the encoded abscissa of the d-fold base point, or the documented error |
| Bip340.SchnorrSign | packages/sovran-nwc/nwc_nostr.py:149-192 | computes BIP-340 default signing with all its error returns |
| Bip340.SchnorrVerify | packages/sovran-nwc/nwc_nostr.py:195-222 | decides verification over group points, which `VerifyIff` says as an equation |
| Bip340.EcdhSharedX | packages/sovran-nwc/nwc_nostr.py:225-238 | computes the abscissa of the secret times the lifted peer key, or the error |
| Bip340.SignatureEquation | packages/sovran-nwc/nwc_nostr.py:186-214 | (k + e d) G - e (d G) = k G with the scalar reduced modulo n |
| Bip340.SchnorrCompleteness | packages/sovran-nwc/nwc_nostr.py:149-222 | whatever signing returns, verification accepts under the signer's public key |
| Bip340.VerifyIff | packages/sovran-nwc/nwc_nostr.py:195-222 | a signature r, s is accepted if and only if the lengths are right, the key lifts to P, r lifts to R, s is below the order and s G = R + e P with e the tagged challenge of r, key and message |
| Bip340.ZeroSignatureRefused | packages/sovran-nwc/nwc_nostr.py:199-222 | a signature with r zero, such as 64 zero bytes, is refused under every key |
| Bip340.AlteredScalarRefused | packages/sovran-nwc/nwc_nostr.py:199-222 | for one message, key and r all accepted s give the same point, and one s only when n is the exact order |
| Bip340.AlteredAbscissaRefused | packages/sovran-nwc/nwc_nostr.py:199-222 | for one s and one challenge at most one r is accepted |
| Bip340.SignedNonce | packages/sovran-nwc/nwc_nostr.py:165-192 | a signature begins with the abscissa of k G, k being the tagged hash of the masked secret, key and message, the mask the tagged hash of the auxiliary bytes |
| Bip340.SignSucceedsIff | packages/sovran-nwc/nwc_nostr.py:149-192 | signing succeeds exactly for right lengths, a scalar in range and a nonzero nonce |
| Bip340.EcdhAgreement | packages/sovran-nwc/nwc_nostr.py:225-238 | both parties derive the same secret from each other's x-only keys, whatever the parities |
| Bip340.SharedXIsProduct | packages/sovran-nwc/nwc_nostr.py:225-238 | the shared value is the encoded abscissa of (a b) G, or the error when that is the point at infinity |
| Bip340.Secp256k1Constants | packages/sovran-nwc/nwc_nostr.py:34-42 | the module's constants satisfy the computable hypotheses |
| AesSbox.InvSubSub | packages/sovran-nwc/nwc_nostr.py:243-264 | the inverse table undoes the table on every byte |
| AesSbox.SubInvSub | packages/sovran-nwc/nwc_nostr.py:243-264 | and the table the inverse table |
| AesSboxOrigin.SubFromReciprocal | packages/sovran-nwc/nwc_nostr.py:243-260 | every entry of the table is the affine image of the reciprocal of its index, as FIPS 197 section 5.1.1 defines it |
| AesSbox.BuildInverse | packages/sovran-nwc/nwc_nostr.py:262-264 | the loop that fills the inverse table in sets every entry, and right |
| Gf256.GmulLoop | packages/sovran-nwc/nwc_nostr.py:273-280 | the shift-and-add loop computes the product specified by its recursion |
| Gf256.GmulConstants | packages/sovran-nwc/nwc_nostr.py:273-280 | its products with 9, 11, 13 and 14 are the sums of doublings they should be |
| Gf256.MixColumnRows | packages/sovran-nwc/nwc_nostr.py:320-326 | the shared-sum form of the code is 2a + 3b + c + d of FIPS 197 section 5.1.3 |
| Gf256.InvMixMix | packages/sovran-nwc/nwc_nostr.py:320-360 | the inverse mixing undoes the mixing of any column |
| Gf256.MixInvMix | packages/sovran-nwc/nwc_nostr.py:320-360 | and the mixing the inverse mixing |
| Aes256.SubShiftSpelled | packages/sovran-nwc/nwc_nostr.py:311-317 | the spelled-out permutation is ShiftRows of FIPS 197 section 5.1.2 |
| Aes256.InvSubShiftSpelled | packages/sovran-nwc/nwc_nostr.py:342-348 | and the inverse one its inverse |
| Aes256.DecryptEncryptBlock | packages/sovran-nwc/nwc_nostr.py:308-366 | decryption undoes encryption for every block and any fifteen round keys |
| Aes256.EncryptDecryptBlock | packages/sovran-nwc/nwc_nostr.py:308-366 | encryption undoes decryption, so the cipher permutes the blocks |
| Aes256.MixAndAdd | packages/sovran-nwc/nwc_nostr.py:318-326 | the in-place column loop is MixColumns followed by AddRoundKey |
| Aes256.AddAndUnmix | packages/sovran-nwc/nwc_nostr.py:349-359 | the in-place loops are AddRoundKey followed by InvMixColumns |
| Aes256.Encrypt | packages/sovran-nwc/nwc_nostr.py:308-335 | the round loop computes the specified cipher |
| Aes256.Decrypt | packages/sovran-nwc/nwc_nostr.py:338-366 | the reverse loop computes the specified inverse |
| Aes256.ExpandKey | packages/sovran-nwc/nwc_nostr.py:283-305 | fifteen round keys by the recurrence of FIPS 197 section 5.2, or the length error |
| Aes256.RconIsTable | packages/sovran-nwc/nwc_nostr.py:266-266 | the constants tabulated are the powers of x |
| AesStandard.EncryptIs | packages/sovran-nwc/nwc_nostr.py:308-335 | the block cipher is the cipher of FIPS 197 section 5.1 byte by byte: thirteen mixed rounds and one without |
| AesStandard.RowIs | packages/sovran-nwc/nwc_nostr.py:318-326 | a mixed byte is twice the first, thrice the second and once each of the others |
| AesStandard.Doubling | packages/sovran-nwc/nwc_nostr.py:269-270 | doubling shifts, and reduces by 0x1B what overflows |
| AesStandard.KeyExpansion | packages/sovran-nwc/nwc_nostr.py:283-305 | the bytes of the round keys satisfy the recurrence of FIPS 197 section 5.2 |
| Aes256Cbc.UnpadIff | packages/sovran-nwc/nwc_nostr.py:373-403 | unpadding accepts exactly the outputs of padding |
| Aes256Cbc.CbcChain | packages/sovran-nwc/nwc_nostr.py:376-382 | each ciphertext block encrypts the sum of its plaintext block and the one before |
| Aes256Cbc.MessageChain | packages/sovran-nwc/nwc_nostr.py:369-382 | a message is its padded blocks, each encrypted with the block before under the key's own expansion |
| Aes256Cbc.PaddedBytes | packages/sovran-nwc/nwc_nostr.py:373-374 | padding is k bytes of value k up to the next multiple of 16 |
| Aes256Cbc.CbcDecryptEncrypt | packages/sovran-nwc/nwc_nostr.py:376-396 | chained decryption undoes chained encryption for any invertible cipher |
| Aes256Cbc.Aes256CbcEncrypt | packages/sovran-nwc/nwc_nostr.py:369-382 | pads, expands, chains; the errors in the code's order |
| Aes256Cbc.Aes256CbcDecrypt | packages/sovran-nwc/nwc_nostr.py:385-403 | checks, expands, chains, unpads; the errors in the code's order |
| Aes256Cbc.DecryptIff | packages/sovran-nwc/nwc_nostr.py:369-403 | decryption gives m exactly for the ciphertext encryption makes of m: every plaintext comes back, nothing else is accepted |
| Aes256Cbc.DecryptEncryptMessage | packages/sovran-nwc/nwc_nostr.py:369-403 | the round trip for plaintexts of any length, and the ciphertext's length |
| ChaCha20.MixInPlace | packages/sovran-nwc/nwc_nostr.py:450-453 | four in-place updates, twice, are the quarter round of RFC 8439 section 2.1 |
| ChaCha20.QuadsOfTheState | packages/sovran-nwc/nwc_nostr.py:449-455 | the places listed are the columns and the diagonals of the four-by-four state |
| ChaCha20.InitialStateLayout | packages/sovran-nwc/nwc_nostr.py:443-445 | the words unpacked are laid out as RFC 8439 section 2.3 has them |
| ChaCha20.ChaCha20Block | packages/sovran-nwc/nwc_nostr.py:442-460 | ten column and diagonal rounds added to the initial state, serialized |
| ChaCha20Examples.Rotations | packages/sovran-nwc/nwc_nostr.py:438-439 | the four rotations turn a word to the left, as arithmetic modulo 2^32 |
| ChaCha20Examples.QuarterRoundExample | packages/sovran-nwc/nwc_nostr.py:449-453 | the quarter round of RFC 8439 section 2.1.1 |
| ChaCha20Examples.BlockExample | packages/sovran-nwc/nwc_nostr.py:442-460 | the block of RFC 8439 section 2.3.2, worked out over its twenty rounds |
| ChaCha20.Chacha20Crypt | packages/sovran-nwc/nwc_nostr.py:463-474 | the chunked loop gives output byte i as input byte i with byte i mod 64 of block counter + i div 64, partial last block included |
| ChaCha20.CryptTwice | packages/sovran-nwc/nwc_nostr.py:463-474 | the cipher is its own inverse |
| ChaCha20.CryptInParts | packages/sovran-nwc/nwc_nostr.py:463-474 | a message cut at a block boundary can be ciphered in parts with the counter moved on |
| Nip44.HkdfExpand | packages/sovran-nwc/nwc_nostr.py:481-489 | the loop computes the first bytes of T(1), T(2), ... of RFC 5869 section 2.3 |
| Nip44.PaddedLenBounds | packages/sovran-nwc/nwc_nostr.py:506-513 | at least n, a multiple of 32, and less than 32 or a quarter wasted |
| Nip44.PadsToEighth | packages/sovran-nwc/nwc_nostr.py:506-513 | beyond 256 bytes, between two powers of two, a plaintext pads to the next eighth of the upper one |
| Nip44.PadsTo32 | packages/sovran-nwc/nwc_nostr.py:506-513 | up to 256 bytes it pads to the next multiple of 32 |
| Nip44.SameEighth | packages/sovran-nwc/nwc_nostr.py:506-513 | two plaintexts that end in the same eighth pad to the same length |
| Nip44.PaddedBytes | packages/sovran-nwc/nwc_nostr.py:516-520 | the padded form is two bytes of length, high byte first, the plaintext, and zeros |
| Nip44.PaddedLenMonotone | packages/sovran-nwc/nwc_nostr.py:506-513 | longer plaintexts never pad to less |
| Nip44.UnpadIff | packages/sovran-nwc/nwc_nostr.py:516-534 | unpadding accepts the exact outputs of padding, and gives back what was padded |
| Nip44.EnvelopeSize | packages/sovran-nwc/nwc_nostr.py:537-555 | encryption succeeds for 1 to 65535 bytes, into 99 to 65603 bytes |
| Nip44.EnvelopeIff | packages/sovran-nwc/nwc_nostr.py:537-567 | bytes decrypt to m exactly when they are the encryption of m under their own nonce |
| Nip44.KeyMaterial | packages/sovran-nwc/nwc_nostr.py:481-503 | the message keys are cut from three chained codes over the nonce at bytes 32, 44 and 76 |
| Nip44.EnvelopeParts | packages/sovran-nwc/nwc_nostr.py:537-546 | an envelope is version 2, the nonce, the padded plaintext ciphered from block 0 on, and the code over nonce and ciphertext |
| Nip44.DecryptEncryptText | packages/sovran-nwc/nwc_nostr.py:537-567 | which plaintexts can be sent, that payloads have 132 to 87472 characters, and that each passes every check and comes back |
| Nip44.EncryptWithConvKey | packages/sovran-nwc/nwc_nostr.py:537-546 | computes the specified envelope or the error |
| Nip44.DecryptWithConvKey | packages/sovran-nwc/nwc_nostr.py:549-567 | computes the specified opening, errors in the code's order |
| NostrEncryption.Nip44Delivery | packages/sovran-nwc/nwc_nostr.py:492-587 | what one party seals with the other's public key, the other opens with the first one's |
| NostrEncryption.ConversationKeyIs | packages/sovran-nwc/nwc_nostr.py:492-494 | the conversation key is the code under "nip44-v2" of the abscissa of the product of both secrets and the base point |
| NostrEncryption.Nip04Payload | packages/sovran-nwc/nwc_nostr.py:409-419 | a NIP-04 payload is the ciphertext and the vector in base64 around the marker |
| NostrEncryption.Nip04Delivery | packages/sovran-nwc/nwc_nostr.py:409-432 | the same for NIP-04, for every plaintext, the split at the first marker being right |
| WebSocket.ParseEncode | packages/sovran-nwc/nwc_nostr.py:798-840 | reading undoes printing through all three length forms, masked or not, and leaves what follows |
| WebSocket.MessageReceived | packages/sovran-nwc/nwc_nostr.py:824-857 | fragments are joined whatever control frames come between, each ping is met once and in order, and the next message is left whole |
| WebSocket.OtherFrames | packages/sovran-nwc/nwc_nostr.py:843-855 | a ping of any length, final or not, is answered, and frames of unknown kinds are skipped |
| WebSocket.FirstByteCalls | packages/sovran-nwc/nwc_nostr.py:843-855 | a frame that begins 0x88 closes, 0x89 is a ping, 0x80 to 0x82 end a message and 0x00 to 0x02 go on with one |
| WebSocket.PongBytes | packages/sovran-nwc/nwc_nostr.py:798-816 | the answer to a ping begins 0x8A and carries its payload masked under the frame's key |
| WebSocket.LengthForms | packages/sovran-nwc/nwc_nostr.py:827-835 | the three length forms, the final bit, the mask bit and the opcode on bytes |
| WebSocket.TooLongIff | packages/sovran-nwc/nwc_nostr.py:836-837 | a frame is refused for its length if and only if it states more than 4 MiB |
| WebSocket.PrintedFormIff | packages/sovran-nwc/nwc_nostr.py:827-841 | a frame read stood in the form in which it would be printed if and only if its reserved bits were clear and its length form the shortest |
| WebSocket.OverlongAccepted | packages/sovran-nwc/nwc_nostr.py:831-837 | a one-byte text with a three-byte length is read as such |
| WebSocket.Connection.RecvExact | packages/sovran-nwc/nwc_nostr.py:788-796 | exactly n bytes however the socket cuts them, or the end of the input |
| WebSocket.Connection.SendFrame | packages/sovran-nwc/nwc_nostr.py:798-816 | appends one final masked frame under a fresh key; refused when closed |
| WebSocket.Connection.ReadFrame | packages/sovran-nwc/nwc_nostr.py:827-842 | reads one frame, the end of the input or a frame over 4 MiB |
| WebSocket.Connection.RecvMessage | packages/sovran-nwc/nwc_nostr.py:824-857 | returns what the specification says and has sent one pong per ping with the same payload, nothing else |
| BitRegrouping.ConvertBits | packages/sovran-nwc/nwc_helpers.py:109-122 | the loop over an unmasked accumulator regroups the bits, zero-padded on the right |
| BitRegrouping.RegroupedValue | packages/sovran-nwc/nwc_helpers.py:109-122 | as few groups as hold the bits, each below 2^to, worth the input shifted by the padding |
| BitRegrouping.RegroupedBits | packages/sovran-nwc/nwc_helpers.py:109-122 | the output's bit string is the input's followed by zero bits |
| BitRegrouping.UngroupedRegrouped | packages/sovran-nwc/nwc_helpers.py:109-122 | a regrouping reader recovers every input |
| Bech32.Polymod | packages/sovran-nwc/nwc_helpers.py:88-96 | the loop computes the checksum register |
| Bech32.TapsDouble | packages/sovran-nwc/nwc_helpers.py:85-85 | the five constants are the generator polynomial times 1, 2, 4, 8 and 16 in the field of 32 elements |
| Bech32.ShiftLinear | packages/sovran-nwc/nwc_helpers.py:88-96 | the register is linear over exclusive or |
| Bech32.TailIsPack | packages/sovran-nwc/nwc_helpers.py:88-106 | up to six symbols fed in last never reach the taps |
| Bech32.ChecksumValid | packages/sovran-nwc/nwc_helpers.py:99-106 | for every human-readable part and symbols, the checksum made brings the register to 1 |
| Bech32.ChecksumUnique | packages/sovran-nwc/nwc_helpers.py:99-106 | and no other six symbols do |
| Bech32.BurstDetected | packages/sovran-nwc/nwc_helpers.py:88-106 | any alteration within six consecutive symbols is noticed |
| Bech32.AlteredPrefixDetected | packages/sovran-nwc/nwc_helpers.py:99-106 | a human-readable part altered within six consecutive characters of the same rows is noticed |
| Bech32.Example | packages/sovran-nwc/nwc_helpers.py:88-132 | the string of BIP-173 for the part "a" and no data |
| Bech32.Encode | packages/sovran-nwc/nwc_helpers.py:125-129 | computes the text form |
| Bech32.DecodeEncode | packages/sovran-nwc/nwc_helpers.py:125-129 | a reader recovers every human-readable part and payload |
| Bech32.AlteredTextRejected | packages/sovran-nwc/nwc_helpers.py:125-129 | a text altered within six consecutive symbols is rejected, not misread |
| RateLimiter.Limiter.Check | packages/sovran-nwc/nwc_lnurl_service.py:84-112 | prunes and decides as the history of accepted requests says; the bucket is the suffix of that history in the window; other keys are untouched |
| RateLimiter.WindowBound | packages/sovran-nwc/nwc_lnurl_service.py:84-112 | over any run of a clock that does not go back, no closed window holds more than the maximum of accepted requests of a key |
| RateLimiter.Decision | packages/sovran-nwc/nwc_lnurl_service.py:84-112 | a request is accepted exactly when fewer than the maximum of its key's accepted requests are at most the window's length old; other keys play no part |
| Pagination.RowsComplete | packages/sovran-nwc/nwc_daemon.py:182-191 | the listing holds every app once, in order of id |
| Pagination.Paginate | packages/sovran-nwc/nwc_hub_manager.py:177-207 | for every positive page size and whatever happens between the requests, the loop ends with every page as it stood when read, up to the first after which the total, or a page that is not full, says stop; a listing that stands still is returned whole |
| Pagination.ListingIff | packages/sovran-nwc/nwc_hub_manager.py:177-207 | over any states taken from a run, the apps collected are those of the last state met if and only if no app already read was deleted before the last request |
| Pagination.RunGrows | packages/sovran-nwc/nwc_daemon.py:182-315 | over a stretch of a run without a delete the earlier listing begins the later one |
| Pagination.DeletedAppHidesAnother | packages/sovran-nwc/nwc_hub_manager.py:177-207 | in a run that deletes the first of two apps between two requests, the loop collects that app alone and never the other, which was there throughout |

## Left out

- NwcStore.NwcStore.CreateApp: names, aliases, relays and metadata are not modelled; the keys drawn at random are arguments.
- NwcStore.NwcStore.RecordIncomingInvoice: the descriptive columns (invoice text, descriptions, times) take no part in any balance and are absent.
- NwcDaemon.Daemon.HandleNip47Method: the contents of the information and listing responses are not modelled, since they read the tables and change nothing.
- NwcDaemon.Daemon.LookupInvoicePayload: the lookup is by payment hash; the fallback on the invoice text needs a column that is absent.
- NwcDaemon.Daemon.PayKeysendPayload: a parameter that is not a number, on which the code raises, cannot occur here, and what the records tell the payee is not modelled.
- NwcDaemon.Daemon.ProcessNip47Event: the decrypted request is an argument, since decryption is `NostrEncryption`; the tag list is reduced to the wallet key it names, and the response event is not built.
- Bip340.SchnorrSign: the auxiliary randomness is always an argument, and the cache of tag digests is not modelled.
- Nip44.EncryptWithConvKey: the nonce is always an argument.
- Aes256.Encrypt: the block functions are on values; the code's list is local to each call, so aliasing does not arise.
- WebSocket.Connection.RecvMessage: the message is returned as bytes, before the decoding that replaces malformed UTF-8; bytes that arrive together with the handshake response are not modelled.
- RateLimiter.Limiter.Check: one limiter stands for both bucket tables, which differ only in the maximum.
- Pagination.Paginate: access tokens and the retry with a fresh one are not modelled; a page that is not a list ends the loop in the code and cannot occur here.
- Bech32.Decode: a reader after BIP-173 that the repository does not contain, as the partner of its encoder; its case and length rules are left out.
- Connection set-up: handshake, TLS, SOCKS5, the HTTP handlers, the relay loop and the background threads are input and output.
- The Lightning client is an oracle that answers or fails; its requests are not modelled.
- SQLite is modelled as maps with a saved copy for rollback; indexes, pragmas and failures of the database itself are not.
- Primality of the field modulus, associativity of the curve's law and any hardness claim are hypotheses or absent.
- The audit log, the command line, QR codes, domain files, notifications, pairing URIs and tokens would add only textual members.
- The Nix modules, packaging and patches hold no algorithm.
