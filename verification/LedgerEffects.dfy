/**
 What each transaction does in correct books: exactly when it commits, and everything it changes,
 said of the tables alone.
 */
module LedgerEffects {
  import opened Ledger
  import opened LedgerBooks
  import opened LedgerTheorems
  import opened Wrappers

  // ---- authorising ----

  predicate Fresh(b: Bank, r: RequestArgs) { r.key != "" && (r.owner, r.key) !in b.keys }

  /** The accounts, kind and identity a payment needs, its funds apart. */
  predicate Sound(b: Bank, r: RequestArgs) {
    && 0 < r.amount <= 0x7FFF_FFFF_FFFF_FFFF
    && r.debit != r.credit && r.debit in b.accounts && r.credit in b.accounts
    && b.accounts[r.debit].active && b.accounts[r.credit].active
  }

  predicate WithinLimit(b: Bank, r: RequestArgs)
    requires r.debit in b.accounts
  {
    b.accounts[r.debit].customer ==> r.amount <= b.accounts[r.debit].limit
  }

  predicate Funded(b: Bank, r: RequestArgs)
    requires r.debit in b.accounts
  {
    b.accounts[r.debit].customer ==> r.amount <= b.accounts[r.debit].balance - b.accounts[r.debit].held
  }

  predicate Authorisable(b: Bank, r: RequestArgs) {
    && Sound(b, r) && WithinLimit(b, r) && Funded(b, r)
    && r.kind != Reversal && r.newId !in b.transfers
    && BigInt(b.accounts[r.debit].held + r.amount)
  }

  /**
   A payment under an unused key is authorised exactly when it is for a positive amount between two
   different active accounts and, from a customer, within the limit and the available funds.
   */
  lemma AuthorisedExactly(b: Bank, r: RequestArgs)
    requires Good(b)
    requires Fresh(b, r)
    ensures RequestTransfer(b, r).Ok? <==> Authorisable(b, r)
  {
    hide BalanceCaches, Solvent, Legs, Running, Total, HoldsOk, ReversalsOk, KeysOk, HeldSum;
  }

  /** Why a payment is refused, where the reason matters to the payer. */
  lemma RefusedBecause(b: Bank, r: RequestArgs)
    requires Good(b) && r.key != "" && BigInt(r.amount)
    ensures (r.owner, r.key) in b.keys && b.keys[(r.owner, r.key)].claim != r.Claim() <==>
            RequestTransfer(b, r) == Raised(KeyConflict)
    ensures Fresh(b, r) && r.debit == r.credit <==> RequestTransfer(b, r) == Raised(SameAccount)
    ensures Fresh(b, r) && r.debit != r.credit && (r.debit !in b.accounts || r.credit !in b.accounts) <==>
            RequestTransfer(b, r) == Raised(NoAccount)
    ensures Fresh(b, r) && r.debit != r.credit && r.debit in b.accounts && r.credit in b.accounts
            && !(b.accounts[r.debit].active && b.accounts[r.credit].active) <==>
            RequestTransfer(b, r) == Raised(NotActive)
    ensures Fresh(b, r) && r.debit != r.credit && r.debit in b.accounts && r.credit in b.accounts
            && b.accounts[r.debit].active && b.accounts[r.credit].active && r.amount <= 0 <==>
            RequestTransfer(b, r) == Raised(BadAmount)
    ensures Fresh(b, r) && Sound(b, r) && !WithinLimit(b, r) <==> RequestTransfer(b, r) == Raised(OverLimit)
    ensures Fresh(b, r) && Sound(b, r) && WithinLimit(b, r) && !Funded(b, r) <==>
            RequestTransfer(b, r) == Raised(InsufficientFunds)
  {
    hide BalanceCaches, Solvent, Legs, Running, Total, HoldsOk, ReversalsOk, KeysOk, HeldSum;
    if (r.owner, r.key) in b.keys {
      KeyHasTransfer(b, (r.owner, r.key));
    }
  }

  lemma KeyHasTransfer(b: Bank, k: (Id, string))
    requires Good(b) && k in b.keys
    ensures b.keys[k].transfer in b.transfers
  {
    hide Refs, BalanceCaches, HeldCaches, Solvent, Legs, HoldsOk, ReversalsOk, Running, Total;
  }

  lemma KeylessIsRefused(b: Bank, r: RequestArgs)
    requires r.key == ""
    ensures RequestTransfer(b, r) == Raised(KeyRequired)
  {
  }

  /** The accounts after funds are reserved (amount positive) or freed (negative) on one of them, balances untouched. */
  predicate OnlyHeld(before: map<Id, Account>, after: map<Id, Account>, account: Id, amount: int) {
    && after.Keys == before.Keys
    && forall a :: a in before ==>
         && after[a].balance == before[a].balance && after[a].customer == before[a].customer
         && after[a].active == before[a].active && after[a].limit == before[a].limit
         && after[a].held == before[a].held + if a == account then amount else 0
  }

  /** Authorising makes a pending transfer of the asked terms and one active hold for its amount, and moves no money. */
  lemma AuthorisingReserves(b: Bank, r: RequestArgs)
    requires Fresh(b, r) && RequestTransfer(b, r).Ok?
    ensures var o := RequestTransfer(b, r);
            && o.value == Requested(r.newId, Pending, false)
            && OnlyHeld(b.accounts, o.bank.accounts, r.debit, r.amount)
            && o.bank.transfers
               == b.transfers[r.newId := Transfer(r.debit, r.credit, r.amount, Pending, r.kind, r.endToEnd, None)]
            && o.bank.holds == b.holds + [Hold(r.newId, r.debit, r.amount, Active, r.expires)]
            && o.bank.ledger == b.ledger
            && o.bank.keys
               == b.keys[(r.owner, r.key) :=
                    KeyRecord(ForTransfer(r.debit, r.credit, r.amount, r.kind, r.endToEnd), r.newId)]
  {
    hide HeldSum;
  }

  // ---- settling a live transfer ----

  /** The transfer's active holds take the status, all others stay. */
  predicate HoldsSettled(before: seq<Hold>, after: seq<Hold>, id: Id, status: HoldStatus) {
    && |after| == |before|
    && forall i :: 0 <= i < |before| ==>
         after[i] == if before[i].status == Active && before[i].transfer == id then before[i].(status := status)
                     else before[i]
  }

  /** Both balances moved, and the debit account's reservation freed. */
  predicate Paid(before: map<Id, Account>, after: map<Id, Account>, t: Transfer) {
    && after.Keys == before.Keys
    && forall a :: a in before ==>
         && after[a].customer == before[a].customer && after[a].active == before[a].active
         && after[a].limit == before[a].limit
         && after[a].balance == before[a].balance + (if a == t.credit then t.amount else 0)
                                                  - (if a == t.debit then t.amount else 0)
         && after[a].held == before[a].held - if a == t.debit then t.amount else 0
  }

  /** The two entries a booking appends, each with the balance it leaves. */
  predicate Booked(b: Bank, b': Bank, id: Id, from: Id, to: Id, amount: int)
    requires from in b.accounts && to in b.accounts
  {
    b'.ledger == b.ledger + [Entry(id, from, Debit, amount, b.accounts[from].balance - amount),
                             Entry(id, to, Credit, amount, b.accounts[to].balance + amount)]
  }

  predicate Fits(b: Bank, from: Id, to: Id, amount: int)
    requires from in b.accounts && to in b.accounts
  {
    BigInt(b.accounts[from].balance - amount) && BigInt(b.accounts[to].balance + amount)
  }

  lemma TransferAccounts(b: Bank, id: Id)
    requires Good(b) && id in b.transfers
    ensures var t := b.transfers[id]; t.debit in b.accounts && t.credit in b.accounts && t.debit != t.credit
  {
    hide BalanceCaches, HeldCaches, Solvent, Legs, Running, Total, HoldsOk, ReversalsOk, KeysOk;
  }

  /** Exactly when post_transfer commits, and that on a posted transfer it changes nothing. */
  lemma PostedExactly(b: Bank, id: Id, source: Status)
    requires Good(b) && source.Live()
    ensures id in b.transfers ==> b.transfers[id].debit in b.accounts && b.transfers[id].credit in b.accounts
    ensures PostTransfer(b, id, source).Ok? <==>
            && id in b.transfers
            && (b.transfers[id].status == Posted
                || (b.transfers[id].status == source
                    && Fits(b, b.transfers[id].debit, b.transfers[id].credit, b.transfers[id].amount)))
    ensures id in b.transfers && b.transfers[id].status == Posted ==> PostTransfer(b, id, source) == Ok(b, Posted)
    ensures id !in b.transfers <==> PostTransfer(b, id, source) == Raised(NotFound)
    ensures id in b.transfers && b.transfers[id].status != Posted && b.transfers[id].status != source <==>
            PostTransfer(b, id, source) == Raised(WrongState)
  {
    hide Good, AddLegs, ResolveHolds, BigInt;
    if id in b.transfers {
      TransferAccounts(b, id);
      if b.transfers[id].status == source {
        AuthorisedPaymentPosts(b, id);
        PostingNeverMisses(b, id);
      }
    }
  }

  lemma PostingNeverMisses(b: Bank, id: Id)
    requires Good(b) && id in b.transfers && b.transfers[id].status.Live()
    ensures PostTransfer(b, id, b.transfers[id].status).Raised? ==>
              PostTransfer(b, id, b.transfers[id].status).fault == Overflow
  {
    hide Good, PostTransfer, BigInt;
    AuthorisedPaymentPosts(b, id);
  }

  /** Posting books both legs, frees the reservation, captures the hold and marks the transfer; nothing else. */
  lemma PostingMoves(b: Bank, id: Id)
    requires Good(b) && id in b.transfers && b.transfers[id].status.Live()
    requires PostTransfer(b, id, b.transfers[id].status).Ok?
    ensures var t, o := b.transfers[id], PostTransfer(b, id, b.transfers[id].status);
            && t.debit in b.accounts && t.credit in b.accounts
            && o.value == Posted && Paid(b.accounts, o.bank.accounts, t)
            && HoldsSettled(b.holds, o.bank.holds, id, Captured)
            && Booked(b, o.bank, id, t.debit, t.credit, t.amount)
            && o.bank.transfers == b.transfers[id := t.(status := Posted)] && o.bank.keys == b.keys
  {
    hide Good, PostTransfer, BigInt, AddLegs, ResolveHolds, Resolve, OfTransfer, HoldsSettled, PickedSum, HeldSum,
      HeldCaches, HoldsOk, Refs, BalanceCaches, Solvent, Amounts;
    var t := b.transfers[id];
    TransferAccounts(b, id);
    GoodParts(b);
    LegsOnlyOverflow(b, id);
    AuthorisedPaymentPosts(b, id);
    AfterLegs(b, id);
    LegsAre(b, id, t.debit, t.credit, t.amount);
    var b1 := AddLegs(b, id, t.debit, t.credit, t.amount).bank;
    ResolveKeeps(b1, OfTransfer(id), Captured);
    PostSucceeds(b, id);
    ResolveSettles(b1.holds, id, Captured);
  }

  lemma GoodParts(b: Bank)
    requires Good(b)
    ensures Refs(b) && HeldCaches(b) && HoldsOk(b) && Solvent(b) && BalanceCaches(b)
  {
    hide Refs, BalanceCaches, HeldCaches, Solvent, Legs, Running, Total, HoldsOk, ReversalsOk, KeysOk;
  }

  lemma LegsAre(b: Bank, id: Id, from: Id, to: Id, amount: int)
    requires from != to && from in b.accounts && to in b.accounts && AddLegs(b, id, from, to, amount).Ok?
    ensures var b' := AddLegs(b, id, from, to, amount).bank;
            && b'.accounts == Moved(b.accounts, from, to, amount)
            && Booked(b, b', id, from, to, amount)
            && b'.holds == b.holds && b'.transfers == b.transfers && b'.keys == b.keys
  {
  }

  lemma ResolveSettles(holds: seq<Hold>, id: Id, status: HoldStatus)
    ensures HoldsSettled(holds, Resolve(holds, OfTransfer(id), status), id, status)
  {
  }

  // ---- canceling and parking ----

  /** Exactly when cancel_transfer commits; a live transfer's hold is released, its funds freed, and no money moves. */
  lemma CanceledExactly(b: Bank, id: Id)
    requires Good(b)
    ensures CancelTransfer(b, id).Ok? <==>
            id in b.transfers && (b.transfers[id].status in {Pending, Held, UnderReview, Canceled})
    ensures id in b.transfers && b.transfers[id].status == Canceled ==> CancelTransfer(b, id) == Ok(b, Canceled)
    ensures id !in b.transfers <==> CancelTransfer(b, id) == Raised(NotFound)
    ensures id in b.transfers && b.transfers[id].status in {Posted, Failed, Reversed} <==>
            CancelTransfer(b, id) == Raised(WrongState)
    ensures id in b.transfers && b.transfers[id].status in {Pending, Held, UnderReview} ==>
              var t, o := b.transfers[id], CancelTransfer(b, id);
              && o.value == Canceled && OnlyHeld(b.accounts, o.bank.accounts, t.debit, -t.amount)
              && HoldsSettled(b.holds, o.bank.holds, id, Released)
              && o.bank.transfers == b.transfers[id := t.(status := Canceled)]
              && o.bank.ledger == b.ledger && o.bank.keys == b.keys
  {
    hide Good, ResolveHolds, Resolve, OfTransfer;
    if id in b.transfers && b.transfers[id].status.Live() {
      GoodParts(b);
      PickedFits(b, id);
      ResolveKeeps(b, OfTransfer(id), Released);
      ResolveSettles(b.holds, id, Released);
    }
  }

  /** Exactly when a transfer is parked; its hold is stretched and everything else of the tables stays. */
  lemma ParkedExactly(b: Bank, id: Id, status: Status, expires: int)
    requires Good(b) && (status == Held || status == UnderReview)
    ensures PlaceHold(b, id, status, expires).Ok? <==> id in b.transfers && b.transfers[id].status == Pending
    ensures PlaceHold(b, id, status, expires).Raised? ==>
              PlaceHold(b, id, status, expires).fault == if id in b.transfers then WrongState else NotFound
    ensures PlaceHold(b, id, status, expires).Ok? ==>
              var o := PlaceHold(b, id, status, expires);
              && o.value == status && o.bank.transfers == b.transfers[id := b.transfers[id].(status := status)]
              && HoldsStretched(b.holds, o.bank.holds, id, expires)
              && o.bank.accounts == b.accounts && o.bank.ledger == b.ledger && o.bank.keys == b.keys
  {
    hide Good;
    if id in b.transfers && b.transfers[id].status == Pending {
      InternalErrorsNeverRaised(b, id, status, expires, "", 0);
    }
  }

  predicate HoldsStretched(before: seq<Hold>, after: seq<Hold>, id: Id, expires: int) {
    && |after| == |before|
    && forall i :: 0 <= i < |before| ==>
         after[i] == if before[i].status == Active && before[i].transfer == id then before[i].(expires := expires)
                     else before[i]
  }

  // ---- request and settle in one transaction ----

  /** Whether transfer posts at once: a system caller's always, a customer's when the gates say so. */
  predicate PostsNow(r: RequestArgs, decision: Decision) { r.owner == 0 || decision == PostNow }

  /** The status a payment that commits ends in. */
  function EndStatus(r: RequestArgs, decision: Decision): Status {
    if PostsNow(r, decision) then Posted else if decision.Screen? then UnderReview else Held
  }

  /**
   Exactly when transfer commits under an unused key, and in which state: system callers bypass the
   gates, a refused payment leaves nothing behind, a screened or reviewed one is parked.
   */
  lemma TransferredExactly(b: Bank, r: RequestArgs, decision: Decision)
    requires Good(b) && Fresh(b, r)
    ensures AutoTransfer(b, r, decision).Ok? <==>
            && Authorisable(b, r)
            && (PostsNow(r, decision) ==> Fits(b, r.debit, r.credit, r.amount))
            && (r.owner == 0 || decision != Refuse)
    ensures AutoTransfer(b, r, decision).Ok? ==>
              var o := AutoTransfer(b, r, decision);
              && o.value == Requested(r.newId, EndStatus(r, decision), false)
              && o.bank.transfers
                 == b.transfers[r.newId := Transfer(r.debit, r.credit, r.amount, EndStatus(r, decision), r.kind,
                                                    r.endToEnd, None)]
              && if PostsNow(r, decision)
                 then TransferPaid(b, o.bank, r)
                 else OnlyHeld(b.accounts, o.bank.accounts, r.debit, r.amount) && o.bank.ledger == b.ledger
  {
    hide Good, RequestTransfer, PostTransfer, PlaceHold, BigInt, OnlyHeld, TransferPaid;
    AuthorisedExactly(b, r);
    if RequestTransfer(b, r).Ok? {
      AuthorisingReserves(b, r);
      RequestKeeps(b, r);
      var b1 := RequestTransfer(b, r).bank;
      if PostsNow(r, decision) {
        PaidAtOnce(b, r);
      } else if !decision.Refuse? {
        var status := EndStatus(r, decision);
        ParkedExactly(b1, r.newId, status, decision.expires);
      }
    }
  }

  /** The amount has moved and nothing stays reserved. */
  predicate TransferPaid(b: Bank, b': Bank, r: RequestArgs) {
    && r.debit in b.accounts && r.credit in b.accounts
    && b'.accounts.Keys == b.accounts.Keys
    && (forall a :: a in b.accounts ==>
          b'.accounts[a] == b.accounts[a].(balance := b.accounts[a].balance + (if a == r.credit then r.amount else 0)
                                                                           - (if a == r.debit then r.amount else 0)))
    && Booked(b, b', r.newId, r.debit, r.credit, r.amount)
  }

  lemma PaidAtOnce(b: Bank, r: RequestArgs)
    requires Good(b) && Fresh(b, r) && RequestTransfer(b, r).Ok? && Authorisable(b, r)
    ensures var o := PostTransfer(RequestTransfer(b, r).bank, r.newId, Pending);
            && (o.Ok? <==> Fits(b, r.debit, r.credit, r.amount))
            && (o.Ok? ==>
                  && o.value == Posted && TransferPaid(b, o.bank, r)
                  && o.bank.transfers == b.transfers[r.newId := Transfer(r.debit, r.credit, r.amount, Posted, r.kind,
                                                                         r.endToEnd, None)])
  {
    hide Good, RequestTransfer, PostTransfer, BigInt;
    AuthorisingReserves(b, r);
    RequestKeeps(b, r);
    var b1 := RequestTransfer(b, r).bank;
    PostedExactly(b1, r.newId, Pending);
    if PostTransfer(b1, r.newId, Pending).Ok? {
      PostingMoves(b1, r.newId);
    }
  }

  // ---- reversing ----

  /** Exactly when a reversal under an unused key commits. */
  lemma ReversedExactly(b: Bank, id: Id, key: string, newId: Id)
    requires Good(b) && (SENTINEL, key) !in b.keys
    ensures id in b.transfers ==> b.transfers[id].debit in b.accounts && b.transfers[id].credit in b.accounts
    ensures ReverseTransfer(b, id, key, newId).Ok? <==>
            && id in b.transfers
            && (b.transfers[id].status == Reversed
                || (b.transfers[id].status == Posted && newId !in b.transfers && Returnable(b, b.transfers[id])
                    && Fits(b, b.transfers[id].credit, b.transfers[id].debit, b.transfers[id].amount)))
    ensures id in b.transfers && b.transfers[id].status == Posted && !Returnable(b, b.transfers[id]) ==>
              ReverseTransfer(b, id, key, newId) == Raised(InsufficientFunds)
    ensures id in b.transfers && b.transfers[id].status !in {Posted, Reversed} <==>
            ReverseTransfer(b, id, key, newId) == Raised(WrongState)
    ensures id !in b.transfers <==> ReverseTransfer(b, id, key, newId) == Raised(NotFound)
  {
    hide Good, AddLegs, BigInt;
    if id in b.transfers {
      var t := b.transfers[id];
      TransferAccounts(b, id);
      GoodParts(b);
      AmountIsPositive(b, id);
      if t.status == Reversed {
        InternalErrorsNeverRaised(b, id, Held, 0, key, newId);
      } else if Returnable(b, t) {
        ReturnFits(b, newId, t);
      }
    }
  }

  /** The beneficiary, if a customer, still has the amount available. */
  predicate Returnable(b: Bank, t: Transfer)
    requires t.credit in b.accounts
  {
    b.accounts[t.credit].customer ==> t.amount <= b.accounts[t.credit].balance - b.accounts[t.credit].held
  }

  lemma AmountIsPositive(b: Bank, id: Id)
    requires Refs(b) && id in b.transfers
    ensures b.transfers[id].amount > 0
  {
  }

  lemma ReturnFits(b: Bank, newId: Id, t: Transfer)
    requires Refs(b) && HeldCaches(b) && HoldsOk(b) && Solvent(b) && BalanceCaches(b)
    requires t.debit in b.accounts && t.credit in b.accounts && t.debit != t.credit && t.amount > 0 && Returnable(b, t)
    ensures var o := AddLegs(b, newId, t.credit, t.debit, t.amount);
            (o.Ok? <==> Fits(b, t.credit, t.debit, t.amount)) && (o.Raised? ==> o.fault == Overflow)
  {
    hide BalanceSum, HeldSum, ActiveCount, PickedSum, OfTransfer, BigInt;
    GoodAmounts(b);
    PickedIsPart(b.holds, OfTransfer(0), t.credit);
    PickedIsPart(b.holds, OfTransfer(0), t.debit);
  }

  /** A first reversal books the two legs the other way, under a new posted transfer, and marks the original. */
  lemma ReversingMoves(b: Bank, id: Id, key: string, newId: Id)
    requires Good(b) && (SENTINEL, key) !in b.keys && id in b.transfers && b.transfers[id].status == Posted
    requires ReverseTransfer(b, id, key, newId).Ok?
    ensures var t, o := b.transfers[id], ReverseTransfer(b, id, key, newId);
            && t.debit in b.accounts && t.credit in b.accounts && newId !in b.transfers && o.value == newId
            && o.bank.accounts.Keys == b.accounts.Keys
            && (forall a :: a in b.accounts ==>
                  o.bank.accounts[a] == b.accounts[a].(balance := b.accounts[a].balance
                                                       + (if a == t.debit then t.amount else 0)
                                                       - (if a == t.credit then t.amount else 0)))
            && Booked(b, o.bank, newId, t.credit, t.debit, t.amount)
            && o.bank.transfers
               == b.transfers[newId := Transfer(t.credit, t.debit, t.amount, Posted, Reversal, "", Some(id))]
                             [id := t.(status := Reversed)]
            && o.bank.holds == b.holds && o.bank.keys == b.keys[(SENTINEL, key) := KeyRecord(ForReversal(id), newId)]
  {
    hide Good, AddLegs, BigInt;
    var t := b.transfers[id];
    TransferAccounts(b, id);
    LegsAre(b, newId, t.credit, t.debit, t.amount);
  }

  // ---- expiry ----

  predicate Lapsed(h: Hold, now: int) { h.status == Active && h.expires < now }

  /** Some active hold of the transfer is past its expiry. */
  predicate HoldLapsed(holds: seq<Hold>, id: Id, now: int) {
    exists i :: 0 <= i < |holds| && holds[i].transfer == id && Lapsed(holds[i], now)
  }

  predicate HoldsExpired(before: seq<Hold>, after: seq<Hold>, now: int) {
    && |after| == |before|
    && forall i :: 0 <= i < |before| ==>
         after[i] == if Lapsed(before[i], now) then before[i].(status := Expired) else before[i]
  }

  /**
   The sweep always commits: exactly the active holds past their expiry expire, their transfers
   fail if pending and are canceled if parked, their funds are freed, and nothing else changes.
   */
  lemma ExpiredExactly(b: Bank, now: int)
    requires Good(b)
    ensures ExpireHolds(b, now).Ok?
    ensures var b' := ExpireHolds(b, now).bank;
            && HoldsExpired(b.holds, b'.holds, now)
            && b'.transfers.Keys == b.transfers.Keys
            && (forall id :: id in b.transfers ==>
                  var t := b.transfers[id];
                  b'.transfers[id] == if HoldLapsed(b.holds, id, now)
                                      then t.(status := if t.status == Pending then Failed else Canceled) else t)
            && b'.ledger == b.ledger && b'.keys == b.keys
            && OnlyFreed(b.accounts, b'.accounts)
            && forall a :: a in b'.accounts ==> b'.accounts[a].held == HeldSum(b'.holds, a)
  {
    hide Good, ResolveHolds, Resolve, HeldSum, PickedSum, HoldsExpired, HoldLapsed, Lapses, HoldsOk, Refs,
      BalanceCaches, Solvent, Amounts;
    ExpireKeeps(b, now);
    GoodParts(b);
    GoodParts(ExpireHolds(b, now).bank);
    GoodAmounts(b);
    ResolveKeeps(b, LapsedBy(now), Expired);
    ResolveLapsed(b.holds, now);
    forall id | id in b.transfers
      ensures HoldLapsed(b.holds, id, now) <==> b.transfers[id].status.Live() && Lapses(b.holds, id, now)
    {
      LapsingIsLive(b, id, now);
    }
  }

  lemma LapsingIsLive(b: Bank, id: Id, now: int)
    requires HoldsOk(b) && id in b.transfers
    ensures HoldLapsed(b.holds, id, now) <==> b.transfers[id].status.Live() && Lapses(b.holds, id, now)
  {
    hide HoldsOk;
    if i :| 0 <= i < |b.holds| && b.holds[i].transfer == id && Lapsed(b.holds[i], now) {
      ActiveHoldIsLive(b, i);
    }
  }

  /** Reservations may shrink; nothing else of an account changes. */
  predicate OnlyFreed(before: map<Id, Account>, after: map<Id, Account>) {
    && after.Keys == before.Keys
    && forall a :: a in before ==>
         after[a] == before[a].(held := after[a].held) && after[a].held <= before[a].held
  }

  lemma ActiveHoldIsLive(b: Bank, i: nat)
    requires HoldsOk(b) && i < |b.holds| && b.holds[i].status.Active?
    ensures b.holds[i].transfer in b.transfers && b.transfers[b.holds[i].transfer].status.Live()
  {
    hide ActiveCount;
    assert HoldFits(b, b.holds[i]);
  }

  lemma ResolveLapsed(holds: seq<Hold>, now: int)
    ensures HoldsExpired(holds, Resolve(holds, LapsedBy(now), Expired), now)
  {
  }

  // ---- accounts and keys ----

  /** An account opens empty and active; later only its activity and its limit are set; other accounts never change. */
  lemma AccountsExactly(b: Bank, id: Id, customer: bool, active: bool, limit: int)
    ensures OpenAccount(b, id, customer, limit).Ok? <==> id !in b.accounts && limit >= 0
    ensures OpenAccount(b, id, customer, limit).Ok? ==>
              OpenAccount(b, id, customer, limit).bank
              == b.(accounts := b.accounts[id := Account(customer, true, 0, 0, limit)])
    ensures SetAccount(b, id, active, limit).Ok? <==> id in b.accounts && limit >= 0
    ensures SetAccount(b, id, active, limit).Ok? ==>
              SetAccount(b, id, active, limit).bank
              == b.(accounts := b.accounts[id := b.accounts[id].(active := active, limit := limit)])
  {
  }

  /** Cleanup drops the expired records and nothing else. */
  lemma CleanedExactly(b: Bank, expired: set<(Id, string)>)
    ensures CleanupKeys(b, expired).Ok? && CleanupKeys(b, expired).bank == b.(keys := b.keys - expired)
  {
  }
}
