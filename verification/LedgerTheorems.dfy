/** What the contract of the books means to those who keep money in them. */
module LedgerTheorems {
  import opened Ledger
  import opened LedgerBooks
  import opened Wrappers

  // ---- reconcile() ----

  function EntriesSum(es: seq<Entry>): int {
    if es == [] then 0 else EntriesSum(es[..|es| - 1]) + es[|es| - 1].Signed()
  }

  /** Every check of reconcile() comes back empty. */
  predicate Reconciles(b: Bank) {
    && (forall a :: a in b.accounts ==> b.accounts[a].balance == BalanceSum(b.ledger, a))
    && (forall a :: a in b.accounts && b.accounts[a].balance != 0 ==>
          exists i :: 0 <= i < |b.ledger| && b.ledger[i].account == a)
    && (forall i :: 0 <= i < |b.ledger| ==> EntriesSum(EntriesOf(b.ledger, b.ledger[i].transfer)) == 0)
    && Total(b.ledger) == 0
    && (forall a :: a in b.accounts ==> b.accounts[a].held == HeldSum(b.holds, a))
    && (forall id :: id in b.transfers && (b.transfers[id].status.Held? || b.transfers[id].status.UnderReview?) ==>
          exists i :: 0 <= i < |b.holds| && b.holds[i].status.Active? && b.holds[i].transfer == id)
  }

  lemma TwoLegsNet(es: seq<Entry>, t: Transfer)
    requires LegsOk(es, t)
    ensures EntriesSum(es) == 0
  {
    if es != [] {
      assert es[..1][..0] == [];
      assert EntriesSum(es[..1]) == es[0].Signed();
    }
  }

  lemma GoodReconciles(b: Bank)
    requires Good(b)
    ensures Reconciles(b)
  {
    hide EntriesSum, EntriesOf, Total, Running, ReversalsOk, KeysOk, HeldSum, BalanceSum, ActiveCount;
    forall a | a in b.accounts && b.accounts[a].balance != 0
      ensures exists i :: 0 <= i < |b.ledger| && b.ledger[i].account == a
    {
      if forall i :: 0 <= i < |b.ledger| ==> b.ledger[i].account != a {
        NothingBooked(b.ledger, a);
      }
    }
    forall i | 0 <= i < |b.ledger|
      ensures EntriesSum(EntriesOf(b.ledger, b.ledger[i].transfer)) == 0
    {
      TwoLegsNet(EntriesOf(b.ledger, b.ledger[i].transfer), b.transfers[b.ledger[i].transfer]);
    }
    forall id | id in b.transfers && b.transfers[id].status.Live()
      ensures exists i :: 0 <= i < |b.holds| && b.holds[i].status.Active? && b.holds[i].transfer == id
    {
      if forall i :: 0 <= i < |b.holds| && b.holds[i].status.Active? ==> b.holds[i].transfer != id {
        NoneActive(b.holds, id);
      }
    }
  }

  /** The books are correct after every run: reconcile() is empty and no customer has less than it has authorised. */
  lemma BooksAreCorrect(ops: seq<Op>)
    requires AllProper(ops)
    ensures Reconciles(BankAfter(ops))
    ensures forall a :: a in BankAfter(ops).accounts && BankAfter(ops).accounts[a].customer ==>
              0 <= BankAfter(ops).accounts[a].held <= BankAfter(ops).accounts[a].balance
  {
    hide BankAfter, Reconciles, BalanceCaches, Legs, Running, Total, ReversalsOk, KeysOk, HeldSum, ActiveCount,
      PickedSum, OfTransfer;
    EveryRunIsGood(ops);
    var b := BankAfter(ops);
    GoodReconciles(b);
    GoodAmounts(b);
    forall a | a in b.accounts
      ensures b.accounts[a].held >= 0
    {
      PickedIsPart(b.holds, OfTransfer(0), a);
    }
  }

  // ---- no money is made or lost ----

  ghost function SumOf(accounts: map<Id, Account>, ids: set<Id>): int
    requires ids <= accounts.Keys
  {
    if ids == {} then 0 else
      var a :| a in ids;
      accounts[a].balance + SumOf(accounts, ids - {a})
  }

  ghost function LedgerSumOf(ledger: seq<Entry>, ids: set<Id>): int {
    if ids == {} then 0 else
      var a :| a in ids;
      BalanceSum(ledger, a) + LedgerSumOf(ledger, ids - {a})
  }

  lemma {:induction false} SumsAgree(b: Bank, ids: set<Id>)
    requires BalanceCaches(b) && ids <= b.accounts.Keys
    ensures SumOf(b.accounts, ids) == LedgerSumOf(b.ledger, ids)
  {
    hide BalanceSum;
    if ids == {} {
    } else {
      var a :| a in ids && SumOf(b.accounts, ids) == b.accounts[a].balance + SumOf(b.accounts, ids - {a});
      SumsAgree(b, ids - {a});
      LedgerSumRemove(b.ledger, ids, a);
    }
  }

  /** The order of summation does not matter. */
  lemma {:induction false} LedgerSumRemove(ledger: seq<Entry>, ids: set<Id>, x: Id)
    requires x in ids
    ensures LedgerSumOf(ledger, ids) == BalanceSum(ledger, x) + LedgerSumOf(ledger, ids - {x})
  {
    hide BalanceSum;
    var a :| a in ids && LedgerSumOf(ledger, ids) == BalanceSum(ledger, a) + LedgerSumOf(ledger, ids - {a});
    if a != x {
      LedgerSumRemove(ledger, ids - {a}, x);
      LedgerSumRemove(ledger, ids - {x}, a);
      assert ids - {a} - {x} == ids - {x} - {a};
    }
  }

  lemma {:induction false} LedgerSumGrows(ledger: seq<Entry>, e: Entry, ids: set<Id>)
    ensures LedgerSumOf(ledger + [e], ids) == LedgerSumOf(ledger, ids) + if e.account in ids then e.Signed() else 0
  {
    hide BalanceSum;
    if ids == {} {
    } else {
      var a :| a in ids;
      LedgerSumRemove(ledger, ids, a);
      LedgerSumRemove(ledger + [e], ids, a);
      LedgerSumGrows(ledger, e, ids - {a});
      SumsGrow(ledger, e, a, 0);
    }
  }

  lemma {:induction false} EmptyLedgerSums(ids: set<Id>)
    ensures LedgerSumOf([], ids) == 0
  {
    if ids == {} {
    } else {
      var a :| a in ids;
      LedgerSumRemove([], ids, a);
      EmptyLedgerSums(ids - {a});
    }
  }

  lemma {:induction false} LedgerSumIsTotal(ledger: seq<Entry>, ids: set<Id>)
    requires forall i :: 0 <= i < |ledger| ==> ledger[i].account in ids
    ensures LedgerSumOf(ledger, ids) == Total(ledger)
  {
    if ledger == [] {
      EmptyLedgerSums(ids);
    } else {
      var l', e := ledger[..|ledger| - 1], ledger[|ledger| - 1];
      LedgerSumIsTotal(l', ids);
      LedgerSumGrows(l', e, ids);
      assert ledger == l' + [e];
    }
  }

  /** In every run the balances of all accounts, customers' and the bank's own, sum to zero. */
  lemma MoneyIsConserved(ops: seq<Op>)
    requires AllProper(ops)
    ensures SumOf(BankAfter(ops).accounts, BankAfter(ops).accounts.Keys) == 0
  {
    hide BankAfter, BalanceSum, HeldSum, EntriesOf, Total, Running, Legs, HoldsOk, ReversalsOk, KeysOk;
    EveryRunIsGood(ops);
    var b := BankAfter(ops);
    SumsAgree(b, b.accounts.Keys);
    LedgerSumIsTotal(b.ledger, b.accounts.Keys);
  }

  // ---- an authorised payment goes through ----

  /**
   A live transfer posts: whatever happened since it was authorised, posting from its state
   succeeds exactly when both new balances fit 64 bits, and it moves exactly its amount, the
   payer's available funds staying what they were.
   */
  lemma AuthorisedPaymentPosts(b: Bank, id: Id)
    requires Good(b) && id in b.transfers && b.transfers[id].status.Live()
    ensures var t := b.transfers[id];
            var o := PostTransfer(b, id, t.status);
            && t.debit in b.accounts && t.credit in b.accounts
            && (o.Ok? <==> BigInt(b.accounts[t.debit].balance - t.amount)
                           && BigInt(b.accounts[t.credit].balance + t.amount))
            && (o.Raised? ==> o.fault == Overflow)
            && (o.Ok? ==>
                  && o.value == Posted && o.bank.transfers[id].status == Posted
                  && o.bank.accounts.Keys == b.accounts.Keys
                  && (forall a :: a in b.accounts ==>
                        o.bank.accounts[a].balance ==
                        b.accounts[a].balance
                        + (if a == t.credit then t.amount else 0) - (if a == t.debit then t.amount else 0))
                  && o.bank.accounts[t.debit].balance - o.bank.accounts[t.debit].held
                     == b.accounts[t.debit].balance - b.accounts[t.debit].held)
  {
    hide BalanceSum, HeldSum, PickedSum, EntriesOf, Total, Running, ActiveCount, Legs, ReversalsOk, KeysOk,
      ResolveHolds, PostTransfer, HoldsOk, Resolve;
    var t := b.transfers[id];
    LegsOnlyOverflow(b, id);
    if AddLegs(b, id, t.debit, t.credit, t.amount).Ok? {
      AfterLegs(b, id);
      AddLegsShape(b, id, t.debit, t.credit, t.amount);
      var b1 := AddLegs(b, id, t.debit, t.credit, t.amount).bank;
      ResolveKeeps(b1, OfTransfer(id), Captured);
      PostSucceeds(b, id);
    } else {
      PostFails(b, id);
    }
  }

  lemma LegsOnlyOverflow(b: Bank, id: Id)
    requires Good(b) && id in b.transfers && b.transfers[id].status.Live()
    ensures var t := b.transfers[id];
            var o := AddLegs(b, id, t.debit, t.credit, t.amount);
            && t.debit in b.accounts && t.credit in b.accounts
            && (o.Ok? <==> BigInt(b.accounts[t.debit].balance - t.amount)
                           && BigInt(b.accounts[t.credit].balance + t.amount))
            && (o.Raised? ==> o.fault == Overflow)
  {
    hide BalanceSum, HeldSum, PickedSum, EntriesOf, Total, Running, ActiveCount, Legs, ReversalsOk, KeysOk;
    PickedFits(b, id);
    var t := b.transfers[id];
    PickedIsPart(b.holds, OfTransfer(id), t.debit);
    PickedIsPart(b.holds, OfTransfer(id), t.credit);
  }

  /** A live transfer's amount is part of what its debit account holds. */
  lemma PickedFits(b: Bank, id: Id)
    requires Refs(b) && HoldsOk(b) && id in b.transfers && b.transfers[id].status.Live()
    ensures Amounts(b.holds)
    ensures forall a ::
              PickedSum(b.holds, OfTransfer(id), a) == if a == b.transfers[id].debit then b.transfers[id].amount else 0
  {
    hide ActiveCount, PickedSum;
    GoodAmounts(b);
    var t := b.transfers[id];
    forall i | 0 <= i < |b.holds| && b.holds[i].status.Active? && b.holds[i].transfer == id
      ensures b.holds[i].account == t.debit && b.holds[i].amount == t.amount
    {
      assert HoldFits(b, b.holds[i]);
    }
    forall a
      ensures PickedSum(b.holds, OfTransfer(id), a) == if a == t.debit then t.amount else 0
    {
      PickedAmount(b.holds, id, t, a);
    }
  }

  lemma PostSucceeds(b: Bank, id: Id)
    requires id in b.transfers && b.transfers[id].status.Live()
    requires AddLegs(b, id, b.transfers[id].debit, b.transfers[id].credit, b.transfers[id].amount).Ok?
    requires ResolveHolds(AddLegs(b, id, b.transfers[id].debit, b.transfers[id].credit, b.transfers[id].amount).bank,
                          OfTransfer(id), Captured).Ok?
    ensures PostTransfer(b, id, b.transfers[id].status) == Ok(PostedBank(b, id), Posted)
  {
    hide AddLegs, ResolveHolds;
  }

  lemma PostFails(b: Bank, id: Id)
    requires id in b.transfers && b.transfers[id].status.Live()
    requires AddLegs(b, id, b.transfers[id].debit, b.transfers[id].credit, b.transfers[id].amount).Raised?
    ensures PostTransfer(b, id, b.transfers[id].status)
            == Raised(AddLegs(b, id, b.transfers[id].debit, b.transfers[id].credit, b.transfers[id].amount).fault)
  {
    hide AddLegs, ResolveHolds;
  }

  // ---- the internal errors ----

  /**
   The internal-error branches are dead in correct books: parking a transfer never misses its
   hold, a reversed transfer never misses its reversal, and a posting never misses an account.
   */
  lemma InternalErrorsNeverRaised(b: Bank, id: Id, status: Status, expires: int, key: string, newId: Id)
    requires Good(b) && id in b.transfers && (status.Held? || status.UnderReview?)
    ensures PlaceHold(b, id, status, expires) != Raised(NoHold)
    ensures b.transfers[id].status == Reversed && (SENTINEL, key) !in b.keys ==> ReverseTransfer(b, id, key, newId).Ok?
    ensures b.transfers[id].status.Live() ==> PostTransfer(b, id, b.transfers[id].status) != Raised(NoAccount)
    ensures ReverseTransfer(b, id, key, newId) != Raised(NoAccount)
  {
    hide ActiveCount, EntriesOf, Total, Running, BalanceCaches, HeldCaches, Solvent, Legs, KeysOk, PostTransfer,
      AddEntry, HoldFits;
    if b.transfers[id].status.Live() {
      AuthorisedPaymentPosts(b, id);
      if forall i :: 0 <= i < |b.holds| && b.holds[i].status.Active? ==> b.holds[i].transfer != id {
        NoneActive(b.holds, id);
      }
    }
    LegsFindAccounts(b, newId, b.transfers[id].credit, b.transfers[id].debit, b.transfers[id].amount);
  }

  lemma LegsFindAccounts(b: Bank, id: Id, from: Id, to: Id, amount: int)
    requires from in b.accounts && to in b.accounts
    ensures AddLegs(b, id, from, to, amount) != Raised(NoAccount)
  {
  }

  // ---- history is kept ----

  lemma LegsExtend(b: Bank, id: Id, from: Id, to: Id, amount: int)
    ensures AddLegs(b, id, from, to, amount).Ok? ==> b.ledger <= AddLegs(b, id, from, to, amount).bank.ledger
  {
  }

  lemma PostExtends(b: Bank, id: Id, source: Status)
    ensures b.ledger <= Committed(b, PostTransfer(b, id, source)).ledger
  {
    if id in b.transfers {
      LegsExtend(b, id, b.transfers[id].debit, b.transfers[id].credit, b.transfers[id].amount);
    }
    hide AddLegs, PickedSum, Resolve;
  }

  /** The ledger is append-only: every transaction leaves what was booked as a prefix. */
  lemma LedgerOnlyGrows(b: Bank, op: Op)
    ensures b.ledger <= Step(b, op).ledger
  {
    hide RequestFault, PostTransfer, PickedSum, Resolve, Lapses, AddLegs, Stretch, AutoTransfer, ReverseTransfer;
    match op {
      case DoTransfer(r, d) => AutoExtends(b, r, d);
      case DoPost(id, source) => PostExtends(b, id, source);
      case DoReverse(id, key, newId) => ReverseExtends(b, id, key, newId);
      case _ =>
    }
  }

  lemma AutoExtends(b: Bank, r: RequestArgs, decision: Decision)
    ensures b.ledger <= Committed(b, AutoTransfer(b, r, decision)).ledger
  {
    hide PostTransfer, RequestFault, Stretch;
    if RequestTransfer(b, r).Ok? {
      PostExtends(RequestTransfer(b, r).bank, RequestTransfer(b, r).value.transfer, Pending);
    }
  }

  lemma ReverseExtends(b: Bank, id: Id, key: string, newId: Id)
    ensures b.ledger <= Committed(b, ReverseTransfer(b, id, key, newId)).ledger
  {
    if id in b.transfers {
      LegsExtend(b, newId, b.transfers[id].credit, b.transfers[id].debit, b.transfers[id].amount);
    }
    hide AddLegs;
  }

  /** How a transfer's status may move in one transaction. */
  predicate MayBecome(s: Status, s': Status) {
    || s == s'
    || (s.Pending? && (s'.Held? || s'.UnderReview? || s'.Posted? || s'.Failed? || s'.Canceled?))
    || ((s.Held? || s.UnderReview?) && (s'.Posted? || s'.Canceled?))
    || (s.Posted? && s'.Reversed?)
  }

  /** Every transfer row survives every transaction, its terms fixed, its status moving only forward. */
  lemma StatusOnlyAdvances(b: Bank, op: Op, id: Id)
    requires id in b.transfers && Proper(op)
    ensures id in Step(b, op).transfers
    ensures Step(b, op).transfers[id] == b.transfers[id].(status := Step(b, op).transfers[id].status)
    ensures MayBecome(b.transfers[id].status, Step(b, op).transfers[id].status)
  {
    hide RequestTransfer, AutoTransfer, PostTransfer, ReverseTransfer, PickedSum, Resolve, Lapses, Stretch, MayBecome;
    Reflexive(b.transfers[id].status);
    match op {
      case DoRequest(r) => RequestAdvances(b, r, id);
      case DoTransfer(r, d) => AutoAdvances(b, r, d, id);
      case DoPost(x, source) => PostAdvances(b, x, source, id);
      case DoCancel(x) => CancelAdvances(b, x, id);
      case DoReverse(x, key, newId) => ReverseAdvances(b, x, key, newId, id);
      case DoExpire(now) => ExpireAdvances(b, now, id);
      case _ =>
    }
  }

  predicate Advances(b: Bank, b': Bank, id: Id)
    requires id in b.transfers
  {
    id in b'.transfers && b'.transfers[id] == b.transfers[id].(status := b'.transfers[id].status)
    && MayBecome(b.transfers[id].status, b'.transfers[id].status)
  }

  lemma Reflexive(s: Status)
    ensures MayBecome(s, s)
  {
  }

  lemma RequestAdvances(b: Bank, r: RequestArgs, id: Id)
    requires id in b.transfers
    ensures var b' := Committed(b, RequestTransfer(b, r)); id in b'.transfers && b'.transfers[id] == b.transfers[id]
    ensures Advances(b, Committed(b, RequestTransfer(b, r)), id)
  {
    hide HeldSum;
  }

  lemma PostAdvances(b: Bank, x: Id, source: Status, id: Id)
    requires id in b.transfers && source.Live()
    ensures Advances(b, Committed(b, PostTransfer(b, x, source)), id)
    ensures id != x ==> Committed(b, PostTransfer(b, x, source)).transfers[id] == b.transfers[id]
  {
    if x in b.transfers {
      var t := b.transfers[x];
      if AddLegs(b, x, t.debit, t.credit, t.amount).Ok? {
        LegsTouchOnly(b, x, t.debit, t.credit, t.amount);
      }
    }
    hide AddLegs, PickedSum, Resolve;
  }

  lemma CancelAdvances(b: Bank, x: Id, id: Id)
    requires id in b.transfers
    ensures Advances(b, Committed(b, CancelTransfer(b, x)), id)
  {
    hide PickedSum, Resolve;
  }

  lemma ExpireAdvances(b: Bank, now: int, id: Id)
    requires id in b.transfers
    ensures Advances(b, Committed(b, ExpireHolds(b, now)), id)
  {
    hide PickedSum, Resolve, Lapses;
  }

  lemma ReverseAdvances(b: Bank, x: Id, key: string, newId: Id, id: Id)
    requires id in b.transfers
    ensures Advances(b, Committed(b, ReverseTransfer(b, x, key, newId)), id)
  {
    hide AddLegs, ReverseTransfer;
    if ReverseTransfer(b, x, key, newId).Ok? {
      ReverseIs(b, x, key, newId);
      if FirstReversal(b, x, key, newId) {
        LegsTouchOnly(b, newId, b.transfers[x].credit, b.transfers[x].debit, b.transfers[x].amount);
      }
    }
  }

  lemma AutoAdvances(b: Bank, r: RequestArgs, decision: Decision, id: Id)
    requires id in b.transfers
    ensures Advances(b, Committed(b, AutoTransfer(b, r, decision)), id)
  {
    hide PostTransfer, RequestTransfer, Stretch, MayBecome;
    Reflexive(b.transfers[id].status);
    RequestAdvances(b, r, id);
    if RequestTransfer(b, r).Ok? {
      var b', q := RequestTransfer(b, r).bank, RequestTransfer(b, r).value;
      if !q.replay {
        NewIsOther(b, r, id);
        PostAdvances(b', q.transfer, Pending, id);
      }
    }
  }

  lemma NewIsOther(b: Bank, r: RequestArgs, id: Id)
    requires id in b.transfers && RequestTransfer(b, r).Ok? && !RequestTransfer(b, r).value.replay
    ensures RequestTransfer(b, r).value.transfer != id
  {
    hide HeldSum;
  }
}
