/**
 Properties that tie the store operations to the balance computation: what
 an added expense does to the members' total, that the total of all
 balances is the sum of those effects, and what removing a member leaves
 behind in the balances.
 */
module Consistency {
  import opened Sequences
  import opened Entities
  import opened Splits
  import opened Store
  import opened Balances

  /** The expense a successful `addExpense` appended. */
  function Added(l: Ledger, r: Ledger): Expense
    requires |r.expenses| == |l.expenses| + 1
  {
    r.expenses[|l.expenses|]
  }

  /**
   A parts split entered on the form, which offers one input per current
   member, charges the members exactly the expense amount, so the expense
   leaves the members' total unchanged.
   */
  lemma PartsExpenseNetsZero(l: Ledger, id: Id, description: string, amount: real, payerId: Id, parts: seq<(Id, int)>)
    requires UniqueIds(l.members)
    requires KeySeq(parts) == MemberIds(l.members)
    requires AddExpense(l, id, description, amount, payerId, PartsForm(parts)).Ok?
    ensures var r := AddExpense(l, id, description, amount, payerId, PartsForm(parts)).value;
      Net(MemberIds(r.members), Added(l, r)) == 0.0
  {
    PartsSplitIsExact(amount, parts);
  }

  /**
   An amounts split entered on the form moves the members' total by at most
   the tolerance: the accepted inputs may miss the amount by that much.
   */
  lemma AmountsExpenseNetsNearZero(l: Ledger, id: Id, description: string, amount: real, payerId: Id, values: seq<(Id, real)>)
    requires UniqueIds(l.members)
    requires KeySeq(values) == MemberIds(l.members)
    requires AddExpense(l, id, description, amount, payerId, AmountsForm(values)).Ok?
    ensures var r := AddExpense(l, id, description, amount, payerId, AmountsForm(values)).value;
      Abs(Net(MemberIds(r.members), Added(l, r))) <= Tolerance
  {
    var r := AddExpense(l, id, description, amount, payerId, AmountsForm(values)).value;
    var d := ToMap(values);
    assert ResolveSplit(amount, AmountsForm(values)) == Ok(Custom(d));
    assert Abs(SumValues(values) - amount) <= Tolerance;
    StoredAmountsTotal(values);
  }

  /**
   `calculateBalances` with distinct member ids: the members' balances add
   up to the nets of the expenses whose payer is still a member.
   */
  lemma LedgerTotal(l: Ledger)
    requires UniqueIds(l.members)
    ensures Total(MemberIds(l.members), CalculateBalances(l)) == NetTotal(MemberIds(l.members), l.expenses)
  {
    BalancesSum(MemberIds(l.members), l.expenses);
  }

  /** Every counted expense of the ledger leaves the members' total unchanged. */
  ghost predicate AllNetZero(l: Ledger) {
    forall i :: 0 <= i < |l.expenses| && l.expenses[i].payerId in MemberIds(l.members) ==>
      Net(MemberIds(l.members), l.expenses[i]) == 0.0
  }

  /** When every counted expense nets to zero the members' nets add up to zero. */
  lemma {:induction false} NetTotalZero(ids: seq<Id>, es: seq<Expense>)
    requires forall i :: 0 <= i < |es| && es[i].payerId in ids ==> Net(ids, es[i]) == 0.0
    ensures NetTotal(ids, es) == 0.0
    decreases |es|
  {
    if es != [] {
      var init := es[..|es| - 1];
      forall i | 0 <= i < |init| && init[i].payerId in ids
        ensures Net(ids, init[i]) == 0.0
      {
        assert init[i] == es[i];
      }
      NetTotalZero(ids, init);
    }
  }

  /**
   When every counted expense nets to zero the members' balances add up to
   zero: what creditors are owed is what debtors owe.
   */
  lemma ZeroSum(l: Ledger)
    requires UniqueIds(l.members)
    requires AllNetZero(l)
    ensures Total(MemberIds(l.members), CalculateBalances(l)) == 0.0
  {
    LedgerTotal(l);
    NetTotalZero(MemberIds(l.members), l.expenses);
  }

  /**
   Adding an equal-split expense, or a parts-split expense entered with one
   input per current member, keeps every counted expense netting to zero.
   */
  lemma AddExpenseKeepsNetZero(l: Ledger, id: Id, description: string, amount: real, payerId: Id, form: SplitForm)
    requires UniqueIds(l.members) && AllNetZero(l)
    requires form.EqualForm? || (form.PartsForm? && KeySeq(form.parts) == MemberIds(l.members))
    requires AddExpense(l, id, description, amount, payerId, form).Ok?
    ensures AllNetZero(AddExpense(l, id, description, amount, payerId, form).value)
  {
    var r := AddExpense(l, id, description, amount, payerId, form).value;
    var n := |l.expenses|;
    if form.PartsForm? {
      PartsExpenseNetsZero(l, id, description, amount, payerId, form.parts);
    }
    assert Net(MemberIds(r.members), r.expenses[n]) == 0.0;
    forall i | 0 <= i < |r.expenses| && r.expenses[i].payerId in MemberIds(r.members)
      ensures Net(MemberIds(r.members), r.expenses[i]) == 0.0
    {
      if i < n {
        assert r.expenses[i] == r.expenses[..n][i] == l.expenses[i];
      }
    }
  }

  /**
   Removing a member leaves a NaN balance under its id exactly when an
   expense that is still counted lists it in a custom split; otherwise the
   id has no balance at all.
   */
  lemma RemovedMemberReadsNaN(l: Ledger, id: Id)
    ensures var r := RemoveMember(l, id);
      var bs := CalculateBalances(r);
      && (id in bs <==> exists i :: 0 <= i < |r.expenses| && ListsKey(MemberIds(r.members), r.expenses[i], id))
      && (id in bs ==> bs[id] == NaN)
  {
    var r := RemoveMember(l, id);
    ListedIff(MemberIds(r.members), r.expenses, id);
  }
}
