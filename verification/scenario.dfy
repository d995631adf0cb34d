/**
 A four-member ledger whose debt simplification never finishes under the
 application's pointer rule. A pays 0.024, split by amounts as 0.011 for B
 and 0.013 for C; D pays 0.001, split by amounts as 0.001 for A. The
 balances are A +0.023, B -0.011, C -0.013, D +0.001, so D is within the
 tolerance and the walk runs over one creditor and two debtors.
 */
module Scenario {
  import opened Sequences
  import opened Entities
  import opened Text
  import opened Splits
  import opened Store
  import opened Balances
  import opened Planner

  function Ids(): seq<Id> {
    ["A", "B", "C", "D"]
  }

  /** The amounts form of the first expense: one input per member, blanks read as zero. */
  function FirstForm(): seq<(Id, real)> {
    [("A", 0.0), ("B", 0.011), ("C", 0.013), ("D", 0.0)]
  }

  function SecondForm(): seq<(Id, real)> {
    [("A", 0.001), ("B", 0.0), ("C", 0.0), ("D", 0.0)]
  }

  function FirstShares(): map<Id, real> {
    map["A" := 0.0, "B" := 0.011, "C" := 0.013, "D" := 0.0]
  }

  function SecondShares(): map<Id, real> {
    map["A" := 0.001, "B" := 0.0, "C" := 0.0, "D" := 0.0]
  }

  /** The first form adds up to 0.024 and stores its inputs as typed. */
  lemma FirstFormAccepted()
    ensures ResolveSplit(0.024, AmountsForm(FirstForm())) == Ok(Custom(FirstShares()))
  {
    var f := FirstForm();
    assert f[1..] == [("B", 0.011), ("C", 0.013), ("D", 0.0)];
    assert f[1..][1..] == [("C", 0.013), ("D", 0.0)];
    assert f[1..][1..][1..] == [("D", 0.0)];
    assert f[1..][1..][1..][1..] == [];
    assert SumValues(f) == 0.024;
    assert f[..3] == [("A", 0.0), ("B", 0.011), ("C", 0.013)];
    assert f[..3][..2] == [("A", 0.0), ("B", 0.011)];
    assert f[..3][..2][..1] == [("A", 0.0)];
    assert f[..3][..2][..1][..0] == [];
    assert ToMap(f[..3][..2][..1]) == map["A" := 0.0];
    assert ToMap(f[..3][..2]) == map["A" := 0.0, "B" := 0.011];
    assert ToMap(f[..3]) == map["A" := 0.0, "B" := 0.011, "C" := 0.013];
    assert ToMap(f) == FirstShares();
  }

  /** The second form adds up to 0.001 and stores its inputs as typed. */
  lemma SecondFormAccepted()
    ensures ResolveSplit(0.001, AmountsForm(SecondForm())) == Ok(Custom(SecondShares()))
  {
    var f := SecondForm();
    assert f[1..] == [("B", 0.0), ("C", 0.0), ("D", 0.0)];
    assert f[1..][1..] == [("C", 0.0), ("D", 0.0)];
    assert f[1..][1..][1..] == [("D", 0.0)];
    assert f[1..][1..][1..][1..] == [];
    assert SumValues(f) == 0.001;
    assert f[..3] == [("A", 0.001), ("B", 0.0), ("C", 0.0)];
    assert f[..3][..2] == [("A", 0.001), ("B", 0.0)];
    assert f[..3][..2][..1] == [("A", 0.001)];
    assert f[..3][..2][..1][..0] == [];
    assert ToMap(f[..3][..2][..1]) == map["A" := 0.001];
    assert ToMap(f[..3][..2]) == map["A" := 0.001, "B" := 0.0];
    assert ToMap(f[..3]) == map["A" := 0.001, "B" := 0.0, "C" := 0.0];
    assert ToMap(f) == SecondShares();
  }

  function First(): Expense {
    Expense("1", "Jantar", 0.024, "A", Custom(FirstShares()))
  }

  function Second(): Expense {
    Expense("2", "Troco", 0.001, "D", Custom(SecondShares()))
  }

  /** The group: four members with the ids above. */
  function Members(): seq<Member> {
    [Member("A", "Ana", "", Cpf), Member("B", "Bruno", "", Cpf), Member("C", "Carla", "", Cpf), Member("D", "Davi", "", Cpf)]
  }

  lemma MembersHaveIds()
    ensures MemberIds(Members()) == Ids()
  {
    assert MemberIds(Members())[0] == "A";
  }

  /** The first expense as `addExpense` stores it on the empty ledger. */
  lemma AddFirst()
    ensures AddExpense(Ledger(Members(), []), "1", "Jantar", 0.024, "A", AmountsForm(FirstForm()))
      == Ok(Ledger(Members(), [First()]))
  {
    var d := "Jantar";
    assert !IsSpace(d[0]) && !IsSpace(d[5]);
    assert Trim(d) == d;
    assert !Blank(d);
    FirstFormAccepted();
  }

  /** The second expense as `addExpense` stores it after the first. */
  lemma AddSecond()
    ensures AddExpense(Ledger(Members(), [First()]), "2", "Troco", 0.001, "D", AmountsForm(SecondForm()))
      == Ok(Ledger(Members(), [First(), Second()]))
  {
    var d := "Troco";
    assert !IsSpace(d[0]) && !IsSpace(d[4]);
    assert Trim(d) == d;
    assert !Blank(d);
    SecondFormAccepted();
    var e := Expense("2", d, 0.001, "D", Custom(SecondShares()));
    assert e == Second();
    assert [First()] + [e] == [First(), Second()];
  }

  function Stalling(): map<Id, Bal> {
    map["A" := Num(0.023), "B" := Num(-0.011), "C" := Num(-0.013), "D" := Num(0.001)]
  }

  /** Every member starts at zero. */
  lemma Initial()
    ensures InitialBalances(Ids()) == map["A" := Num(0.0), "B" := Num(0.0), "C" := Num(0.0), "D" := Num(0.0)]
  {
  }

  /** Folding the first expense into the zero balances. */
  lemma ApplyFirst()
    ensures ApplyExpense(Ids(), map["A" := Num(0.0), "B" := Num(0.0), "C" := Num(0.0), "D" := Num(0.0)], First())
      == map["A" := Num(0.024), "B" := Num(-0.011), "C" := Num(-0.013), "D" := Num(0.0)]
  {
  }

  /** The balances after the first expense. */
  lemma AfterFirst()
    ensures BalancesAfter(Ids(), [First()]) == map["A" := Num(0.024), "B" := Num(-0.011), "C" := Num(-0.013), "D" := Num(0.0)]
  {
    assert [First()][..0] == [];
    Initial();
    ApplyFirst();
  }

  /** The balances after both expenses. */
  lemma AfterSecond()
    ensures BalancesAfter(Ids(), [First(), Second()]) == Stalling()
  {
    AfterFirst();
    assert [First(), Second()][..1] == [First()];
  }

  /** `calculateBalances` on the ledger the two expenses produce. */
  lemma LedgerBalances()
    ensures CalculateBalances(Ledger(Members(), [First(), Second()])) == Stalling()
  {
    MembersHaveIds();
    AfterSecond();
  }

  /** The balance keys are the four ids, each once, in insertion order. */
  lemma StallingKeys()
    ensures forall k :: k in Stalling() <==> k in Ids()
    ensures Distinct(Ids())
  {
  }

  /** The balance entries in `Object.keys` order, which for these keys is insertion order. */
  lemma StallingEntries()
    ensures Entries(Stalling(), Ids()) == [("A", Num(0.023)), ("B", Num(-0.011)), ("C", Num(-0.013)), ("D", Num(0.001))]
  {
  }

  /** Only A is a creditor: D's 0.001 is within the tolerance. */
  lemma StallingCreditors()
    ensures SortDesc(Creditors(Entries(Stalling(), Ids()))) == StallCreditors()
  {
    StallingEntries();
    var e := Entries(Stalling(), Ids());
    assert e[1..] == [("B", Num(-0.011)), ("C", Num(-0.013)), ("D", Num(0.001))];
    assert e[1..][1..] == [("C", Num(-0.013)), ("D", Num(0.001))];
    assert e[1..][1..][1..] == [("D", Num(0.001))];
    assert e[1..][1..][1..][1..] == [];
    assert Creditors(e[1..]) == [];
    var a := [Party("A", 0.023)];
    assert Creditors(e) == a;
    assert a[1..] == [];
    assert SortDesc(a) == Insert(a[0], []);
  }

  /** B and C are the debtors, in key order. */
  lemma StallingDebtorsUnsorted()
    ensures Debtors(Entries(Stalling(), Ids())) == [Party("B", 0.011), Party("C", 0.013)]
  {
    StallingEntries();
    var e := Entries(Stalling(), Ids());
    assert e[1..] == [("B", Num(-0.011)), ("C", Num(-0.013)), ("D", Num(0.001))];
    assert e[1..][1..] == [("C", Num(-0.013)), ("D", Num(0.001))];
    assert e[1..][1..][1..] == [("D", Num(0.001))];
    assert e[1..][1..][1..][1..] == [];
  }

  /** Sorting puts C, who owes more, before B. */
  lemma StallDebtorsSorted()
    ensures SortDesc([Party("B", 0.011), Party("C", 0.013)]) == StallDebtors()
  {
    var bc := [Party("B", 0.011), Party("C", 0.013)];
    assert bc[1..] == [Party("C", 0.013)];
    assert bc[1..][1..] == [];
    assert SortDesc(bc[1..]) == [Party("C", 0.013)];
    assert [Party("C", 0.013)][1..] == [];
    assert Insert(Party("B", 0.011), [Party("C", 0.013)]) == StallDebtors();
  }

  /** C and B are the debtors, C first. */
  lemma StallingDebtors()
    ensures SortDesc(Debtors(Entries(Stalling(), Ids()))) == StallDebtors()
  {
    StallingDebtorsUnsorted();
    StallDebtorsSorted();
  }

  /**
   The whole scenario: starting from four members and no expenses,
   `addExpense` accepts both expenses; `calculateBalances` then gives the
   stalling balances; the creditor and debtor lists `simplifyDebts` builds
   from them are the lists of the witness; and on those lists every pass of
   the application's loop repeats the same running walk, while the
   corrected loop finishes after one pass.
   */
  lemma ScenarioStalls()
    ensures AddExpense(Ledger(Members(), []), "1", "Jantar", 0.024, "A", AmountsForm(FirstForm()))
      == Ok(Ledger(Members(), [First()]))
    ensures AddExpense(Ledger(Members(), [First()]), "2", "Troco", 0.001, "D", AmountsForm(SecondForm()))
      == Ok(Ledger(Members(), [First(), Second()]))
    ensures CalculateBalances(Ledger(Members(), [First(), Second()])) == Stalling()
    ensures (forall k :: k in Stalling() <==> k in Ids()) && Distinct(Ids())
    ensures CreditorList(Stalling(), Ids()) == StallCreditors()
    ensures DebtorList(Stalling(), Ids()) == StallDebtors()
    ensures var cs, ds := StallCreditors(), StallDebtors();
      forall m :: 1 <= m ==>
        && Running(cs, ds, Run(cs, ds, AsWritten, m))
        && Run(cs, ds, AsWritten, m) == Run(cs, ds, AsWritten, 1)
    ensures var cs, ds := StallCreditors(), StallDebtors();
      !Running(cs, ds, Run(cs, ds, Corrected, 1))
  {
    AddFirst();
    AddSecond();
    LedgerBalances();
    StallingKeys();
    StallingCreditors();
    StallingDebtors();
    StallsForever();
    CorrectedSettlesInOnePass();
  }
}
