/**
 The entity store: adding and removing members, adding and removing
 expenses. Every operation is a pure function from the old ledger to the
 new one; a refused operation returns an error and the caller keeps its
 old ledger, which is what the early `return` before each `push` does.
 Removal is modelled as confirmed by the user.
 */
module Store {
  import opened Sequences
  import opened Text
  import opened Entities
  import opened Splits

  /** Some existing member's name equals `name` up to letter case. */
  predicate NameTaken(ms: seq<Member>, name: string) {
    exists i :: 0 <= i < |ms| && SameIgnoringCase(ms[i].name, name)
  }

  function NameKey(m: Member): string {
    ToLower(m.name)
  }

  /** No two members share a name up to letter case. */
  ghost predicate NamesDistinct(ms: seq<Member>) {
    Distinct(Map(ms, NameKey))
  }

  /** No two members share an id. */
  ghost predicate UniqueIds(ms: seq<Member>) {
    Distinct(MemberIds(ms))
  }

  /** Every expense amount is positive. */
  ghost predicate PositiveAmounts(es: seq<Expense>) {
    forall i :: 0 <= i < |es| ==> es[i].amount > 0.0
  }

  /** What the store operations keep true of the ledger. */
  ghost predicate WellFormed(l: Ledger) {
    NamesDistinct(l.members) && UniqueIds(l.members) && PositiveAmounts(l.expenses)
  }

  /**
   `addMember`: the name is trimmed; a blank name or one already taken up
   to letter case is refused; otherwise one member with that name, an
   empty PIX key of kind cpf and the given id is appended.
   */
  function AddMember(l: Ledger, id: Id, input: string): (r: Result<Ledger>)
    ensures Blank(input) ==> r == Err(EmptyName)
    ensures !Blank(input) && NameTaken(l.members, Trim(input)) ==> r == Err(DuplicateName)
    ensures r.Ok? <==> !Blank(input) && !NameTaken(l.members, Trim(input))
    ensures r.Ok? ==>
      && r.value.expenses == l.expenses
      && r.value.members == l.members + [Member(id, Trim(input), "", Cpf)]
    ensures r.Ok? ==> var n := Trim(input);
      n != [] && !IsSpace(n[0]) && !IsSpace(n[|n| - 1])
  {
    var name := Trim(input);
    TrimEmptyIffBlank(input);
    TrimIsSlice(input);
    if name == [] then Err(EmptyName)
    else if NameTaken(l.members, name) then Err(DuplicateName)
    else Ok(Ledger(l.members + [Member(id, name, "", Cpf)], l.expenses))
  }

  /**
   `removeMember`: drops the member and every expense that member paid,
   keeping the order of what remains. Custom shares that name the member in
   other expenses are left as they are.
   */
  function RemoveMember(l: Ledger, id: Id): (r: Ledger)
    ensures Subsequence(r.members, l.members)
    ensures forall m :: multiset(r.members)[m] == if m.id != id then multiset(l.members)[m] else 0
    ensures Subsequence(r.expenses, l.expenses)
    ensures forall e :: multiset(r.expenses)[e] == if e.payerId != id then multiset(l.expenses)[e] else 0
    ensures id !in MemberIds(r.members)
  {
    var members := Filter(l.members, (m: Member) => m.id != id);
    assert forall k :: 0 <= k < |members| ==> members[k] in members;
    Ledger(members, Filter(l.expenses, (e: Expense) => e.payerId != id))
  }

  /** `removeExpense`: drops the expenses with that id; members are untouched. */
  function RemoveExpense(l: Ledger, expenseId: Id): (r: Ledger)
    ensures r.members == l.members
    ensures Subsequence(r.expenses, l.expenses)
    ensures forall e :: multiset(r.expenses)[e] == if e.id != expenseId then multiset(l.expenses)[e] else 0
  {
    Ledger(l.members, Filter(l.expenses, (e: Expense) => e.id != expenseId))
  }

  /**
   `addExpense`, on the parsed form: the description is trimmed; a blank
   description, a zero amount or no payer is a missing field; a negative
   amount is refused; then the split is resolved, and a refused split
   refuses the expense. Otherwise exactly one expense is appended.
   */
  function AddExpense(l: Ledger, id: Id, description: string, amount: real, payerId: Id, form: SplitForm): (r: Result<Ledger>)
    ensures (Blank(description) || amount == 0.0 || payerId == []) ==> r == Err(MissingField)
    ensures !Blank(description) && payerId != [] && amount < 0.0 ==> r == Err(NonPositiveAmount)
    ensures !Blank(description) && payerId != [] && amount > 0.0 && ResolveSplit(amount, form).Err? ==>
      r == Err(ResolveSplit(amount, form).error)
    ensures r.Ok? <==> !Blank(description) && payerId != [] && amount > 0.0 && ResolveSplit(amount, form).Ok?
    ensures r.Ok? ==>
      && r.value.members == l.members
      && |r.value.expenses| == |l.expenses| + 1
      && r.value.expenses[..|l.expenses|] == l.expenses
      && r.value.expenses[|l.expenses|] == Expense(id, Trim(description), amount, payerId, ResolveSplit(amount, form).value)
  {
    var desc := Trim(description);
    TrimEmptyIffBlank(description);
    if desc == [] || amount == 0.0 || payerId == [] then Err(MissingField)
    else if amount <= 0.0 then Err(NonPositiveAmount)
    else
      match ResolveSplit(amount, form)
      case Err(e) => Err(e)
      case Ok(split) =>
        var es := l.expenses + [Expense(id, desc, amount, payerId, split)];
        assert es[..|l.expenses|] == l.expenses;
        Ok(Ledger(l.members, es))
  }

  /** A successful `addMember` with a fresh id keeps the ledger well formed. */
  lemma AddMemberPreserves(l: Ledger, id: Id, input: string)
    requires WellFormed(l)
    requires id !in MemberIds(l.members)
    requires AddMember(l, id, input).Ok?
    ensures WellFormed(AddMember(l, id, input).value)
  {
    var ms := l.members;
    var ms' := AddMember(l, id, input).value.members;
    var name := Trim(input);
    assert ms' == ms + [Member(id, name, "", Cpf)];
    forall i, j | 0 <= i < j < |ms'|
      ensures Map(ms', NameKey)[i] != Map(ms', NameKey)[j]
      ensures MemberIds(ms')[i] != MemberIds(ms')[j]
    {
      if j == |ms| {
        assert !SameIgnoringCase(ms[i].name, name);
        assert MemberIds(ms)[i] == ms[i].id;
      } else {
        assert Map(ms, NameKey)[i] != Map(ms, NameKey)[j];
        assert MemberIds(ms)[i] != MemberIds(ms)[j];
      }
    }
  }

  /** `removeMember` keeps the ledger well formed. */
  lemma RemoveMemberPreserves(l: Ledger, id: Id)
    requires WellFormed(l)
    ensures WellFormed(RemoveMember(l, id))
  {
    var r := RemoveMember(l, id);
    FilterKeepsDistinct(l.members, (m: Member) => m.id != id, NameKey);
    FilterKeepsDistinct(l.members, (m: Member) => m.id != id, IdOf);
    forall i | 0 <= i < |r.expenses|
      ensures r.expenses[i].amount > 0.0
    {
      assert r.expenses[i] in l.expenses;
    }
  }

  /** `removeExpense` keeps the ledger well formed. */
  lemma RemoveExpensePreserves(l: Ledger, expenseId: Id)
    requires WellFormed(l)
    ensures WellFormed(RemoveExpense(l, expenseId))
  {
    var r := RemoveExpense(l, expenseId);
    forall i | 0 <= i < |r.expenses|
      ensures r.expenses[i].amount > 0.0
    {
      assert r.expenses[i] in l.expenses;
    }
  }

  /** A successful `addExpense` keeps the ledger well formed. */
  lemma AddExpensePreserves(l: Ledger, id: Id, description: string, amount: real, payerId: Id, form: SplitForm)
    requires WellFormed(l)
    requires AddExpense(l, id, description, amount, payerId, form).Ok?
    ensures WellFormed(AddExpense(l, id, description, amount, payerId, form).value)
  {
    var es := AddExpense(l, id, description, amount, payerId, form).value.expenses;
    forall i | 0 <= i < |es|
      ensures es[i].amount > 0.0
    {
      if i < |l.expenses| {
        assert es[i] == es[..|l.expenses|][i];
      }
    }
  }
}
