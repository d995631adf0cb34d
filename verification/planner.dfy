/**
 `simplifyDebts`: split the balances into creditors and debtors, sort each
 by magnitude, largest first (a stable sort), and match them greedily with
 one pointer into each list.
 */
module Planner {
  import opened Sequences
  import opened Entities
  import opened Balances

  /** A creditor or debtor with the magnitude still owed to or by them. */
  datatype Party = Party(id: Id, amount: real)

  /** A suggested payment from a debtor to a creditor. */
  datatype Transfer = Transfer(from: Id, to: Id, amount: real)

  function PartyEntry(p: Party): (Id, Bal) {
    (p.id, Num(p.amount))
  }

  function DebtEntry(p: Party): (Id, Bal) {
    (p.id, Num(-p.amount))
  }

  function PartyId(p: Party): Id {
    p.id
  }

  function AmountOf(p: Party): real {
    p.amount
  }

  /** The creditors, in entry order: every finite balance above the tolerance. */
  function Creditors(entries: seq<(Id, Bal)>): (r: seq<Party>)
    ensures forall p :: p in r <==> PartyEntry(p) in entries && p.amount > Tolerance
    ensures Subsequence(Map(r, PartyEntry), entries)
    decreases |entries|
  {
    if entries == [] then []
    else
      var rest := Creditors(entries[1..]);
      assert entries == [entries[0]] + entries[1..];
      match entries[0].1
      case Num(v) =>
        if v > Tolerance then
          var r := [Party(entries[0].0, v)] + rest;
          assert Map(r, PartyEntry)[1..] == Map(rest, PartyEntry);
          r
        else rest
      case NaN => rest
  }

  /** The debtors, in entry order, with the magnitude they owe: every finite balance below minus the tolerance. */
  function Debtors(entries: seq<(Id, Bal)>): (r: seq<Party>)
    ensures forall p :: p in r <==> DebtEntry(p) in entries && p.amount > Tolerance
    ensures Subsequence(Map(r, DebtEntry), entries)
    decreases |entries|
  {
    if entries == [] then []
    else
      var rest := Debtors(entries[1..]);
      assert entries == [entries[0]] + entries[1..];
      match entries[0].1
      case Num(v) =>
        if v < -Tolerance then
          var r := [Party(entries[0].0, -v)] + rest;
          assert DebtEntry(r[0]) == entries[0];
          assert Map(r, DebtEntry)[1..] == Map(rest, DebtEntry);
          r
        else rest
      case NaN => rest
  }

  /** Non-increasing by amount. */
  ghost predicate SortedDesc(s: seq<Party>) {
    forall i, j :: 0 <= i < j < |s| ==> s[i].amount >= s[j].amount
  }

  /** The test "has amount `a`". */
  function HasAmount(a: real): Party -> bool {
    (p: Party) => p.amount == a
  }

  /** The parties of `s` with exactly amount `a`, in order. */
  function WithAmount(s: seq<Party>, a: real): seq<Party> {
    Filter(s, HasAmount(a))
  }

  /** A party at least as large as the head of a sorted list can go in front of it. */
  lemma SortedCons(y: Party, s: seq<Party>)
    requires SortedDesc(s)
    requires s == [] || y.amount >= s[0].amount
    ensures SortedDesc([y] + s)
  {
    var r := [y] + s;
    forall i, j | 0 <= i < j < |r|
      ensures r[i].amount >= r[j].amount
    {
      assert r[j] == s[j - 1];
      if i > 0 {
        assert r[i] == s[i - 1];
      } else if j > 1 {
        assert s[0].amount >= s[j - 1].amount;
      }
    }
  }

  /** Puts `x` in front of the first party of `s` whose amount does not exceed its own. */
  function Insert(x: Party, s: seq<Party>): (r: seq<Party>)
    requires SortedDesc(s)
    ensures SortedDesc(r)
    ensures |r| == |s| + 1 && (r[0] == x || (s != [] && r[0] == s[0]))
    ensures multiset(r) == multiset(s) + multiset{x}
    decreases |s|
  {
    if s == [] || x.amount >= s[0].amount then
      SortedCons(x, s);
      [x] + s
    else
      var y, tail := s[0], s[1..];
      assert s == [y] + tail;
      var rest := Insert(x, tail);
      assert tail != [] ==> y.amount >= tail[0].amount;
      SortedCons(y, rest);
      [y] + rest
  }

  /** Inserting keeps the order among parties of equal amount, `x` first. */
  lemma {:induction false} InsertStable(x: Party, s: seq<Party>, a: real)
    requires SortedDesc(s)
    ensures WithAmount(Insert(x, s), a) == (if x.amount == a then [x] else []) + WithAmount(s, a)
    decreases |s|
  {
    if s == [] || x.amount >= s[0].amount {
      assert Insert(x, s) == [x] + s;
      FilterCons(x, s, HasAmount(a));
    } else {
      var y, tail := s[0], s[1..];
      assert s == [y] + tail;
      var rest := Insert(x, tail);
      assert Insert(x, s) == [y] + rest;
      InsertStable(x, tail, a);
      FilterCons(y, rest, HasAmount(a));
      FilterCons(y, tail, HasAmount(a));
      var front := if x.amount == a then [x] else [];
      var head := if y.amount == a then [y] else [];
      assert WithAmount(Insert(x, s), a) == head + (front + WithAmount(tail, a));
      assert WithAmount(s, a) == head + WithAmount(tail, a);
      SwapFronts(head, front, WithAmount(tail, a));
    }
  }

  /** Two prefixes of which one is empty can be applied in either order. */
  lemma SwapFronts<T>(h: seq<T>, f: seq<T>, w: seq<T>)
    requires h == [] || f == []
    ensures h + (f + w) == f + (h + w)
  {
    if h == [] {
      assert h + (f + w) == f + w;
      assert h + w == w;
    } else {
      assert f + w == w;
      assert f + (h + w) == h + w;
    }
  }

  /**
   The stable descending sort of the creditor and debtor lists: insertion
   sort, where a party goes before every later party of equal amount.
   */
  function SortDesc(s: seq<Party>): (r: seq<Party>)
    ensures SortedDesc(r)
    ensures multiset(r) == multiset(s)
    decreases |s|
  {
    if s == [] then []
    else
      assert s == [s[0]] + s[1..];
      Insert(s[0], SortDesc(s[1..]))
  }

  /**
   The sort is stable: for every amount, the parties with that amount keep
   their original relative order.
   */
  lemma {:induction false} SortDescStable(s: seq<Party>, a: real)
    ensures WithAmount(SortDesc(s), a) == WithAmount(s, a)
    decreases |s|
  {
    if s != [] {
      assert s == [s[0]] + s[1..];
      SortDescStable(s[1..], a);
      InsertStable(s[0], SortDesc(s[1..]), a);
      FilterCons(s[0], s[1..], HasAmount(a));
    }
  }

  function SumReals(s: seq<real>): real {
    if s == [] then 0.0 else s[0] + SumReals(s[1..])
  }

  /** Overwriting one element changes the sum by the difference. */
  lemma {:induction false} SumUpdate(s: seq<real>, i: int, v: real)
    requires 0 <= i < |s|
    ensures SumReals(s[i := v]) == SumReals(s) - s[i] + v
    decreases |s|
  {
    if i > 0 {
      assert s[i := v][1..] == s[1..][i - 1 := v];
      SumUpdate(s[1..], i - 1, v);
    }
  }

  /** The transfers' amounts, summed. */
  function TransferTotal(ts: seq<Transfer>): real
    decreases |ts|
  {
    if ts == [] then 0.0 else TransferTotal(ts[..|ts| - 1]) + ts[|ts| - 1].amount
  }

  /**
   Which pointer-advance test the walk uses. `AsWritten` moves past a
   remainder below the tolerance, as the application does; `Corrected`
   also moves past a remainder equal to it.
   */
  datatype Rule = AsWritten | Corrected

  predicate Exhausted(rem: real, rule: Rule) {
    match rule
    case AsWritten => rem < Tolerance
    case Corrected => rem <= Tolerance
  }

  /** The state of the two-pointer walk: both remainder lists, both pointers, the transfers so far. */
  datatype Walk = Walk(credit: seq<real>, debit: seq<real>, ci: nat, di: nat, transfers: seq<Transfer>)

  function Start(cs: seq<Party>, ds: seq<Party>): Walk {
    Walk(Map(cs, AmountOf), Map(ds, AmountOf), 0, 0, [])
  }

  function Min(a: real, b: real): real {
    if a <= b then a else b
  }

  /** The walk can take another iteration: both pointers are inside their lists. */
  predicate Running(cs: seq<Party>, ds: seq<Party>, w: Walk) {
    |w.credit| == |cs| && |w.debit| == |ds| && w.ci < |cs| && w.di < |ds|
  }

  /**
   One iteration of the loop. The smaller of the two current remainders is
   transferred when it exceeds the tolerance, and each pointer whose
   remainder is then exhausted moves on; otherwise nothing changes at all.
   */
  function Step(cs: seq<Party>, ds: seq<Party>, w: Walk, rule: Rule): (r: Walk)
    requires Running(cs, ds, w)
    ensures r == w <==> Min(w.credit[w.ci], w.debit[w.di]) <= Tolerance
    ensures r != w ==> r.ci + r.di > w.ci + w.di && |r.transfers| == |w.transfers| + 1
    ensures |r.credit| == |w.credit| && |r.debit| == |w.debit|
    ensures r != w ==> r.transfers[..|w.transfers|] == w.transfers
    ensures r != w ==> var t := r.transfers[|w.transfers|];
      && t.from == ds[w.di].id && t.to == cs[w.ci].id
      && t.amount == Min(w.credit[w.ci], w.debit[w.di])
      && r.credit == w.credit[w.ci := w.credit[w.ci] - t.amount]
      && r.debit == w.debit[w.di := w.debit[w.di] - t.amount]
      && r.ci == (if Exhausted(r.credit[w.ci], rule) then w.ci + 1 else w.ci)
      && r.di == (if Exhausted(r.debit[w.di], rule) then w.di + 1 else w.di)
  {
    var amount := Min(w.credit[w.ci], w.debit[w.di]);
    if amount > Tolerance then
      var c := w.credit[w.ci] - amount;
      var d := w.debit[w.di] - amount;
      Walk(w.credit[w.ci := c], w.debit[w.di := d],
           if Exhausted(c, rule) then w.ci + 1 else w.ci,
           if Exhausted(d, rule) then w.di + 1 else w.di,
           w.transfers + [Transfer(ds[w.di].id, cs[w.ci].id, amount)])
    else
      w
  }

  /**
   The walk after `n` passes of the loop from its start. A pass once a list
   is used up changes nothing; there the loop has exited.
   */
  function Run(cs: seq<Party>, ds: seq<Party>, rule: Rule, n: nat): Walk
    decreases n
  {
    if n == 0 then Start(cs, ds)
    else
      var prev := Run(cs, ds, rule, n - 1);
      if Running(cs, ds, prev) then Step(cs, ds, prev, rule) else prev
  }

  /** One more pass of a running walk is one `Step`. */
  lemma RunNext(cs: seq<Party>, ds: seq<Party>, rule: Rule, n: nat)
    requires Running(cs, ds, Run(cs, ds, rule, n))
    ensures Run(cs, ds, rule, n + 1) == Step(cs, ds, Run(cs, ds, rule, n), rule)
  {
  }

  /** A walk that a pass leaves unchanged while both pointers are inside their lists stays there forever. */
  lemma {:induction false} StuckForever(cs: seq<Party>, ds: seq<Party>, rule: Rule, n: nat, m: nat)
    requires Running(cs, ds, Run(cs, ds, rule, n))
    requires Step(cs, ds, Run(cs, ds, rule, n), rule) == Run(cs, ds, rule, n)
    requires n <= m
    ensures Run(cs, ds, rule, m) == Run(cs, ds, rule, n)
    decreases m
  {
    if n < m {
      StuckForever(cs, ds, rule, n, m - 1);
    }
  }

  /** Every party of the list is owed, or owes, more than the tolerance. */
  ghost predicate AboveTolerance(ps: seq<Party>) {
    forall i :: 0 <= i < |ps| ==> ps[i].amount > Tolerance
  }

  /** The remainder lists match the party lists and the pointers lie within them. */
  ghost predicate Shaped(cs: seq<Party>, ds: seq<Party>, w: Walk) {
    |w.credit| == |cs| && |w.debit| == |ds| && w.ci <= |cs| && w.di <= |ds|
  }

  /**
   What the walk keeps true of one remainder list: every remainder lies
   between zero and the original amount, the ones before the pointer are
   exhausted, the one at the pointer is not, and the ones after it are
   untouched.
   */
  ghost predicate Remainders(ps: seq<Party>, rem: seq<real>, p: nat, rule: Rule) {
    && |rem| == |ps| && p <= |ps|
    && (forall i :: 0 <= i < |ps| ==> 0.0 <= rem[i] <= ps[i].amount)
    && (forall i :: 0 <= i < p ==> Exhausted(rem[i], rule))
    && (p < |ps| ==> !Exhausted(rem[p], rule))
    && (forall i :: p < i < |ps| ==> rem[i] == ps[i].amount)
  }

  /** What has left each side so far is exactly what the transfers carry. */
  ghost predicate Conserves(cs: seq<Party>, ds: seq<Party>, w: Walk) {
    && SumReals(Map(cs, AmountOf)) - SumReals(w.credit) == TransferTotal(w.transfers)
    && SumReals(Map(ds, AmountOf)) - SumReals(w.debit) == TransferTotal(w.transfers)
  }

  /** Every transfer is above the tolerance and goes from a debtor to a creditor. */
  ghost predicate TransfersOk(cs: seq<Party>, ds: seq<Party>, ts: seq<Transfer>) {
    forall t :: 0 <= t < |ts| ==>
      && ts[t].amount > Tolerance
      && ts[t].to in Map(cs, PartyId)
      && ts[t].from in Map(ds, PartyId)
  }

  /** Every transfer moved at least one pointer. */
  ghost predicate Counted(cs: seq<Party>, ds: seq<Party>, w: Walk) {
    && |w.transfers| <= w.ci + w.di
    && (|w.transfers| == 0 || |w.transfers| <= |cs| + |ds| - 1)
  }

  /** The whole loop invariant of the walk. */
  ghost predicate WalkInv(cs: seq<Party>, ds: seq<Party>, w: Walk, rule: Rule) {
    && Shaped(cs, ds, w)
    && Remainders(cs, w.credit, w.ci, rule)
    && Remainders(ds, w.debit, w.di, rule)
    && Conserves(cs, ds, w)
    && TransfersOk(cs, ds, w.transfers)
    && Counted(cs, ds, w)
  }

  /** The walk starts with the invariant in place. */
  lemma StartInv(cs: seq<Party>, ds: seq<Party>, rule: Rule)
    requires AboveTolerance(cs) && AboveTolerance(ds)
    ensures WalkInv(cs, ds, Start(cs, ds), rule)
  {
  }

  /** A step that transfers subtracts the amount from the current remainder and keeps the list invariant. */
  lemma StepRemainders(ps: seq<Party>, rem: seq<real>, p: nat, amount: real, rule: Rule)
    requires Remainders(ps, rem, p, rule) && p < |ps|
    requires AboveTolerance(ps)
    requires 0.0 <= amount <= rem[p]
    ensures var c := rem[p] - amount;
      Remainders(ps, rem[p := c], if Exhausted(c, rule) then p + 1 else p, rule)
  {
    var c := rem[p] - amount;
    var rem' := rem[p := c];
    var p' := if Exhausted(c, rule) then p + 1 else p;
    if p' < |ps| && p' != p {
      assert rem'[p'] == ps[p'].amount;
    }
  }

  /** Appending a transfer adds its amount to the total. */
  lemma TransferTotalAppend(ts: seq<Transfer>, t: Transfer)
    ensures TransferTotal(ts + [t]) == TransferTotal(ts) + t.amount
  {
    assert (ts + [t])[..|ts|] == ts;
  }

  /** A step that transfers keeps the amounts conserved. */
  lemma StepConserves(cs: seq<Party>, ds: seq<Party>, w: Walk, rule: Rule)
    requires Running(cs, ds, w) && Conserves(cs, ds, w)
    requires Min(w.credit[w.ci], w.debit[w.di]) > Tolerance
    ensures Conserves(cs, ds, Step(cs, ds, w, rule))
  {
    var amount := Min(w.credit[w.ci], w.debit[w.di]);
    var c, d := w.credit[w.ci] - amount, w.debit[w.di] - amount;
    var t := Transfer(ds[w.di].id, cs[w.ci].id, amount);
    var next := Step(cs, ds, w, rule);
    assert next.credit == w.credit[w.ci := c];
    assert next.debit == w.debit[w.di := d];
    assert next.transfers == w.transfers + [t];
    SumUpdate(w.credit, w.ci, c);
    SumUpdate(w.debit, w.di, d);
    TransferTotalAppend(w.transfers, t);
  }

  /** A step that transfers adds one well-formed transfer. */
  lemma StepTransfers(cs: seq<Party>, ds: seq<Party>, w: Walk, rule: Rule)
    requires Running(cs, ds, w) && TransfersOk(cs, ds, w.transfers)
    requires Min(w.credit[w.ci], w.debit[w.di]) > Tolerance
    ensures TransfersOk(cs, ds, Step(cs, ds, w, rule).transfers)
  {
    var next := Step(cs, ds, w, rule);
    assert Map(cs, PartyId)[w.ci] == cs[w.ci].id;
    assert Map(ds, PartyId)[w.di] == ds[w.di].id;
    forall t | 0 <= t < |next.transfers|
      ensures next.transfers[t].amount > Tolerance
      ensures next.transfers[t].to in Map(cs, PartyId)
      ensures next.transfers[t].from in Map(ds, PartyId)
    {
      if t < |w.transfers| {
        assert next.transfers[t] == w.transfers[t];
      }
    }
  }

  /** A step that transfers keeps the creditor side's remainder invariant. */
  lemma StepCredit(cs: seq<Party>, ds: seq<Party>, w: Walk, rule: Rule)
    requires AboveTolerance(cs) && Running(cs, ds, w) && Remainders(cs, w.credit, w.ci, rule)
    requires Min(w.credit[w.ci], w.debit[w.di]) > Tolerance
    ensures Remainders(cs, Step(cs, ds, w, rule).credit, Step(cs, ds, w, rule).ci, rule)
  {
    StepRemainders(cs, w.credit, w.ci, Min(w.credit[w.ci], w.debit[w.di]), rule);
  }

  /** A step that transfers keeps the debtor side's remainder invariant. */
  lemma StepDebit(cs: seq<Party>, ds: seq<Party>, w: Walk, rule: Rule)
    requires AboveTolerance(ds) && Running(cs, ds, w) && Remainders(ds, w.debit, w.di, rule)
    requires Min(w.credit[w.ci], w.debit[w.di]) > Tolerance
    ensures Remainders(ds, Step(cs, ds, w, rule).debit, Step(cs, ds, w, rule).di, rule)
  {
    StepRemainders(ds, w.debit, w.di, Min(w.credit[w.ci], w.debit[w.di]), rule);
  }

  /** A step that transfers keeps the shape and the transfer count bound. */
  lemma StepCounted(cs: seq<Party>, ds: seq<Party>, w: Walk, rule: Rule)
    requires Running(cs, ds, w) && Counted(cs, ds, w)
    requires Min(w.credit[w.ci], w.debit[w.di]) > Tolerance
    ensures Shaped(cs, ds, Step(cs, ds, w, rule)) && Counted(cs, ds, Step(cs, ds, w, rule))
  {
  }

  /** A step that transfers keeps the invariant. */
  lemma StepInv(cs: seq<Party>, ds: seq<Party>, w: Walk, rule: Rule)
    requires AboveTolerance(cs) && AboveTolerance(ds)
    requires Running(cs, ds, w) && WalkInv(cs, ds, w, rule)
    requires Min(w.credit[w.ci], w.debit[w.di]) > Tolerance
    ensures WalkInv(cs, ds, Step(cs, ds, w, rule), rule)
  {
    StepCredit(cs, ds, w, rule);
    StepDebit(cs, ds, w, rule);
    StepConserves(cs, ds, w, rule);
    StepTransfers(cs, ds, w, rule);
    StepCounted(cs, ds, w, rule);
  }

  /** A pass that transfers keeps the invariant and moves a pointer. */
  lemma PassInv(cs: seq<Party>, ds: seq<Party>, rule: Rule, n: nat)
    requires AboveTolerance(cs) && AboveTolerance(ds)
    requires Running(cs, ds, Run(cs, ds, rule, n)) && WalkInv(cs, ds, Run(cs, ds, rule, n), rule)
    requires Min(Run(cs, ds, rule, n).credit[Run(cs, ds, rule, n).ci], Run(cs, ds, rule, n).debit[Run(cs, ds, rule, n).di]) > Tolerance
    ensures WalkInv(cs, ds, Run(cs, ds, rule, n + 1), rule)
    ensures Run(cs, ds, rule, n + 1).ci + Run(cs, ds, rule, n + 1).di > Run(cs, ds, rule, n).ci + Run(cs, ds, rule, n).di
  {
    RunNext(cs, ds, rule, n);
    StepInv(cs, ds, Run(cs, ds, rule, n), rule);
  }

  /**
   The greedy matching. `stuck` reports that the loop reached a state the
   iteration leaves unchanged while both pointers are inside their lists:
   there the application's loop never ends. Otherwise one list is used up.
   */
  method Settle(cs: seq<Party>, ds: seq<Party>, rule: Rule) returns (w: Walk, stuck: bool, passes: nat)
    requires AboveTolerance(cs) && AboveTolerance(ds)
    ensures w == Run(cs, ds, rule, passes)
    ensures WalkInv(cs, ds, w, rule)
    ensures stuck ==> Running(cs, ds, w) && Step(cs, ds, w, rule) == w
    ensures !stuck ==> w.ci == |cs| || w.di == |ds|
    ensures rule == Corrected ==> !stuck
  {
    w := Start(cs, ds);
    stuck := false;
    passes := 0;
    StartInv(cs, ds, rule);
    while w.ci < |cs| && w.di < |ds|
      invariant w == Run(cs, ds, rule, passes)
      invariant WalkInv(cs, ds, w, rule)
      invariant !stuck
      decreases |cs| - w.ci + |ds| - w.di
    {
      if Min(w.credit[w.ci], w.debit[w.di]) <= Tolerance {
        stuck := true;
        return;
      }
      PassInv(cs, ds, rule, passes);
      passes := passes + 1;
      w := Run(cs, ds, rule, passes);
    }
  }

  /**
   Under the application's rule a running walk makes no progress exactly
   when one of the two current remainders equals the tolerance: a remainder
   the pointer did not move past is at least the tolerance, and the loop
   only transfers amounts above it.
   */
  lemma AsWrittenStallsExactly(cs: seq<Party>, ds: seq<Party>, w: Walk)
    requires Running(cs, ds, w) && WalkInv(cs, ds, w, AsWritten)
    ensures Step(cs, ds, w, AsWritten) == w <==> (w.credit[w.ci] == Tolerance || w.debit[w.di] == Tolerance)
  {
    assert !Exhausted(w.credit[w.ci], AsWritten) && !Exhausted(w.debit[w.di], AsWritten);
  }

  /** Under the corrected rule every iteration of a running walk transfers and moves a pointer. */
  lemma CorrectedNeverStalls(cs: seq<Party>, ds: seq<Party>, w: Walk)
    requires Running(cs, ds, w) && WalkInv(cs, ds, w, Corrected)
    ensures Step(cs, ds, w, Corrected) != w
    ensures Step(cs, ds, w, Corrected).ci + Step(cs, ds, w, Corrected).di > w.ci + w.di
  {
    assert !Exhausted(w.credit[w.ci], Corrected) && !Exhausted(w.debit[w.di], Corrected);
  }

  /** One creditor owed 0.023 and two debtors owing 0.013 and 0.011, already sorted. */
  function StallCreditors(): seq<Party> {
    [Party("A", 0.023)]
  }

  function StallDebtors(): seq<Party> {
    [Party("C", 0.013), Party("B", 0.011)]
  }

  /** The start of the walk over those lists. */
  lemma StallStart()
    ensures Start(StallCreditors(), StallDebtors()) == Walk([0.023], [0.013, 0.011], 0, 0, [])
  {
    var cs, ds := StallCreditors(), StallDebtors();
    assert Map(cs, AmountOf) == [0.023];
    assert Map(ds, AmountOf) == [0.013, 0.011];
  }

  /** The first iteration under either rule transfers 0.013 from C to A. */
  lemma StallFirstStep(rule: Rule)
    ensures Step(StallCreditors(), StallDebtors(), Start(StallCreditors(), StallDebtors()), rule)
      == Walk([0.01], [0.0, 0.011], if rule == Corrected then 1 else 0, 1, [Transfer("C", "A", 0.013)])
  {
    StallStart();
    var w0 := Walk([0.023], [0.013, 0.011], 0, 0, []);
    assert w0.credit[0 := 0.023 - 0.013] == [0.01];
    assert w0.debit[0 := 0.013 - 0.013] == [0.0, 0.011];
  }

  /**
   The application's loop can spin forever: after the first transfer of
   0.013 the creditor keeps exactly 0.01, which is not below the tolerance, so its
   pointer stays; the next iteration has nothing above the tolerance to
   transfer and changes nothing, while both pointers are still inside their
   lists.
   */
  lemma StallWitness()
    ensures var cs, ds := StallCreditors(), StallDebtors();
      var w := Step(cs, ds, Start(cs, ds), AsWritten);
      && Running(cs, ds, w)
      && WalkInv(cs, ds, w, AsWritten)
      && Step(cs, ds, w, AsWritten) == w
      && w.transfers == [Transfer("C", "A", 0.013)]
  {
    var cs, ds := StallCreditors(), StallDebtors();
    StartInv(cs, ds, AsWritten);
    StallStart();
    StallFirstStep(AsWritten);
    StepInv(cs, ds, Start(cs, ds), AsWritten);
  }

  /** Every pass of the application's loop from the first on leaves the same running walk. */
  lemma StallsForever()
    ensures var cs, ds := StallCreditors(), StallDebtors();
      forall m :: 1 <= m ==>
        && Running(cs, ds, Run(cs, ds, AsWritten, m))
        && Run(cs, ds, AsWritten, m) == Run(cs, ds, AsWritten, 1)
        && Run(cs, ds, AsWritten, m).transfers == [Transfer("C", "A", 0.013)]
  {
    var cs, ds := StallCreditors(), StallDebtors();
    StallWitness();
    assert Running(cs, ds, Run(cs, ds, AsWritten, 0));
    RunNext(cs, ds, AsWritten, 0);
    forall m | 1 <= m
      ensures Run(cs, ds, AsWritten, m) == Run(cs, ds, AsWritten, 1)
    {
      StuckForever(cs, ds, AsWritten, 1, m);
    }
  }

  /** The corrected loop's first pass over the witness lists uses a list up. */
  lemma CorrectedSettlesInOnePass()
    ensures var cs, ds := StallCreditors(), StallDebtors();
      && !Running(cs, ds, Run(cs, ds, Corrected, 1))
      && Run(cs, ds, Corrected, 1).transfers == [Transfer("C", "A", 0.013)]
  {
    var cs, ds := StallCreditors(), StallDebtors();
    StallWitnessCorrected();
    assert Running(cs, ds, Run(cs, ds, Corrected, 0));
    RunNext(cs, ds, Corrected, 0);
  }

  /** With the corrected rule the same lists are settled by that one transfer. */
  lemma StallWitnessCorrected()
    ensures var cs, ds := StallCreditors(), StallDebtors();
      var w := Step(cs, ds, Start(cs, ds), Corrected);
      && !Running(cs, ds, w)
      && WalkInv(cs, ds, w, Corrected)
      && w.transfers == [Transfer("C", "A", 0.013)]
  {
    var cs, ds := StallCreditors(), StallDebtors();
    StartInv(cs, ds, Corrected);
    StallStart();
    StallFirstStep(Corrected);
    StepInv(cs, ds, Start(cs, ds), Corrected);
  }

  /** The balance entries in `Object.keys` order. */
  function Entries(bs: map<Id, Bal>, order: seq<Id>): (r: seq<(Id, Bal)>)
    requires forall k :: k in order ==> k in bs
    ensures |r| == |order|
    ensures forall i :: 0 <= i < |order| ==> r[i] == (order[i], bs[order[i]])
    ensures KeySeq(r) == order
  {
    seq(|order|, i requires 0 <= i < |order| => (order[i], bs[order[i]]))
  }

  /** When `order` lists exactly the keys, the entries are exactly the map's pairs. */
  lemma EntriesArePairs(bs: map<Id, Bal>, order: seq<Id>)
    requires forall k :: k in bs <==> k in order
    ensures forall k, b :: (k, b) in Entries(bs, order) <==> k in bs && bs[k] == b
  {
    var entries := Entries(bs, order);
    forall k, b | k in bs && bs[k] == b
      ensures (k, b) in entries
    {
      var i :| 0 <= i < |order| && order[i] == k;
      assert entries[i] == (k, b);
    }
  }

  /** Sorting keeps exactly the same parties. */
  lemma SortDescMembers(s: seq<Party>)
    ensures forall p :: p in SortDesc(s) <==> p in s
  {
    var r := SortDesc(s);
    assert forall p :: p in r <==> p in multiset(r);
    assert forall p :: p in s <==> p in multiset(s);
  }

  /** Every party of a list whose members are all above the tolerance is above it. */
  lemma MembersAbove(ps: seq<Party>)
    requires forall p :: p in ps ==> p.amount > Tolerance
    ensures AboveTolerance(ps)
  {
    forall i | 0 <= i < |ps|
      ensures ps[i].amount > Tolerance
    {
      assert ps[i] in ps;
    }
  }

  /** For every amount at once: sorting keeps the order of equal-amount parties. */
  lemma SortDescStableAll(s: seq<Party>)
    ensures forall a :: WithAmount(SortDesc(s), a) == WithAmount(s, a)
  {
    forall a
      ensures WithAmount(SortDesc(s), a) == WithAmount(s, a)
    {
      SortDescStable(s, a);
    }
  }

  /** From entries with distinct keys no creditor is taken twice. */
  lemma {:induction false} CreditorsOnce(entries: seq<(Id, Bal)>)
    requires Distinct(KeySeq(entries))
    ensures forall p :: multiset(Creditors(entries))[p] <= 1
    decreases |entries|
  {
    if entries != [] {
      var tail := entries[1..];
      assert KeySeq(tail) == KeySeq(entries)[1..];
      CreditorsOnce(tail);
      var rest := Creditors(tail);
      forall p | p in rest
        ensures p.id != entries[0].0
      {
        var i :| 0 <= i < |tail| && tail[i] == PartyEntry(p);
        assert entries[i + 1] == tail[i];
        assert KeySeq(entries)[i + 1] == p.id;
        assert KeySeq(entries)[0] == entries[0].0;
      }
      match entries[0].1
      case Num(v) =>
        if v > Tolerance {
          var x := Party(entries[0].0, v);
          assert Creditors(entries) == [x] + rest;
          assert x !in rest;
        } else {
          assert Creditors(entries) == rest;
        }
      case NaN =>
        assert Creditors(entries) == rest;
    }
  }

  /** From entries with distinct keys no debtor is taken twice. */
  lemma {:induction false} DebtorsOnce(entries: seq<(Id, Bal)>)
    requires Distinct(KeySeq(entries))
    ensures forall p :: multiset(Debtors(entries))[p] <= 1
    decreases |entries|
  {
    if entries != [] {
      var tail := entries[1..];
      assert KeySeq(tail) == KeySeq(entries)[1..];
      DebtorsOnce(tail);
      var rest := Debtors(tail);
      forall p | p in rest
        ensures p.id != entries[0].0
      {
        var i :| 0 <= i < |tail| && tail[i] == DebtEntry(p);
        assert entries[i + 1] == tail[i];
        assert KeySeq(entries)[i + 1] == p.id;
        assert KeySeq(entries)[0] == entries[0].0;
      }
      match entries[0].1
      case Num(v) =>
        if v < -Tolerance {
          var x := Party(entries[0].0, -v);
          assert Debtors(entries) == [x] + rest;
          assert x !in rest;
        } else {
          assert Debtors(entries) == rest;
        }
      case NaN =>
        assert Debtors(entries) == rest;
    }
  }

  /**
   The creditor list of `simplifyDebts`: the creditors in key order, stably
   sorted largest first. Each member owed more than the tolerance appears
   once, and members owed the same amount stay in key order.
   */
  function CreditorList(bs: map<Id, Bal>, order: seq<Id>): (r: seq<Party>)
    requires forall k :: k in bs <==> k in order
    requires Distinct(order)
    ensures r == SortDesc(Creditors(Entries(bs, order)))
    ensures forall p :: p in r <==> p.id in bs && bs[p.id] == Num(p.amount) && p.amount > Tolerance
    ensures forall p :: multiset(r)[p] <= 1
    ensures forall a :: WithAmount(r, a) == WithAmount(Creditors(Entries(bs, order)), a)
    ensures SortedDesc(r) && AboveTolerance(r)
  {
    EntriesArePairs(bs, order);
    var c0 := Creditors(Entries(bs, order));
    SortDescMembers(c0);
    MembersAbove(SortDesc(c0));
    CreditorsOnce(Entries(bs, order));
    SortDescStableAll(c0);
    SortDesc(c0)
  }

  /**
   The debtor list of `simplifyDebts`, with magnitudes: the debtors in key
   order, stably sorted largest first. Each member owing more than the
   tolerance appears once, and members owing the same amount stay in key
   order.
   */
  function DebtorList(bs: map<Id, Bal>, order: seq<Id>): (r: seq<Party>)
    requires forall k :: k in bs <==> k in order
    requires Distinct(order)
    ensures r == SortDesc(Debtors(Entries(bs, order)))
    ensures forall p :: p in r <==> p.id in bs && bs[p.id] == Num(-p.amount) && p.amount > Tolerance
    ensures forall p :: multiset(r)[p] <= 1
    ensures forall a :: WithAmount(r, a) == WithAmount(Debtors(Entries(bs, order)), a)
    ensures SortedDesc(r) && AboveTolerance(r)
  {
    EntriesArePairs(bs, order);
    var d0 := Debtors(Entries(bs, order));
    SortDescMembers(d0);
    MembersAbove(SortDesc(d0));
    DebtorsOnce(Entries(bs, order));
    SortDescStableAll(d0);
    SortDesc(d0)
  }

  /**
   `simplifyDebts` on a balance object whose keys `Object.keys` lists, each
   once, in the order `order`: the creditor and debtor lists it builds, and
   the walk the loop reaches after `passes` passes. Either a list is used
   up there, or the walk is stuck and every later pass repeats it.
   */
  method SimplifyDebts(bs: map<Id, Bal>, order: seq<Id>, rule: Rule)
    returns (creditors: seq<Party>, debtors: seq<Party>, w: Walk, stuck: bool, passes: nat)
    requires forall k :: k in bs <==> k in order
    requires Distinct(order)
    ensures creditors == CreditorList(bs, order) && debtors == DebtorList(bs, order)
    ensures w == Run(creditors, debtors, rule, passes)
    ensures WalkInv(creditors, debtors, w, rule)
    ensures forall p :: p in creditors <==> p.id in bs && bs[p.id] == Num(p.amount) && p.amount > Tolerance
    ensures forall p :: p in debtors <==> p.id in bs && bs[p.id] == Num(-p.amount) && p.amount > Tolerance
    ensures SortedDesc(creditors) && SortedDesc(debtors)
    ensures stuck ==> Running(creditors, debtors, w) && Step(creditors, debtors, w, rule) == w
    ensures stuck ==> forall m :: passes <= m ==> Run(creditors, debtors, rule, m) == w
    ensures !stuck ==> w.ci == |creditors| || w.di == |debtors|
    ensures rule == Corrected ==> !stuck
    ensures TransfersOk(creditors, debtors, w.transfers)
    ensures TransferTotal(w.transfers) <= SumReals(Map(creditors, AmountOf))
    ensures TransferTotal(w.transfers) <= SumReals(Map(debtors, AmountOf))
    ensures |w.transfers| == 0 || |w.transfers| <= |creditors| + |debtors| - 1
  {
    creditors := CreditorList(bs, order);
    debtors := DebtorList(bs, order);
    w, stuck, passes := Settle(creditors, debtors, rule);
    TransfersBounded(creditors, debtors, w, rule);
    if stuck {
      forall m | passes <= m
        ensures Run(creditors, debtors, rule, m) == w
      {
        StuckForever(creditors, debtors, rule, passes, m);
      }
    }
  }

  /** The transfers of a walk never carry more than either side started with. */
  lemma TransfersBounded(cs: seq<Party>, ds: seq<Party>, w: Walk, rule: Rule)
    requires WalkInv(cs, ds, w, rule)
    ensures TransferTotal(w.transfers) <= SumReals(Map(cs, AmountOf))
    ensures TransferTotal(w.transfers) <= SumReals(Map(ds, AmountOf))
  {
    SumBelowOriginal(w.credit, Map(cs, AmountOf));
    SumBelowOriginal(w.debit, Map(ds, AmountOf));
  }

  /** A sum of non-negative remainders is non-negative. */
  lemma {:induction false} SumBelowOriginal(rem: seq<real>, orig: seq<real>)
    requires |rem| == |orig|
    requires forall i :: 0 <= i < |rem| ==> 0.0 <= rem[i] <= orig[i]
    ensures 0.0 <= SumReals(rem) <= SumReals(orig)
    decreases |rem|
  {
    if rem != [] {
      SumBelowOriginal(rem[1..], orig[1..]);
    }
  }
}
