/**
 `calculateBalances`: a fold over the expenses, in order, against the
 current member list. Balances live in an object keyed by member id; a
 custom share whose participant is no longer a member reads a missing key,
 and `undefined - share` is NaN, so the value type here is a finite number
 or NaN.
 */
module Balances {
  import opened Sequences
  import opened Entities

  /** A balance entry as the fold can leave it. */
  datatype Bal = Num(value: real) | NaN

  function Plus(b: Bal, x: real): Bal {
    match b
    case Num(v) => Num(v + x)
    case NaN => NaN
  }

  function Minus(b: Bal, x: real): Bal {
    match b
    case Num(v) => Num(v - x)
    case NaN => NaN
  }

  /** Reading a key the object lacks gives `undefined`, which any arithmetic turns into NaN. */
  function Lookup(bs: map<Id, Bal>, k: Id): Bal {
    if k in bs then bs[k] else NaN
  }

  /** How often `k` occurs in `ids`. */
  function Count(ids: seq<Id>, k: Id): nat {
    if ids == [] then 0 else (if ids[0] == k then 1 else 0) + Count(ids[1..], k)
  }

  /** Every current member starts at zero. */
  function InitialBalances(ids: seq<Id>): map<Id, Bal> {
    map k | k in ids :: Num(0.0)
  }

  /** The equal share of one expense: the amount over the live member count. */
  function PerPerson(ids: seq<Id>, amount: real): real
    requires |ids| > 0
  {
    amount / |ids| as real
  }

  /** What an equal split takes from key `k`: one per-person share for each time `k` is listed. */
  function EqualDebit(ids: seq<Id>, k: Id, amount: real): real
    requires |ids| > 0
  {
    Count(ids, k) as real * PerPerson(ids, amount)
  }

  /**
   One expense folded into the balances. An expense whose payer is not a
   current member is skipped. Otherwise the payer gains the amount; an equal
   split then takes the per-person share from every member (twice from an id
   listed twice), a custom split takes each listed share from its key.
   */
  function ApplyExpense(ids: seq<Id>, bs: map<Id, Bal>, e: Expense): (r: map<Id, Bal>)
    ensures e.payerId !in ids ==> r == bs
  {
    if e.payerId !in ids then bs
    else
      var credited := bs[e.payerId := Plus(Lookup(bs, e.payerId), e.amount)];
      match e.split
      case Equal =>
        map k | k in credited.Keys + (set x | x in ids) ::
          if k in ids then Minus(Lookup(credited, k), EqualDebit(ids, k, e.amount)) else credited[k]
      case Custom(d) =>
        map k | k in credited.Keys + d.Keys ::
          if k in d then Minus(Lookup(credited, k), d[k]) else credited[k]
  }

  /** Expense `e` is counted and lists key `k` as a custom participant. */
  predicate ListsKey(ids: seq<Id>, e: Expense, k: Id) {
    e.payerId in ids && e.split.Custom? && k in e.split.details
  }

  /** Some counted expense of `es` lists key `k`. */
  predicate Listed(ids: seq<Id>, es: seq<Expense>, k: Id)
    decreases |es|
  {
    es != [] && (Listed(ids, es[..|es| - 1], k) || ListsKey(ids, es[|es| - 1], k))
  }

  /** `Listed` holds exactly when some counted expense lists the key. */
  lemma {:induction false} ListedIff(ids: seq<Id>, es: seq<Expense>, k: Id)
    ensures Listed(ids, es, k) <==> exists i :: 0 <= i < |es| && ListsKey(ids, es[i], k)
    decreases |es|
  {
    if es != [] {
      var init := es[..|es| - 1];
      ListedIff(ids, init, k);
      if Listed(ids, init, k) {
        var i :| 0 <= i < |init| && ListsKey(ids, init[i], k);
        assert es[i] == init[i];
      }
      if exists i :: 0 <= i < |es| && ListsKey(ids, es[i], k) {
        var i :| 0 <= i < |es| && ListsKey(ids, es[i], k);
        if i < |init| {
          assert init[i] == es[i];
        }
      }
    }
  }

  /**
   The balances after folding `es`. Its keys are the current members and
   the custom participants of counted expenses; the members' entries are
   numbers and every other entry is NaN.
   */
  function BalancesAfter(ids: seq<Id>, es: seq<Expense>): (r: map<Id, Bal>)
    ensures forall k :: k in r <==> k in ids || Listed(ids, es, k)
    ensures forall k :: k in r ==> (r[k].Num? <==> k in ids)
    decreases |es|
  {
    if es == [] then InitialBalances(ids)
    else
      var prior := BalancesAfter(ids, es[..|es| - 1]);
      ApplyExpenseShape(ids, prior, es[|es| - 1]);
      ApplyExpense(ids, prior, es[|es| - 1])
  }

  /**
   What the counted expenses of `es` do to key `k`, summed in order: each
   payer gains the amount and each split takes its share.
   */
  function Effect(ids: seq<Id>, es: seq<Expense>, k: Id): real
    decreases |es|
  {
    if es == [] then 0.0
    else
      var e := es[|es| - 1];
      Effect(ids, es[..|es| - 1], k) + (if e.payerId in ids then Credit(e, k) - Debit(ids, e, k) else 0.0)
  }

  /**
   A member's balance after the fold: zero to start, then for every counted
   expense what the member paid minus what its split charges the member;
   expenses whose payer is not a member change nothing.
   */
  lemma {:induction false} BalanceOf(ids: seq<Id>, es: seq<Expense>, k: Id)
    requires k in ids
    ensures k in BalancesAfter(ids, es) && BalancesAfter(ids, es)[k] == Num(Effect(ids, es, k))
    decreases |es|
  {
    if es != [] {
      var init, e := es[..|es| - 1], es[|es| - 1];
      var prior := BalancesAfter(ids, init);
      BalanceOf(ids, init, k);
      if e.payerId in ids {
        ApplyExpensePointwise(ids, prior, e, k);
      }
    }
  }

  /** Every member's id is in the id list. */
  lemma MemberIdsCover(ms: seq<Member>)
    ensures forall m :: m in ms ==> m.id in MemberIds(ms)
  {
    forall m | m in ms
      ensures m.id in MemberIds(ms)
    {
      var i :| 0 <= i < |ms| && ms[i] == m;
      assert MemberIds(ms)[i] == m.id;
    }
  }

  /**
   `calculateBalances` on the ledger: every member's balance is the number
   the counted expenses leave it, and every other key holds NaN.
   */
  function CalculateBalances(l: Ledger): (r: map<Id, Bal>)
    ensures forall m :: m in l.members ==> m.id in r && r[m.id] == Num(Effect(MemberIds(l.members), l.expenses, m.id))
    ensures forall k :: k in r && k !in MemberIds(l.members) ==> r[k] == NaN
  {
    MemberBalances(l.members, l.expenses);
    BalancesAfter(MemberIds(l.members), l.expenses)
  }

  /** `BalanceOf` for every member of the list. */
  lemma MemberBalances(ms: seq<Member>, es: seq<Expense>)
    ensures forall m :: m in ms ==>
      (m.id in BalancesAfter(MemberIds(ms), es) && BalancesAfter(MemberIds(ms), es)[m.id] == Num(Effect(MemberIds(ms), es, m.id)))
  {
    MemberIdsCover(ms);
    forall m | m in ms
      ensures m.id in BalancesAfter(MemberIds(ms), es)
      ensures BalancesAfter(MemberIds(ms), es)[m.id] == Num(Effect(MemberIds(ms), es, m.id))
    {
      BalanceOf(MemberIds(ms), es, m.id);
    }
  }

  /** The numeric value of an entry, with NaN and missing keys read as 0. */
  function Value(bs: map<Id, Bal>, k: Id): real {
    match Lookup(bs, k)
    case Num(v) => v
    case NaN => 0.0
  }

  /** The balances of the ids `ks`, summed. */
  function Total(ks: seq<Id>, bs: map<Id, Bal>): real {
    if ks == [] then 0.0 else Value(bs, ks[0]) + Total(ks[1..], bs)
  }

  /** What the payer side of `e` adds to key `k`. */
  function Credit(e: Expense, k: Id): real {
    if k == e.payerId then e.amount else 0.0
  }

  /** What the split of `e` takes from key `k`. */
  function Debit(ids: seq<Id>, e: Expense, k: Id): real
    requires |ids| > 0
  {
    match e.split
    case Equal => EqualDebit(ids, k, e.amount)
    case Custom(d) => Share(d, k)
  }

  function CreditTotal(ks: seq<Id>, e: Expense): real {
    if ks == [] then 0.0 else Credit(e, ks[0]) + CreditTotal(ks[1..], e)
  }

  function DebitTotal(ks: seq<Id>, ids: seq<Id>, e: Expense): real
    requires |ids| > 0
  {
    if ks == [] then 0.0 else Debit(ids, e, ks[0]) + DebitTotal(ks[1..], ids, e)
  }

  /**
   How far one counted expense moves the members' total: nothing for an
   equal split, the amount minus the shares listed for current members for
   a custom one.
   */
  function Net(ids: seq<Id>, e: Expense): real {
    match e.split
    case Equal => 0.0
    case Custom(d) => e.amount - ShareTotal(ids, d)
  }

  /** The nets of the counted expenses of `es`, summed. */
  function NetTotal(ids: seq<Id>, es: seq<Expense>): real
    decreases |es|
  {
    if es == [] then 0.0
    else
      var e := es[|es| - 1];
      NetTotal(ids, es[..|es| - 1]) + (if e.payerId in ids then Net(ids, e) else 0.0)
  }

  /** Folding an expense changes each member key by its credit minus its debit. */
  lemma ApplyExpensePointwise(ids: seq<Id>, bs: map<Id, Bal>, e: Expense, k: Id)
    requires e.payerId in ids && k in ids
    requires forall x :: x in ids ==> x in bs && bs[x].Num?
    ensures k in ApplyExpense(ids, bs, e) && ApplyExpense(ids, bs, e)[k].Num?
    ensures Value(ApplyExpense(ids, bs, e), k) == Value(bs, k) + Credit(e, k) - Debit(ids, e, k)
  {
    var credited := bs[e.payerId := Plus(Lookup(bs, e.payerId), e.amount)];
    assert Lookup(credited, k) == Num(Value(bs, k) + Credit(e, k));
    var after := ApplyExpense(ids, bs, e);
    match e.split
    case Equal =>
      assert k in credited.Keys + (set x | x in ids);
      assert after[k] == Minus(Lookup(credited, k), EqualDebit(ids, k, e.amount));
    case Custom(d) =>
      if k in d {
        assert after[k] == Minus(Lookup(credited, k), d[k]);
      } else {
        assert after[k] == credited[k];
      }
  }

  /** Folding an expense keeps member entries numeric and makes every other entry it touches NaN. */
  lemma ApplyExpenseShape(ids: seq<Id>, bs: map<Id, Bal>, e: Expense)
    requires forall x :: x in ids ==> x in bs
    requires forall k :: k in bs ==> (bs[k].Num? <==> k in ids)
    ensures forall k :: k in ApplyExpense(ids, bs, e) <==> k in bs || ListsKey(ids, e, k)
    ensures forall k :: k in ApplyExpense(ids, bs, e) ==> (ApplyExpense(ids, bs, e)[k].Num? <==> k in ids)
  {
    if e.payerId in ids {
      var credited := bs[e.payerId := Plus(Lookup(bs, e.payerId), e.amount)];
      assert credited.Keys == bs.Keys;
      assert forall k :: k in credited ==> (credited[k].Num? <==> k in ids);
      var after := ApplyExpense(ids, bs, e);
      match e.split
      case Equal =>
        forall k | k in after
          ensures after[k].Num? <==> k in ids
        {
          if k in ids {
            assert after[k] == Minus(Lookup(credited, k), EqualDebit(ids, k, e.amount));
          } else {
            assert after[k] == credited[k];
          }
        }
      case Custom(d) =>
        forall k | k in after
          ensures after[k].Num? <==> k in ids
        {
          if k in d {
            assert after[k] == Minus(Lookup(credited, k), d[k]);
          } else {
            assert after[k] == credited[k];
          }
        }
    }
  }

  /** Pointwise changes add up over a list of keys. */
  lemma {:induction false} TotalShift(ks: seq<Id>, before: map<Id, Bal>, after: map<Id, Bal>, ids: seq<Id>, e: Expense)
    requires |ids| > 0
    requires forall i :: 0 <= i < |ks| ==> Value(after, ks[i]) == Value(before, ks[i]) + Credit(e, ks[i]) - Debit(ids, e, ks[i])
    ensures Total(ks, after) == Total(ks, before) + CreditTotal(ks, e) - DebitTotal(ks, ids, e)
    decreases |ks|
  {
    if ks != [] {
      TotalShift(ks[1..], before, after, ids, e);
    }
  }

  /** The payer's credit is counted once per occurrence of the payer's id. */
  lemma {:induction false} CreditTotalCount(ks: seq<Id>, e: Expense)
    ensures CreditTotal(ks, e) == Count(ks, e.payerId) as real * e.amount
    decreases |ks|
  {
    if ks != [] {
      CreditTotalCount(ks[1..], e);
    }
  }

  /** A duplicate-free id list holds each of its ids once. */
  lemma {:induction false} CountDistinct(ids: seq<Id>, k: Id)
    requires Distinct(ids)
    ensures Count(ids, k) == if k in ids then 1 else 0
    decreases |ids|
  {
    if ids != [] {
      assert Distinct(ids[1..]) by {
        forall i, j | 0 <= i < j < |ids[1..]|
          ensures ids[1..][i] != ids[1..][j]
        {
          assert ids[1..][i] == ids[i + 1] && ids[1..][j] == ids[j + 1];
        }
      }
      CountDistinct(ids[1..], k);
      if ids[0] == k {
        assert k !in ids[1..] by {
          forall i | 0 <= i < |ids[1..]|
            ensures ids[1..][i] != k
          {
            assert ids[1..][i] == ids[i + 1];
          }
        }
      } else {
        assert k in ids <==> k in ids[1..] by {
          assert ids == [ids[0]] + ids[1..];
        }
      }
    }
  }

  /** Over duplicate-free members each equal share is taken once. */
  lemma {:induction false} EqualDebitTotal(ks: seq<Id>, ids: seq<Id>, e: Expense)
    requires |ids| > 0 && Distinct(ids) && e.split.Equal?
    requires forall i :: 0 <= i < |ks| ==> ks[i] in ids
    ensures DebitTotal(ks, ids, e) == |ks| as real * PerPerson(ids, e.amount)
    decreases |ks|
  {
    if ks != [] {
      CountDistinct(ids, ks[0]);
      EqualDebitTotal(ks[1..], ids, e);
    }
  }

  /** A custom split takes from the members exactly the shares listed for them. */
  lemma {:induction false} CustomDebitTotal(ks: seq<Id>, ids: seq<Id>, e: Expense)
    requires |ids| > 0 && e.split.Custom?
    ensures DebitTotal(ks, ids, e) == ShareTotal(ks, e.split.details)
    decreases |ks|
  {
    if ks != [] {
      CustomDebitTotal(ks[1..], ids, e);
    }
  }

  /** Folding one expense moves the members' total by exactly its net. */
  lemma ApplyExpenseTotal(ids: seq<Id>, bs: map<Id, Bal>, e: Expense)
    requires Distinct(ids)
    requires forall x :: x in ids ==> x in bs && bs[x].Num?
    ensures Total(ids, ApplyExpense(ids, bs, e)) == Total(ids, bs) + (if e.payerId in ids then Net(ids, e) else 0.0)
  {
    if e.payerId in ids {
      var after := ApplyExpense(ids, bs, e);
      forall i | 0 <= i < |ids|
        ensures Value(after, ids[i]) == Value(bs, ids[i]) + Credit(e, ids[i]) - Debit(ids, e, ids[i])
      {
        ApplyExpensePointwise(ids, bs, e, ids[i]);
      }
      TotalShift(ids, bs, after, ids, e);
      CreditTotalCount(ids, e);
      CountDistinct(ids, e.payerId);
      assert CreditTotal(ids, e) == e.amount;
      DebitTotalIsShare(ids, e);
    }
  }

  /** Over all current members the split takes the whole amount (equal) or the listed shares (custom). */
  lemma DebitTotalIsShare(ids: seq<Id>, e: Expense)
    requires Distinct(ids) && e.payerId in ids
    ensures DebitTotal(ids, ids, e) == e.amount - Net(ids, e)
  {
    match e.split
    case Equal =>
      EqualDebitTotal(ids, ids, e);
      PerPersonRestores(ids, e.amount);
    case Custom(d) =>
      CustomDebitTotal(ids, ids, e);
  }

  /** N equal shares make up the amount. */
  lemma PerPersonRestores(ids: seq<Id>, amount: real)
    requires |ids| > 0
    ensures |ids| as real * PerPerson(ids, amount) == amount
  {
  }

  /**
   Zero-sum: over duplicate-free members, the balances add up to the sum of
   the nets of the counted expenses. Equal splits contribute nothing; a
   custom split contributes what its shares for current members fall short
   of its amount.
   */
  lemma {:induction false} BalancesSum(ids: seq<Id>, es: seq<Expense>)
    requires Distinct(ids)
    ensures Total(ids, BalancesAfter(ids, es)) == NetTotal(ids, es)
    decreases |es|
  {
    if es == [] {
      InitialTotal(ids);
    } else {
      BalancesSum(ids, es[..|es| - 1]);
      ApplyExpenseTotal(ids, BalancesAfter(ids, es[..|es| - 1]), es[|es| - 1]);
    }
  }

  /** The initial balances add up to zero. */
  lemma {:induction false} InitialTotal(ids: seq<Id>)
    ensures Total(ids, InitialBalances(ids)) == 0.0
  {
    var b := InitialBalances(ids);
    var k := 0;
    while k < |ids|
      invariant 0 <= k <= |ids|
      invariant Total(ids[k..], b) == Total(ids, b)
    {
      assert ids[k..][1..] == ids[k + 1..];
      k := k + 1;
    }
    assert ids[|ids|..] == [];
  }
}
