/**
 The split resolver inside `addExpense`: turning the custom-split form into
 the `splitDetails` stored on an expense, or refusing it.
 */
module Splits {
  import opened Sequences
  import opened Entities

  /**
   The split choice of the expense form. Each custom input is one
   (member id, value) pair in form order, already parsed: parts went
   through `parseInt(...) || 0`, amounts through `parseFloat(...) || 0`.
   */
  datatype SplitForm =
    | EqualForm
    | PartsForm(parts: seq<(Id, int)>)
    | AmountsForm(values: seq<(Id, real)>)

  /** `totalParts` of the parts method. */
  function SumParts(s: seq<(Id, int)>): int {
    if s == [] then 0 else s[0].1 + SumParts(s[1..])
  }

  /** `totalSplit` of the amounts method. */
  function SumValues(s: seq<(Id, real)>): real {
    if s == [] then 0.0 else s[0].1 + SumValues(s[1..])
  }

  /** `valuePerPart`: the amount divided by the total number of parts. */
  function PartValue(amount: real, totalParts: int): real
    requires totalParts != 0
  {
    amount / totalParts as real
  }

  /** What a participant with `parts` parts owes: `parts * valuePerPart`. */
  function PartShare(parts: int, valuePerPart: real): real {
    parts as real * valuePerPart
  }

  /** Each listed participant owes its parts times the value of one part. */
  function PartsShares(parts: seq<(Id, int)>, valuePerPart: real): (d: map<Id, real>)
    ensures d.Keys == KeysOf(parts)
    ensures forall i :: 0 <= i < |parts| && LastOf(parts, i) ==>
      parts[i].0 in d && d[parts[i].0] == PartShare(parts[i].1, valuePerPart)
  {
    var perMember := ToMap(parts);
    ToMapValues(parts);
    map k | k in perMember :: PartShare(perMember[k], valuePerPart)
  }

  /**
   Resolves the form into a split. Equal stores nothing; parts are refused
   when they add up to zero and otherwise charge `parts * (amount / total)`;
   amounts are refused when their sum is more than the tolerance away from
   the expense amount and otherwise are stored as typed.
   */
  function ResolveSplit(amount: real, form: SplitForm): (r: Result<Split>)
    ensures form.EqualForm? ==> r == Ok(Equal)
    ensures form.PartsForm? ==> (r.Err? <==> SumParts(form.parts) == 0)
    ensures form.PartsForm? && r.Err? ==> r.error == ZeroTotalParts
    ensures form.PartsForm? && r.Ok? ==>
      && r.value.Custom?
      && r.value.details.Keys == KeysOf(form.parts)
      && (forall i :: 0 <= i < |form.parts| && LastOf(form.parts, i) ==>
            r.value.details[form.parts[i].0] == PartShare(form.parts[i].1, PartValue(amount, SumParts(form.parts))))
      && (forall i :: 0 <= i < |form.parts| && LastOf(form.parts, i) && form.parts[i].1 == 0 ==>
            r.value.details[form.parts[i].0] == 0.0)
    ensures form.AmountsForm? ==> (r.Err? <==> Abs(SumValues(form.values) - amount) > Tolerance)
    ensures form.AmountsForm? && r.Err? ==> r.error == SplitTotalMismatch(SumValues(form.values), amount)
    ensures form.AmountsForm? && r.Ok? ==>
      && r.value.Custom?
      && r.value.details.Keys == KeysOf(form.values)
      && (forall i :: 0 <= i < |form.values| && LastOf(form.values, i) ==>
            r.value.details[form.values[i].0] == form.values[i].1)
  {
    match form
    case EqualForm => Ok(Equal)
    case PartsForm(parts) =>
      var total := SumParts(parts);
      if total == 0 then Err(ZeroTotalParts)
      else
        Ok(Custom(PartsShares(parts, PartValue(amount, total))))
    case AmountsForm(values) =>
      var total := SumValues(values);
      if Abs(total - amount) > Tolerance then Err(SplitTotalMismatch(total, amount))
      else
        ToMapValues(values);
        Ok(Custom(ToMap(values)))
  }

  /** Summing the stored part shares over the inputs gives the total parts times one part's value. */
  lemma {:induction false} PartsShareTotal(q: seq<(Id, int)>, d: map<Id, real>, v: real)
    requires forall i :: 0 <= i < |q| ==> Share(d, q[i].0) == PartShare(q[i].1, v)
    ensures ShareTotal(KeySeq(q), d) == PartShare(SumParts(q), v)
    decreases |q|
  {
    if q != [] {
      assert KeySeq(q)[1..] == KeySeq(q[1..]);
      PartsShareTotal(q[1..], d, v);
      assert (q[0].1 + SumParts(q[1..])) as real * v == q[0].1 as real * v + SumParts(q[1..]) as real * v;
    }
  }

  /** Summing the stored amounts over the inputs gives the typed total. */
  lemma {:induction false} AmountsShareTotal(q: seq<(Id, real)>, d: map<Id, real>)
    requires forall i :: 0 <= i < |q| ==> Share(d, q[i].0) == q[i].1
    ensures ShareTotal(KeySeq(q), d) == SumValues(q)
    decreases |q|
  {
    if q != [] {
      assert KeySeq(q)[1..] == KeySeq(q[1..]);
      AmountsShareTotal(q[1..], d);
    }
  }

  /**
   An accepted parts split charges its participants exactly the expense
   amount in total (one input per participant).
   */
  lemma PartsSplitIsExact(amount: real, parts: seq<(Id, int)>)
    requires Distinct(KeySeq(parts))
    requires SumParts(parts) != 0
    ensures ResolveSplit(amount, PartsForm(parts)).Ok?
    ensures ShareTotal(KeySeq(parts), ResolveSplit(amount, PartsForm(parts)).value.details) == amount
  {
    var total := SumParts(parts);
    var v := PartValue(amount, total);
    var d := PartsShares(parts, v);
    assert ResolveSplit(amount, PartsForm(parts)) == Ok(Custom(d));
    forall i | 0 <= i < |parts|
      ensures Share(d, parts[i].0) == PartShare(parts[i].1, v)
    {
      DistinctKeysAreLast(parts, i);
    }
    PartsShareTotal(parts, d, v);
    PartValueRestores(amount, total);
  }

  /** The part values of all parts add back up to the amount. */
  lemma PartValueRestores(amount: real, total: int)
    requires total != 0
    ensures PartShare(total, PartValue(amount, total)) == amount
  {
  }

  /**
   An amounts split is accepted exactly when its inputs add up to the expense
   amount within the tolerance, and then the shares it stores add up to the
   same total as the inputs (one input per participant).
   */
  lemma AmountsSplitWithinTolerance(amount: real, values: seq<(Id, real)>)
    requires Distinct(KeySeq(values))
    ensures ResolveSplit(amount, AmountsForm(values)).Ok? <==> Abs(SumValues(values) - amount) <= Tolerance
    ensures ResolveSplit(amount, AmountsForm(values)).Ok? ==>
      Abs(ShareTotal(KeySeq(values), ResolveSplit(amount, AmountsForm(values)).value.details) - amount) <= Tolerance
  {
    if Abs(SumValues(values) - amount) <= Tolerance {
      assert ResolveSplit(amount, AmountsForm(values)) == Ok(Custom(ToMap(values)));
      StoredAmountsTotal(values);
    }
  }

  /** With one input per participant the stored amounts add up to the typed total. */
  lemma StoredAmountsTotal(values: seq<(Id, real)>)
    requires Distinct(KeySeq(values))
    ensures ShareTotal(KeySeq(values), ToMap(values)) == SumValues(values)
  {
    var d := ToMap(values);
    forall i | 0 <= i < |values|
      ensures Share(d, values[i].0) == values[i].1
    {
      DistinctKeysAreLast(values, i);
      ToMapLast(values, i);
    }
    AmountsShareTotal(values, d);
  }
}
