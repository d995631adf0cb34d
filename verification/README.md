# Partio ledger core in Dafny

Partio is a browser application for splitting shared expenses in a group.
Its state (`appData`) is a list of members and a list of expenses. An
expense has a payer and a split. An equal split is divided among the
current members. A custom split is stored as a `splitDetails` object of
owed shares, entered either as parts or as amounts. The core this project
models:

- the member store: `addMember`, with trimming and case-insensitive
  duplicate detection, and `removeMember`, which also drops the expenses
  that member paid;
- the expense store: `addExpense`, with field checks and split resolution,
  and `removeExpense`;
- `calculateBalances`: a fold over the expenses that credits the payer and
  debits each participant. A custom share naming someone who is no longer a
  member reads a missing key, so that key becomes NaN;
- `simplifyDebts`: split the balances into creditors and debtors above the
  0.01 tolerance, sort each list largest first, and match them greedily with
  one pointer per list.

Amounts are exact reals, not doubles. Ids and the order in which
`Object.keys` lists the balance keys are parameters. Store operations are
pure functions from ledger to ledger. A refused operation (an `alert` and
an early `return`) is an `Err`.

Modules, in dependency order:

- `Sequences`: filtering, mapping, distinctness, and maps built from pairs
  where the last pair for a key wins;
- `Text`: `trim` and `toLowerCase`;
- `Entities`: the records, the error outcomes and the tolerance;
- `Splits`: split resolution;
- `Store`: the four store operations and the ledger invariant they keep;
- `Balances`: balance computation and the zero-sum accounting;
- `Consistency`: store operations related to balances;
- `Planner`: debt simplification;
- `Scenario`: a concrete ledger on which debt simplification never
  finishes.

## Behaviour of the code worth knowing

- Every input of a custom split is stored, zeros included. Parts may be
  negative; only a parts total of zero is refused (`Splits.ResolveSplit`).
- The members' balances add up to the sum of the counted expenses' nets
  (`Consistency.LedgerTotal`). A net is an expense's amount minus the shares
  its split charges current members. So the balances add up to zero when
  every counted custom split charges the current members exactly its amount
  (`Consistency.ZeroSum`).
  An amounts split may miss its amount by up to 0.01
  (`Consistency.AmountsExpenseNetsNearZero`). A share left for a removed
  member yields a NaN entry (`Consistency.RemovedMemberReadsNaN`).
- The matching loop conserves each side separately: what leaves the
  creditors equals what the transfers carry, and likewise for the debtors.
  Members within the tolerance are left out of both lists, so the two sides
  need not balance against each other.
- The matching loop is not guaranteed to terminate; see Findings.

## Model

| member | source | states |
|---|---|---|
| Text.TrimIsSlice | script.js:66 | the trimmed name is a contiguous piece of the input, with only white space cut on each side and no white space left at either end |
| Text.TrimEmptyIffBlank | script.js:66-71 | the trimmed name is empty exactly when the input is all white space, which is when `addMember` refuses it |
| Text.LowerChar | script.js:73 | A-Z and the Latin-1 capitals U+00C0-U+00DE other than U+00D7 move 32 code points up to their lower-case letters; every other character is unchanged |
| Text.ToLower | script.js:73 | lower-casing keeps the length and lowers each character on its own |
| Text.ToLowerIdempotent | script.js:73 | lower-casing twice is the same as lower-casing once, so the duplicate test is a comparison of normal forms |
| Sequences.Filter | script.js:95-96 | `Array.filter` keeps, in order, exactly the elements satisfying the test, each as often as before |
| Sequences.FilterKeepsDistinct | script.js:95 | filtering a list with unique keys leaves the keys unique |
| Sequences.ToMapLast | script.js:185-190 | after assigning pairs into an object, a key holds the value of its last pair |
| Sequences.ToMapValues | script.js:163-168 | every key's last pair decides its value in the per-member object |
| Store.AddMember | script.js:64-85 | a blank name is refused; a name already present up to letter case is refused; otherwise exactly one member is appended with the trimmed name, an empty PIX key of kind cpf and the given id, and the expenses are unchanged |
| Store.AddMemberPreserves | script.js:73-85 | an accepted member with a fresh id keeps names unique up to case, ids unique and amounts positive |
| Store.RemoveMember | script.js:93-96 | the remaining members are exactly those with another id and the remaining expenses exactly those with another payer, in their old order; the id is no longer a member |
| Store.RemoveMemberPreserves | script.js:95-96 | removing a member keeps the ledger well formed |
| Store.RemoveExpense | script.js:221-223 | the remaining expenses are exactly those with another id, in order; members are untouched |
| Store.RemoveExpensePreserves | script.js:223 | removing an expense keeps the ledger well formed |
| Store.AddExpense | script.js:135-209 | a blank description, a zero amount or no payer is a missing field; a negative amount is refused; a refused split refuses the expense with its error; otherwise exactly one expense with the trimmed description and the resolved split is appended and nothing else changes |
| Store.AddExpensePreserves | script.js:146-209 | an accepted expense keeps the ledger well formed, in particular every amount positive |
| Splits.PartsShares | script.js:175-181 | each listed participant is charged its parts times the value of one part, and nobody else is charged |
| Splits.ResolveSplit | script.js:151-196 | equal stores nothing; parts are refused exactly when they add up to zero, and otherwise each participant owes its parts times amount over total parts; amounts are refused exactly when their sum misses the amount by more than 0.01, and otherwise are stored as typed |
| Splits.PartsShareTotal | script.js:177-181 | the part shares summed over the inputs are the total parts times one part's value |
| Splits.AmountsShareTotal | script.js:185-190 | the stored amounts summed over the inputs are the typed total |
| Splits.PartsSplitIsExact | script.js:158-181 | with one input per participant, an accepted parts split charges exactly the expense amount in total |
| Splits.AmountsSplitWithinTolerance | script.js:184-195 | an amounts split is accepted exactly when its inputs are within 0.01 of the amount, and then the stored shares total within 0.01 of it |
| Splits.StoredAmountsTotal | script.js:185-190 | with one input per participant the stored amounts add up to the typed total |
| Balances.ListedIff | script.js:323-326 | a key is listed exactly when some counted expense names it in its custom split |
| Balances.BalancesAfter | script.js:301-331 | the balance keys are the current members plus the custom participants of counted expenses; member entries are numbers and every other entry is NaN |
| Balances.ApplyExpense | script.js:311-312 | an expense whose payer is not a current member leaves the balances unchanged |
| Balances.BalanceOf | script.js:304-328 | a member's balance after the fold is the number obtained by starting at zero and, for every counted expense in order, adding what the member paid and subtracting what the split charges them |
| Balances.CalculateBalances | script.js:301-331 | every member's balance is that number, and every key that is not a member id holds NaN |
| Balances.ApplyExpensePointwise | script.js:310-328 | one counted expense changes each member's balance by what the member paid minus what the split charges the member |
| Balances.ApplyExpenseShape | script.js:311-326 | one expense adds exactly the non-member keys it lists, makes them NaN, and keeps member entries numeric |
| Balances.EqualDebitTotal | script.js:318-322 | over unique member ids an equal split charges each member one per-person share |
| Balances.CustomDebitTotal | script.js:323-326 | a custom split charges the members exactly the shares listed for them |
| Balances.DebitTotalIsShare | script.js:317-327 | over all current members an equal split charges the whole amount and a custom split its listed shares |
| Balances.ApplyExpenseTotal | script.js:310-328 | folding one expense moves the members' total by exactly its net: zero for an equal split, the amount minus the members' listed shares for a custom one |
| Balances.BalancesSum | script.js:301-331 | the members' balances add up to the nets of the counted expenses |
| Balances.InitialTotal | script.js:304-307 | the starting balances add up to zero |
| Consistency.PartsExpenseNetsZero | script.js:158-181 | a parts expense entered with one input per current member leaves the members' total unchanged |
| Consistency.AmountsExpenseNetsNearZero | script.js:184-195 | an amounts expense entered with one input per current member moves the members' total by at most 0.01 |
| Consistency.LedgerTotal | script.js:301-331 | the ledger's member balances add up to the nets of its counted expenses |
| Consistency.NetTotalZero | script.js:310-328 | when every counted expense nets to zero, the nets add up to zero |
| Consistency.ZeroSum | script.js:301-331 | when every counted expense charges the members exactly its amount, the balances add up to zero |
| Consistency.AddExpenseKeepsNetZero | script.js:151-209 | adding an equal split, or a parts split with one input per current member, keeps every counted expense netting to zero |
| Consistency.RemovedMemberReadsNaN | script.js:324-325 | after a member is removed, their id has a balance exactly when a remaining counted expense lists it in a custom split, and that balance is NaN |
| Planner.Creditors | script.js:341-344 | the creditors are exactly the finite balances above 0.01, in key order |
| Planner.Debtors | script.js:345-347 | the debtors are exactly the finite balances below -0.01, with their magnitudes, in key order |
| Planner.Insert | script.js:351-352 | inserting into a list sorted largest first keeps it sorted and adds exactly that party |
| Planner.InsertStable | script.js:351-352 | insertion puts the new party before every party of equal amount and keeps their order |
| Planner.SortDesc | script.js:351-352 | the sort result is ordered largest first and is a permutation of its input |
| Planner.SortDescStable | script.js:351-352 | the sort is stable: parties of equal amount keep their original relative order |
| Planner.SortDescMembers | script.js:351-352 | sorting keeps exactly the same parties |
| Planner.EntriesArePairs | script.js:341-342 | when the key order lists exactly the balance keys, the entries visited are exactly the object's pairs |
| Planner.CreditorsOnce | script.js:341-344 | from balance entries with distinct keys, no creditor is listed twice |
| Planner.DebtorsOnce | script.js:345-347 | from balance entries with distinct keys, no debtor is listed twice |
| Planner.SortDescStableAll | script.js:351-352 | for every amount at once, sorting keeps parties of that amount in their original order |
| Planner.CreditorList | script.js:341-351 | the creditor list is the stable descending sort of the creditors in key order; it holds each member owed more than 0.01 exactly once, largest first, with equal amounts in key order |
| Planner.DebtorList | script.js:341-352 | the debtor list is the stable descending sort of the debtors in key order; it holds each member owing more than 0.01 exactly once, with their magnitude, largest first, with equal amounts in key order |
| Planner.Step | script.js:358-377 | an iteration changes nothing exactly when the smaller current remainder is at most 0.01. Otherwise it appends one transfer from the current debtor to the current creditor carrying the smaller remainder, takes that amount off those two remainders only, moves each pointer whose remainder is then exhausted (below 0.01 as written, at most 0.01 corrected), and so moves at least one pointer |
| Planner.StuckForever | script.js:358-377 | once a pass leaves a running walk unchanged, every later pass leaves it unchanged too |
| Planner.StartInv | script.js:355-356 | the walk starts with every remainder at its original amount and no transfers, and the loop invariant holds |
| Planner.PassInv | script.js:358-377 | a pass that transfers keeps the loop invariant and moves a pointer |
| Planner.StepInv | script.js:358-377 | a transferring iteration keeps the loop invariant: remainders stay within bounds, each side's outflow equals the transfer total, and every transfer goes from a debtor to a creditor above 0.01 |
| Planner.Settle | script.js:355-377 | the returned walk is the one the loop reaches after the returned number of passes of `Step` from the start. There either a list is used up, or the walk is running and the next pass leaves it unchanged. Under the corrected rule a list is always used up |
| Planner.AsWrittenStallsExactly | script.js:364-376 | under the code's rule a running walk makes no progress exactly when a current remainder equals 0.01 |
| Planner.CorrectedNeverStalls | script.js:374-375 | with `<=` in the pointer tests, every iteration of a running walk transfers and moves a pointer |
| Planner.StallWitness | script.js:364-376 | on a creditor owed 0.023 and debtors owing 0.013 and 0.011, the loop makes one transfer of 0.013 and then repeats a state that changes nothing, forever |
| Planner.StallsForever | script.js:358-377 | on those lists every pass of the loop from the first on yields the same running walk, so the loop never exits |
| Planner.CorrectedSettlesInOnePass | script.js:374-375 | with the corrected tests the first pass over those lists uses a list up |
| Planner.StallWitnessCorrected | script.js:374-375 | with the corrected tests the same lists are settled by that one transfer |
| Planner.SimplifyDebts | script.js:333-380 | given keys listed once, the creditor and debtor lists are exactly CreditorList and DebtorList. The walk is the loop's state after the returned number of passes: either a list is used up, or the walk is stuck and every later pass repeats it. Every transfer goes from a debtor to a creditor and exceeds 0.01. The transfers never total more than either side owes, and there are at most creditors plus debtors minus one of them |
| Planner.TransfersBounded | script.js:362-372 | the transfers never carry more than either side started with |
| Scenario.FirstFormAccepted | script.js:184-195 | the first expense's amounts form adds up to its amount and is stored as typed |
| Scenario.SecondFormAccepted | script.js:184-195 | the second expense's amounts form adds up to its amount and is stored as typed |
| Scenario.AddFirst | script.js:135-209 | `addExpense` accepts the first expense on the four-member ledger and appends it |
| Scenario.AddSecond | script.js:135-209 | `addExpense` accepts the second expense and appends it after the first |
| Scenario.LedgerBalances | script.js:301-331 | `calculateBalances` on that ledger gives the stalling balances |
| Scenario.AfterSecond | script.js:301-331 | the two expenses yield the balances A +0.023, B -0.011, C -0.013, D +0.001 |
| Scenario.StallingCreditors | script.js:341-351 | on those balances A is the only creditor |
| Scenario.StallingDebtors | script.js:345-352 | on those balances C and B are the debtors, C first |
| Scenario.ScenarioStalls | script.js:333-377 | starting from four members, `addExpense` accepts both expenses; `calculateBalances` gives the stalling balances; the lists `simplifyDebts` builds from them are the witness lists; every pass of the application's loop then repeats one running walk, while the corrected loop finishes after one pass |

## Left out

- Rendering, the DOM, form reading and clearing, and `updateUI`: these are presentation only. Forms arrive as parsed values.
- `saveData`/`loadData` and localStorage: persistence is I/O.
- `Date.now()` and `new Date()`: ids are parameters and timestamps are omitted.
- `parseFloat` and `parseInt`, including NaN and Infinity inputs: amounts arrive parsed as reals, with custom inputs already passed through `|| 0`.
- Floating-point rounding: amounts are exact reals. The stall in Findings also occurs with doubles, since there 0.024 - 0.001, the way A's balance is computed, is exactly 0.023, and 0.023 - 0.013 is exactly 0.01. The model does not show this.
- `toFixed`, `formatCurrency` and `displaySimplifiedDebts`: presentation only. SimplifyDebts returns the transfers instead of displaying them.
- `editPixKey`/`updatePixKey`: these only edit display fields and do not affect balances.
- `confirm` dialogs: removals are modelled as confirmed. `alert` messages are modelled as `Err` values.
- `toLowerCase` beyond Latin-1: letters outside that range are left unchanged.
- The `splitType` field: it is folded into `Split`. The unused `customSplits` field is not modelled.
- `updateCustomSplitInputs`: the custom form is a list of (member id, value) pairs. The properties about whole expenses assume one pair per current member, which is what that function renders.
- `Object.keys` order: it is a parameter. Keys that are array indices (integers below 2^32 - 1) come first, in numeric order. Every other key, including the 13-digit `Date.now()` ids, keeps insertion order. The caller must reflect this in `order`.
- Planner.Settle: no unconditional termination or settlement promise is made. The code's loop can run forever (see Findings), and the contract states that case. When the loop does end, the list that is not used up may keep remainders above 0.01, because members within the tolerance are left out of both lists.

## Findings

| source | as written | input that shows it | evidently intended | confidence | as-written member | corrected member |
|---|---|---|---|---|---|---|
| script.js:374-375 | a pointer advances only past a remainder strictly below 0.01, and the loop body transfers only amounts above 0.01, so a remainder of exactly 0.01 freezes the loop at 358-377 | A pays 0.024 split by amounts B 0.011, C 0.013; D pays 0.001 split by amounts A 0.001. The balances are A +0.023, B -0.011, C -0.013, D +0.001. C pays A 0.013, A keeps 0.01, and the loop spins forever | advance on a remainder `<= 0.01`, so that every iteration makes progress and the loop ends | not executed | Planner.StallsForever | Planner.CorrectedNeverStalls |
