/**
 The ledger's records: members, expenses and the whole store (`appData`),
 plus the error outcomes of the store operations. Identifiers are strings
 supplied by the caller (the application derives them from the clock).
 */
module Entities {
  import opened Sequences

  type Id = string

  /** The closed set of PIX payout-key kinds. */
  datatype PixKeyType = Cpf | Email | Telefone | Aleatoria

  datatype Member = Member(id: Id, name: string, pixKey: string, pixKeyType: PixKeyType)

  /**
   How an expense is shared. `Equal` stores nothing and is divided among the
   members present when balances are computed; `Custom` stores one owed
   share per listed participant (the `splitDetails` object).
   */
  datatype Split = Equal | Custom(details: map<Id, real>)

  datatype Expense = Expense(id: Id, description: string, amount: real, payerId: Id, split: Split)

  /** The application's in-memory state. */
  datatype Ledger = Ledger(members: seq<Member>, expenses: seq<Expense>)

  /** Why a store operation was refused (each one is an alert and an early return). */
  datatype LedgerError =
    | EmptyName
    | DuplicateName
    | MissingField
    | NonPositiveAmount
    | ZeroTotalParts
    | SplitTotalMismatch(total: real, amount: real)

  datatype Result<T> = Ok(value: T) | Err(error: LedgerError)

  /** The fixed epsilon used by every near-equality and near-zero test. */
  const Tolerance: real := 0.01

  function IdOf(m: Member): Id {
    m.id
  }

  /** The members' ids in list order. */
  function MemberIds(ms: seq<Member>): seq<Id> {
    Map(ms, IdOf)
  }

  /** What a custom split charges participant `k`: its listed share, or nothing when unlisted. */
  function Share(d: map<Id, real>, k: Id): real {
    if k in d then d[k] else 0.0
  }

  /** The shares `d` charges to the ids `ks`, summed. */
  function ShareTotal(ks: seq<Id>, d: map<Id, real>): real {
    if ks == [] then 0.0 else Share(d, ks[0]) + ShareTotal(ks[1..], d)
  }

  function Abs(x: real): real {
    if x < 0.0 then -x else x
  }
}
