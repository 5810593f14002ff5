/**
 * The three tables of the bank database (users, accounts, transactions) as
 * values, and the read-only queries over them. The SQL statements of the
 * bank are modelled here as functions; module Bank wraps them in the
 * classes that update the tables in place.
 */
module Ledger {

  datatype Option<T> = None | Some(value: T)

  /** `get_account` on an id with no row fails (the query returns no row). */
  datatype Error = NoSuchAccount

  datatype Result<T> = Ok(value: T) | Err(error: Error)

  /** A row of `users`; `username` is UNIQUE in the schema. */
  datatype User = User(id: int, username: string, password: string)

  /**
   * A row of `accounts` without its key. `userId` is None when the row was
   * inserted with a NULL owner; SQL equality never matches NULL.
   */
  datatype Account = Account(userId: Option<int>, accountType: string, balance: real)

  /** The two values the bank writes into the `type` column. */
  datatype Kind = Deposit | Withdrawal

  /** A row of `transactions`; its key and timestamp are not modelled. */
  datatype TxRecord = TxRecord(accountId: int, kind: Kind, amount: real)

  /** A row returned by the history query: (type, amount). */
  datatype Entry = Entry(kind: Kind, amount: real)

  /** A row returned by the account listing: (id, account_type, balance). */
  datatype AccountRow = AccountRow(id: int, accountType: string, balance: real)

  // ---------------------------------------------------------------------
  // Balances as the transaction log sees them
  // ---------------------------------------------------------------------

  /** Sum of the amounts of the records of kind `kind` on account `id`. */
  function SumOf(log: seq<TxRecord>, id: int, kind: Kind): real
  {
    if log == [] then 0.0
    else (if log[0].accountId == id && log[0].kind == kind then log[0].amount else 0.0)
         + SumOf(log[1..], id, kind)
  }

  /** Deposits minus withdrawals recorded for account `id`. */
  function Net(log: seq<TxRecord>, id: int): real
  {
    SumOf(log, id, Deposit) - SumOf(log, id, Withdrawal)
  }

  /** How one record changes the balance of account `id`. */
  function Effect(r: TxRecord, id: int): real
  {
    if r.accountId != id then 0.0
    else if r.kind == Deposit then r.amount
    else -r.amount
  }

  lemma {:induction false} SumOfAppend(log: seq<TxRecord>, r: TxRecord, id: int, kind: Kind)
    ensures SumOf(log + [r], id, kind)
         == SumOf(log, id, kind) + (if r.accountId == id && r.kind == kind then r.amount else 0.0)
  {
    if log != [] {
      assert (log + [r])[1..] == log[1..] + [r];
      SumOfAppend(log[1..], r, id, kind);
    } else {
      assert (log + [r])[1..] == [];
    }
  }

  /** Appending one record moves the net of its own account by its effect and no other. */
  lemma NetAppend(log: seq<TxRecord>, r: TxRecord, id: int)
    ensures Net(log + [r], id) == Net(log, id) + Effect(r, id)
  {
    SumOfAppend(log, r, id, Deposit);
    SumOfAppend(log, r, id, Withdrawal);
  }

  /** An account no record mentions has net zero. */
  lemma {:induction false} NetUnmentioned(log: seq<TxRecord>, id: int)
    requires forall i :: 0 <= i < |log| ==> log[i].accountId != id
    ensures Net(log, id) == 0.0
  {
    if log != [] {
      NetUnmentioned(log[1..], id);
    }
  }

  // ---------------------------------------------------------------------
  // The history query
  // ---------------------------------------------------------------------

  function EntryOf(r: TxRecord): Entry
  {
    Entry(r.kind, r.amount)
  }

  /** The (type, amount) of every record of account `id`, in log order. */
  function History(log: seq<TxRecord>, id: int): (h: seq<Entry>)
    ensures |h| <= |log|
  {
    if log == [] then []
    else (if log[0].accountId == id then [EntryOf(log[0])] else []) + History(log[1..], id)
  }

  /** An entry is in the history exactly when some record of the account carries it. */
  lemma {:induction false} HistoryMembers(log: seq<TxRecord>, id: int)
    ensures forall e :: (e in History(log, id)
              <==> exists i :: 0 <= i < |log| && log[i].accountId == id && EntryOf(log[i]) == e)
  {
    if log != [] {
      HistoryMembers(log[1..], id);
      forall e
        ensures e in History(log, id)
            <==> exists i :: 0 <= i < |log| && log[i].accountId == id && EntryOf(log[i]) == e
      {
        if e in History(log[1..], id) {
          var i :| 0 <= i < |log[1..]| && log[1..][i].accountId == id && EntryOf(log[1..][i]) == e;
          assert log[i + 1] == log[1..][i];
        }
        if exists i :: 0 <= i < |log| && log[i].accountId == id && EntryOf(log[i]) == e {
          var i :| 0 <= i < |log| && log[i].accountId == id && EntryOf(log[i]) == e;
          if i > 0 {
            assert log[1..][i - 1] == log[i];
          }
        }
      }
    }
  }

  /** A new record shows up at the end of its own account's history and nowhere else. */
  lemma {:induction false} HistoryAppend(log: seq<TxRecord>, r: TxRecord, id: int)
    ensures History(log + [r], id)
         == History(log, id) + (if r.accountId == id then [EntryOf(r)] else [])
  {
    var tail := if r.accountId == id then [EntryOf(r)] else [];
    if log == [] {
      assert (log + [r])[1..] == [];
    } else {
      var head := if log[0].accountId == id then [EntryOf(log[0])] else [];
      assert (log + [r])[0] == log[0];
      assert (log + [r])[1..] == log[1..] + [r];
      HistoryAppend(log[1..], r, id);
      calc {
        History(log + [r], id);
        head + History(log[1..] + [r], id);
        head + (History(log[1..], id) + tail);
        (head + History(log[1..], id)) + tail;
        History(log, id) + tail;
      }
    }
  }

  /** Extending the log only extends each history: old entries keep their place. */
  lemma {:induction false} HistoryPrefix(log: seq<TxRecord>, more: seq<TxRecord>, id: int)
    ensures History(log, id) <= History(log + more, id)
  {
    if log != [] {
      assert (log + more)[1..] == log[1..] + more;
      HistoryPrefix(log[1..], more, id);
    }
  }

  /** Deposits minus withdrawals over a list of history entries. */
  function EntriesNet(h: seq<Entry>): real
  {
    if h == [] then 0.0
    else (if h[0].kind == Deposit then h[0].amount else -h[0].amount) + EntriesNet(h[1..])
  }

  /** The history an account shows adds up to the net of its records. */
  lemma {:induction false} HistoryNet(log: seq<TxRecord>, id: int)
    ensures EntriesNet(History(log, id)) == Net(log, id)
  {
    if log != [] {
      HistoryNet(log[1..], id);
      assert Net(log, id) == Effect(log[0], id) + Net(log[1..], id);
      var h := History(log, id);
      if log[0].accountId == id {
        assert h == [EntryOf(log[0])] + History(log[1..], id);
        assert h[0] == EntryOf(log[0]) && h[1..] == History(log[1..], id);
      } else {
        assert h == History(log[1..], id);
      }
    }
  }

  // ---------------------------------------------------------------------
  // The accounts table
  // ---------------------------------------------------------------------

  /** The owner filter of the listing: an absent (NULL) owner on either side matches nothing. */
  predicate Owns(a: Account, owner: Option<int>)
  {
    owner.Some? && a.userId == owner
  }

  function RowOf(id: int, a: Account): AccountRow
  {
    AccountRow(id, a.accountType, a.balance)
  }

  /**
   * The rows of `owner`'s accounts with ids in [lo, hi), in id order (the
   * order rows were inserted in).
   */
  function Listing(accounts: map<int, Account>, owner: Option<int>, lo: int, hi: int): (rows: seq<AccountRow>)
    decreases hi - lo
    ensures forall k :: 0 <= k < |rows| ==>
              lo <= rows[k].id < hi && rows[k].id in accounts && Owns(accounts[rows[k].id], owner)
              && rows[k] == RowOf(rows[k].id, accounts[rows[k].id])
    ensures forall k, l :: 0 <= k < l < |rows| ==> rows[k].id < rows[l].id
    ensures forall id :: lo <= id < hi && id in accounts && Owns(accounts[id], owner) ==>
              RowOf(id, accounts[id]) in rows
    ensures owner.None? ==> rows == []
  {
    if lo >= hi then []
    else
      var rest := Listing(accounts, owner, lo + 1, hi);
      if lo in accounts && Owns(accounts[lo], owner) then
        var rows := [RowOf(lo, accounts[lo])] + rest;
        assert forall k :: 1 <= k < |rows| ==> rows[k] == rest[k - 1];
        rows
      else rest
  }

  /**
   * The balance update of deposit and withdraw: adds `delta` to the balance of
   * the row with this id, and changes nothing at all when there is no such row.
   */
  function Adjust(accounts: map<int, Account>, id: int, delta: real): (m: map<int, Account>)
    ensures m.Keys == accounts.Keys
    ensures id in accounts ==>
              && m[id].balance == accounts[id].balance + delta
              && m[id].userId == accounts[id].userId
              && m[id].accountType == accounts[id].accountType
    ensures forall k :: k in accounts && k != id ==> m[k] == accounts[k]
  {
    if id in accounts then accounts[id := accounts[id].(balance := accounts[id].balance + delta)]
    else accounts
  }

  /** Every account's balance equals the deposits minus the withdrawals recorded for it. */
  ghost predicate Ledgered(accounts: map<int, Account>, log: seq<TxRecord>)
  {
    forall id :: id in accounts ==> accounts[id].balance == Net(log, id)
  }

  /**
   * Recording a transaction and applying its effect to its account's row
   * (the UPDATE that goes with it) keeps every balance equal to its net.
   */
  lemma LedgerStep(accounts: map<int, Account>, log: seq<TxRecord>, r: TxRecord)
    requires Ledgered(accounts, log)
    ensures Ledgered(Adjust(accounts, r.accountId, Effect(r, r.accountId)), log + [r])
  {
    var m := Adjust(accounts, r.accountId, Effect(r, r.accountId));
    forall id | id in m
      ensures m[id].balance == Net(log + [r], id)
    {
      NetAppend(log, r, id);
    }
  }

  /** Taking an amount out of an account and putting it back leaves the table as it was. */
  lemma SelfTransferRestores(accounts: map<int, Account>, id: int, amount: real)
    ensures Adjust(Adjust(accounts, id, -amount), id, amount) == accounts
  {
  }

  // ---------------------------------------------------------------------
  // The users table
  // ---------------------------------------------------------------------

  /** The UNIQUE constraint on `username`. */
  ghost predicate UniqueUsernames(users: seq<User>)
  {
    forall i, j :: 0 <= i < j < |users| ==> users[i].username != users[j].username
  }

  /** Whether an INSERT of `username` would violate the UNIQUE constraint. */
  predicate UsernameTaken(users: seq<User>, username: string)
  {
    exists i :: 0 <= i < |users| && users[i].username == username
  }

  predicate Matches(u: User, username: string, password: string)
  {
    u.username == username && u.password == password
  }

  /**
   * The login lookup: the id of the first user whose username and password
   * both match, if any.
   */
  function FindUser(users: seq<User>, username: string, password: string): (r: Option<int>)
    ensures r.None? <==> forall i :: 0 <= i < |users| ==> !Matches(users[i], username, password)
    ensures r.Some? ==> exists i :: 0 <= i < |users| && Matches(users[i], username, password)
                                    && users[i].id == r.value
                                    && forall j :: 0 <= j < i ==> !Matches(users[j], username, password)
  {
    if users == [] then None
    else if Matches(users[0], username, password) then Some(users[0].id)
    else
      var r := FindUser(users[1..], username, password);
      assert forall i :: 1 <= i < |users| ==> users[1..][i - 1] == users[i];
      r
  }

  /** With unique usernames, a matching login finds exactly that user. */
  lemma LoginFindsTheUser(users: seq<User>, i: int)
    requires UniqueUsernames(users)
    requires 0 <= i < |users|
    ensures FindUser(users, users[i].username, users[i].password) == Some(users[i].id)
  {
  }
}
