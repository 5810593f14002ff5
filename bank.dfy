/**
 * The bank's two service classes, `UserAccount` (registration and the login
 * session) and `BankAccount` (accounts and money movement of one user), over
 * the one database they share. Each SQL statement becomes an update of a
 * field of `Store`; the queries are the functions of module Ledger.
 */
module Bank {
  import opened Ledger

  /** The database: the three tables and their AUTOINCREMENT counters. */
  class Store {
    var users: seq<User>
    var accounts: map<int, Account>
    var transactions: seq<TxRecord>
    var nextUserId: int
    var nextAccountId: int

    /** What the schema guarantees: unique usernames, and every key below its counter. */
    ghost predicate Valid()
      reads this
    {
      && 1 <= nextUserId
      && 1 <= nextAccountId
      && UniqueUsernames(users)
      && (forall i :: 0 <= i < |users| ==> 1 <= users[i].id < nextUserId)
      && (forall id :: id in accounts ==> 1 <= id < nextAccountId)
    }

    /**
     * The ledger invariant: each balance is the net of its records, and no
     * record names an account id that has not been handed out yet (a later
     * account with that id would inherit it).
     */
    ghost predicate Balanced()
      reads this
    {
      && Ledgered(accounts, transactions)
      && forall i :: 0 <= i < |transactions| ==> transactions[i].accountId < nextAccountId
    }

    ghost predicate NonNegative()
      reads this
    {
      forall id :: id in accounts ==> accounts[id].balance >= 0.0
    }

    /** A freshly created database: empty tables, counters at 1. */
    constructor ()
      ensures Valid() && Balanced() && NonNegative()
      ensures users == [] && accounts == map[] && transactions == []
      ensures nextUserId == 1 && nextAccountId == 1
    {
      users, accounts, transactions := [], map[], [];
      nextUserId, nextAccountId := 1, 1;
    }
  }

  /** Registration and the login session. */
  class UserAccount {
    const store: Store
    var currentUserId: Option<int>

    /** The session, when there is one, belongs to a registered user. */
    ghost predicate Valid()
      reads this, store
    {
      && store.Valid()
      && (currentUserId.Some? ==>
            exists i :: 0 <= i < |store.users| && store.users[i].id == currentUserId.value)
    }

    constructor (store: Store)
      requires store.Valid()
      ensures Valid()
      ensures this.store == store && currentUserId == None
    {
      this.store := store;
      currentUserId := None;
    }

    /** Inserts a user; a taken username violates the UNIQUE constraint and nothing changes. */
    method CreateAccount(username: string, password: string) returns (ok: bool)
      requires Valid()
      modifies store
      ensures Valid()
      ensures ok <==> !UsernameTaken(old(store.users), username)
      ensures ok ==> && store.users == old(store.users) + [User(old(store.nextUserId), username, password)]
                     && store.nextUserId == old(store.nextUserId) + 1
      ensures !ok ==> store.users == old(store.users) && store.nextUserId == old(store.nextUserId)
      ensures store.accounts == old(store.accounts) && store.transactions == old(store.transactions)
      ensures store.nextAccountId == old(store.nextAccountId)
    {
      if UsernameTaken(store.users, username) {
        return false;
      }
      store.users := store.users + [User(store.nextUserId, username, password)];
      store.nextUserId := store.nextUserId + 1;
      ok := true;
      if currentUserId.Some? {
        ghost var i :| 0 <= i < |old(store.users)| && old(store.users)[i].id == currentUserId.value;
        assert store.users[i] == old(store.users)[i];
      }
    }

    /** Opens a session for the user with exactly this username and password, if there is one. */
    method Login(username: string, password: string) returns (ok: bool)
      requires Valid()
      modifies this
      ensures Valid()
      ensures ok <==> exists i :: 0 <= i < |store.users| && Matches(store.users[i], username, password)
      ensures ok ==> currentUserId.Some?
                     && exists i :: 0 <= i < |store.users| && Matches(store.users[i], username, password)
                                    && store.users[i].id == currentUserId.value
      ensures !ok ==> currentUserId == old(currentUserId)
    {
      var user := FindUser(store.users, username, password);
      if user.Some? {
        currentUserId := user;
        return true;
      }
      return false;
    }

    method Logout()
      requires Valid()
      modifies this
      ensures Valid() && currentUserId == None
    {
      currentUserId := None;
    }

    function GetCurrentUserId(): (r: Option<int>)
      reads this, store
      requires Valid()
      ensures r.Some? ==> exists i :: 0 <= i < |store.users| && store.users[i].id == r.value
    {
      currentUserId
    }
  }

  /** The accounts of one (possibly absent) user, and money movement on any account id. */
  class BankAccount {
    const store: Store
    const userId: Option<int>

    constructor (store: Store, userId: Option<int>)
      ensures this.store == store && this.userId == userId
    {
      this.store := store;
      this.userId := userId;
    }

    /** Inserts an account for this user under the next id, with balance 0. */
    method CreateAccount(accountType: string)
      requires store.Valid()
      modifies store
      ensures store.Valid()
      ensures old(store.nextAccountId) !in old(store.accounts)
      ensures store.accounts == old(store.accounts)[old(store.nextAccountId) := Account(userId, accountType, 0.0)]
      ensures store.nextAccountId == old(store.nextAccountId) + 1
      ensures store.users == old(store.users) && store.nextUserId == old(store.nextUserId)
      ensures store.transactions == old(store.transactions)
      ensures old(store.Balanced()) ==> store.Balanced()
      ensures old(store.NonNegative()) ==> store.NonNegative()
    {
      var id := store.nextAccountId;
      if store.Balanced() {
        NetUnmentioned(store.transactions, id);
      }
      store.accounts := store.accounts[id := Account(userId, accountType, 0.0)];
      store.nextAccountId := id + 1;
    }

    /** Exactly this user's accounts, as (id, type, balance) rows in id order. */
    function GetAccounts(): (rows: seq<AccountRow>)
      reads store
      requires store.Valid()
      ensures forall k :: 0 <= k < |rows| ==>
                rows[k].id in store.accounts && Owns(store.accounts[rows[k].id], userId)
                && rows[k] == RowOf(rows[k].id, store.accounts[rows[k].id])
      ensures forall id :: id in store.accounts && Owns(store.accounts[id], userId) ==>
                RowOf(id, store.accounts[id]) in rows
      ensures forall k, l :: 0 <= k < l < |rows| ==> rows[k].id < rows[l].id
      ensures userId.None? ==> rows == []
    {
      Listing(store.accounts, userId, 1, store.nextAccountId)
    }

    /** The balance of an account; an id with no row is an error. */
    function GetAccount(accountId: int): (r: Result<real>)
      reads store
      ensures r.Ok? <==> accountId in store.accounts
      ensures r.Ok? ==> r.value == store.accounts[accountId].balance
    {
      if accountId in store.accounts then Ok(store.accounts[accountId].balance)
      else Err(NoSuchAccount)
    }

    /**
     * Adds `amount` to the account's balance (no row changes when there is no
     * such account) and records a Deposit either way. The amount is not checked.
     */
    method Deposit(accountId: int, amount: real)
      requires store.Valid()
      modifies store
      ensures store.Valid()
      ensures store.accounts == Adjust(old(store.accounts), accountId, amount)
      ensures store.transactions == old(store.transactions) + [TxRecord(accountId, Kind.Deposit, amount)]
      ensures store.users == old(store.users) && store.nextUserId == old(store.nextUserId)
      ensures store.nextAccountId == old(store.nextAccountId)
      ensures old(store.Balanced()) && accountId < store.nextAccountId ==> store.Balanced()
      ensures old(store.NonNegative()) && amount >= 0.0 ==> store.NonNegative()
    {
      ghost var accounts0, log0 := store.accounts, store.transactions;
      store.accounts := Adjust(store.accounts, accountId, amount);
      RecordTransaction(accountId, Kind.Deposit, amount);
      if old(store.Balanced()) {
        LedgerStep(accounts0, log0, TxRecord(accountId, Kind.Deposit, amount));
      }
    }

    /**
     * Reads the balance, refuses (false, nothing changes) when `amount`
     * exceeds it, and otherwise subtracts it and records a Withdrawal. A
     * missing account fails before anything changes.
     */
    method Withdraw(accountId: int, amount: real) returns (r: Result<bool>)
      requires store.Valid()
      modifies store
      ensures store.Valid()
      ensures r == if accountId in old(store.accounts)
                   then Ok(amount <= old(store.accounts[accountId].balance))
                   else Err(NoSuchAccount)
      ensures r != Ok(true) ==> unchanged(store)
      ensures r == Ok(true) ==>
                && store.accounts == Adjust(old(store.accounts), accountId, -amount)
                && store.accounts[accountId].balance >= 0.0
                && store.transactions == old(store.transactions) + [TxRecord(accountId, Withdrawal, amount)]
                && store.users == old(store.users) && store.nextUserId == old(store.nextUserId)
                && store.nextAccountId == old(store.nextAccountId)
      ensures old(store.Balanced()) ==> store.Balanced()
      ensures old(store.NonNegative()) ==> store.NonNegative()
    {
      var balance := GetAccount(accountId);
      if balance.Err? {
        return Err(NoSuchAccount);
      }
      if amount > balance.value {
        return Ok(false);
      }
      ghost var accounts0, log0 := store.accounts, store.transactions;
      store.accounts := Adjust(store.accounts, accountId, -amount);
      RecordTransaction(accountId, Withdrawal, amount);
      if old(store.Balanced()) {
        LedgerStep(accounts0, log0, TxRecord(accountId, Withdrawal, amount));
      }
      return Ok(true);
    }

    /**
     * A withdrawal from `fromId` followed, when it succeeds, by a deposit
     * into `toId`. Neither id is checked against the other or against the
     * owner, and a missing `toId` still gets its Deposit record.
     */
    method Transfer(fromId: int, toId: int, amount: real) returns (r: Result<bool>)
      requires store.Valid()
      modifies store
      ensures store.Valid()
      ensures r == if fromId in old(store.accounts)
                   then Ok(amount <= old(store.accounts[fromId].balance))
                   else Err(NoSuchAccount)
      ensures r != Ok(true) ==> unchanged(store)
      ensures r == Ok(true) ==>
                && store.accounts == Adjust(Adjust(old(store.accounts), fromId, -amount), toId, amount)
                && store.transactions == old(store.transactions)
                     + [TxRecord(fromId, Withdrawal, amount), TxRecord(toId, Kind.Deposit, amount)]
                && store.users == old(store.users) && store.nextUserId == old(store.nextUserId)
                && store.nextAccountId == old(store.nextAccountId)
      ensures r == Ok(true) && fromId != toId ==>
                && store.accounts[fromId].balance == old(store.accounts[fromId].balance) - amount
                && (toId in old(store.accounts) ==>
                      store.accounts[toId].balance == old(store.accounts[toId].balance) + amount)
      ensures r == Ok(true) && fromId == toId ==> store.accounts == old(store.accounts)
      ensures old(store.Balanced()) && toId < old(store.nextAccountId) ==> store.Balanced()
      ensures old(store.NonNegative()) && amount >= 0.0 ==> store.NonNegative()
    {
      r := Withdraw(fromId, amount);
      if r == Ok(true) {
        Deposit(toId, amount);
        if fromId == toId {
          SelfTransferRestores(old(store.accounts), fromId, amount);
        }
      }
    }

    /** Appends one row to `transactions`; nothing else changes. */
    method RecordTransaction(accountId: int, kind: Kind, amount: real)
      requires store.Valid()
      modifies store
      ensures store.Valid()
      ensures store.transactions == old(store.transactions) + [TxRecord(accountId, kind, amount)]
      ensures store.accounts == old(store.accounts)
      ensures store.users == old(store.users) && store.nextUserId == old(store.nextUserId)
      ensures store.nextAccountId == old(store.nextAccountId)
    {
      store.transactions := store.transactions + [TxRecord(accountId, kind, amount)];
    }

    /**
     * The (type, amount) of every record of the account, in the order they
     * were recorded; empty for an account with no activity. On a balanced
     * store the entries add up to the account's balance.
     */
    function GetTransactionHistory(accountId: int): (h: seq<Entry>)
      reads store
      ensures h == History(store.transactions, accountId)
      ensures forall e :: (e in h <==>
                exists i :: 0 <= i < |store.transactions| && store.transactions[i].accountId == accountId
                            && EntryOf(store.transactions[i]) == e)
      ensures store.Balanced() && accountId in store.accounts ==>
                EntriesNet(h) == store.accounts[accountId].balance
    {
      HistoryMembers(store.transactions, accountId);
      HistoryNet(store.transactions, accountId);
      History(store.transactions, accountId)
    }
  }

  // What a caller can rely on, derived from the contracts above alone.

  method SessionScenario()
  {
    var store := new Store();
    var session := new UserAccount(store);

    var ok := session.CreateAccount("alice", "secret");
    assert ok;
    assert store.users[0].username == "alice";
    ok := session.CreateAccount("alice", "other");
    assert !ok;
    ok := session.Login("alice", "wrong");
    assert !ok && session.GetCurrentUserId() == None;
    ok := session.Login("alice", "secret");
    assert ok && session.GetCurrentUserId() == Some(1);
    session.Logout();
    assert session.GetCurrentUserId() == None;
  }

  method ListingScenario()
  {
    var store := new Store();
    var bank := new BankAccount(store, Some(1));
    bank.CreateAccount("Checking");
    bank.CreateAccount("Savings");
    assert store.accounts[1] == Account(Some(1), "Checking", 0.0);
    assert store.accounts[2] == Account(Some(1), "Savings", 0.0);
    assert AccountRow(1, "Checking", 0.0) in bank.GetAccounts();
    assert AccountRow(2, "Savings", 0.0) in bank.GetAccounts();
    // A listing without a logged-in user has a NULL owner, which no row matches.
    var nobody := new BankAccount(store, None);
    assert nobody.GetAccounts() == [];
  }

  method DepositWithdrawScenario()
  {
    var store := new Store();
    var bank := new BankAccount(store, Some(1));
    bank.CreateAccount("Checking");

    // A new account, then a deposit of 50.
    bank.Deposit(1, 50.0);
    assert bank.GetAccount(1) == Ok(50.0);
    assert bank.GetTransactionHistory(1) == [Entry(Deposit, 50.0)];

    // A withdrawal of 75 from 50 is refused and changes nothing.
    var r := bank.Withdraw(1, 75.0);
    assert r == Ok(false) && bank.GetAccount(1) == Ok(50.0) && |store.transactions| == 1;

    // An unknown account fails before anything changes.
    r := bank.Withdraw(2, 1.0);
    assert r == Err(NoSuchAccount) && |store.transactions| == 1;
  }

  method TransferScenario()
  {
    var store := new Store();
    var bank := new BankAccount(store, Some(1));
    bank.CreateAccount("Checking");
    bank.CreateAccount("Savings");
    bank.Deposit(1, 100.0);

    // A transfer of 40 from 100 to 0.
    var r := bank.Transfer(1, 2, 40.0);
    assert r == Ok(true) && bank.GetAccount(1) == Ok(60.0) && bank.GetAccount(2) == Ok(40.0);

    // A transfer of a whole balance to the same account: two records, no change.
    r := bank.Transfer(2, 2, 40.0);
    assert r == Ok(true) && bank.GetAccount(2) == Ok(40.0) && |store.transactions| == 5;
    assert store.Balanced() && store.NonNegative();
  }

  method NegativeTransferScenario()
  {
    var store := new Store();
    var bank := new BankAccount(store, Some(1));
    bank.CreateAccount("Checking");
    bank.CreateAccount("Savings");

    // The amount is never checked: a negative transfer moves money the other way
    // and can leave the target below zero.
    var r := bank.Transfer(1, 2, -50.0);
    assert r == Ok(true) && bank.GetAccount(1) == Ok(50.0) && bank.GetAccount(2) == Ok(-50.0);
    assert store.Balanced();
  }
}
