# Bank-System ledger in Dafny

This project models the non-GUI core of `bank.py`. That core is a small bank with three tables in one database:

- `users`: id, a unique username and a password.
- `accounts`: id, owner id, a free-form type and a balance that starts at 0.
- `transactions`: account id, type (`Deposit` or `Withdrawal`), amount and date.

Two service classes work on these tables:

- `UserAccount` handles registration and a login session, which is the current user id.
- `BankAccount` is bound to one user id. It creates and lists that user's accounts, reads a balance, and deposits, withdraws and transfers money on any account id. Every balance change gets a transaction record.

The model has two modules:

- `Ledger` (`ledger.dfy`) holds the rows as datatypes and the queries as functions over the table values. The lemmas about them are here too.
- `Bank` (`bank.dfy`) holds the classes. `Store` is the shared database. Its fields are the three tables and the two AUTOINCREMENT counters. `UserAccount` and `BankAccount` hold a reference to the store. Their methods update its fields in place, as the SQL statements do. Their contracts state the complete new state.

The main invariant is `Store.Balanced`. It says two things:

- Every account's balance equals its recorded deposits minus its recorded withdrawals.
- No record names an account id that has not been handed out yet.

Each mutating method states when it keeps this invariant, and when it keeps `Store.NonNegative`. The scenario methods at the end of `bank.dfy` derive concrete runs from the contracts alone. The runs cover:

- registration and login;
- the account listing;
- deposit, refused withdrawal and unknown account;
- transfer and self-transfer;
- negative transfer.

The model keeps these behaviours of the code:

- No amount is checked for sign. A withdrawal or transfer of a negative amount goes through whenever the balance is at least the amount, and then moves money the other way. A transfer of −50 leaves a target that held 0 at −50.
- `get_account` on an id with no row fails. The model returns `Err(NoSuchAccount)`. `withdraw` and `transfer` fail the same way, with no state change.
- `deposit` to an id with no row updates nothing, but it still appends a `Deposit` record. A transfer to such an id removes the money from the source and credits nobody.
- Such a record can name an id the counter has not reached yet. The account that later gets that id then shows a deposit in its history that its balance does not have. That is why `Deposit` and `Transfer` keep `Balanced` only when the target id is below the counter.
- `transfer(a, a, x)` is allowed. When the withdrawal succeeds, it leaves the balance unchanged and appends two records.
- A `BankAccount` built without a logged-in user has a NULL owner. The accounts it creates have a NULL owner, and its listing is always empty, because SQL equality never matches NULL.
- Ownership is never checked on deposit, withdraw or transfer.

## Model

| member | source | states |
|---|---|---|
| `Bank.Store.constructor` | bank.py:10-31 | A new database has empty users, accounts and transactions tables, both id counters at 1, and satisfies the schema invariant, the ledger invariant and non-negativity |
| `Bank.UserAccount.constructor` | bank.py:37-38 | A new session has no current user |
| `Bank.UserAccount.CreateAccount` | bank.py:40-46 | Returns false and leaves users unchanged exactly when the username is taken. Otherwise it appends one user with the next id and returns true. Usernames stay unique, no other table changes, and an open session stays valid |
| `Bank.UserAccount.Login` | bank.py:48-54 | Returns true exactly when some user has this exact username and password, and then sets the current user to that user's id. Otherwise the current user is unchanged |
| `Bank.UserAccount.Logout` | bank.py:56-57 | The current user becomes None |
| `Bank.UserAccount.GetCurrentUserId` | bank.py:59-60 | The id returned, if any, is the id of a registered user |
| `Bank.BankAccount.constructor` | bank.py:64-65 | The service is bound to the given store and user id. The id may be absent |
| `Bank.BankAccount.CreateAccount` | bank.py:67-69 | Adds exactly one account under the next, previously unused id, with owner user_id, the given type and balance 0. All other accounts and tables are unchanged, and the ledger invariant and non-negativity are kept |
| `Bank.BankAccount.GetAccounts` | bank.py:71-73 | Returns exactly the accounts owned by user_id as (id, type, current balance) rows, each once, in increasing id order. Returns nothing when user_id is NULL |
| `Bank.BankAccount.GetAccount` | bank.py:75-77 | Fails exactly when there is no account with this id. Otherwise returns its current balance |
| `Bank.BankAccount.Deposit` | bank.py:79-82 | Raises that account's balance by the amount and leaves every other account as it was; a missing id changes no account. Appends exactly one record (id, Deposit, amount). Keeps the ledger invariant when the id is below the account counter, and non-negativity when the amount is ≥ 0 |
| `Bank.BankAccount.Withdraw` | bank.py:84-91 | Fails with no change on a missing account. Returns false exactly when the amount exceeds the balance, and then nothing changes. On true, lowers only that balance by the amount, the new balance is ≥ 0, and exactly one record (id, Withdrawal, amount) is appended. Always keeps the ledger invariant and non-negativity |
| `Bank.BankAccount.Transfer` | bank.py:93-97 | Fails or returns false, with no change at all, exactly as the withdrawal from the source would. On success the source loses the amount and an existing target gains it. The log gains (from, Withdrawal, x) then (to, Deposit, x). A self-transfer leaves the accounts unchanged |
| `Bank.BankAccount.RecordTransaction` | bank.py:99-102 | Appends exactly one record with the given account id, type and amount. Nothing else changes |
| `Bank.BankAccount.GetTransactionHistory` | bank.py:104-106 | The result is `Ledger.History` of the log: this account's entries, each record once, in log order. An entry is in the result exactly when some record of this account carries it. On a balanced store, the entries of an existing account add up to its balance |
| `Ledger.History` | bank.py:104-106 | The history query, a filter of the log that keeps log order. It is never longer than the log |
| `Ledger.HistoryMembers` | bank.py:104-106 | Both directions: an entry is in an account's history if and only if some record of that account carries it |
| `Ledger.HistoryAppend` | bank.py:99-106 | A new record appears at the end of its own account's history and in no other account's history |
| `Ledger.HistoryPrefix` | bank.py:99-106 | Appending records never removes or reorders earlier history entries. The old history is a prefix of the new one |
| `Ledger.HistoryNet` | bank.py:79-106 | The deposits minus withdrawals shown in an account's history equal the net of its records |
| `Ledger.SumOfAppend` | bank.py:99-102 | Appending a record adds its amount to the sum for its own account and kind, and nothing to any other sum |
| `Ledger.NetAppend` | bank.py:79-91 | Appending a record changes the net of its own account by +amount for a deposit or −amount for a withdrawal. It does not change any other account's net |
| `Ledger.NetUnmentioned` | bank.py:67-68 | An account that no record mentions has net 0, which matches the 0 balance of a new account |
| `Ledger.LedgerStep` | bank.py:79-91 | Suppose every balance equals its net. Then applying a record's effect to its account and appending the record keeps that true |
| `Ledger.Adjust` | bank.py:79-91 | The balance UPDATE changes only the balance of the row with that id. A missing id changes nothing. The set of ids is unchanged |
| `Ledger.SelfTransferRestores` | bank.py:93-97 | Withdrawing an amount from an account and depositing it back into the same account restores the accounts table exactly |
| `Ledger.Listing` | bank.py:71-73 | Within an id range, lists each account of the owner exactly once, with its type and balance, in increasing id order, and lists nothing else. A NULL owner matches nothing |
| `Ledger.FindUser` | bank.py:48-50 | Returns nothing exactly when no user matches both username and password. Otherwise returns the id of the first matching user |
| `Ledger.LoginFindsTheUser` | bank.py:48-52 | With unique usernames, logging in with a user's own credentials finds exactly that user's id |

## Left out

- The tkinter GUI, `BankApp` (bank.py:109-260), is presentation only and is not modelled. Its checks are not modelled either: `if amount:`, and the rule that a transfer target must be another account of the same user. At this layer any account ids and amounts are accepted.
- The SQLite connection, the cursor and each `commit` are not modelled: the tables are in-memory state. A crash between the two commits of `transfer` cannot happen in a sequential model.
- `REAL` balances and amounts are modelled as exact `real` numbers, so float rounding is not modelled. The two-decimal formatting is display only.
- The `date` column filled by `datetime('now')` and the transaction table's own id are left out. The clock is outside the model. A record's position in the log stands for its id and gives the same order.
- The SELECT statements have no ORDER BY. The model returns rows in id order, the order in which SQLite scans a rowid table.
- `Bank.UserAccount.CreateAccount`: the model does not cover a NULL username or password, which makes the INSERT fail with an integrity error. Strings in the model are never NULL.
- Password storage is plaintext. Only the exact equality match used by `login` is modelled.
- `Bank.BankAccount.RecordTransaction`: the source accepts any string as the transaction type; the model allows only `Deposit` and `Withdrawal`, the only two values its callers (deposit and withdraw) ever pass.
