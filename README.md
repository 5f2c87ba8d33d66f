# Transaction-stack registry of Tortoise ORM, in Dafny

This project models the part of Tortoise ORM that picks which database client a
piece of code should use: the transaction-stack registry in
`tortoise/transactions.py`.

A module-level `defaultdict` (`current_transaction_map`) maps a string key to a
deque of clients, used as a LIFO stack. The key is the connection name followed
by the decimal text of `id(asyncio.current_task())`. There are three operations:

- `push_transaction` appends a client to the stack under the key.
- `pop_transaction` removes the top client. It deletes the key once the stack is empty.
- `get_connection` resolves a name. It first infers the name when none is given,
  or raises `ParamsError`. It then returns the base connection from
  `Tortoise._connections` when no event loop is running. When a loop is running,
  it returns the top of the current task's stack if there is one, and the base
  connection otherwise.

Files:

- `decimal.dfy` (module `Decimal`): `str()` of a non-negative integer and its inverse.
- `transactions.dfy` (module `Transactions`): the key, the table and its invariant.
  It also holds `get_connection` as the function `GetConnection`, and the class
  `TransactionMap` whose methods `PushTransaction` and `PopTransaction` update the
  table in place.
- `traces.dfy` (module `TransactionTraces`): sequences of push/pop calls as nested
  transaction scopes make them. It proves that a well-bracketed sequence restores
  the table and that the innermost scope's client is the one resolved.

The environment is passed in as plain values:

- the registered connections (`Tortoise._connections`) as a `map<string, Handle>`;
- whether the event loop is running as a `bool`;
- the current task's `id()` as a `nat`.

Exceptions are values. `ParamsError` carries the set of registered names.
`KeyError` is the lookup of an unregistered name. `IndexError` is `deque.pop()`
on an empty stack. `RuntimeError` is `asyncio.current_task()` called by push or
pop when no event loop is running.

Three functions are plain definitions of Python primitives:

- `Stack` is the defaultdict lookup, which gives an empty stack for an absent key.
- `Top` is the truth test on `current_transaction_map[key]` followed by `[-1]`.
- `BaseConnection` is `Tortoise._connections[name]`, which gives `KeyError` when
  the name is absent.

What the code does with them is stated by `Pushed`, `Popped` and `GetConnection`.

Some behaviours of the code a reader might not expect:

- With no name given, the code fails when the number of connections is not
  exactly one. That includes zero connections, not only "several".
- The empty string counts as "no name" (`not connection_name`).
- The key is a plain string concatenation, not a collision-free pair:
  `"a" + "12"` equals `"a1" + "2"` (`KeyCollision`, `PushVisibleThroughCollision`).
  Isolation therefore holds per key, and between tasks that use the same name
  (`KeyDistinctTasks`, `PushInvisibleToOtherTask`).
- When a loop is running and the key's stack is non-empty, the top is returned
  even if the name is not registered. `KeyError` arises only on the
  base-connection paths.
- A pop on a missing key raises `IndexError` only after the default factory has
  inserted an empty stack. This breaks the no-empty-stack invariant
  (`UnmatchedPopRaises`, `PushThenPopAfterFailedPop`).

## Model

| member | source | states |
|---|---|---|
| `Decimal.NatToString` | tortoise/transactions.py:33 | the text of the task id is non-empty, all decimal digits, has no leading zero unless the id is 0, and has one digit exactly when the id is below 10 |
| `Decimal.ParseNatToString` | tortoise/transactions.py:33 | reading the decimal text of the task id back gives the id (round trip) |
| `Decimal.NatToStringInjective` | tortoise/transactions.py:33 | distinct task ids have distinct decimal texts |
| `Transactions.Key` | tortoise/transactions.py:33 | the key starts with the connection name, and the rest of it is the decimal text that reads back as the task id |
| `Transactions.KeyDistinctTasks` | tortoise/transactions.py:32-33 | two different tasks using the same connection name get different keys |
| `Transactions.KeyDistinctNames` | tortoise/transactions.py:33 | for one task, equal keys mean equal connection names |
| `Transactions.KeyCollision` | tortoise/transactions.py:33 | name "a" with task 12 and name "a1" with task 2 share the key "a12" |
| `Transactions.Pushed` | tortoise/transactions.py:40-42 | after an append the key is present and its stack is the old one plus the new client, which is now on top; other keys are unchanged and no-empty-stack is preserved |
| `Transactions.PopRaises` | tortoise/transactions.py:47 | `deque.pop()` raises exactly when the key is absent or its stack is empty; on a well-formed table, exactly when the key is absent |
| `Transactions.Popped` | tortoise/transactions.py:45-51 | a pop removes the top and deletes the key exactly when one client was left; a failed pop leaves an empty stack under the key; other keys are unchanged; a successful pop preserves no-empty-stack |
| `Transactions.PushThenPopRestores` | tortoise/transactions.py:40-51 | on a table with no empty stack, a push then a pop on the same key does not raise and restores the table exactly, including the key being absent if it was absent |
| `Transactions.PushThenPopAfterFailedPop` | tortoise/transactions.py:42-51 | after a pop that raised, a push then a pop deletes the key, so the table is not restored |
| `Transactions.ResolveName` | tortoise/transactions.py:20-27 | resolution fails exactly when no name is given and there is not exactly one connection, and the error lists the registered names; with no name it yields the only registered name; a given name is kept |
| `Transactions.GetConnection` | tortoise/transactions.py:17-37 | `ParamsError` arises exactly when no name is given and there is not exactly one connection, and it lists the registered names; `KeyError` names only an unregistered name, and it is the name resolution gave; neither `IndexError` nor `RuntimeError` arises; outside a loop the result is a registered client |
| `Transactions.GetConnectionAmbiguous` | tortoise/transactions.py:20-24 | with no name and zero or several connections, the result is `ParamsError` with the registered names, whatever the loop state or table |
| `Transactions.GetConnectionSoleName` | tortoise/transactions.py:26-27 | with no name and exactly one connection, the result is the same as giving that connection's name |
| `Transactions.GetConnectionOutsideLoop` | tortoise/transactions.py:29-30 | whenever the name resolves (given, or the sole registered name), without a running loop the result is the base connection for the resolved name, the same for every table and every task |
| `Transactions.GetConnectionInLoop` | tortoise/transactions.py:33-37 | whenever the name resolves (given, or the sole registered name), with a running loop the result is the last client on the stack under resolved name + str(task) if that stack exists and is non-empty, and the base connection for the resolved name otherwise |
| `Transactions.GetAfterPush` | tortoise/transactions.py:33-42 | after a push, the same task resolving the same non-empty name gets the client just pushed |
| `Transactions.GetAfterPushEmptyName` | tortoise/transactions.py:26-41 | a push under the empty name is not seen by `get_connection("")`, which resolves to the only registered name instead |
| `Transactions.PushInvisibleElsewhere` | tortoise/transactions.py:33-42 | a push changes no lookup whose key differs from the pushed key |
| `Transactions.PushInvisibleToOtherTask` | tortoise/transactions.py:32-42 | a push by one task is not seen by another task resolving the same name |
| `Transactions.PushVisibleThroughCollision` | tortoise/transactions.py:33-42 | a push by task 12 for "a" is seen by task 2 resolving "a1" |
| `Transactions.TransactionMap.constructor` | tortoise/transactions.py:8 | the table starts empty and satisfies no-empty-stack |
| `Transactions.TransactionMap.PushTransaction` | tortoise/transactions.py:40-42 | without a running loop it reports `RuntimeError` and leaves the table unchanged; otherwise the new table is the old one with the client appended under the key, and the same task resolving the same non-empty name then gets that client, for any registered connections; no-empty-stack is kept |
| `Transactions.TransactionMap.PopTransaction` | tortoise/transactions.py:45-51 | without a running loop it reports `RuntimeError` and leaves the table unchanged; otherwise it reports `IndexError` exactly when the key's stack is missing or empty (on a well-formed table, exactly when the key is absent), the new table is `Popped` of the old one, and a successful pop keeps no-empty-stack |
| `TransactionTraces.Step` | tortoise/transactions.py:40-51 | one call keeps the no-empty-stack invariant whenever it succeeds; on a well-formed table a pop fails exactly when its key is absent, and a push never fails |
| `Transactions.InterleavedPushPopRestores` | tortoise/transactions.py:40-51 | on a well-formed table, pushes and pops on two different keys commute: push k1, push k2, pop k1 leaves the table as if only k2 had been pushed, and the final pop k2 restores it exactly |
| `TransactionTraces.InterleavedScopesRestore` | tortoise/transactions.py:40-51 | two tasks whose calls interleave (push A, push B, pop A, pop B) under different keys succeed and leave a well-formed table exactly as it was |
| `TransactionTraces.ScopeRestores` | tortoise/transactions.py:40-51 | the push/pop calls of a scope, with its nested scopes at any depth, succeed and leave a table with no empty stack exactly as it was, so no key is leaked |
| `TransactionTraces.ScopesRestore` | tortoise/transactions.py:40-51 | a series of sibling scopes leaves a table with no empty stack unchanged |
| `TransactionTraces.ScopeInnermostResolved` | tortoise/transactions.py:33-42 | after a scope's push and its whole body, the same task resolving the same name gets that scope's client |
| `TransactionTraces.ScopeResolutionRoundTrip` | tortoise/transactions.py:29-51 | after a complete scope, every `get_connection` call gives what it gave before the scope |
| `TransactionTraces.UnmatchedPopRaises` | tortoise/transactions.py:45-51 | a pop with no matching push raises `IndexError` and leaves an empty stack under the key, which breaks no-empty-stack |

## Left out

- `in_transaction` and `atomic` (tortoise/transactions.py:54-87) are left out. They defer to `connection._in_transaction()` in the backend client, and that client is not part of this model. It is the code that calls push and pop and runs begin/commit/rollback. The nested scopes in `traces.dfy` model only the push/pop calls such scopes make.
- The asyncio event loop and `asyncio.current_task()` are runtime state. They become the inputs `loopRunning` and `task`. Because of this, `GetConnection` never yields `RuntimeError`. In the code, `asyncio.get_event_loop()` (tortoise/transactions.py:29) raises `RuntimeError` in a thread that has no current event loop.
- `id()` is modelled as an opaque natural number. Reuse of an address by a later task cannot be expressed in a sequential model.
- `Tortoise._connections` is a global in the source. Here it is a `map<string, Handle>` parameter.
- `ParamsError`'s message is modelled only as the set of registered names. The wording and the dict's insertion order of the listed names are left out.
- Dict insertion order is not modelled for `list(...keys())[0]`. It is used only when exactly one connection exists, so its choice is unique.
- Concurrency and thread safety of the shared table are left out. Each call is one atomic step. Interleaving of two tasks' calls is covered only by `InterleavedScopesRestore`, for one push and one pop per task.
- TransactionTraces.Step: models only calls made while an event loop runs, which is where transaction scopes make them. The `RuntimeError` path for calls without a loop is modelled in `PushTransaction` and `PopTransaction` only.
- `PushTransaction` and `PopTransaction` return `Fail(RuntimeError)` instead of raising when no loop runs. `PopTransaction` returns `Fail(IndexError)` instead of raising. The state it leaves behind is the state the exception leaves behind.
