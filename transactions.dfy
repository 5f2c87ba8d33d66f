/**
 * The transaction-stack registry of tortoise/transactions.py.
 *
 * A process-wide table maps a string key to a LIFO stack of connection
 * handles; the key is the connection name followed by the decimal text of the
 * current task's `id()`. `push_transaction` and `pop_transaction` update the
 * table in place (class `TransactionMap`); `get_connection` only reads it and
 * is the function `GetConnection`, whose environment (the registered
 * connections, whether an event loop is running, the identity of the current
 * task) is passed in as plain values.
 */
module Transactions {
  import Decimal

  /** A database client object, told apart by its identity. */
  datatype Handle = Client(id: nat)

  /** The exceptions these operations can raise. */
  datatype Error =
    | ParamsError(registered: set<string>)  // no name given, and not exactly one connection
    | KeyError(name: string)                // `Tortoise._connections[name]` on an unregistered name
    | IndexError                            // `deque.pop()` on an empty stack
    | RuntimeError                          // `asyncio.current_task()` with no running event loop

  datatype Result<T> = Success(value: T) | Failure(error: Error)

  /** The outcome of an operation that returns nothing or raises. */
  datatype Outcome = Pass | Fail(error: Error)

  datatype Option<T> = None | Some(value: T)

  /** The contents of `current_transaction_map`: key to stack, top last. */
  type Table = map<string, seq<Handle>>

  /** The invariant push and pop keep: no key is left with an empty stack. */
  predicate NoEmptyStacks(t: Table) {
    forall k :: k in t ==> t[k] != []
  }

  // ---------------------------------------------------------------------
  // Keys

  /** `connection_name + str(id(asyncio.current_task()))`. */
  function Key(name: string, task: nat): (k: string)
    ensures |k| > |name| && k[..|name|] == name
    ensures Decimal.AllDigits(k[|name|..]) && Decimal.ParseDecimal(k[|name|..]) == task
  {
    var digits := Decimal.NatToString(task);
    Decimal.ParseNatToString(task);
    assert (name + digits)[|name|..] == digits;
    name + digits
  }

  /** Two tasks using the same connection name never share a key. */
  lemma KeyDistinctTasks(name: string, t1: nat, t2: nat)
    requires t1 != t2
    ensures Key(name, t1) != Key(name, t2)
  {
  }

  /** Two connection names used by the same task never share a key. */
  lemma KeyDistinctNames(n1: string, n2: string, task: nat)
    ensures Key(n1, task) == Key(n2, task) ==> n1 == n2
  {
  }

  /** Different (name, task) pairs can share a key: "a" with task 12 and "a1" with task 2. */
  lemma KeyCollision()
    ensures Key("a", 12) == Key("a1", 2) == "a12"
  {
  }

  // ---------------------------------------------------------------------
  // The stack under a key

  /** The stack under `key`, as the default factory would give it: empty when absent. */
  function Stack(t: Table, key: string): seq<Handle>
  {
    if key in t then t[key] else []
  }

  /** The handle on top of the stack under `key`, if that stack exists and is non-empty. */
  function Top(t: Table, key: string): Option<Handle>
  {
    if key in t && t[key] != [] then Some(t[key][|t[key]| - 1]) else None
  }

  /** The table after `current_transaction_map[key].append(h)`. */
  function Pushed(t: Table, key: string, h: Handle): (r: Table)
    ensures r.Keys == t.Keys + {key}
    ensures r[key] == Stack(t, key) + [h]
    ensures forall k :: k in t && k != key ==> r[k] == t[k]
    ensures NoEmptyStacks(t) ==> NoEmptyStacks(r)
    ensures Top(r, key) == Some(h)
  {
    t[key := Stack(t, key) + [h]]
  }

  /** Whether `pop_transaction` raises `IndexError` for `key`: its stack is missing or empty. */
  predicate PopRaises(t: Table, key: string)
    ensures PopRaises(t, key) <==> key !in t || t[key] == []
    ensures NoEmptyStacks(t) ==> (PopRaises(t, key) <==> key !in t)
  {
    Stack(t, key) == []
  }

  /**
   * The table after `pop_transaction` for `key`. On success the top handle is
   * removed and the key deleted once its stack is empty. When it raises, the
   * default factory has already inserted an empty stack under the key.
   */
  function Popped(t: Table, key: string): (r: Table)
    ensures forall k :: k != key ==> (k in r <==> k in t)
    ensures forall k :: k in t && k != key ==> r[k] == t[k]
    ensures PopRaises(t, key) ==> key in r && r[key] == []
    ensures !PopRaises(t, key) ==>
              (key in r <==> |t[key]| > 1) &&
              (key in r ==> r[key] == t[key][..|t[key]| - 1])
    ensures NoEmptyStacks(t) && !PopRaises(t, key) ==> NoEmptyStacks(r)
  {
    var s := Stack(t, key);
    if s == [] then t[key := []]
    else
      var rest := s[..|s| - 1];
      if rest == [] then t - {key} else t[key := rest]
  }

  /** A push followed by a pop on the same key leaves a well-formed table exactly as it was. */
  lemma PushThenPopRestores(t: Table, key: string, h: Handle)
    requires NoEmptyStacks(t)
    ensures !PopRaises(Pushed(t, key, h), key)
    ensures Popped(Pushed(t, key, h), key) == t
  {
  }

  /**
   * Without the invariant the round trip fails: after a pop that raised, the
   * key holds an empty stack, and a push then a pop deletes the key.
   */
  lemma PushThenPopAfterFailedPop(t: Table, key: string, h: Handle)
    requires PopRaises(t, key)
    ensures Popped(Pushed(Popped(t, key), key, h), key) == Popped(t, key) - {key}
    ensures Popped(Pushed(Popped(t, key), key, h), key) != Popped(t, key)
  {
  }

  /**
   * Pushes and pops on two different keys commute: push under `k1`, push
   * under `k2`, pop `k1`, pop `k2` leaves a well-formed table exactly as it was.
   */
  lemma InterleavedPushPopRestores(t: Table, k1: string, h1: Handle, k2: string, h2: Handle)
    requires NoEmptyStacks(t) && k1 != k2
    ensures !PopRaises(Pushed(Pushed(t, k1, h1), k2, h2), k1)
    ensures Popped(Pushed(Pushed(t, k1, h1), k2, h2), k1) == Pushed(t, k2, h2)
    ensures !PopRaises(Pushed(t, k2, h2), k2)
    ensures Popped(Pushed(t, k2, h2), k2) == t
  {
    PushThenPopRestores(t, k2, h2);
    PushThenPopRestores(t, k1, h1);
  }

  // ---------------------------------------------------------------------
  // get_connection

  /** `not connection_name`: the name is `None` or the empty string. */
  predicate Omitted(name: Option<string>) {
    name.None? || name.value == ""
  }

  /** The set `{x}` has no other element. */
  lemma SingletonElement(s: set<string>, x: string, y: string)
    requires |s| == 1 && x in s && y in s
    ensures x == y
  {
    assert |s - {x}| == 0;
    assert s - {x} == {};
  }

  /**
   * The connection name `get_connection` works with: the given one, or the
   * only registered one when none is given; otherwise `ParamsError` listing
   * the registered names.
   */
  function ResolveName(conns: map<string, Handle>, name: Option<string>): (r: Result<string>)
    ensures r.Failure? <==> Omitted(name) && |conns| != 1
    ensures r.Failure? ==> r.error == ParamsError(conns.Keys)
    ensures r.Success? && Omitted(name) ==> conns.Keys == {r.value}
    ensures !Omitted(name) ==> r == Success(name.value)
  {
    if Omitted(name) && |conns| != 1 then Failure(ParamsError(conns.Keys))
    else if Omitted(name) then
      assert exists k :: k in conns.Keys by {
        assert conns.Keys != {};
      }
      assert forall x, y :: x in conns.Keys && y in conns.Keys ==> x == y by {
        forall x, y | x in conns.Keys && y in conns.Keys ensures x == y {
          SingletonElement(conns.Keys, x, y);
        }
      }
      var only :| only in conns.Keys;
      assert conns.Keys == {only};
      Success(only)
    else Success(name.value)
  }

  /** `Tortoise._connections[name]`, which raises `KeyError` on an unregistered name. */
  function BaseConnection(conns: map<string, Handle>, name: string): Result<Handle>
  {
    if name in conns then Success(conns[name]) else Failure(KeyError(name))
  }

  /**
   * `get_connection(connection_name)` with the registered connections
   * `conns`, the table `t`, whether the event loop is running, and the
   * current task's identity. It reads the table and never changes it: the
   * membership test comes before any indexing, so no key is inserted.
   */
  function GetConnection(conns: map<string, Handle>, t: Table, name: Option<string>,
                         loopRunning: bool, task: nat): (r: Result<Handle>)
    ensures (r.Failure? && r.error.ParamsError?) <==> Omitted(name) && |conns| != 1
    ensures r.Failure? && r.error.ParamsError? ==> r.error.registered == conns.Keys
    ensures r.Failure? && r.error.KeyError? ==>
              r.error.name !in conns && ResolveName(conns, name) == Success(r.error.name)
    ensures r.Failure? ==> !r.error.IndexError? && !r.error.RuntimeError?
    ensures r.Success? && !loopRunning ==> r.value in conns.Values
  {
    match ResolveName(conns, name)
    case Failure(e) => Failure(e)
    case Success(n) =>
      if !loopRunning then BaseConnection(conns, n)
      else
        var top := Top(t, Key(n, task));
        if top.Some? then Success(top.value) else BaseConnection(conns, n)
  }

  /** With no name and zero or several connections, `ParamsError` lists the registered names. */
  lemma GetConnectionAmbiguous(conns: map<string, Handle>, t: Table, name: Option<string>,
                               loopRunning: bool, task: nat)
    requires Omitted(name) && |conns| != 1
    ensures GetConnection(conns, t, name, loopRunning, task) == Failure(ParamsError(conns.Keys))
  {
  }

  /** With no name and exactly one connection, the call behaves as if that name were given. */
  lemma GetConnectionSoleName(conns: map<string, Handle>, t: Table, name: Option<string>,
                              loopRunning: bool, task: nat, only: string)
    requires Omitted(name) && conns.Keys == {only}
    ensures GetConnection(conns, t, name, loopRunning, task)
         == GetConnection(conns, t, Some(only), loopRunning, task)
  {
  }

  /** Outside a running event loop the base connection is returned, whatever the table holds. */
  lemma GetConnectionOutsideLoop(conns: map<string, Handle>, t1: Table, t2: Table,
                                 name: Option<string>, task1: nat, task2: nat)
    requires ResolveName(conns, name).Success?
    ensures GetConnection(conns, t1, name, false, task1)
         == BaseConnection(conns, ResolveName(conns, name).value)
    ensures GetConnection(conns, t1, name, false, task1)
         == GetConnection(conns, t2, name, false, task2)
  {
  }

  /**
   * Inside a running event loop the top of the stack under
   * `name + str(task)` is returned, and the base connection when that stack
   * is missing or empty; a registered name is needed only in the latter case.
   */
  lemma GetConnectionInLoop(conns: map<string, Handle>, t: Table, name: Option<string>, task: nat)
    requires ResolveName(conns, name).Success?
    ensures var n := ResolveName(conns, name).value;
            var k := Key(n, task);
            (GetConnection(conns, t, name, true, task)
             == if k in t && t[k] != [] then Success(t[k][|t[k]| - 1]) else BaseConnection(conns, n))
  {
  }

  /** After a push, the same task resolving the same name gets the handle just pushed. */
  lemma GetAfterPush(conns: map<string, Handle>, t: Table, name: string, task: nat, h: Handle)
    requires name != ""
    ensures GetConnection(conns, Pushed(t, Key(name, task), h), Some(name), true, task) == Success(h)
  {
  }

  /**
   * A push under the empty name is not seen by `get_connection("")`: the
   * empty name counts as omitted and resolves to the sole registered one.
   */
  lemma GetAfterPushEmptyName(conns: map<string, Handle>, t: Table, task: nat, h: Handle, only: string)
    requires conns.Keys == {only} && only != "" && Key(only, task) !in t
    ensures GetConnection(conns, Pushed(t, Key("", task), h), Some(""), true, task)
         == Success(conns[only])
  {
    assert |conns| == |conns.Keys| == 1;
    assert ResolveName(conns, Some("")) == Success(only);
    KeyDistinctNames("", only, task);
    var p := Pushed(t, Key("", task), h);
    assert Key(only, task) !in p;
    assert Top(p, Key(only, task)) == None;
  }

  /** A push under one key is invisible to every lookup under another key. */
  lemma PushInvisibleElsewhere(conns: map<string, Handle>, t: Table, key: string, h: Handle,
                               name: Option<string>, loopRunning: bool, task: nat)
    requires ResolveName(conns, name).Success? ==> Key(ResolveName(conns, name).value, task) != key
    ensures GetConnection(conns, Pushed(t, key, h), name, loopRunning, task)
         == GetConnection(conns, t, name, loopRunning, task)
  {
  }

  /** Another task using the same connection name does not see the push. */
  lemma PushInvisibleToOtherTask(conns: map<string, Handle>, t: Table, name: string,
                                 pusher: nat, task: nat, h: Handle)
    requires name != "" && pusher != task
    ensures GetConnection(conns, Pushed(t, Key(name, pusher), h), Some(name), true, task)
         == GetConnection(conns, t, Some(name), true, task)
  {
  }

  /** Keys collide across names: task 2 resolving "a1" sees what task 12 pushed for "a". */
  lemma PushVisibleThroughCollision(conns: map<string, Handle>, t: Table, h: Handle)
    ensures GetConnection(conns, Pushed(t, Key("a", 12), h), Some("a1"), true, 2) == Success(h)
  {
    KeyCollision();
  }

  // ---------------------------------------------------------------------
  // The table as the module-level object the source mutates

  /** `current_transaction_map`, a `defaultdict` of deques. */
  class TransactionMap {
    var stacks: Table

    ghost predicate Valid()
      reads this
    {
      NoEmptyStacks(stacks)
    }

    constructor ()
      ensures stacks == map[]
      ensures Valid()
    {
      stacks := map[];
    }

    /**
     * `push_transaction(connection_name, connection)` for the task `task`;
     * without a running event loop `asyncio.current_task()` raises
     * `RuntimeError` before the table is touched.
     */
    method PushTransaction(name: string, loopRunning: bool, task: nat, h: Handle) returns (r: Outcome)
      modifies this
      ensures r.Fail? <==> !loopRunning
      ensures r.Fail? ==> r.error == RuntimeError && stacks == old(stacks)
      ensures r.Pass? ==> stacks == Pushed(old(stacks), Key(name, task), h)
      ensures old(Valid()) ==> Valid()
      ensures r.Pass? && name != "" ==>
                forall conns :: GetConnection(conns, stacks, Some(name), true, task) == Success(h)
    {
      if !loopRunning {
        return Fail(RuntimeError);
      }
      r := Pass;
      var key := Key(name, task);
      var stack := if key in stacks then stacks[key] else [];
      stacks := stacks[key := stack + [h]];
      if name != "" {
        forall conns: map<string, Handle>
          ensures GetConnection(conns, stacks, Some(name), true, task) == Success(h)
        {
          GetAfterPush(conns, old(stacks), name, task, h);
        }
      }
    }

    /**
     * `pop_transaction(connection_name)` for the task `task`. Without a
     * running event loop it reports `RuntimeError` and leaves the table
     * alone; otherwise it reports `IndexError` when the stack is missing or
     * empty, after the default factory has inserted an empty stack under
     * the key.
     */
    method PopTransaction(name: string, loopRunning: bool, task: nat) returns (r: Outcome)
      modifies this
      ensures !loopRunning ==> r == Fail(RuntimeError) && stacks == old(stacks)
      ensures loopRunning ==> (r.Fail? <==> PopRaises(old(stacks), Key(name, task)))
      ensures loopRunning && r.Fail? ==> r.error == IndexError
      ensures loopRunning ==> stacks == Popped(old(stacks), Key(name, task))
      ensures old(Valid()) && loopRunning ==> (r.Fail? <==> Key(name, task) !in old(stacks))
      ensures old(Valid()) && r.Pass? ==> Valid()
    {
      if !loopRunning {
        return Fail(RuntimeError);
      }
      var key := Key(name, task);
      if key !in stacks {
        stacks := stacks[key := []];
      }
      var stack := stacks[key];
      if stack == [] {
        return Fail(IndexError);
      }
      r := Pass;
      stack := stack[..|stack| - 1];
      stacks := stacks[key := stack];
      if stack == [] {
        stacks := stacks - {key};
      }
    }
  }
}
