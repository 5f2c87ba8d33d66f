/**
 * Sequences of `push_transaction` / `pop_transaction` calls on the table, as
 * nested transaction scopes issue them: each scope pushes its handle, runs its
 * inner scopes, and pops. A well-bracketed sequence leaves a well-formed table
 * exactly as it found it (no leaked key), and while a scope is open the
 * innermost handle is the one `get_connection` returns.
 */
module TransactionTraces {
  import opened Transactions

  /** One call on the table, made by task `task` for connection `name`. */
  datatype Op =
    | PushOp(name: string, task: nat, handle: Handle)
    | PopOp(name: string, task: nat)

  /** The table after one call, or `None` when the call raised `IndexError`. */
  function Step(t: Table, op: Op): (r: Option<Table>)
    ensures op.PushOp? ==> r == Some(Pushed(t, Key(op.name, op.task), op.handle))
    ensures op.PopOp? ==> (r.None? <==> PopRaises(t, Key(op.name, op.task)))
    ensures r.Some? && op.PopOp? ==> r.value == Popped(t, Key(op.name, op.task))
    ensures NoEmptyStacks(t) && r.Some? ==> NoEmptyStacks(r.value)
    ensures NoEmptyStacks(t) && op.PopOp? ==> (r.None? <==> Key(op.name, op.task) !in t)
  {
    match op
    case PushOp(name, task, h) => Some(Pushed(t, Key(name, task), h))
    case PopOp(name, task) =>
      var key := Key(name, task);
      if PopRaises(t, key) then None else Some(Popped(t, key))
  }

  /** The table after a sequence of calls, stopping at the first that raises. */
  function Run(t: Table, ops: seq<Op>): Option<Table>
    decreases |ops|
  {
    if ops == [] then Some(t)
    else match Step(t, ops[0])
      case None => None
      case Some(t') => Run(t', ops[1..])
  }

  /** Running `a + b` is running `a`, then `b` on its result. */
  lemma {:induction false} RunAppend(t: Table, a: seq<Op>, b: seq<Op>)
    ensures Run(t, a + b) == (match Run(t, a) case None => None case Some(t') => Run(t', b))
    decreases |a|
  {
    if a == [] {
      assert a + b == b;
    } else {
      assert (a + b)[0] == a[0];
      assert (a + b)[1..] == a[1..] + b;
      match Step(t, a[0])
      case None =>
      case Some(t') => RunAppend(t', a[1..], b);
    }
  }

  /** A transaction scope: the handle it pushes and the scopes nested inside it. */
  datatype Scope = Scope(name: string, task: nat, handle: Handle, body: seq<Scope>)

  /** The calls one scope makes: push, the inner scopes in order, pop. */
  function Trace(s: Scope): seq<Op>
    decreases s
  {
    [PushOp(s.name, s.task, s.handle)] + TraceAll(s.body) + [PopOp(s.name, s.task)]
  }

  /** The calls a sequence of sibling scopes makes, one after the other. */
  function TraceAll(ss: seq<Scope>): seq<Op>
    decreases ss
  {
    if ss == [] then [] else Trace(ss[0]) + TraceAll(ss[1..])
  }

  /** A scope, however deeply nested, leaves a well-formed table unchanged. */
  lemma {:induction false} ScopeRestores(t: Table, s: Scope)
    requires NoEmptyStacks(t)
    ensures Run(t, Trace(s)) == Some(t)
    decreases s, 1
  {
    var key := Key(s.name, s.task);
    var push := [PushOp(s.name, s.task, s.handle)];
    var pop := [PopOp(s.name, s.task)];
    var t1 := Pushed(t, key, s.handle);
    assert Run(t, push) == Some(t1) by {
      assert push[1..] == [];
    }
    ScopesRestore(t1, s.body);
    RunAppend(t, push, TraceAll(s.body));
    PushThenPopRestores(t, key, s.handle);
    assert Run(t1, pop) == Some(t) by {
      assert pop[1..] == [];
    }
    RunAppend(t, push + TraceAll(s.body), pop);
  }

  /** Sibling scopes, one after the other, leave a well-formed table unchanged. */
  lemma {:induction false} ScopesRestore(t: Table, ss: seq<Scope>)
    requires NoEmptyStacks(t)
    ensures Run(t, TraceAll(ss)) == Some(t)
    decreases ss, 0
  {
    if ss != [] {
      ScopeRestores(t, ss[0]);
      ScopesRestore(t, ss[1..]);
      RunAppend(t, Trace(ss[0]), TraceAll(ss[1..]));
    }
  }

  /**
   * While a scope's body has run and before its pop, the same task resolving
   * the same name is given that scope's handle: the innermost open scope wins.
   */
  lemma ScopeInnermostResolved(conns: map<string, Handle>, t: Table, s: Scope)
    requires NoEmptyStacks(t) && s.name != ""
    ensures var open := [PushOp(s.name, s.task, s.handle)] + TraceAll(s.body);
            (Run(t, open).Some? &&
             GetConnection(conns, Run(t, open).value, Some(s.name), true, s.task) == Success(s.handle))
  {
    var push := [PushOp(s.name, s.task, s.handle)];
    var t1 := Pushed(t, Key(s.name, s.task), s.handle);
    assert Run(t, push) == Some(t1) by {
      assert push[1..] == [];
    }
    ScopesRestore(t1, s.body);
    RunAppend(t, push, TraceAll(s.body));
    GetAfterPush(conns, t, s.name, s.task, s.handle);
  }

  /** After a scope completes, every lookup gives what it gave before the scope opened. */
  lemma ScopeResolutionRoundTrip(conns: map<string, Handle>, t: Table, s: Scope,
                                 name: Option<string>, loopRunning: bool, task: nat)
    requires NoEmptyStacks(t)
    ensures Run(t, Trace(s)).Some?
    ensures GetConnection(conns, Run(t, Trace(s)).value, name, loopRunning, task)
         == GetConnection(conns, t, name, loopRunning, task)
  {
    ScopeRestores(t, s);
  }

  /**
   * Two tasks whose scopes interleave (push A, push B, pop A, pop B) under
   * different keys still leave a well-formed table exactly as it was.
   */
  lemma InterleavedScopesRestore(t: Table, n1: string, task1: nat, h1: Handle,
                                 n2: string, task2: nat, h2: Handle)
    requires NoEmptyStacks(t) && Key(n1, task1) != Key(n2, task2)
    ensures Run(t, [PushOp(n1, task1, h1), PushOp(n2, task2, h2),
                    PopOp(n1, task1), PopOp(n2, task2)]) == Some(t)
  {
    var ops := [PushOp(n1, task1, h1), PushOp(n2, task2, h2), PopOp(n1, task1), PopOp(n2, task2)];
    var k1, k2 := Key(n1, task1), Key(n2, task2);
    var t1 := Pushed(t, k1, h1);
    var t2 := Pushed(t1, k2, h2);
    InterleavedPushPopRestores(t, k1, h1, k2, h2);
    var t3 := Popped(t2, k1);
    assert ops[1..] == [ops[1], ops[2], ops[3]];
    assert ops[1..][1..] == [ops[2], ops[3]];
    assert ops[1..][1..][1..] == [ops[3]];
    assert Run(t3, [ops[3]]) == Some(t) by {
      assert [ops[3]][1..] == [];
    }
    assert Run(t2, [ops[2], ops[3]]) == Some(t);
    assert Run(t1, ops[1..]) == Some(t);
  }

  /** A pop with no matching push raises `IndexError` and leaves an empty stack behind. */
  lemma UnmatchedPopRaises(t: Table, name: string, task: nat)
    requires NoEmptyStacks(t) && Key(name, task) !in t
    ensures Run(t, [PopOp(name, task)]) == None
    ensures Popped(t, Key(name, task)) == t[Key(name, task) := []]
    ensures !NoEmptyStacks(Popped(t, Key(name, task)))
  {
  }
}
