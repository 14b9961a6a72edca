/**
 The connection limit under interleaving: one accept loop (check, store, count) and any number of concurrent
 closers (check state, mark closed, delete, count down), each step atomic, in any order.
 */
module Capacity {
  import opened Bytes
  import opened Connections

  /** Where the accept loop stands. */
  datatype Acceptor = Idle | Admitted | Stored(c: ConnId)

  /** Where a call of Close stands: state read as not closed, state set, or deleted from the map. */
  datatype Closer = Checked(c: ConnId) | Marked(c: ConnId) | Deleted(c: ConnId)

  /**
   Shared state. `known` are the connections stored so far, `closed` those whose state reads Closed, and
   `surplus` counts the deletions that found nothing to delete.
   */
  datatype Server = Server(maxConns: int, connections: set<ConnId>, connCount: int, acceptor: Acceptor,
                           closers: map<Thread, Closer>, known: set<ConnId>, closed: set<ConnId>, surplus: nat)

  datatype Action =
    | Admit
    | Refuse
    | Store(c: ConnId)
    | Increment
    | BeginClose(t: Thread, c: ConnId)
    | CloseAgain(c: ConnId)
    | Mark(t: Thread)
    | Delete(t: Thread)
    | Decrement(t: Thread)
    | Login(c: ConnId)

  predicate Enabled(s: Server, a: Action)
  {
    match a
    case Admit => s.acceptor.Idle? && s.connCount < s.maxConns
    case Refuse => s.acceptor.Idle? && s.connCount >= s.maxConns
    case Store(c) => s.acceptor.Admitted? && c !in s.known
    case Increment => s.acceptor.Stored?
    case BeginClose(t, c) => t !in s.closers && c in s.known && c !in s.closed
    case CloseAgain(c) => c in s.known && c in s.closed
    case Mark(t) => t in s.closers && s.closers[t].Checked?
    case Delete(t) => t in s.closers && s.closers[t].Marked?
    case Decrement(t) => t in s.closers && s.closers[t].Deleted?
    case Login(c) => c in s.known
  }

  function Apply(s: Server, a: Action): Server
    requires Enabled(s, a)
  {
    match a
    case Admit => s.(acceptor := Admitted)
    case Refuse => s
    case Store(c) => s.(acceptor := Stored(c), connections := s.connections + {c}, known := s.known + {c})
    case Increment => s.(acceptor := Idle, connCount := s.connCount + 1)
    case BeginClose(t, c) => s.(closers := s.closers[t := Checked(c)])
    case CloseAgain(c) => s
    case Mark(t) =>
      var c := s.closers[t].c;
      s.(closers := s.closers[t := Marked(c)], closed := s.closed + {c})
    case Delete(t) =>
      var c := s.closers[t].c;
      s.(closers := s.closers[t := Deleted(c)], connections := s.connections - {c},
         surplus := if c in s.connections then s.surplus else s.surplus + 1)
    case Decrement(t) => s.(closers := s.closers - {t}, connCount := s.connCount - 1)
    case Login(c) => s.(closed := s.closed - {c})
  }

  function Start(maxConns: int): Server
  {
    Server(maxConns, {}, 0, Idle, map[], {}, {}, 0)
  }

  /** The state after performing `run` from the start, or None when some action is not possible where it stands. */
  function Perform(maxConns: int, run: seq<Action>): Option<Server>
  {
    if run == [] then Some(Start(maxConns))
    else
      var n := |run| - 1;
      var before := Perform(maxConns, run[..n]);
      if before.Some? && Enabled(before.value, run[n]) then Some(Apply(before.value, run[n])) else None
  }

  lemma PerformOneMore(maxConns: int, run: seq<Action>, a: Action)
    ensures var before := Perform(maxConns, run);
            before.Some? && Enabled(before.value, a) ==> Perform(maxConns, run + [a]) == Some(Apply(before.value, a))
  {
    assert (run + [a])[..|run|] == run;
  }

  // ---- The account of the counter ----------------------------------------------------------------------

  /** Closers between the deletion and the decrement. */
  function Leaving(s: Server): set<Thread>
  {
    set t | t in s.closers && s.closers[t].Deleted?
  }

  /** The counter, up to the steps in flight, and up to deletions that found nothing. */
  predicate Accounted(s: Server)
  {
    s.connCount == |s.connections| + |Leaving(s)| - (if s.acceptor.Stored? then 1 else 0) - s.surplus
  }

  predicate WithinLimit(s: Server)
  {
    && (|s.connections| <= s.surplus || |s.connections| <= s.maxConns + s.surplus)
    && (s.acceptor.Admitted? ==> |s.connections| < s.maxConns + s.surplus)
    && s.connections <= s.known
  }

  lemma LeavingAfter(s: Server, a: Action)
    requires Enabled(s, a)
    ensures Leaving(Apply(s, a)) == match a
                                    case Delete(t) => Leaving(s) + {t}
                                    case Decrement(t) => Leaving(s) - {t}
                                    case _ => Leaving(s)
    ensures a.Delete? ==> a.t !in Leaving(s)
    ensures a.Decrement? ==> a.t in Leaving(s)
  {
  }

  lemma StepKeepsAccount(s: Server, a: Action)
    requires Enabled(s, a) && Accounted(s) && WithinLimit(s)
    ensures Accounted(Apply(s, a)) && WithinLimit(Apply(s, a))
  {
    LeavingAfter(s, a);
  }

  /**
   In every interleaving of the code as written, the counter equals the number of connections, plus closers
   between delete and decrement, minus an acceptor between store and increment, minus the surplus deletions; and
   the limit is exceeded by no more than the surplus.
   */
  lemma {:induction false} CountAndLimit(maxConns: int, run: seq<Action>)
    requires Perform(maxConns, run).Some?
    ensures var s := Perform(maxConns, run).value;
            s.maxConns == maxConns && Accounted(s) && WithinLimit(s)
  {
    if run != [] {
      var n := |run| - 1;
      CountAndLimit(maxConns, run[..n]);
      StepKeepsAccount(Perform(maxConns, run[..n]).value, run[n]);
    }
  }

  // ---- Each connection unregistered once ---------------------------------------------------------------

  /** How often `c` was deleted from the connection map. */
  function Deletions(maxConns: int, run: seq<Action>, c: ConnId): nat
  {
    if run == [] then 0
    else
      var n := |run| - 1;
      Deletions(maxConns, run[..n], c) + DeletedNow(Perform(maxConns, run[..n]), run[n], c)
  }

  function DeletedNow(before: Option<Server>, a: Action, c: ConnId): nat
  {
    if before.Some? && Enabled(before.value, a) && a.Delete? && before.value.closers[a.t].c == c then 1 else 0
  }

  ghost predicate DeletedAtMostOnce(maxConns: int, run: seq<Action>)
  {
    forall c :: Deletions(maxConns, run, c) <= 1
  }

  /** Stored connections are those known and never deleted, closers work on known ones. */
  ghost predicate Tracked(maxConns: int, run: seq<Action>, s: Server)
  {
    && (forall c :: c in s.connections <==> c in s.known && Deletions(maxConns, run, c) == 0)
    && (forall c :: c !in s.known ==> Deletions(maxConns, run, c) == 0)
    && (forall t :: t in s.closers ==> s.closers[t].c in s.known)
  }

  lemma StepTracked(maxConns: int, run: seq<Action>, a: Action, s: Server)
    requires Perform(maxConns, run) == Some(s) && Enabled(s, a) && Tracked(maxConns, run, s)
    ensures Tracked(maxConns, run + [a], Apply(s, a))
    ensures DeletedAtMostOnce(maxConns, run + [a])
            <==> DeletedAtMostOnce(maxConns, run) && Apply(s, a).surplus == s.surplus
  {
    var more := run + [a];
    forall c
      ensures Deletions(maxConns, more, c) == Deletions(maxConns, run, c) + DeletedNow(Some(s), a, c)
    {
      assert more[..|run|] == run;
    }
    if DeletedAtMostOnce(maxConns, more) {
      forall c
        ensures Deletions(maxConns, run, c) <= 1
      {
        assert Deletions(maxConns, more, c) <= 1;
      }
    }
    if a.Delete? {
      assert Deletions(maxConns, more, s.closers[a.t].c) == Deletions(maxConns, run, s.closers[a.t].c) + 1;
    }
  }

  /** In every run the surplus is zero exactly when no connection was deleted twice. */
  lemma {:induction false} SurplusIff(maxConns: int, run: seq<Action>)
    requires Perform(maxConns, run).Some?
    ensures var s := Perform(maxConns, run).value;
            Tracked(maxConns, run, s) && (s.surplus == 0 <==> DeletedAtMostOnce(maxConns, run))
  {
    if run != [] {
      var n := |run| - 1;
      assert run == run[..n] + [run[n]];
      SurplusIff(maxConns, run[..n]);
      StepTracked(maxConns, run[..n], run[n], Perform(maxConns, run[..n]).value);
    }
  }

  /** The counter equals the connections, up to the steps in flight. */
  predicate CounterExact(s: Server)
  {
    s.connCount == |s.connections| + |Leaving(s)| - (if s.acceptor.Stored? then 1 else 0)
  }

  /**
   The counter is exact at the end of a run exactly when no connection was deleted twice; and then the number of
   connections does not exceed the limit.
   */
  lemma CapacityHolds(maxConns: int, run: seq<Action>)
    requires Perform(maxConns, run).Some?
    ensures var s := Perform(maxConns, run).value;
            && (CounterExact(s) <==> DeletedAtMostOnce(maxConns, run))
            && (CounterExact(s) ==> s.connections == {} || |s.connections| <= maxConns)
  {
    CountAndLimit(maxConns, run);
    SurplusIff(maxConns, run);
  }

  // ---- What a second deletion leads to -----------------------------------------------------------------

  predicate DeletesNothing(more: seq<Action>)
  {
    forall i :: 0 <= i < |more| ==> !more[i].Delete?
  }

  /** `more` deletes nothing and leads from the end of `run` to `s`. */
  predicate Continues(maxConns: int, run: seq<Action>, more: seq<Action>, s: Server)
  {
    DeletesNothing(more) && Perform(maxConns, run + more) == Some(s)
  }

  /** Without any further deletion the connections can come to exceed the limit. */
  ghost predicate CanExceed(maxConns: int, run: seq<Action>)
  {
    exists more, s :: Continues(maxConns, run, more, s) && |s.connections| > maxConns
  }

  lemma Extend(maxConns: int, run: seq<Action>, more: seq<Action>, s: Server, a: Action)
    returns (more': seq<Action>, s': Server)
    requires Continues(maxConns, run, more, s) && Enabled(s, a) && !a.Delete?
    ensures Continues(maxConns, run, more', s') && s' == Apply(s, a)
  {
    more', s' := more + [a], Apply(s, a);
    PerformOneMore(maxConns, run + more, a);
    assert run + more' == (run + more) + [a];
  }

  lemma {:induction false} FreshId(known: set<ConnId>) returns (c: ConnId)
    ensures forall k :: k in known ==> k < c
    decreases |known|
  {
    c := 0;
    if known != {} {
      var k :| k in known;
      var d := FreshId(known - {k});
      c := if k < d then d else k + 1;
      assert forall x :: x in known ==> x == k || x in known - {k};
    }
  }

  /** An accept in progress runs to its end. */
  lemma FinishAccept(maxConns: int, run: seq<Action>, more: seq<Action>, s: Server)
    returns (more': seq<Action>, s': Server)
    requires Continues(maxConns, run, more, s)
    ensures Continues(maxConns, run, more', s') && s'.acceptor.Idle? && s'.surplus == s.surplus
    ensures s'.closers == s.closers
    ensures s.acceptor.Admitted? ==> s'.connCount == s.connCount + 1
  {
    more', s' := more, s;
    if s'.acceptor.Admitted? {
      var c := FreshId(s'.known);
      more', s' := Extend(maxConns, run, more', s', Store(c));
    }
    if s'.acceptor.Stored? {
      more', s' := Extend(maxConns, run, more', s', Increment);
    }
  }

  /** Every closer past its deletion counts down. */
  lemma {:induction false} LeaveAll(maxConns: int, run: seq<Action>, more: seq<Action>, s: Server)
    returns (more': seq<Action>, s': Server)
    requires Continues(maxConns, run, more, s) && s.acceptor.Idle?
    ensures Continues(maxConns, run, more', s') && s'.acceptor.Idle? && s'.surplus == s.surplus
    ensures Leaving(s') == {}
    decreases |Leaving(s)|
  {
    more', s' := more, s;
    if Leaving(s) != {} {
      var t :| t in Leaving(s);
      LeavingAfter(s, Decrement(t));
      more', s' := Extend(maxConns, run, more, s, Decrement(t));
      more', s' := LeaveAll(maxConns, run, more', s');
    }
  }

  /** Connections are accepted until the counter reaches the limit. */
  lemma {:induction false} FillUp(maxConns: int, run: seq<Action>, more: seq<Action>, s: Server)
    returns (more': seq<Action>, s': Server)
    requires Continues(maxConns, run, more, s) && s.acceptor.Idle? && Leaving(s) == {} && s.maxConns == maxConns
    ensures Continues(maxConns, run, more', s') && s'.acceptor.Idle? && s'.surplus == s.surplus
    ensures Leaving(s') == {} && s'.connCount >= maxConns
    decreases maxConns - s.connCount
  {
    more', s' := more, s;
    if s.connCount < maxConns {
      more', s' := Extend(maxConns, run, more, s, Admit);
      more', s' := FinishAccept(maxConns, run, more', s');
      assert Leaving(s') == Leaving(s);
      CountAndLimit(maxConns, run + more');
      more', s' := FillUp(maxConns, run, more', s');
    }
  }

  lemma SurplusExceeds(maxConns: int, run: seq<Action>)
    requires Perform(maxConns, run).Some? && Perform(maxConns, run).value.surplus > 0
    ensures CanExceed(maxConns, run)
  {
    assert run + [] == run;
    var more, s := FinishAccept(maxConns, run, [], Perform(maxConns, run).value);
    more, s := LeaveAll(maxConns, run, more, s);
    CountAndLimit(maxConns, run + more);
    more, s := FillUp(maxConns, run, more, s);
    CountAndLimit(maxConns, run + more);
  }

  lemma {:induction false} DeletionsKept(maxConns: int, run: seq<Action>, more: seq<Action>, c: ConnId)
    requires DeletesNothing(more)
    ensures Deletions(maxConns, run + more, c) == Deletions(maxConns, run, c)
    decreases |more|
  {
    if more == [] {
      assert run + more == run;
    } else {
      var n := |more| - 1;
      DeletionsKept(maxConns, run, more[..n], c);
      assert (run + more)[..|run + more| - 1] == run + more[..n];
      assert (run + more)[|run + more| - 1] == more[n];
    }
  }

  /** The limit can be exceeded without any further deletion exactly when some connection was deleted twice. */
  lemma LimitIff(maxConns: nat, run: seq<Action>)
    requires Perform(maxConns, run).Some?
    ensures CanExceed(maxConns, run) <==> !DeletedAtMostOnce(maxConns, run)
  {
    SurplusIff(maxConns, run);
    if DeletedAtMostOnce(maxConns, run) {
      forall more, s | Continues(maxConns, run, more, s)
        ensures |s.connections| <= maxConns
      {
        forall c
          ensures Deletions(maxConns, run + more, c) <= 1
        {
          DeletionsKept(maxConns, run, more, c);
          assert Deletions(maxConns, run, c) <= 1;
        }
        CapacityHolds(maxConns, run + more);
      }
    } else {
      SurplusExceeds(maxConns, run);
    }
  }

  // ---- A discipline that is enough ---------------------------------------------------------------------

  /**
   What the check-then-store in Close and the login after a close leave open: no closer starts on a connection
   another closer has already checked, and no closed connection logs in.
   */
  predicate Orderly(s: Server, a: Action)
  {
    && (a.BeginClose? ==> forall t :: t in s.closers ==> s.closers[t] != Checked(a.c))
    && (a.Login? ==> a.c !in s.closed)
  }

  predicate AllOrderly(maxConns: int, run: seq<Action>)
  {
    run == [] || (
      var n := |run| - 1;
      && AllOrderly(maxConns, run[..n])
      && (Perform(maxConns, run[..n]).Some? ==> Orderly(Perform(maxConns, run[..n]).value, run[n]))
    )
  }

  /** One closer per connection, in step with the state and the map. */
  ghost predicate OneCloser(s: Server)
  {
    && (forall t, u :: t in s.closers && u in s.closers && t != u ==> s.closers[t].c != s.closers[u].c)
    && (forall t :: t in s.closers ==>
          var k := s.closers[t];
          && k.c in s.known
          && (k.c in s.closed <==> !k.Checked?)
          && (k.c in s.connections <==> !k.Deleted?))
    && (forall c :: c in s.known && c !in s.closed ==> c in s.connections)
    && s.closed <= s.known
  }

  lemma OrderlyStep(s: Server, a: Action)
    requires Enabled(s, a) && Orderly(s, a) && OneCloser(s)
    ensures OneCloser(Apply(s, a)) && Apply(s, a).surplus == s.surplus
  {
  }

  lemma {:induction false} OrderlyRun(maxConns: int, run: seq<Action>)
    requires Perform(maxConns, run).Some? && AllOrderly(maxConns, run)
    ensures OneCloser(Perform(maxConns, run).value) && Perform(maxConns, run).value.surplus == 0
  {
    if run != [] {
      var n := |run| - 1;
      OrderlyRun(maxConns, run[..n]);
      OrderlyStep(Perform(maxConns, run[..n]).value, run[n]);
    }
  }

  /**
   When no two closers check a connection before either marks it and no closed connection logs in, each connection
   has one closer at a time, none is deleted twice, and the limit holds.
   */
  lemma OrderlyIsEnough(maxConns: int, run: seq<Action>)
    requires Perform(maxConns, run).Some? && AllOrderly(maxConns, run)
    ensures var s := Perform(maxConns, run).value;
            && OneCloser(s) && CounterExact(s) && (s.connections == {} || |s.connections| <= maxConns)
            && DeletedAtMostOnce(maxConns, run)
  {
    OrderlyRun(maxConns, run);
    SurplusIff(maxConns, run);
    CapacityHolds(maxConns, run);
  }

  // ---- What goes wrong otherwise -----------------------------------------------------------------------

  lemma Next(maxConns: int, run: seq<Action>, s: Server, a: Action) returns (run': seq<Action>, s': Server)
    requires Perform(maxConns, run) == Some(s) && Enabled(s, a)
    ensures run' == run + [a] && s' == Apply(s, a) && Perform(maxConns, run') == Some(s')
  {
    PerformOneMore(maxConns, run, a);
    run', s' := run + [a], Apply(s, a);
  }

  /** Accept connection `c` completely. */
  lemma Accept(maxConns: int, run: seq<Action>, s: Server, c: ConnId) returns (run': seq<Action>, s': Server)
    requires Perform(maxConns, run) == Some(s)
    requires s.acceptor.Idle? && s.connCount < s.maxConns && c !in s.known
    ensures Perform(maxConns, run') == Some(s')
    ensures s' == s.(connections := s.connections + {c}, known := s.known + {c}, connCount := s.connCount + 1)
  {
    run', s' := Next(maxConns, run, s, Admit);
    run', s' := Next(maxConns, run', s', Store(c));
    run', s' := Next(maxConns, run', s', Increment);
  }

  /** What a closer does once it has found the connection not closed. */
  lemma Finish(maxConns: int, run: seq<Action>, s: Server, t: Thread, c: ConnId) returns (run': seq<Action>, s': Server)
    requires Perform(maxConns, run) == Some(s) && t in s.closers && s.closers[t] == Checked(c)
    ensures Perform(maxConns, run') == Some(s')
    ensures s' == s.(closers := s.closers - {t}, closed := s.closed + {c}, connections := s.connections - {c},
                     surplus := if c in s.connections then s.surplus else s.surplus + 1, connCount := s.connCount - 1)
  {
    run', s' := Next(maxConns, run, s, Mark(t));
    run', s' := Next(maxConns, run', s', Delete(t));
    run', s' := Next(maxConns, run', s', Decrement(t));
    assert s'.closers == s.closers - {t};
  }

  /** Two closers that both read the state before either writes it unregister it twice: the limit is broken. */
  lemma TwoClosersBreakLimit() returns (run: seq<Action>)
    ensures Perform(1, run).Some? && |Perform(1, run).value.connections| == 2
  {
    var s := Start(1);
    run := [];
    run, s := Accept(1, run, s, 1);
    run, s := Next(1, run, s, BeginClose(0, 1));
    run, s := Next(1, run, s, BeginClose(1, 1));
    run, s := Finish(1, run, s, 0, 1);
    run, s := Finish(1, run, s, 1, 1);
    run, s := Accept(1, run, s, 2);
    run, s := Accept(1, run, s, 3);
    assert s.connections == {2, 3};
  }

  /** So does a login handled after the close, with no two closers at once: it makes the connection look open again. */
  lemma LateLoginBreaksLimit() returns (run: seq<Action>)
    ensures Perform(1, run).Some? && |Perform(1, run).value.connections| == 2
  {
    var s := Start(1);
    run := [];
    run, s := Accept(1, run, s, 1);
    run, s := Next(1, run, s, BeginClose(0, 1));
    run, s := Finish(1, run, s, 0, 1);
    run, s := Next(1, run, s, Login(1));
    run, s := Next(1, run, s, BeginClose(0, 1));
    run, s := Finish(1, run, s, 0, 1);
    run, s := Accept(1, run, s, 2);
    run, s := Accept(1, run, s, 3);
    assert s.connections == {2, 3};
  }
}
