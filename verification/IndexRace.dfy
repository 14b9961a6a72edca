/**
 The VIN index under interleaving: any number of logins, one at a time per connection (store VIN, store state, add),
 and any number of calls of Close (check state, mark closed, look at the VIN, read it, remove), step by step in any
 order.
 */
module IndexRace {
  import opened Bytes
  import opened Connections
  import opened Registry

  /** Where the login handled for a connection stands. */
  datatype Phase = VinStored(v: Vin) | StateStored(v: Vin)

  /** Where a call of Close stands: state read as not closed, state set, VIN seen to be set, VIN read. */
  datatype Closer = Checked(c: ConnId) | Marked(c: ConnId) | Seen(c: ConnId) | Holding(c: ConnId, v: Vin)

  datatype Shared = Shared(status: map<ConnId, ConnState>, vin: map<ConnId, Vin>, vins: Index,
                           logins: map<ConnId, Phase>, closers: map<Thread, Closer>)

  datatype Action =
    | StoreVin(c: ConnId, v: Vin)
    | StoreState(c: ConnId)
    | AddEntry(c: ConnId)
    | BeginClose(t: Thread, c: ConnId)
    | Mark(t: Thread)
    | LookAtVin(t: Thread)
    | ReadVin(t: Thread)
    | RemoveEntry(t: Thread)

  function StateOf(s: Shared, c: ConnId): ConnState
  {
    if c in s.status then s.status[c] else New
  }

  function VinNow(s: Shared, c: ConnId): Vin
  {
    if c in s.vin then s.vin[c] else NoVin
  }

  predicate Enabled(s: Shared, a: Action)
  {
    match a
    case StoreVin(c, v) => c !in s.logins && v != NoVin
    case StoreState(c) => c in s.logins && s.logins[c].VinStored?
    case AddEntry(c) => c in s.logins && s.logins[c].StateStored?
    case BeginClose(t, c) => t !in s.closers && StateOf(s, c) != Closed
    case Mark(t) => t in s.closers && s.closers[t].Checked?
    case LookAtVin(t) => t in s.closers && s.closers[t].Marked?
    case ReadVin(t) => t in s.closers && s.closers[t].Seen?
    case RemoveEntry(t) => t in s.closers && s.closers[t].Holding?
  }

  function Apply(s: Shared, a: Action): Shared
    requires Enabled(s, a)
  {
    match a
    case StoreVin(c, v) => s.(vin := s.vin[c := v], logins := s.logins[c := VinStored(v)])
    case StoreState(c) => s.(status := s.status[c := LoggedIn], logins := s.logins[c := StateStored(s.logins[c].v)])
    case AddEntry(c) => s.(vins := Added(s.vins, s.logins[c].v, c), logins := s.logins - {c})
    case BeginClose(t, c) => s.(closers := s.closers[t := Checked(c)])
    case Mark(t) =>
      var c := s.closers[t].c;
      s.(status := s.status[c := Closed], closers := s.closers[t := Marked(c)])
    case LookAtVin(t) =>
      var c := s.closers[t].c;
      s.(closers := if VinNow(s, c) == NoVin then s.closers - {t} else s.closers[t := Seen(c)])
    case ReadVin(t) =>
      var c := s.closers[t].c;
      s.(closers := s.closers[t := Holding(c, VinNow(s, c))])
    case RemoveEntry(t) =>
      s.(vins := Removed(s.vins, s.closers[t].v, s.closers[t].c), closers := s.closers - {t})
  }

  const START := Shared(map[], map[], map[], map[], map[])

  /** The state after performing `run` from `s`, or None when some action is not possible where it stands. */
  function From(s: Shared, run: seq<Action>): Option<Shared>
  {
    if run == [] then Some(s)
    else
      var n := |run| - 1;
      var before := From(s, run[..n]);
      if before.Some? && Enabled(before.value, run[n]) then Some(Apply(before.value, run[n])) else None
  }

  function Perform(run: seq<Action>): Option<Shared>
  {
    From(START, run)
  }

  function ListedNow(s: Shared, v: Vin, c: ConnId): nat
  {
    multiset(ListOf(s.vins, v))[c]
  }

  // ---- The account of one entry ------------------------------------------------------------------------

  /** What an action does to the entries of `c` under `v`: 1 for an add, -1 for a removal, found or not. */
  function Effect(before: Option<Shared>, a: Action, c: ConnId, v: Vin): int
  {
    if before.None? || !Enabled(before.value, a) then 0
    else
      match a
      case AddEntry(d) => if d == c && before.value.logins[d].v == v then 1 else 0
      case RemoveEntry(t) => if before.value.closers[t] == Holding(c, v) then -1 else 0
      case _ => 0
  }

  /** The effects of all steps of a run. */
  function Effects(run: seq<Action>, c: ConnId, v: Vin): (fx: seq<int>)
    ensures |fx| == |run| && forall i :: 0 <= i < |fx| && fx[i] == 1 ==> run[i] == AddEntry(c)
  {
    if run == [] then []
    else
      var n := |run| - 1;
      Effects(run[..n], c, v) + [Effect(Perform(run[..n]), run[n], c, v)]
  }

  /** Adds less removals from step `a` on. */
  function Net(fx: seq<int>, a: nat): int
  {
    if |fx| <= a then 0 else Net(fx[..|fx| - 1], a) + fx[|fx| - 1]
  }

  lemma NetSnoc(fx: seq<int>, x: int, a: nat)
    ensures Net(fx + [x], a) == if |fx| < a then 0 else Net(fx, a) + x
  {
    assert (fx + [x])[..|fx|] == fx;
  }

  lemma StepListed(s: Shared, a: Action, c: ConnId, v: Vin)
    requires Enabled(s, a)
    ensures var n := ListedNow(s, v, c) + Effect(Some(s), a, c, v);
            ListedNow(Apply(s, a), v, c) == if n < 0 then 0 else n
  {
    match a {
      case AddEntry(d) => AddedList(s.vins, s.logins[d].v, d, v, c);
      case RemoveEntry(t) => RemovedList(s.vins, s.closers[t].v, s.closers[t].c, v, c);
      case _ =>
    }
  }

  /**
   In every interleaving a connection is listed under a VIN as often as adds outnumber removals in that end of the
   run in which they do so most.
   */
  lemma {:induction false} ListedIsLargestNet(run: seq<Action>, c: ConnId, v: Vin) returns (a: nat)
    requires Perform(run).Some?
    ensures a <= |run| && ListedNow(Perform(run).value, v, c) == Net(Effects(run, c, v), a)
    ensures forall b: nat :: Net(Effects(run, c, v), b) <= ListedNow(Perform(run).value, v, c)
    decreases |run|
  {
    a := 0;
    if run != [] {
      var n := |run| - 1;
      var before, fx := Perform(run[..n]), Effects(run[..n], c, v);
      var x := Effect(before, run[n], c, v);
      a := ListedIsLargestNet(run[..n], c, v);
      StepListed(before.value, run[n], c, v);
      forall b: nat
        ensures Net(fx + [x], b) <= ListedNow(Perform(run).value, v, c)
      {
        NetSnoc(fx, x, b);
        assert Net(fx, b) <= ListedNow(before.value, v, c);
      }
      if ListedNow(before.value, v, c) + x < 0 {
        a := |run|;
      }
      NetSnoc(fx, x, a);
    }
  }

  // ---- One login ---------------------------------------------------------------------------------------

  predicate AddedAtMostOnce(run: seq<Action>, c: ConnId)
  {
    forall i, j :: 0 <= i < |run| && 0 <= j < |run| && run[i] == AddEntry(c) && run[j] == AddEntry(c) ==> i == j
  }

  /** Step `k` adds an entry, and no later step removes one. */
  predicate Survives(fx: seq<int>, k: nat)
  {
    k < |fx| && fx[k] == 1 && forall j :: k < j < |fx| ==> fx[j] != -1
  }

  ghost predicate Unremoved(fx: seq<int>)
  {
    exists k: nat :: Survives(fx, k)
  }

  lemma UnremovedSnoc(fx: seq<int>, x: int)
    ensures Unremoved(fx + [x]) <==> x == 1 || (Unremoved(fx) && x != -1)
  {
    var more := fx + [x];
    if x == 1 {
      assert Survives(more, |fx|);
    }
    if k: nat :| Survives(fx, k) && x != -1 {
      assert Survives(more, k);
    }
    if k: nat :| Survives(more, k) && k < |fx| {
      assert more[|fx|] == x;
      forall j | k < j < |fx|
        ensures fx[j] != -1
      {
        assert more[j] == fx[j];
      }
      assert Survives(fx, k);
    }
  }

  lemma NoEarlierAdd(run: seq<Action>, k: nat, c: ConnId, v: Vin)
    requires AddedAtMostOnce(run, c) && k + 1 < |run| && run[|run| - 1] == AddEntry(c)
    ensures Effects(run[..|run| - 1], c, v)[k] != 1
  {
    assert run[..|run| - 1][k] == run[k];
  }

  /**
   A connection that logs in once is listed exactly when its entry was added and no later step removed it: whatever
   else runs beside it, a close whose removal comes before the add does not take the entry out.
   */
  lemma {:induction false} SingleLoginListedIff(run: seq<Action>, c: ConnId, v: Vin)
    requires Perform(run).Some? && AddedAtMostOnce(run, c)
    ensures ListedNow(Perform(run).value, v, c) == if Unremoved(Effects(run, c, v)) then 1 else 0
    decreases |run|
  {
    if run == [] {
      assert !Unremoved([]);
    } else {
      var n := |run| - 1;
      var before, fx := Perform(run[..n]), Effects(run[..n], c, v);
      var x := Effect(before, run[n], c, v);
      SingleLoginListedIff(run[..n], c, v);
      StepListed(before.value, run[n], c, v);
      UnremovedSnoc(fx, x);
      if x == 1 {
        forall k: nat | k < n
          ensures fx[k] != 1
        {
          NoEarlierAdd(run, k, c, v);
        }
      }
    }
  }

  // ---- Stale for good ----------------------------------------------------------------------------------

  /** Closed, with no login and no call of Close in progress. */
  predicate Finished(s: Shared, c: ConnId)
  {
    StateOf(s, c) == Closed && c !in s.logins && forall t :: t in s.closers ==> s.closers[t].c != c
  }

  lemma FinishedStep(s: Shared, a: Action, c: ConnId, v: Vin)
    requires Enabled(s, a) && Finished(s, c) && !(a.StoreVin? && a.c == c)
    ensures Finished(Apply(s, a), c) && ListedNow(Apply(s, a), v, c) == ListedNow(s, v, c)
  {
    StepListed(s, a, c, v);
  }

  /** Once a connection is finished, its entries stay as they are until it logs in again, whatever else happens. */
  lemma {:induction false} FinishedStaysListed(s: Shared, more: seq<Action>, c: ConnId, v: Vin)
    requires Finished(s, c) && From(s, more).Some?
    requires forall i :: 0 <= i < |more| ==> !(more[i].StoreVin? && more[i].c == c)
    ensures Finished(From(s, more).value, c) && ListedNow(From(s, more).value, v, c) == ListedNow(s, v, c)
    decreases |more|
  {
    if more != [] {
      var n := |more| - 1;
      FinishedStaysListed(s, more[..n], c, v);
      FinishedStep(From(s, more[..n]).value, more[n], c, v);
    }
  }

  lemma Next(run: seq<Action>, s: Shared, a: Action) returns (run': seq<Action>, s': Shared)
    requires Perform(run) == Some(s) && Enabled(s, a)
    ensures run' == run + [a] && s' == Apply(s, a) && Perform(run') == Some(s')
  {
    run', s' := run + [a], Apply(s, a);
    assert run'[..|run|] == run;
  }

  /**
   A close that runs between the state and the entry of a login removes nothing, and the entry added afterwards
   lists the closed connection, though it logged in once and never after its close.
   */
  lemma CloseDuringLogin(c: ConnId, v: Vin) returns (run: seq<Action>)
    requires v != NoVin
    ensures run == [StoreVin(c, v), StoreState(c), BeginClose(0, c), Mark(0), LookAtVin(0), ReadVin(0), RemoveEntry(0),
                    AddEntry(c)]
    ensures Perform(run).Some?
    ensures var s := Perform(run).value; Finished(s, c) && ListOf(s.vins, v) == [c]
  {
    var s := START;
    run := [];
    run, s := Next(run, s, StoreVin(c, v));
    run, s := Next(run, s, StoreState(c));
    run, s := Next(run, s, BeginClose(0, c));
    run, s := Next(run, s, Mark(0));
    run, s := Next(run, s, LookAtVin(0));
    run, s := Next(run, s, ReadVin(0));
    run, s := Next(run, s, RemoveEntry(0));
    run, s := Next(run, s, AddEntry(c));
  }
}
