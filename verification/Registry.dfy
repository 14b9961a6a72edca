/** The VIN index: which connections are listed under a VIN, and the account of logins and closes that explains it. */
module Registry {
  import opened Bytes
  import opened Connections

  type Index = map<Vin, seq<ConnId>>

  // ---- The index as a value ----------------------------------------------------------------------------

  function ListOf(m: Index, v: Vin): seq<ConnId>
  {
    if v in m then m[v] else []
  }

  function Added(m: Index, v: Vin, c: ConnId): Index
  {
    m[v := ListOf(m, v) + [c]]
  }

  /** `s` without its first occurrence of `c`. */
  function WithoutFirst(s: seq<ConnId>, c: ConnId): (r: seq<ConnId>)
    ensures multiset(r) == multiset(s) - multiset{c}
    ensures c !in s ==> r == s
  {
    if s == [] then []
    else if s[0] == c then
      assert s == [s[0]] + s[1..];
      s[1..]
    else
      assert s == [s[0]] + s[1..];
      [s[0]] + WithoutFirst(s[1..], c)
  }

  lemma {:induction false} WithoutAt(s: seq<ConnId>, c: ConnId, i: nat)
    requires i < |s| && c !in s[..i] && s[i] == c
    ensures WithoutFirst(s, c) == s[..i] + s[i + 1..]
    decreases i
  {
    if i > 0 {
      assert s[0] == s[..i][0] && s[1..][..i - 1] == s[..i][1..];
      WithoutAt(s[1..], c, i - 1);
      assert s[1..][i..] == s[i + 1..] && [s[0]] + s[1..][..i - 1] == s[..i];
    }
  }

  function Removed(m: Index, v: Vin, c: ConnId): Index
  {
    if v !in m then m
    else
      var left := WithoutFirst(m[v], c);
      if left == [] then m - {v} else m[v := left]
  }

  /** The search loop of remove. */
  method RemoveFrom(conns: seq<ConnId>, c: ConnId) returns (left: seq<ConnId>)
    ensures left == WithoutFirst(conns, c)
  {
    for i := 0 to |conns|
      invariant c !in conns[..i]
    {
      if conns[i] == c {
        WithoutAt(conns, c, i);
        return conns[..i] + conns[i + 1..];
      }
    }
    assert conns[..|conns|] == conns;
    return conns;
  }

  class VinRegistry {
    var vins: Index

    constructor ()
      ensures vins == map[]
    {
      vins := map[];
    }

    method Add(v: Vin, c: ConnId)
      modifies this
      ensures vins == Added(old(vins), v, c)
    {
      vins := vins[v := (if v in vins then vins[v] else []) + [c]];
    }

    method Remove(v: Vin, c: ConnId)
      modifies this
      ensures vins == Removed(old(vins), v, c)
    {
      if v !in vins {
        return;
      }
      var left := RemoveFrom(vins[v], c);
      assert |left| == 0 <==> left == [];
      if |left| == 0 {
        vins := vins - {v};
      } else {
        vins := vins[v := left];
      }
    }

    method Get(v: Vin) returns (c: Option<ConnId>)
      ensures c == First(ListOf(vins, v))
    {
      if v !in vins || |vins[v]| == 0 {
        return None;
      }
      return Some(vins[v][0]);
    }

    method GetAll(v: Vin) returns (cs: seq<ConnId>)
      ensures cs == ListOf(vins, v)
    {
      cs := [];
      if v in vins {
        cs := cs + vins[v];
      }
    }

    method Count() returns (n: nat)
      ensures n == |vins|
    {
      n := |vins|;
    }
  }

  function First(s: seq<ConnId>): Option<ConnId>
  {
    if s == [] then None else Some(s[0])
  }

  // ---- Runs of logins and closes -----------------------------------------------------------------------

  /** A login that succeeded, and a call of Close. */
  datatype Event = Login(c: ConnId, v: Vin) | Close(c: ConnId)

  datatype World = World(status: map<ConnId, ConnState>, vin: map<ConnId, Vin>, vins: Index)

  function StatusOf(w: World, c: ConnId): ConnState
  {
    if c in w.status then w.status[c] else New
  }

  /** A connection's VIN, empty before its first login. */
  function VinOf(w: World, c: ConnId): Vin
  {
    if c in w.vin then w.vin[c] else NoVin
  }

  /** handlePacket stores VIN and state and adds to the index; Close returns at once on a closed connection. */
  function Step(w: World, e: Event): World
  {
    match e
    case Login(c, v) => World(w.status[c := LoggedIn], w.vin[c := v], Added(w.vins, v, c))
    case Close(c) =>
      if StatusOf(w, c) == Closed then w
      else World(w.status[c := Closed], w.vin,
                 if VinOf(w, c) != NoVin then Removed(w.vins, VinOf(w, c), c) else w.vins)
  }

  function Run(es: seq<Event>): World
  {
    if es == [] then World(map[], map[], map[]) else Step(Run(es[..|es| - 1]), es[|es| - 1])
  }

  lemma RunSnoc(es: seq<Event>, e: Event)
    ensures Run(es + [e]) == Step(Run(es), e)
  {
    assert (es + [e])[..|es|] == es;
  }

  /** A packet's VIN has 17 bytes, so it is never empty. */
  predicate RealVins(es: seq<Event>)
  {
    forall i :: 0 <= i < |es| && es[i].Login? ==> es[i].v != NoVin
  }

  function Logins(es: seq<Event>, c: ConnId, v: Vin): nat
  {
    if es == [] then 0
    else Logins(es[..|es| - 1], c, v) + (if es[|es| - 1] == Login(c, v) then 1 else 0)
  }

  /** Closes of `c` that took effect while its VIN was `v`. */
  function Closes(es: seq<Event>, c: ConnId, v: Vin): nat
  {
    if es == [] then 0
    else
      var w := Run(es[..|es| - 1]);
      Closes(es[..|es| - 1], c, v)
      + (if es[|es| - 1] == Close(c) && StatusOf(w, c) != Closed && VinOf(w, c) == v then 1 else 0)
  }

  function Listed(w: World, v: Vin, c: ConnId): nat
  {
    multiset(ListOf(w.vins, v))[c]
  }

  /** No VIN maps to an empty list, and a connection that is not closed is listed under its VIN. */
  ghost predicate Consistent(w: World)
  {
    && (forall v :: v in w.vins ==> w.vins[v] != [])
    && (forall c :: StatusOf(w, c) != Closed && VinOf(w, c) != NoVin ==> Listed(w, VinOf(w, c), c) > 0)
  }

  lemma AddedList(m: Index, v: Vin, c: ConnId, u: Vin, d: ConnId)
    ensures multiset(ListOf(Added(m, v, c), u))[d]
            == multiset(ListOf(m, u))[d] + (if u == v && d == c then 1 else 0)
  {
    assert multiset(ListOf(m, v) + [c]) == multiset(ListOf(m, v)) + multiset{c};
  }

  lemma RemovedListIs(m: Index, v: Vin, c: ConnId, u: Vin)
    ensures ListOf(Removed(m, v, c), u) == if u == v then WithoutFirst(ListOf(m, v), c) else ListOf(m, u)
  {
  }

  lemma RemovedList(m: Index, v: Vin, c: ConnId, u: Vin, d: ConnId)
    ensures var before := multiset(ListOf(m, u))[d];
            multiset(ListOf(Removed(m, v, c), u))[d]
            == before - (if u == v && d == c && before > 0 then 1 else 0)
  {
    RemovedListIs(m, v, c, u);
  }

  lemma RemovedNonEmpty(m: Index, v: Vin, c: ConnId)
    requires forall x :: x in m ==> m[x] != []
    ensures forall x :: x in Removed(m, v, c) ==> Removed(m, v, c)[x] != []
  {
  }

  lemma StepKeepsConsistent(w: World, e: Event)
    requires Consistent(w) && (e.Login? ==> e.v != NoVin)
    ensures Consistent(Step(w, e))
  {
    var w' := Step(w, e);
    forall d | StatusOf(w', d) != Closed && VinOf(w', d) != NoVin
      ensures Listed(w', VinOf(w', d), d) > 0
    {
      if d != e.c {
        assert Listed(w, VinOf(w, d), d) > 0;
      }
      match e {
        case Login(c, v) => AddedList(w.vins, v, c, VinOf(w', d), d);
        case Close(c) => RemovedList(w.vins, VinOf(w, c), c, VinOf(w', d), d);
      }
    }
    if e.Close? {
      RemovedNonEmpty(w.vins, VinOf(w, e.c), e.c);
    }
  }

  lemma {:induction false} RunIsConsistent(es: seq<Event>)
    requires RealVins(es)
    ensures Consistent(Run(es))
  {
    if es != [] {
      RunIsConsistent(es[..|es| - 1]);
      StepKeepsConsistent(Run(es[..|es| - 1]), es[|es| - 1]);
    }
  }

  /**
   In every run a connection is listed under a VIN once for each login with it, less each close that took effect
   while it had that VIN.
   */
  lemma {:induction false} ListingAccount(es: seq<Event>, c: ConnId, v: Vin)
    requires RealVins(es) && v != NoVin
    ensures Listed(Run(es), v, c) == Logins(es, c, v) - Closes(es, c, v)
    ensures Consistent(Run(es))
  {
    RunIsConsistent(es);
    if es != [] {
      var before, e := es[..|es| - 1], es[|es| - 1];
      var w := Run(before);
      ListingAccount(before, c, v);
      match e {
        case Login(d, u) => AddedList(w.vins, u, d, v, c);
        case Close(d) => RemovedList(w.vins, VinOf(w, d), d, v, c);
      }
    }
  }

  predicate OpenUnder(w: World, c: ConnId, v: Vin)
  {
    StatusOf(w, c) != Closed && VinOf(w, c) == v
  }

  /** Event `j` is a login of `c` that finds it open under the VIN `v`. */
  predicate LoginWhileOpen(es: seq<Event>, j: nat, c: ConnId, v: Vin)
  {
    j < |es| && es[j].Login? && es[j].c == c && OpenUnder(Run(es[..j]), c, v)
  }

  ghost predicate LoggedInAgain(es: seq<Event>, c: ConnId, v: Vin)
  {
    exists j: nat :: LoginWhileOpen(es, j, c, v)
  }

  /** The entries of `c` under `v` beyond the one its next close removes. */
  function Surplus(w: World, c: ConnId, v: Vin): int
  {
    Listed(w, v, c) - (if OpenUnder(w, c, v) then 1 else 0)
  }

  lemma LoggedInAgainSnoc(es: seq<Event>, e: Event, c: ConnId, v: Vin)
    ensures LoggedInAgain(es + [e], c, v) <==> LoggedInAgain(es, c, v) || LoginWhileOpen(es + [e], |es|, c, v)
  {
    var more := es + [e];
    forall j: nat | j < |es|
      ensures LoginWhileOpen(more, j, c, v) <==> LoginWhileOpen(es, j, c, v)
    {
      assert more[..j] == es[..j];
    }
  }

  lemma SurplusStep(w: World, e: Event, c: ConnId, v: Vin)
    requires Consistent(w) && v != NoVin
    ensures Surplus(Step(w, e), c, v)
            == Surplus(w, c, v) + (if e.Login? && e.c == c && OpenUnder(w, c, v) then 1 else 0)
  {
    match e {
      case Login(d, u) => AddedList(w.vins, u, d, v, c);
      case Close(d) => RemovedList(w.vins, VinOf(w, d), d, v, c);
    }
  }

  lemma {:induction false} SurplusIff(es: seq<Event>, c: ConnId, v: Vin)
    requires RealVins(es) && v != NoVin
    ensures Surplus(Run(es), c, v) >= 0
    ensures Surplus(Run(es), c, v) > 0 <==> LoggedInAgain(es, c, v)
  {
    if es != [] {
      var before, e := es[..|es| - 1], es[|es| - 1];
      assert es == before + [e] && es[..|before|] == before;
      SurplusIff(before, c, v);
      RunIsConsistent(before);
      SurplusStep(Run(before), e, c, v);
      LoggedInAgainSnoc(before, e, c, v);
    }
  }

  /**
   A closed connection is still listed under a VIN exactly when it once logged in again while open under it: as each
   close removes one entry, its logins with that VIN then outnumber its closes under it.
   */
  lemma StaleEntryIff(es: seq<Event>, c: ConnId, v: Vin)
    requires RealVins(es) && v != NoVin && StatusOf(Run(es), c) == Closed
    ensures c in ListOf(Run(es).vins, v) <==> LoggedInAgain(es, c, v)
    ensures c in ListOf(Run(es).vins, v) <==> Logins(es, c, v) > Closes(es, c, v)
  {
    SurplusIff(es, c, v);
    ListingAccount(es, c, v);
  }

  /** The shortest such run: two logins with one VIN, then the close. */
  lemma SecondLoginLeavesEntry(c: ConnId, v: Vin)
    requires v != NoVin
    ensures var w := Run([Login(c, v), Login(c, v), Close(c)]);
            StatusOf(w, c) == Closed && ListOf(w.vins, v) == [c]
  {
    var login := Login(c, v);
    RunSnoc([], login);
    RunSnoc([login], login);
    RunSnoc([login, login], Close(c));
    assert [] + [login] == [login] && [login] + [login] == [login, login];
    assert [login, login] + [Close(c)] == [login, login, Close(c)];
    var w1, w2 := Run([login]), Run([login, login]);
    assert ListOf(w1.vins, v) == [c];
    assert ListOf(w2.vins, v) == [c, c];
    assert WithoutFirst([c, c], c) == [c];
  }

  // ---- One login per connection ------------------------------------------------------------------------

  /** Each connection logs in at most once, and not after it was closed. */
  predicate Disciplined(es: seq<Event>)
  {
    forall i, j :: 0 <= i < j < |es| && es[j].Login? ==> es[i].c != es[j].c
  }

  /** The connections that logged in with `v`, in that order, and that no later event closes. */
  function StillOpen(es: seq<Event>, v: Vin): seq<ConnId>
  {
    if es == [] then [] else OpenHead(es, v) + StillOpen(es[1..], v)
  }

  function OpenHead(es: seq<Event>, v: Vin): seq<ConnId>
    requires es != []
  {
    if es[0].Login? && es[0].v == v && Close(es[0].c) !in es[1..] then [es[0].c] else []
  }

  function Without(s: seq<ConnId>, c: ConnId): (r: seq<ConnId>)
  {
    if s == [] then [] else (if s[0] == c then [] else [s[0]]) + Without(s[1..], c)
  }

  lemma WithoutConcat(a: seq<ConnId>, b: seq<ConnId>, c: ConnId)
    requires |a| <= 1
    ensures Without(a + b, c) == Without(a, c) + Without(b, c)
  {
    if a == [] {
      assert a + b == b;
    } else {
      assert (a + b)[1..] == b;
    }
  }

  lemma {:induction false} StillOpenSnoc(es: seq<Event>, e: Event, v: Vin)
    ensures StillOpen(es + [e], v)
            == match e
               case Login(c, u) => StillOpen(es, v) + (if u == v then [c] else [])
               case Close(c) => Without(StillOpen(es, v), c)
    decreases |es|
  {
    if es == [] {
      assert ([e])[1..] == [];
    } else {
      var rest := es[1..];
      assert (es + [e])[1..] == rest + [e];
      StillOpenSnoc(rest, e, v);
      var gone := Close(es[0].c);
      assert gone in rest + [e] <==> gone in rest || e == gone;
      match e {
        case Login(c, u) =>
        case Close(c) => WithoutConcat(OpenHead(es, v), StillOpen(rest, v), c);
      }
    }
  }

  /** Listed at most once: removing the first occurrence removes them all. */
  predicate Distinct(s: seq<ConnId>)
  {
    s == [] || (s[0] !in s[1..] && Distinct(s[1..]))
  }

  lemma {:induction false} WithoutOnce(s: seq<ConnId>, c: ConnId)
    requires Distinct(s)
    ensures Without(s, c) == WithoutFirst(s, c)
    ensures c !in s ==> Without(s, c) == s
  {
    if s != [] {
      WithoutOnce(s[1..], c);
    }
  }

  lemma {:induction false} WithoutIsDistinct(s: seq<ConnId>, c: ConnId)
    requires Distinct(s)
    ensures Distinct(Without(s, c)) && forall d :: d in Without(s, c) ==> d in s
  {
    if s != [] {
      WithoutIsDistinct(s[1..], c);
      var rest := Without(s[1..], c);
      assert ([s[0]] + rest)[1..] == rest && [] + rest == rest;
    }
  }

  lemma DisciplinedPrefix(es: seq<Event>, e: Event)
    requires Disciplined(es + [e])
    ensures Disciplined(es)
    ensures e.Login? ==> forall i :: 0 <= i < |es| ==> es[i].c != e.c
  {
    var all := es + [e];
    forall i, j | 0 <= i < j < |es| && es[j].Login?
      ensures es[i].c != es[j].c
    {
      assert all[i] == es[i] && all[j] == es[j];
    }
    if e.Login? {
      forall i | 0 <= i < |es|
        ensures es[i].c != e.c
      {
        assert all[i] == es[i] && all[|es|] == e;
      }
    }
  }

  /** Connections that occur in no event are neither open nor known. */
  lemma {:induction false} Unmentioned(es: seq<Event>, c: ConnId, v: Vin)
    requires forall i :: 0 <= i < |es| ==> es[i].c != c
    ensures c !in StillOpen(es, v)
  {
    if es != [] {
      Unmentioned(es[1..], c, v);
    }
  }

  lemma {:induction false} OpenIsDistinct(es: seq<Event>, v: Vin)
    requires Disciplined(es)
    ensures Distinct(StillOpen(es, v))
  {
    if es != [] {
      var before, e := es[..|es| - 1], es[|es| - 1];
      assert es == before + [e];
      DisciplinedPrefix(before, e);
      OpenIsDistinct(before, v);
      StillOpenSnoc(before, e, v);
      match e {
        case Login(c, u) =>
          Unmentioned(before, c, v);
          DistinctSnoc(StillOpen(before, v), c);
          assert StillOpen(before, v) + [] == StillOpen(before, v);
        case Close(c) => WithoutIsDistinct(StillOpen(before, v), c);
      }
    }
  }

  lemma {:induction false} DistinctSnoc(s: seq<ConnId>, c: ConnId)
    requires Distinct(s) && c !in s
    ensures Distinct(s + [c])
  {
    if s == [] {
      assert [c][1..] == [];
    } else {
      DistinctSnoc(s[1..], c);
      assert (s + [c])[1..] == s[1..] + [c];
    }
  }

  lemma LoginListed(es: seq<Event>, v: Vin, c: ConnId, u: Vin)
    requires ListOf(Run(es).vins, v) == StillOpen(es, v)
    ensures ListOf(Run(es + [Login(c, u)]).vins, v) == StillOpen(es + [Login(c, u)], v)
  {
    RunSnoc(es, Login(c, u));
    StillOpenSnoc(es, Login(c, u), v);
    assert StillOpen(es, v) + [] == StillOpen(es, v);
  }

  /** A connection is open, as far as the index goes, only under its current VIN. */
  lemma {:induction false} OpenUnderItsVin(es: seq<Event>, v: Vin, c: ConnId)
    requires RealVins(es) && Disciplined(es) && c in StillOpen(es, v)
    ensures StatusOf(Run(es), c) == LoggedIn && VinOf(Run(es), c) == v != NoVin
  {
    var before, e := es[..|es| - 1], es[|es| - 1];
    assert es == before + [e];
    DisciplinedPrefix(before, e);
    StillOpenSnoc(before, e, v);
    OpenIsDistinct(before, v);
    if e.Close? {
      WithoutIsDistinct(StillOpen(before, v), e.c);
      WithoutDrops(StillOpen(before, v), e.c);
    }
    if c in StillOpen(before, v) {
      OpenUnderItsVin(before, v, c);
      if e.Login? && e.c == c {
        Unmentioned(before, c, v);
      }
    }
  }

  lemma {:induction false} WithoutDrops(s: seq<ConnId>, c: ConnId)
    ensures c !in Without(s, c)
  {
    if s != [] {
      WithoutDrops(s[1..], c);
    }
  }

  lemma CloseListed(es: seq<Event>, v: Vin, c: ConnId)
    requires RealVins(es) && Disciplined(es) && ListOf(Run(es).vins, v) == StillOpen(es, v)
    ensures ListOf(Run(es + [Close(c)]).vins, v) == StillOpen(es + [Close(c)], v)
  {
    var w, open := Run(es), StillOpen(es, v);
    RunSnoc(es, Close(c));
    StillOpenSnoc(es, Close(c), v);
    OpenIsDistinct(es, v);
    WithoutOnce(open, c);
    if c in open {
      OpenUnderItsVin(es, v, c);
    }
    CloseChangesList(w, v, c, open);
  }

  lemma CloseChangesList(w: World, v: Vin, c: ConnId, open: seq<ConnId>)
    requires ListOf(w.vins, v) == open
    requires c in open ==> StatusOf(w, c) == LoggedIn && VinOf(w, c) == v != NoVin
    ensures ListOf(Step(w, Close(c)).vins, v) == WithoutFirst(open, c)
  {
    RemovedListIs(w.vins, VinOf(w, c), c, v);
  }

  /**
   When every connection logs in at most once and never after its close, the list of a VIN is exactly the open
   connections that logged in with it, in login order.
   */
  lemma {:induction false} ListIsOpenLogins(es: seq<Event>, v: Vin)
    requires RealVins(es) && Disciplined(es)
    ensures ListOf(Run(es).vins, v) == StillOpen(es, v)
  {
    if es != [] {
      var before, e := es[..|es| - 1], es[|es| - 1];
      assert es == before + [e];
      DisciplinedPrefix(before, e);
      ListIsOpenLogins(before, v);
      match e {
        case Login(c, u) => LoginListed(before, v, c, u);
        case Close(c) => CloseListed(before, v, c);
      }
    }
  }
}
