/** Refreshing statuses: a closed form, idempotence, and independence of the order of refreshes. */
module AcmeRefresh {
  import opened Text
  import opened Storage
  import opened AcmeStore
  import opened AcmeProtocol
  import opened AcmeInvariant
  import opened AcmeSafety

  predicate IsProved(t: Tables, challenge: Id) {
    challenge in t.challenges && t.challenges[challenge].status == Valid
  }

  /** The status an authorization has at `now`, whatever was stored before. */
  function StatusAt(t: Tables, az: Authorization, now: Time): Status {
    if az.status != Pending then az.status
    else if now > az.expires then Invalid
    else if exists k :: 0 <= k < |az.challenges| && IsProved(t, az.challenges[k]) then Valid
    else Pending
  }

  function Settled(t: Tables, az: Authorization, now: Time): Authorization {
    var s := StatusAt(t, az, now);
    az.(status := s, error := if az.status == Pending && s == Valid then None else az.error)
  }

  /** The tables with the authorizations of the list settled. */
  function SettleAll(t: Tables, ids: seq<Id>, now: Time): Tables {
    t.(authzs := map id | id in t.authzs :: if id in ids then Settled(t, t.authzs[id], now) else t.authzs[id])
  }

  /** The status an order has at `now`, from the statuses its authorizations have at `now`. */
  function OrderStatusAt(t: Tables, o: Order, now: Time): Status
    requires forall i :: 0 <= i < |o.authzs| ==> o.authzs[i] in t.authzs
  {
    if o.status != Pending && o.status != Ready then o.status
    else if now > o.expires then Invalid
    else if o.status == Ready then Ready
    else if exists i :: 0 <= i < |o.authzs| && StatusAt(t, t.authzs[o.authzs[i]], now) == Invalid then Invalid
    else if exists i :: 0 <= i < |o.authzs| && StatusAt(t, t.authzs[o.authzs[i]], now) == Pending then Pending
    else Ready
  }

  ghost predicate NoFaults(f: Faults) {
    forall k: nat :: f(k) == Done
  }

  // ---------------------------------------------------------------------------------------------
  // The code computes the closed form

  lemma RefreshAuthorizationIs(f: Faults, db: Db, l: Loaded, now: Time)
    requires NoFaults(f) && Inv(db.t) && IsStored(db.t, l)
    ensures var (d, az, ok) := RefreshAuthorization(f, db, l, now);
            && ok && az == Settled(db.t, l.az, now)
            && d.t == db.t.(authzs := db.t.authzs[l.az.id := az])
  {
    hide Inv;
    InvAuthz(db.t, l.az.id);
    var az := l.az;
    assert SomeValid(l.chs) <==> exists k :: 0 <= k < |az.challenges| && IsProved(db.t, az.challenges[k]) by {
      if k :| 0 <= k < |az.challenges| && IsProved(db.t, az.challenges[k]) {
        assert l.chs[k].status == Valid;
      }
      if k :| 0 <= k < |l.chs| && l.chs[k].status == Valid {
        assert IsProved(db.t, az.challenges[k]);
      }
    }
    assert db.t.authzs[az.id := az] == db.t.authzs;
  }

  lemma SettledTwice(t: Tables, t': Tables, az: Authorization, now: Time)
    requires t'.challenges == t.challenges
    ensures Settled(t', Settled(t, az, now), now) == Settled(t, az, now)
    ensures StatusAt(t', az, now) == StatusAt(t, az, now)
  {}

  /** The statuses at `now` of a list of authorizations. */
  function StatusesAt(t: Tables, ids: seq<Id>, now: Time): seq<Status>
    requires forall i :: 0 <= i < |ids| ==> ids[i] in t.authzs
  {
    seq(|ids|, i requires 0 <= i < |ids| => StatusAt(t, t.authzs[ids[i]], now))
  }

  lemma {:induction false} RefreshAllIs(f: Faults, db: Db, ids: seq<Id>, now: Time, who: Id)
    requires NoFaults(f) && Inv(db.t) && OwnAuthzs(db.t, ids, who)
    ensures var (d, statuses) := RefreshAll(f, db, ids, now);
            d.t == SettleAll(db.t, ids, now) && statuses == Some(StatusesAt(db.t, ids, now))
    decreases |ids|
  {
    hide Inv, Moves, RefreshAuthorization;
    if ids == [] {
      assert SettleAll(db.t, ids, now).authzs == db.t.authzs;
    } else {
      var (d1, l) := GetAuthorization(f, db, ids[0]);
      InvAuthz(db.t, ids[0]);
      RefreshAuthorizationIs(f, d1, l.value, now);
      RefreshAuthorizationSafe(f, d1, l.value, now);
      var (d2, az, ok) := RefreshAuthorization(f, d1, l.value, now);
      OwnAuthzsKept(db.t, d2.t, ids, who);
      RefreshAllIs(f, d2, ids[1..], now, who);
      SettleHeadThenTail(db.t, d2.t, ids, now);
    }
  }

  lemma SettleHeadThenTail(t: Tables, t1: Tables, ids: seq<Id>, now: Time)
    requires ids != [] && forall i :: 0 <= i < |ids| ==> ids[i] in t.authzs
    requires t1 == t.(authzs := t.authzs[ids[0] := Settled(t, t.authzs[ids[0]], now)])
    ensures SettleAll(t1, ids[1..], now) == SettleAll(t, ids, now)
    ensures [Settled(t, t.authzs[ids[0]], now).status] + StatusesAt(t1, ids[1..], now) == StatusesAt(t, ids, now)
  {
    var a, b := SettleAll(t1, ids[1..], now), SettleAll(t, ids, now);
    forall id | id in t.authzs ensures a.authzs[id] == b.authzs[id] {
      SettledTwice(t, t1, t.authzs[id], now);
      assert id in ids <==> id == ids[0] || id in ids[1..];
      AlsoSettled(t, t1, t.authzs[id], now);
    }
    assert a.authzs == b.authzs;
    forall i | 1 <= i < |ids| ensures StatusAt(t1, t1.authzs[ids[i]], now) == StatusAt(t, t.authzs[ids[i]], now) {
      SettledTwice(t, t1, t.authzs[ids[i]], now);
      assert StatusAt(t1, Settled(t, t.authzs[ids[i]], now), now) == StatusAt(t, t.authzs[ids[i]], now);
      assert StatusAt(t1, t.authzs[ids[i]], now) == StatusAt(t, t.authzs[ids[i]], now);
    }
    assert forall i :: 0 <= i < |ids| - 1 ==> ids[1..][i] == ids[i + 1];
  }

  lemma AlsoSettled(t: Tables, t1: Tables, az: Authorization, now: Time)
    requires t1.challenges == t.challenges
    ensures Settled(t1, az, now) == Settled(t, az, now)
  {
    SettledTwice(t, t1, az, now);
  }

  /** Without storage failures a refresh succeeds, stores the closed form, and returns what it stored. */
  lemma RefreshOrderIs(f: Faults, db: Db, o: Order, now: Time)
    requires NoFaults(f) && Inv(db.t) && o.id in db.t.orders && db.t.orders[o.id] == o
    ensures forall i :: 0 <= i < |o.authzs| ==> o.authzs[i] in db.t.authzs
    ensures var (d, o1, v) := RefreshOrder(f, db, o, now);
            && v == Fine && o1.status == OrderStatusAt(db.t, o, now)
            && d.t == (if o.status == Pending && now <= o.expires then SettleAll(db.t, o.authzs, now) else db.t)
                      .(orders := db.t.orders[o.id := o1])
            && o1.error == (if o1.status != o.status && now > o.expires then Some(Malformed) else o.error)
            && o1 == o.(status := o1.status, error := o1.error)
  {
    hide Inv, Moves, RefreshAll, SettleAll, StatusAt;
    InvOrder(db.t, o.id);
    assert db.t.orders[o.id := o] == db.t.orders;
    if o.status == Pending && now <= o.expires {
      var (d, statuses) := RefreshAll(f, db, o.authzs, now);
      RefreshAllIs(f, db, o.authzs, now, o.account);
      RefreshAllKeepsOrders(f, db, o.authzs, now);
      RefreshAllSafe(f, db, o.authzs, now, o.account);
      DecideIsTotal(statuses.value);
      DecideIsOrderStatus(db.t, o, now);
    }
  }

  lemma DecideIsOrderStatus(t: Tables, o: Order, now: Time)
    requires o.status == Pending && now <= o.expires
    requires forall i :: 0 <= i < |o.authzs| ==>
      o.authzs[i] in t.authzs && Basic(StatusAt(t, t.authzs[o.authzs[i]], now))
    ensures Decide(StatusesAt(t, o.authzs, now)) == Some(OrderStatusAt(t, o, now))
  {
    hide StatusAt;
    var s := StatusesAt(t, o.authzs, now);
    DecideIsTotal(s);
    assert forall i :: 0 <= i < |s| ==> s[i] == StatusAt(t, t.authzs[o.authzs[i]], now);
    if Decide(s).value == Pending {
      var i :| 0 <= i < |s| && s[i] != Valid;
      assert StatusAt(t, t.authzs[o.authzs[i]], now) == Pending;
    }
  }

  // ---------------------------------------------------------------------------------------------
  // Consequences

  /** Settling authorizations, of this order or not, does not change what an order's status at `now` is. */
  lemma SettlingKeepsOrderStatus(t: Tables, ids: seq<Id>, o: Order, now: Time)
    requires forall i :: 0 <= i < |o.authzs| ==> o.authzs[i] in t.authzs
    ensures OrderStatusAt(SettleAll(t, ids, now), o, now) == OrderStatusAt(t, o, now)
  {
    var t' := SettleAll(t, ids, now);
    forall i | 0 <= i < |o.authzs|
      ensures StatusAt(t', t'.authzs[o.authzs[i]], now) == StatusAt(t, t.authzs[o.authzs[i]], now)
    {
      SettledTwice(t, t', t.authzs[o.authzs[i]], now);
    }
  }

  /** At a fixed time, a second refresh of an order changes nothing. */
  lemma RefreshIsIdempotent(f: Faults, db: Db, o: Order, now: Time)
    requires NoFaults(f) && Inv(db.t) && o.id in db.t.orders && db.t.orders[o.id] == o
    ensures var (d1, o1, v1) := RefreshOrder(f, db, o, now);
            var (d2, o2, v2) := RefreshOrder(f, d1, o1, now);
            v1 == v2 == Fine && d2.t == d1.t && o2 == o1
  {
    hide Inv, Moves, RefreshOrder, OrderStatusAt;
    var (d1, o1, v1) := RefreshOrder(f, db, o, now);
    RefreshOrderIs(f, db, o, now);
    RefreshOrderSafe(f, db, o, now);
    RefreshOrderIs(f, d1, o1, now);
    StatusIsStable(db.t, d1.t, o, o1, now);
    assert d1.t.orders[o1.id := o1] == d1.t.orders;
    MovedOrder(db.t, d1.t, o.account, o.id);
    if o1.status == Pending && now <= o1.expires {
      SettlingTwice(db.t, d1.t, o.authzs, now);
    }
  }

  lemma SettlingTwice(t: Tables, t1: Tables, ids: seq<Id>, now: Time)
    requires t1.authzs == SettleAll(t, ids, now).authzs && t1.challenges == t.challenges
    ensures SettleAll(t1, ids, now) == t1
  {
    forall id | id in t.authzs ensures SettleAll(t1, ids, now).authzs[id] == t1.authzs[id] {
      SettledTwice(t, t1, t.authzs[id], now);
    }
    assert SettleAll(t1, ids, now).authzs == t1.authzs;
  }

  lemma StatusIsStable(t: Tables, t1: Tables, o: Order, o1: Order, now: Time)
    requires forall i :: 0 <= i < |o.authzs| ==> o.authzs[i] in t.authzs
    requires o1 == o.(status := OrderStatusAt(t, o, now), error := o1.error)
    requires t1.challenges == t.challenges
    requires t1.authzs == (if o.status == Pending && now <= o.expires then SettleAll(t, o.authzs, now) else t).authzs
    ensures OrderStatusAt(t1, o1, now) == o1.status
  {
    if o1.status == Pending {
      SettlingKeepsOrderStatus(t, o.authzs, o, now);
      assert forall az :: StatusAt(t1, az, now) == StatusAt(t, az, now);
      assert OrderStatusAt(t1, o1, now) == OrderStatusAt(SettleAll(t, o.authzs, now), o, now);
    }
  }

  /** At a fixed time, refreshing an authorization first does not change the order that a refresh stores. */
  lemma AuthorizationFirstMakesNoDifference(f: Faults, db: Db, o: Order, l: Loaded, now: Time)
    requires NoFaults(f) && Inv(db.t) && o.id in db.t.orders && db.t.orders[o.id] == o && IsStored(db.t, l)
    ensures
      var (d0, _, ok) := RefreshAuthorization(f, db, l, now);
      var (d1, o1, v1) := RefreshOrder(f, d0, o, now);
      var (d2, o2, v2) := RefreshOrder(f, db, o, now);
      ok && v1 == v2 == Fine && o1 == o2 && d1.t.orders == d2.t.orders
  {
    hide Inv, Moves, RefreshOrder, RefreshAuthorization, OrderStatusAt;
    var (d0, az, ok) := RefreshAuthorization(f, db, l, now);
    RefreshAuthorizationIs(f, db, l, now);
    RefreshAuthorizationSafe(f, db, l, now);
    RefreshAuthorizationKeepsOrders(f, db, l, now);
    RefreshOrderIs(f, d0, o, now);
    RefreshOrderIs(f, db, o, now);
    assert d0.t == SettleAll(db.t, [l.az.id], now) by {
      assert d0.t.authzs == SettleAll(db.t, [l.az.id], now).authzs;
    }
    SettlingKeepsOrderStatus(db.t, [l.az.id], o, now);
  }

  /** Whatever the store holds and however its calls end, the "unexpected authz status" error never arises. */
  lemma {:induction false} NoUnexpectedStatus(f: Faults, db: Db, ids: seq<Id>, now: Time)
    ensures var (_, statuses) := RefreshAll(f, db, ids, now);
            statuses.Some? ==>
              Decide(statuses.value).Some? && forall i :: 0 <= i < |statuses.value| ==> Basic(statuses.value[i])
    decreases |ids|
  {
    var (d, statuses) := RefreshAll(f, db, ids, now);
    if ids != [] && statuses.Some? {
      var (d1, l) := GetAuthorization(f, db, ids[0]);
      var (d2, az, ok) := RefreshAuthorization(f, d1, l.value, now);
      NoUnexpectedStatus(f, d2, ids[1..], now);
    }
    if statuses.Some? { DecideIsTotal(statuses.value); }
  }
}
