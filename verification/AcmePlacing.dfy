/** What a new order leaves in the store, and what the refreshed list of an account holds, without storage failures
    (acme/api/order.go, acme/db/nosql/order.go). */
module AcmePlacing {
  import opened Text
  import opened Csr
  import opened Storage
  import opened AcmeStore
  import opened AcmeProtocol
  import opened AcmeInvariant
  import opened AcmeSafety
  import opened AcmeCertificates
  import opened AcmeRefresh
  import opened AcmeLists
  import opened AcmeRequests

  // ---------------------------------------------------------------------------------------------
  // New authorizations

  /** The types that are enabled, in order. */
  function Enabled(types: seq<ChallengeType>, enabled: ChallengeType -> bool): seq<ChallengeType> {
    if types == [] then []
    else (if enabled(types[0]) then [types[0]] else []) + Enabled(types[1..], enabled)
  }

  lemma {:induction false} EnabledAre(types: seq<ChallengeType>, enabled: ChallengeType -> bool)
    requires forall i, j :: 0 <= i < j < |types| ==> types[i] != types[j]
    ensures var on := Enabled(types, enabled);
            && (forall c :: c in on <==> c in types && enabled(c))
            && (forall i, j :: 0 <= i < j < |on| ==> on[i] != on[j])
  {
    if types != [] {
      EnabledAre(types[1..], enabled);
      assert types == [types[0]] + types[1..];
    }
  }

  /** The challenges with these ids are new, pending, and of these types. */
  ghost predicate Offered(chs: map<Id, Challenge>, ids: seq<Id>, az: Authorization, types: seq<ChallengeType>) {
    && |ids| == |types|
    && forall k :: 0 <= k < |ids| ==>
         ids[k] in chs
         && chs[ids[k]] == Challenge(ids[k], az.account, az.identifier.value, types[k], Pending, az.token, None, None)
  }

  /** Nothing that was there has changed. */
  ghost predicate Extends(t: Tables, t': Tables) {
    && (forall id :: id in t.challenges ==> id in t'.challenges && t'.challenges[id] == t.challenges[id])
    && (forall id :: id in t.authzs ==> id in t'.authzs && t'.authzs[id] == t.authzs[id])
  }

  lemma {:induction false} CreateChallengesIs(f: Faults, db: Db, az: Authorization, types: seq<ChallengeType>,
                                              enabled: ChallengeType -> bool)
    requires NoFaults(f) && forall id :: id in db.t.challenges ==> id < db.t.nextId
    ensures
      var (d, ids) := CreateChallenges(f, db, az, types, enabled);
      && ids.Some? && Offered(d.t.challenges, ids.value, az, Enabled(types, enabled)) && Extends(db.t, d.t)
      && db.t.nextId <= d.t.nextId && forall id :: id in d.t.challenges ==> id < d.t.nextId
    decreases |types|
  {
    if types != [] {
      if !enabled(types[0]) {
        CreateChallengesIs(f, db, az, types[1..], enabled);
      } else {
        var id := db.t.nextId;
        var c := Challenge(0, az.account, az.identifier.value, types[0], Pending, az.token, None, None);
        var (d, _) := CreateChallenge(f, db, c);
        CreateChallengesIs(f, d, az, types[1..], enabled);
        var (d1, rest) := CreateChallenges(f, d, az, types[1..], enabled);
        assert id in d.t.challenges && d1.t.challenges[id] == d.t.challenges[id];
        var ids := [id] + rest.value;
        assert forall k :: 0 < k < |ids| ==> ids[k] == rest.value[k - 1];
      }
    }
  }

  /** In every run, whatever the events and however storage calls end, an authorization for an address has HTTP and TLS
      challenges only, one for a wildcard only DNS, and one for a permanent identifier only attestations. */
  lemma ChallengesAreAdmitted(f: Faults, net: Net, now: Time, events: seq<Event>, azId: Id, k: nat)
    requires
      var t := Run(f, net, Start(now), events).db.t;
      azId in t.authzs && k < |t.authzs[azId].challenges|
    ensures
      var t := Run(f, net, Start(now), events).db.t;
      var az := t.authzs[azId];
      && az.challenges[k] in t.challenges
      && var c := t.challenges[az.challenges[k]];
      && c.account == az.account && c.token == az.token && c.value == az.identifier.value
      && c.kind in (match az.identifier.kind
                    case IP => {HTTP01, TLSALPN01}
                    case DNS => if az.wildcard then {DNS01} else {DNS01, HTTP01, TLSALPN01}
                    case PermanentIdentifier => {DeviceAttest01}
                    case OtherKind(_) => {})
  {
    hide Run, Inv;
    RunSafe(f, net, now, events);
    InvAuthz(Run(f, net, Start(now), events).db.t, azId);
  }

  /** A pending authorization for the identifier, with exactly one pending challenge for each type that is enabled and
      admitted, and the same token. */
  ghost predicate MadeFor(t: Tables, azId: Id, account: Id, identifier: Identifier, expires: Time, token: string,
                          enabled: ChallengeType -> bool)
  {
    && azId in t.authzs
    && var az := t.authzs[azId];
    && az.id == azId && az.account == account && az.token == token && az.status == Pending && az.error == None
    && az.expires == expires && az.identifier.kind == identifier.kind
    && az.wildcard == HasPrefix(identifier.value, "*.")
    && identifier.value == (if az.wildcard then "*." else "") + az.identifier.value
    && exists types ::
         && Offered(t.challenges, az.challenges, az, types)
         && (forall c :: c in types <==> enabled(c) && Admits(identifier.kind, az.wildcard, c))
         && (forall i, j :: 0 <= i < j < |types| ==> types[i] != types[j])
  }

  lemma NewAuthorizationIs(f: Faults, db: Db, account: Id, identifier: Identifier, expires: Time, token: string,
                           enabled: ChallengeType -> bool)
    requires NoFaults(f) && Inv(db.t)
    ensures
      var (d, id) := NewAuthorization(f, db, account, identifier, expires, Some(token), enabled);
      && id.Some? && Extends(db.t, d.t) && id.value !in db.t.authzs
      && MadeFor(d.t, id.value, account, identifier, expires, token, enabled)
  {
    hide CreateChallenges, ChallengeTypes, Admits, Inv, Offered;
    InvChallengeIds(db.t);
    InvFresh(db.t);
    var (value, wildcard) := TrimWildcard(identifier.value);
    var name := Identifier(identifier.kind, value);
    var az := Authorization(0, account, token, name, Pending, [], wildcard, expires, None);
    var types := ChallengeTypes(identifier.kind, wildcard);
    CreateChallengesIs(f, db, az, types, enabled);
    CreateChallengesIsCalm(f, db, az, types, enabled);
    TypesAreAdmitted(identifier.kind, wildcard);
    EnabledAre(types, enabled);
    var (d, ids) := CreateChallenges(f, db, az, types, enabled);
    var az1 := az.(challenges := ids.value);
    OfferedAlso(d.t.challenges, ids.value, az, az1.(id := d.t.nextId), Enabled(types, enabled));
  }

  lemma OfferedAlso(chs: map<Id, Challenge>, ids: seq<Id>, az: Authorization, az1: Authorization,
                    types: seq<ChallengeType>)
    requires Offered(chs, ids, az, types)
    requires az1.account == az.account && az1.identifier == az.identifier && az1.token == az.token
    ensures Offered(chs, ids, az1, types)
  {}

  lemma InvChallengeIds(t: Tables)
    requires Inv(t)
    ensures forall id :: id in t.challenges || id in t.authzs ==> id < t.nextId
  {}

  lemma MadeForKept(t: Tables, t': Tables, azId: Id, account: Id, identifier: Identifier, expires: Time, token: string,
                    enabled: ChallengeType -> bool)
    requires MadeFor(t, azId, account, identifier, expires, token, enabled)
    requires t'.challenges == t.challenges || Extends(t, t')
    requires azId in t'.authzs && t'.authzs[azId] == t.authzs[azId]
    ensures MadeFor(t', azId, account, identifier, expires, token, enabled)
  {
    hide Admits;
    var az := t.authzs[azId];
    var types :| && Offered(t.challenges, az.challenges, az, types)
      && (forall c :: c in types <==> enabled(c) && Admits(identifier.kind, az.wildcard, c))
      && (forall i, j :: 0 <= i < j < |types| ==> types[i] != types[j]);
    assert Offered(t'.challenges, az.challenges, az, types);
  }

  /** The authorizations of the identifiers from position `i` on. */
  ghost predicate AllMade(t: Tables, ids: seq<Id>, account: Id, r: NewOrderRequest, i: nat, expires: Time) {
    |ids| + i == |r.identifiers| && forall k :: 0 <= k < |ids| ==> MadeAt(t, ids[k], account, r, i + k, expires)
  }

  /** The authorization was made for the identifier at position `i`. */
  ghost predicate MadeAt(t: Tables, azId: Id, account: Id, r: NewOrderRequest, i: nat, expires: Time) {
    && i < |r.identifiers| && r.token(i).Some?
    && MadeFor(t, azId, account, r.identifiers[i], expires, r.token(i).value, r.enabled)
  }

  lemma MadeAtKept(t: Tables, t': Tables, azId: Id, account: Id, r: NewOrderRequest, i: nat, expires: Time)
    requires MadeAt(t, azId, account, r, i, expires) && (t'.challenges == t.challenges || Extends(t, t'))
    requires azId in t'.authzs && azId in t.authzs && t'.authzs[azId] == t.authzs[azId]
    ensures MadeAt(t', azId, account, r, i, expires)
  {
    hide MadeFor;
    MadeForKept(t, t', azId, account, r.identifiers[i], expires, r.token(i).value, r.enabled);
  }

  lemma MadeAtStored(t: Tables, azId: Id, account: Id, r: NewOrderRequest, i: nat, expires: Time)
    requires MadeAt(t, azId, account, r, i, expires)
    ensures azId in t.authzs
  {}

  lemma {:induction false} NewAuthorizationsIs(f: Faults, db: Db, account: Id, r: NewOrderRequest, i: nat,
                                               expires: Time)
    requires NoFaults(f) && Inv(db.t) && i <= |r.identifiers|
    requires forall k :: i <= k < |r.identifiers| ==> r.token(k).Some?
    ensures
      var (d, ids) := NewAuthorizations(f, db, account, r, i, expires);
      ids.Some? && Extends(db.t, d.t) && AllMade(d.t, ids.value, account, r, i, expires)
    decreases |r.identifiers| - i
  {
    hide Inv, Moves, NewAuthorization, MadeAt;
    if i < |r.identifiers| {
      var identifier, token := r.identifiers[i], r.token(i).value;
      NewAuthorizationIs(f, db, account, identifier, expires, token, r.enabled);
      NewAuthorizationSafe(f, db, account, identifier, expires, r.token(i), r.enabled);
      var (d, id) := NewAuthorization(f, db, account, identifier, expires, r.token(i), r.enabled);
      NewAuthorizationsIs(f, d, account, r, i + 1, expires);
      var (d1, rest) := NewAuthorizations(f, d, account, r, i + 1, expires);
      MadeIs(d.t, id.value, account, r, i, expires);
      MadeAtKept(d.t, d1.t, id.value, account, r, i, expires);
      var ids := [id.value] + rest.value;
      forall k | 0 <= k < |ids| ensures MadeAt(d1.t, ids[k], account, r, i + k, expires) {
        if k > 0 {
          assert MadeAt(d1.t, rest.value[k - 1], account, r, i + 1 + (k - 1), expires) && i + 1 + (k - 1) == i + k;
        }
      }
    }
  }

  lemma MadeIs(t: Tables, azId: Id, account: Id, r: NewOrderRequest, i: nat, expires: Time)
    requires i < |r.identifiers| && r.token(i).Some?
    requires MadeFor(t, azId, account, r.identifiers[i], expires, r.token(i).value, r.enabled)
    ensures MadeAt(t, azId, account, r, i, expires) && azId in t.authzs
  {}

  // ---------------------------------------------------------------------------------------------
  // Refreshed lists

  predicate HasAuthzs(t: Tables, o: Order) {
    forall i :: 0 <= i < |o.authzs| ==> o.authzs[i] in t.authzs
  }

  /** The order is stored and still pending at `now`. */
  predicate PendingAt(t: Tables, id: Id, now: Time) {
    id in t.orders && HasAuthzs(t, t.orders[id]) && OrderStatusAt(t, t.orders[id], now) == Pending
  }

  /** The listed orders that are still pending, in order. */
  function StillPending(t: Tables, ids: seq<Id>, now: Time): seq<Id> {
    if ids == [] then []
    else (if PendingAt(t, ids[0], now) then [ids[0]] else []) + StillPending(t, ids[1..], now)
  }

  /** The order with its status at `now`; one that expires gets an error. */
  function SettledOrder(t: Tables, o: Order, now: Time): Order
    requires HasAuthzs(t, o)
  {
    var s := OrderStatusAt(t, o, now);
    o.(status := s, error := if s != o.status && now > o.expires then Some(Malformed) else o.error)
  }

  ghost predicate OrderSettles(t: Tables, o: Order, o': Order, now: Time) {
    o' == o || (HasAuthzs(t, o) && o' == SettledOrder(t, o, now))
  }

  /** Some authorizations and orders were brought to their status at `now`. */
  ghost predicate Settles(t: Tables, t': Tables, now: Time) {
    && t'.challenges == t.challenges && t'.lists == t.lists
    && t'.orders.Keys == t.orders.Keys && t'.authzs.Keys == t.authzs.Keys
    && (forall id :: id in t.authzs ==> t'.authzs[id] in {t.authzs[id], Settled(t, t.authzs[id], now)})
    && (forall id :: id in t.orders ==> OrderSettles(t, t.orders[id], t'.orders[id], now))
  }

  lemma RefreshSettles(f: Faults, db: Db, o: Order, now: Time)
    requires NoFaults(f) && Inv(db.t) && o.id in db.t.orders && db.t.orders[o.id] == o
    ensures var (d, o1, v) := RefreshOrder(f, db, o, now);
            && v == Fine && Settles(db.t, d.t, now)
            && (o1.status == Pending <==> PendingAt(db.t, o.id, now))
  {
    hide Inv, RefreshOrder, OrderStatusAt, Settled;
    RefreshOrderIs(f, db, o, now);
  }

  lemma SettledStatus(t: Tables, t': Tables, id: Id, now: Time)
    requires Settles(t, t', now) && id in t.authzs
    ensures StatusAt(t', t'.authzs[id], now) == StatusAt(t, t.authzs[id], now)
    ensures Settled(t', t'.authzs[id], now) == Settled(t, t.authzs[id], now)
  {
    var az := t.authzs[id];
    SettledTwice(t, t', az, now);
    AlsoSettled(t, t', az, now);
  }

  lemma SettledOrderStatus(t: Tables, t': Tables, id: Id, now: Time)
    requires Settles(t, t', now) && id in t.orders && HasAuthzs(t, t.orders[id])
    ensures HasAuthzs(t', t'.orders[id]) && OrderStatusAt(t', t'.orders[id], now) == OrderStatusAt(t, t.orders[id], now)
  {
    hide StatusAt, Settled;
    var o := t.orders[id];
    assert OrderSettles(t, o, t'.orders[id], now);
    forall i | 0 <= i < |o.authzs|
      ensures StatusAt(t', t'.authzs[o.authzs[i]], now) == StatusAt(t, t.authzs[o.authzs[i]], now) {
      SettledStatus(t, t', o.authzs[i], now);
    }
  }

  lemma SettlesTransitive(t: Tables, t1: Tables, t2: Tables, now: Time)
    requires Settles(t, t1, now) && Settles(t1, t2, now)
    ensures Settles(t, t2, now)
  {
    hide StatusAt, Settled, OrderStatusAt;
    forall id | id in t.authzs ensures t2.authzs[id] in {t.authzs[id], Settled(t, t.authzs[id], now)} {
      SettledStatus(t, t1, id, now);
    }
    forall id | id in t.orders ensures OrderSettles(t, t.orders[id], t2.orders[id], now) {
      assert OrderSettles(t, t.orders[id], t1.orders[id], now) && OrderSettles(t1, t1.orders[id], t2.orders[id], now);
      if t2.orders[id] != t1.orders[id] {
        assert HasAuthzs(t, t.orders[id]);
        SettledOrderStatus(t, t1, id, now);
      }
    }
  }

  lemma {:induction false} StillPendingKept(t: Tables, t': Tables, ids: seq<Id>, now: Time)
    requires Settles(t, t', now) && forall i :: 0 <= i < |ids| ==> ids[i] in t.orders ==> HasAuthzs(t, t.orders[ids[i]])
    ensures StillPending(t', ids, now) == StillPending(t, ids, now)
  {
    hide Settles, OrderStatusAt;
    if ids != [] {
      if ids[0] in t.orders { SettledOrderStatus(t, t', ids[0], now); }
      SettledKeys(t, t', now);
      StillPendingKept(t, t', ids[1..], now);
    }
  }

  lemma SettledKeys(t: Tables, t': Tables, now: Time)
    requires Settles(t, t', now)
    ensures t'.orders.Keys == t.orders.Keys
  {}

  /** Without storage failures the refreshed list holds the listed orders that are still pending, in order. */
  lemma {:induction false} RefreshListedIs(f: Faults, db: Db, ids: seq<Id>, now: Time, who: Id)
    requires NoFaults(f) && Inv(db.t) && OwnOrders(db.t, ids, who) && !Missing(ids, db.t.orders.Keys)
    ensures var (d, pending) := RefreshListed(f, db, ids, now);
            pending == Some(StillPending(db.t, ids, now)) && Settles(db.t, d.t, now)
    decreases |ids|
  {
    hide Inv, Moves, RefreshOrder, PendingAt, Settles;
    if ids == [] {
      SettlesReflexive(db.t, now);
    } else {
      var (d1, o) := GetOrder(f, db, ids[0]);
      InvOrder(db.t, ids[0]);
      RefreshSettles(f, d1, o.value, now);
      RefreshOrderSafe(f, d1, o.value, now);
      RefreshOrderKeepsKeys(f, d1, o.value, now);
      var d2 := RefreshOrder(f, d1, o.value, now).0;
      OwnOrdersKept(db.t, d2.t, ids, who);
      RefreshListedIs(f, d2, ids[1..], now, who);
      forall i | 0 <= i < |ids[1..]| ensures ids[1..][i] in db.t.orders && HasAuthzs(db.t, db.t.orders[ids[1..][i]]) {
        InvOrder(db.t, ids[i + 1]);
      }
      StillPendingKept(db.t, d2.t, ids[1..], now);
      SettlesTransitive(db.t, d2.t, RefreshListed(f, d2, ids[1..], now).0.t, now);
    }
  }

  lemma SettlesReflexive(t: Tables, now: Time)
    ensures Settles(t, t, now)
  {
    hide Settled;
  }

  /** updateAddOrderIDs without storage failures: the saved list holds the orders still pending, and the new one. */
  lemma SavedListIs(f: Faults, db: Db, account: Id, added: Option<Id>, now: Time)
    requires NoFaults(f) && Inv(db.t) && !Dangles(db.t, account)
    ensures
      var (d, ids) := UpdateOrderList(f, db, account, added, now);
      var list := StillPending(db.t, ListOf(db.t, account), now) + if added.Some? then [added.value] else [];
      && ids == Some(list) && ListOf(d.t, account) == list
      && Settles(db.t, d.t.(lists := db.t.lists), now)
  {
    hide Inv, RefreshListed, Missing, StillPending, Settles;
    ListIsOwn(db.t, account);
    var d := Read(f, db).0;
    RefreshListedIs(f, d, ListOf(db.t, account), now, account);
    var d1 := RefreshListed(f, d, ListOf(db.t, account), now).0;
    SettlesKeepsLists(db.t, d1.t, now);
    var ids := StillPending(db.t, ListOf(db.t, account), now) + if added.Some? then [added.value] else [];
    ListSaved(f, d1, account, ids);
    SaveListKeepsOrders(f, d1, account, ids);
    assert SaveList(f, d1, account, ids).0.t.(lists := db.t.lists) == d1.t;
  }

  lemma SettlesKeepsLists(t: Tables, t': Tables, now: Time)
    requires Settles(t, t', now)
    ensures t'.lists == t.lists
  {}

  // ---------------------------------------------------------------------------------------------
  // New orders

  /** The identifiers that may be ordered: addresses, names that pass the check without a leading `*.`, and permanent
      identifiers that are not empty; at least one. */
  ghost predicate WellFormed(net: Net, r: NewOrderRequest) {
    && |r.identifiers| > 0
    && forall i :: 0 <= i < |r.identifiers| ==>
         var id := r.identifiers[i];
         && (id.kind == IP ==> |net.parse(id.value)| == 16)
         && (id.kind == DNS ==> forall rest ::
               (id.value == "*." + rest || (id.value == rest && !HasPrefix(rest, "*."))) ==> r.nameOk(rest))
         && (id.kind == PermanentIdentifier ==> |id.value| > 0)
         && !id.kind.OtherKind?
  }

  lemma WellFormedIs(net: Net, r: NewOrderRequest)
    ensures WellFormed(net, r) <==> RequestOk(net, r)
  {
    forall i | 0 <= i < |r.identifiers| && r.identifiers[i].kind == DNS
      ensures IdentifierOk(net, r.nameOk, r.identifiers[i]) <==>
              forall rest ::
                (r.identifiers[i].value == "*." + rest || (r.identifiers[i].value == rest && !HasPrefix(rest, "*.")))
                ==> r.nameOk(rest) {
      var value := r.identifiers[i].value;
      assert forall rest :: value == "*." + rest ==> rest == value[2..] && HasPrefix(value, "*.");
      assert HasPrefix(value, "*.") ==> value == "*." + value[2..];
    }
  }

  /** The order as it is stored: pending for a day, from the dates asked for or else from a minute ago on and for the
      default duration. */
  predicate PlacedAs(o: Order, id: Id, account: Id, provisioner: Id, r: NewOrderRequest, now: Time) {
    && o.id == id && o.account == account && o.provisioner == provisioner && o.status == Pending
    && o.expires == now + 86400 && o.identifiers == r.identifiers && o.cert == None && o.error == None
    && o.notBefore == (if r.notBefore.Some? then r.notBefore.value else now - 60)
    && o.notAfter == (if r.notAfter.Some? then r.notAfter.value
                      else if r.notBefore.Some? then r.notBefore.value + r.duration
                      else now + r.duration)
  }

  /** A request that is refused as malformed or not allowed changes nothing, however storage calls end. */
  lemma RefusedOrders(f: Faults, net: Net, w: World, a: Id, provisioner: Id, r: NewOrderRequest)
    requires Inv(w.db.t) && Passes(f, w.db, a)
    ensures
      var (w', v) := Step(f, net, w, Act(a, PlaceOrder(provisioner, r)));
      var allowed := forall i :: 0 <= i < |r.identifiers| ==> r.allowed(r.identifiers[i]);
      && (v == Failed(Malformed) <==> !WellFormed(net, r))
      && (v == Failed(RejectedIdentifier) <==> WellFormed(net, r) && !allowed)
      && (v in {Failed(Malformed), Failed(RejectedIdentifier)} ==> w'.db.t == w.db.t)
  {
    hide Inv, NewAuthorizations, CreateOrder, RequestOk, WellFormed;
    WellFormedIs(net, r);
    Passing(f, net, w, a, PlaceOrder(provisioner, r));
  }

  /** Without storage failures, a request that is well-formed and allowed, of an account whose list is whole, stores one
      order as asked for, with one new authorization for each identifier, and puts it at the end of the list. */
  lemma PlacedOrderIs(f: Faults, net: Net, w: World, a: Id, provisioner: Id, r: NewOrderRequest)
    requires NoFaults(f) && Inv(w.db.t) && Passes(f, w.db, a) && !Dangles(w.db.t, a) && WellFormed(net, r)
    requires forall i :: 0 <= i < |r.identifiers| ==> r.allowed(r.identifiers[i]) && r.token(i).Some?
    ensures
      var (w', v) := Step(f, net, w, Act(a, PlaceOrder(provisioner, r)));
      v == Fine && w'.signed == w.signed && w'.now == w.now && Placed(w.db.t, w'.db.t, a, provisioner, r, w.now)
  {
    hide Inv, NewOrder, WellFormed, Placed, Dangles, RequestOk;
    WellFormedIs(net, r);
    Passing(f, net, w, a, PlaceOrder(provisioner, r));
    NewOrderIs(f, net, w.db.(ops := w.db.ops + 1), a, provisioner, r, w.now);
  }

  ghost predicate Placed(t: Tables, t': Tables, account: Id, provisioner: Id, r: NewOrderRequest, now: Time) {
    exists id ::
      && id !in t.orders && t'.orders.Keys == t.orders.Keys + {id}
      && PlacedAs(t'.orders[id], id, account, provisioner, r, now)
      && AllMade(t', t'.orders[id].authzs, account, r, 0, now + 86400)
      && ListOf(t', account) == StillPending(t, ListOf(t, account), now) + [id]
  }

  lemma NewOrderIs(f: Faults, net: Net, db: Db, account: Id, provisioner: Id, r: NewOrderRequest, now: Time)
    requires NoFaults(f) && Inv(db.t) && !Dangles(db.t, account) && RequestOk(net, r)
    requires forall i :: 0 <= i < |r.identifiers| ==> r.allowed(r.identifiers[i]) && r.token(i).Some?
    ensures var (d, v) := NewOrder(f, net, db, account, provisioner, r, now);
            v == Fine && Placed(db.t, d.t, account, provisioner, r, now)
  {
    hide Inv, Moves, NewAuthorizations, CreateOrder, RequestOk, AllMade, Dangles, Placed;
    var expires := now + ORDER_EXPIRY;
    HasIdentifiers(net, r);
    NewAuthorizationsIs(f, db, account, r, 0, expires);
    NewAuthorizationsSafe(f, db, account, r, 0, expires);
    NewAuthorizationsIsCalm(f, db, account, r, 0, expires);
    var (d, ids) := NewAuthorizations(f, db, account, r, 0, expires);
    DanglesDependsOn(db.t, d.t, account);
    assert r.identifiers[0..] == r.identifiers;
    CreateOrderIs(f, db, d, account, provisioner, r, ids.value, now);
  }

  lemma CreateOrderIs(f: Faults, before: Db, db: Db, account: Id, provisioner: Id, r: NewOrderRequest, ids: seq<Id>,
                      now: Time)
    requires NoFaults(f) && Inv(db.t) && !Dangles(db.t, account) && Inv(before.t) && Extends(before.t, db.t)
    requires db.t.orders == before.t.orders && db.t.lists == before.t.lists
    requires AllMade(db.t, ids, account, r, 0, now + 86400) && r.identifiers != []
    requires AllCovered(db.t, ids, account, now + 86400, r.identifiers)
    ensures var (d, ok) := CreateOrder(f, db, OrderRecord(account, provisioner, r, ids, now), now);
            ok && Placed(before.t, d.t, account, provisioner, r, now)
  {
    hide Inv, Moves, UpdateOrderList, AllMade, Dangles, Settles, StillPending, AllCovered, Placed, OrderOk, Extends;
    var o := OrderRecord(account, provisioner, r, ids, now);
    var id := db.t.nextId;
    InvFresh(db.t);
    RecordIsOk(db.t, account, provisioner, r, ids, now);
    AddOrderSafe(f, db, o);
    var d := AddOrder(f, db, o).0;
    SameListDangles(db.t, d.t, account, account);
    AllMadeDependsOn(db.t, d.t, ids, account, r, now + 86400);
    assert d.t == db.t.(orders := db.t.orders[id := o.(id := id)], nextId := id + 1);
    ListIt(f, before.t, db.t, d, id, account, provisioner, r, now);
  }

  lemma RecordIsOk(t: Tables, account: Id, provisioner: Id, r: NewOrderRequest, ids: seq<Id>, now: Time)
    requires AllCovered(t, ids, account, now + 86400, r.identifiers) && r.identifiers != []
    ensures OrderOk(OrderRecord(account, provisioner, r, ids, now), t.authzs, t.certs)
  {}

  lemma AllMadeDependsOn(t: Tables, t': Tables, ids: seq<Id>, account: Id, r: NewOrderRequest, expires: Time)
    requires t'.challenges == t.challenges && t'.authzs == t.authzs && AllMade(t, ids, account, r, 0, expires)
    ensures AllMade(t', ids, account, r, 0, expires)
  {
    hide MadeAt;
    forall k | 0 <= k < |ids| ensures MadeAt(t', ids[k], account, r, 0 + k, expires) {
      assert MadeAt(t, ids[k], account, r, 0 + k, expires);
      MadeAtStored(t, ids[k], account, r, 0 + k, expires);
      MadeAtKept(t, t', ids[k], account, r, 0 + k, expires);
    }
  }

  /** The second half of CreateOrder. */
  lemma ListIt(f: Faults, before: Tables, t: Tables, db: Db, id: Id, account: Id, provisioner: Id, r: NewOrderRequest,
               now: Time)
    requires NoFaults(f) && Inv(before) && Inv(db.t) && !Dangles(t, account) && !Dangles(db.t, account)
    requires Extends(before, t) && t.orders == before.orders && t.lists == before.lists
    requires id !in t.orders && id in db.t.orders
    requires db.t == t.(orders := t.orders[id := db.t.orders[id]], nextId := id + 1)
    requires PlacedAs(db.t.orders[id], id, account, provisioner, r, now) && db.t.orders[id].authzs != []
    requires AllMade(db.t, db.t.orders[id].authzs, account, r, 0, now + 86400)
    ensures var (d, ids) := UpdateOrderList(f, db, account, Some(id), now);
            ids.Some? && Placed(before, d.t, account, provisioner, r, now)
  {
    hide Inv, UpdateOrderList, AllMade, Dangles, Settles, StillPending;
    SavedListIs(f, db, account, Some(id), now);
    WholeList(t, account);
    StillPendingExtended(before, db.t, ListOf(t, account), now);
    StaysAsMade(db.t, UpdateOrderList(f, db, account, Some(id), now).0.t, id, account, r, now);
  }

  lemma WholeList(t: Tables, account: Id)
    requires !Dangles(t, account)
    ensures forall i :: 0 <= i < |ListOf(t, account)| ==> ListOf(t, account)[i] in t.orders
  {}

  lemma {:induction false} StillPendingExtended(t: Tables, t': Tables, ids: seq<Id>, now: Time)
    requires Inv(t) && Extends(t, t')
    requires forall id :: id in t.orders ==> id in t'.orders && t'.orders[id] == t.orders[id]
    requires forall i :: 0 <= i < |ids| ==> ids[i] in t.orders
    ensures StillPending(t', ids, now) == StillPending(t, ids, now)
  {
    hide Inv, Extends;
    if ids != [] {
      StatusExtended(t, t', ids[0], now);
      StillPendingExtended(t, t', ids[1..], now);
    }
  }

  lemma StatusExtended(t: Tables, t': Tables, id: Id, now: Time)
    requires Inv(t) && Extends(t, t') && id in t.orders && id in t'.orders && t'.orders[id] == t.orders[id]
    ensures PendingAt(t', id, now) <==> PendingAt(t, id, now)
  {
    hide Inv;
    InvOrder(t, id);
    var o := t.orders[id];
    forall i | 0 <= i < |o.authzs|
      ensures StatusAt(t', t'.authzs[o.authzs[i]], now) == StatusAt(t, t.authzs[o.authzs[i]], now) {
      InvAuthz(t, o.authzs[i]);
      var az := t.authzs[o.authzs[i]];
      forall k | 0 <= k < |az.challenges| ensures IsProved(t', az.challenges[k]) <==> IsProved(t, az.challenges[k]) {}
    }
  }

  /** Refreshing the list of the account leaves the new order and its authorizations as they are. */
  lemma StaysAsMade(t: Tables, t': Tables, id: Id, account: Id, r: NewOrderRequest, now: Time)
    requires Settles(t, t'.(lists := t.lists), now) && id in t.orders
    requires t.orders[id].status == Pending && now <= t.orders[id].expires && t.orders[id].authzs != []
    requires AllMade(t, t.orders[id].authzs, account, r, 0, now + 86400)
    ensures id in t'.orders && t'.orders[id] == t.orders[id] && t'.orders.Keys == t.orders.Keys
    ensures AllMade(t', t.orders[id].authzs, account, r, 0, now + 86400)
  {
    hide MadeAt, StatusAt, Settled;
    var o := t.orders[id];
    forall k | 0 <= k < |o.authzs|
      ensures o.authzs[k] in t.authzs && StatusAt(t, t.authzs[o.authzs[k]], now) == Pending
      ensures MadeAt(t', o.authzs[k], account, r, 0 + k, now + 86400) {
      assert MadeAt(t, o.authzs[k], account, r, 0 + k, now + 86400);
      MadeIsIdle(t, o.authzs[k], account, r, 0 + k, now);
      MadeAtKept(t, t', o.authzs[k], account, r, 0 + k, now + 86400);
    }
    assert OrderSettles(t, o, t'.orders[id], now);
    assert StatusAt(t, t.authzs[o.authzs[0]], now) == Pending;
  }

  lemma MadeIsIdle(t: Tables, azId: Id, account: Id, r: NewOrderRequest, i: nat, now: Time)
    requires MadeAt(t, azId, account, r, i, now + 86400)
    ensures azId in t.authzs && StatusAt(t, t.authzs[azId], now) == Pending
    ensures Settled(t, t.authzs[azId], now) == t.authzs[azId]
  {
    hide Admits;
    var az := t.authzs[azId];
    forall k | 0 <= k < |az.challenges| ensures !IsProved(t, az.challenges[k]) {}
  }

  /** A listing without storage failures saves the orders of the account that are still pending. */
  lemma ListedOrdersAre(f: Faults, net: Net, w: World, a: Id)
    requires NoFaults(f) && Inv(w.db.t) && Passes(f, w.db, a) && !Dangles(w.db.t, a)
    ensures
      var (w', v) := Step(f, net, w, Act(a, ListOrders(a)));
      v == Fine && w'.signed == w.signed && ListOf(w'.db.t, a) == StillPending(w.db.t, ListOf(w.db.t, a), w.now)
  {
    hide Inv, UpdateOrderList, StillPending, Dangles, Settles;
    Passing(f, net, w, a, ListOrders(a));
    SavedListIs(f, w.db.(ops := w.db.ops + 1), a, None, w.now);
  }
}
