/** How many certificates an order gets, and where they come from. */
module AcmeCertificates {
  import opened Text
  import opened Csr
  import opened Storage
  import opened AcmeStore
  import opened AcmeProtocol
  import opened AcmeInvariant
  import opened AcmeSafety
  import opened AcmeIssuance

  // ---------------------------------------------------------------------------------------------
  // Calls that issue nothing

  predicate IsValid(orders: map<Id, Order>, o: Id) {
    o in orders && orders[o].status == Valid
  }

  /** No certificate and no valid order was added or taken away, and no account, and the key index is the same. */
  ghost predicate Calm(t: Tables, t': Tables) {
    && t'.certs == t.certs && t'.keys == t.keys
    && (forall o :: IsValid(t'.orders, o) <==> IsValid(t.orders, o))
    && t'.accounts.Keys == t.accounts.Keys
    && (forall a :: a in t.accounts ==> t'.accounts[a].key == t.accounts[a].key)
  }

  lemma UpdateOrderIsCalm(f: Faults, db: Db, o: Order)
    requires o.id in db.t.orders && (o.status == Valid <==> db.t.orders[o.id].status == Valid)
    ensures Calm(db.t, UpdateOrder(f, db, o).0.t)
  {}

  lemma RefreshOrderIsCalm(f: Faults, db: Db, o: Order, now: Time)
    requires o.id in db.t.orders && db.t.orders[o.id] == o
    ensures Calm(db.t, RefreshOrder(f, db, o, now).0.t)
  {
    hide RefreshAll, UpdateOrder;
    RefreshAllKeepsOrders(f, db, o.authzs, now);
    var (d, o1, _) := RefreshOrder(f, db, o, now);
    if o1.status != Valid {
      UpdateOrderIsCalm(f, db, o1);
      UpdateOrderIsCalm(f, RefreshAll(f, db, o.authzs, now).0, o1);
    }
  }

  lemma {:induction false} RefreshListedIsCalm(f: Faults, db: Db, ids: seq<Id>, now: Time, who: Id)
    requires Inv(db.t) && OwnOrders(db.t, ids, who)
    ensures Calm(db.t, RefreshListed(f, db, ids, now).0.t)
    decreases |ids|
  {
    hide Inv, Moves, RefreshOrder;
    if ids != [] {
      var (d1, o) := GetOrder(f, db, ids[0]);
      if o.Some? {
        InvOrder(db.t, ids[0]);
        RefreshOrderIsCalm(f, d1, o.value, now);
        RefreshOrderSafe(f, d1, o.value, now);
        var (d2, o1, v) := RefreshOrder(f, d1, o.value, now);
        if v.Fine? {
          OwnOrdersKept(db.t, d2.t, ids, who);
          RefreshListedIsCalm(f, d2, ids[1..], now, who);
        }
      }
    }
  }

  /** Calm as seen from the tables `t` at the start of the request, in which a new order was not yet there. */
  lemma UpdateOrderListIsCalm(f: Faults, t: Tables, db: Db, account: Id, added: Option<Id>, now: Time)
    requires Inv(db.t) && Calm(t, db.t) && (added.Some? ==> added.value !in t.orders)
    ensures Calm(t, UpdateOrderList(f, db, account, added, now).0.t)
  {
    hide Inv, RefreshListed, ListOf, SaveList, DeleteOrder;
    var (d, ok) := Read(f, db);
    if ok {
      var listed := ListOf(db.t, account);
      ListIsOwn(db.t, account);
      RefreshListedIsCalm(f, d, listed, now, account);
      var (d1, pending) := RefreshListed(f, d, listed, now);
      if pending.Some? {
        var ids := pending.value + if added.Some? then [added.value] else [];
        SaveListKeepsOrders(f, d1, account, ids);
        if added.Some? { DeletingIsCalm(f, t, SaveList(f, d1, account, ids).0, added.value); }
      }
    }
  }

  lemma DeletingIsCalm(f: Faults, t: Tables, db: Db, id: Id)
    requires Calm(t, db.t) && id !in t.orders
    ensures Calm(t, DeleteOrder(f, db, id).t)
  {
    assert !IsValid(t.orders, id);
  }

  lemma {:induction false} CreateChallengesIsCalm(f: Faults, db: Db, az: Authorization, types: seq<ChallengeType>,
                                                  enabled: ChallengeType -> bool)
    ensures var d := CreateChallenges(f, db, az, types, enabled).0;
            d.t == db.t.(challenges := d.t.challenges, nextId := d.t.nextId)
    decreases |types|
  {
    if types != [] {
      if !enabled(types[0]) {
        CreateChallengesIsCalm(f, db, az, types[1..], enabled);
      } else {
        var c := Challenge(0, az.account, az.identifier.value, types[0], Pending, az.token, None, None);
        var (d, ok) := CreateChallenge(f, db, c);
        if ok { CreateChallengesIsCalm(f, d, az, types[1..], enabled); }
      }
    }
  }

  lemma NewAuthorizationIsCalm(f: Faults, db: Db, account: Id, identifier: Identifier, expires: Time,
                               token: Option<string>, enabled: ChallengeType -> bool)
    ensures var d := NewAuthorization(f, db, account, identifier, expires, token, enabled).0;
            d.t == db.t.(challenges := d.t.challenges, authzs := d.t.authzs, nextId := d.t.nextId)
  {
    hide CreateChallenges;
    var (value, wildcard) := TrimWildcard(identifier.value);
    if token.Some? {
      var id := Identifier(identifier.kind, value);
      var az := Authorization(0, account, token.value, id, Pending, [], wildcard, expires, None);
      CreateChallengesIsCalm(f, db, az, ChallengeTypes(identifier.kind, wildcard), enabled);
    }
  }

  lemma {:induction false} NewAuthorizationsIsCalm(f: Faults, db: Db, account: Id, r: NewOrderRequest, i: nat,
                                                   expires: Time)
    requires i <= |r.identifiers|
    ensures var d := NewAuthorizations(f, db, account, r, i, expires).0;
            d.t == db.t.(challenges := d.t.challenges, authzs := d.t.authzs, nextId := d.t.nextId)
    decreases |r.identifiers| - i
  {
    hide NewAuthorization;
    if i < |r.identifiers| {
      NewAuthorizationIsCalm(f, db, account, r.identifiers[i], expires, r.token(i), r.enabled);
      var (d, id) := NewAuthorization(f, db, account, r.identifiers[i], expires, r.token(i), r.enabled);
      if id.Some? { NewAuthorizationsIsCalm(f, d, account, r, i + 1, expires); }
    }
  }

  lemma CreateOrderIsCalm(f: Faults, db: Db, o: Order, now: Time)
    requires Inv(db.t) && o.status == Pending && o.error.None? && OrderOk(o, db.t.authzs, db.t.certs)
    ensures Calm(db.t, CreateOrder(f, db, o, now).0.t)
  {
    hide Inv, UpdateOrderList, Moves;
    InvFresh(db.t);
    AddOrderSafe(f, db, o);
    var (d, ok) := AddOrder(f, db, o);
    assert Calm(db.t, d.t);
    if ok { UpdateOrderListIsCalm(f, db.t, d, o.account, Some(db.t.nextId), now); }
  }

  lemma NewOrderIsCalm(f: Faults, net: Net, db: Db, account: Id, provisioner: Id, r: NewOrderRequest, now: Time)
    requires Inv(db.t)
    ensures Calm(db.t, NewOrder(f, net, db, account, provisioner, r, now).0.t)
  {
    hide Inv, Moves, NewAuthorizations, CreateOrder;
    if RequestOk(net, r) {
      var expires := now + ORDER_EXPIRY;
      NewAuthorizationsSafe(f, db, account, r, 0, expires);
      NewAuthorizationsIsCalm(f, db, account, r, 0, expires);
      var (d, ids) := NewAuthorizations(f, db, account, r, 0, expires);
      if ids.Some? {
        assert r.identifiers[0..] == r.identifiers;
        CreateOrderIsCalm(f, d, OrderRecord(account, provisioner, r, ids.value, now), now);
      }
    }
  }

  lemma ValidateChallengeIsCalm(f: Faults, db: Db, c: Challenge, finding: Finding, now: Time)
    ensures Calm(db.t, ValidateChallenge(f, db, c, finding, now).0.t)
  {}

  lemma UpdateAccountIsCalm(f: Faults, db: Db, a: Account)
    ensures Calm(db.t, UpdateAccount(f, db, a).0.t)
  {}

  /** Every handler but FinalizeOrder issues nothing. */
  lemma HandleIsCalm(f: Faults, net: Net, w: World, acc: Account, a: Action)
    requires Inv(w.db.t) && !a.FinalizeOrder?
    ensures Calm(w.db.t, Handle(f, net, w, acc, a).0.db.t)
  {
    hide Inv, RefreshOrder, RefreshAuthorization, NewOrder, ValidateChallenge, UpdateAccount, UpdateOrderList;
    match a
    case PlaceOrder(p, r) => NewOrderIsCalm(f, net, w.db, acc.id, p, r, w.now);
    case FetchOrder(p, id) =>
      var (d, o) := GetOrder(f, w.db, id);
      if o.Some? {
        InvOrder(w.db.t, id);
        RefreshOrderIsCalm(f, d, o.value, w.now);
      }
    case FetchAuthorization(id) =>
      var (d, l) := GetAuthorization(f, w.db, id);
      if l.Some? { RefreshAuthorizationKeepsOrders(f, d, l.value, w.now); }
    case AnswerChallenge(id, finding) =>
      var (d, c) := GetChallenge(f, w.db, id);
      if c.Some? { ValidateChallengeIsCalm(f, d, c.value, finding, w.now); }
    case ChangeAccount(contact, status) =>
      UpdateAccountIsCalm(f, w.db, if status.Some? then acc.(status := status.value) else acc.(contact := contact));
    case ListOrders(account) => UpdateOrderListIsCalm(f, w.db.t, w.db, acc.id, None, w.now);
  }

  lemma RegisterKeepsOrders(f: Faults, db: Db, key: string, contact: seq<string>, onlyExisting: bool)
    ensures var d := RegisterAccount(f, db, key, contact, onlyExisting).0;
            d.t == db.t.(keys := d.t.keys, accounts := d.t.accounts, nextId := d.t.nextId)
  {
    hide CreateAccount, NewAccountOk;
    var (d, _) := GetAccountByKey(f, db, key);
    CreateAccountLeaves(f, d, Account(0, key, contact, Valid));
  }

  // ---------------------------------------------------------------------------------------------
  // Certificates per order

  /** The stored certificates of an order. */
  ghost function CertsOf(certs: map<Id, Certificate>, order: Id): set<Id> {
    set c | c in certs && certs[c].order == order
  }

  /** After signing, from storage call `op` on, the certificate was stored while the order was not saved: the
      certificate call failed after its effect, or its serial index or the save of the order failed. */
  predicate Unsaved(f: Faults, op: nat) {
    f(op) == Torn || (f(op) == Done && (f(op + 1) != Done || f(op + 2) == Lost))
  }

  /** The store and the order with which a step stores a signed chain, if it does. */
  function Signing(f: Faults, net: Net, w: World, e: Event): Option<(Db, Order)> {
    if !e.Act? || !e.action.FinalizeOrder? then None else
    var (d, acc, _) := Authenticate(f, w.db, e.account);
    if acc.None? then None else
    var (d1, o) := GetOrder(f, d, e.action.order);
    if o.None? || o.value.account != acc.value.id || o.value.provisioner != e.action.provisioner then None else
    var (d2, o1, v) := RefreshOrder(f, d1, o.value, w.now);
    if v.Failed? || o1.status != Ready || SansFor(net, o1, e.action.csr).Refused? || !e.action.signer.Chain? then None
    else Some((d2, o1))
  }

  /** The step leaves a certificate of order `o` behind that the order does not know. */
  predicate Wastes(f: Faults, net: Net, w: World, e: Event, o: Id) {
    var s := Signing(f, net, w, e);
    s.Some? && s.value.1.id == o && Unsaved(f, s.value.0.ops)
  }

  /** How many steps of a run do so. */
  function Wasted(f: Faults, net: Net, now: Time, events: seq<Event>, o: Id): nat {
    if events == [] then 0
    else
      var rest, e := events[..|events| - 1], events[|events| - 1];
      Wasted(f, net, now, rest, o) + if Wastes(f, net, Run(f, net, Start(now), rest), e, o) then 1 else 0
  }

  /** The number of certificates of an order that the order does not know. */
  ghost function Surplus(t: Tables, o: Id): int {
    |CertsOf(t.certs, o)| - if IsValid(t.orders, o) then 1 else 0
  }

  lemma CertsAfterAdding(certs: map<Id, Certificate>, id: Id, c: Certificate, o: Id)
    requires id !in certs
    ensures |CertsOf(certs[id := c], o)| == |CertsOf(certs, o)| + if o == c.order then 1 else 0
  {
    assert CertsOf(certs[id := c], o) == CertsOf(certs, o) + if o == c.order then {id} else {};
  }

  /** The calls that store a signed chain, one by one. */
  lemma ChainIsStored(f: Faults, db: Db, o: Order, chain: seq<string>)
    requires o.id in db.t.orders && db.t.orders[o.id] == o
    ensures
      var t, t' := db.t, StoreChain(f, db, o, chain).0.t;
      var c := Certificate(t.nextId, o.account, o.id, chain);
      && t'.certs == (if f(db.ops) == Lost then t.certs else t.certs[t.nextId := c])
      && t'.orders == (if f(db.ops) == Lost || Unsaved(f, db.ops) then t.orders
                       else t.orders[o.id := o.(cert := Some(t.nextId), status := Valid)])
  {
    hide CreateCertificate, UpdateOrder;
    var c := Certificate(0, o.account, o.id, chain);
    CertificateStored(f, db, c);
    OrderSaved(f, CreateCertificate(f, db, c).0, o.(cert := Some(db.t.nextId), status := Valid));
  }

  lemma CertificateStored(f: Faults, db: Db, c: Certificate)
    ensures
      var (d, ok) := CreateCertificate(f, db, c);
      var id := db.t.nextId;
      && ok == (f(db.ops) == Done && f(db.ops + 1) == Done) && (ok ==> d.ops == db.ops + 2)
      && d.t.orders == db.t.orders
      && d.t.certs == if f(db.ops) == Lost then db.t.certs else db.t.certs[id := c.(id := id)]
  {}

  lemma OrderSaved(f: Faults, db: Db, o: Order)
    requires o.id in db.t.orders && o == db.t.orders[o.id].(status := o.status, error := o.error, cert := o.cert)
    ensures var t := UpdateOrder(f, db, o).0.t;
            t.certs == db.t.certs && t.orders == if f(db.ops) == Lost then db.t.orders else db.t.orders[o.id := o]
  {}

  lemma SignOrderSurplus(f: Faults, net: Net, db: Db, o: Order, csr: ParsedRequest, signer: Signer, now: Time, x: Id)
    requires Inv(db.t) && o.id in db.t.orders && db.t.orders[o.id] == o && o.status == Ready
    requires SansFor(net, o, csr).Accepted? && signer.Chain?
    ensures Surplus(SignOrder(f, net, db, o, csr, signer, now).db.t, x) ==
            Surplus(db.t, x) + if x == o.id && Unsaved(f, db.ops) then 1 else 0
  {
    hide Inv, SansFor, StoreChain, CertsOf;
    var chain := [signer.leaf] + signer.intermediates;
    ChainIsStored(f, db, o, chain);
    InvFresh(db.t);
    InvOrder(db.t, o.id);
    var c := Certificate(db.t.nextId, o.account, o.id, chain);
    CertsAfterAdding(db.t.certs, db.t.nextId, c, x);
  }

  lemma CalmKeepsSurplus(t: Tables, t': Tables, o: Id)
    requires Calm(t, t')
    ensures Surplus(t', o) == Surplus(t, o)
  {}

  lemma StepSurplus(f: Faults, net: Net, w: World, e: Event, o: Id)
    requires Inv(w.db.t)
    ensures Surplus(Step(f, net, w, e).0.db.t, o) == Surplus(w.db.t, o) + if Wastes(f, net, w, e, o) then 1 else 0
  {
    hide Inv, Moves, Surplus, Calm, Unsaved, SansFor, SignOrder, RefreshOrder, Handle, RegisterAccount;
    match e
    case Wait(_) =>
    case Register(key, contact, onlyExisting) =>
      RegisterKeepsOrders(f, w.db, key, contact, onlyExisting);
      SurplusDependsOn(w.db.t, Step(f, net, w, e).0.db.t, o);
    case Act(account, action) =>
      var (d, acc, _) := Authenticate(f, w.db, account);
      if acc.Some? {
        if action.FinalizeOrder? {
          InvAccount(w.db.t, account);
          FinalizeSurplus(f, net, w, e, o);
        } else {
          HandleIsCalm(f, net, w.(db := d), acc.value, action);
          CalmKeepsSurplus(w.db.t, Step(f, net, w, e).0.db.t, o);
        }
      }
  }

  lemma SurplusDependsOn(t: Tables, t': Tables, o: Id)
    requires t'.certs == t.certs && t'.orders == t.orders
    ensures Surplus(t', o) == Surplus(t, o)
  {}

  lemma FinalizeSurplus(f: Faults, net: Net, w: World, e: Event, o: Id)
    requires Inv(w.db.t) && e.Act? && e.action.FinalizeOrder? && Authenticate(f, w.db, e.account).1.Some?
    ensures Surplus(Step(f, net, w, e).0.db.t, o) == Surplus(w.db.t, o) + if Wastes(f, net, w, e, o) then 1 else 0
  {
    hide Inv, Moves, Surplus, Calm, Unsaved, SansFor, SignOrder, RefreshOrder;
    var (d, acc, _) := Authenticate(f, w.db, e.account);
    var a := e.action;
    var (d1, stored) := GetOrder(f, d, a.order);
    if stored.Some? && stored.value.account == acc.value.id && stored.value.provisioner == a.provisioner {
      InvOrder(w.db.t, a.order);
      RefreshOrderIsCalm(f, d1, stored.value, w.now);
      RefreshOrderSafe(f, d1, stored.value, w.now);
      var (d2, o1, v) := RefreshOrder(f, d1, stored.value, w.now);
      CalmKeepsSurplus(w.db.t, d2.t, o);
      if v.Fine? && o1.status == Ready {
        MovedOrder(w.db.t, d2.t, stored.value.account, a.order);
        if SansFor(net, o1, a.csr).Accepted? && a.signer.Chain? {
          SignOrderSurplus(f, net, d2, o1, a.csr, a.signer, w.now, o);
        } else {
          NothingStored(f, net, d2, o1, a.csr, a.signer, w.now);
        }
      }
    }
  }

  lemma NothingStored(f: Faults, net: Net, db: Db, o: Order, csr: ParsedRequest, signer: Signer, now: Time)
    requires SansFor(net, o, csr).Refused? || !signer.Chain?
    ensures SignOrder(f, net, db, o, csr, signer, now).db == db
  {
    hide SansFor;
  }

  /** In every run, however storage calls end, an order has exactly one certificate if it is valid and none if
      not, and one more for each finalization whose certificate was stored while the order was not saved. */
  lemma {:induction false} CertificatesAreCounted(f: Faults, net: Net, now: Time, events: seq<Event>, o: Id)
    ensures
      var t := Run(f, net, Start(now), events).db.t;
      |CertsOf(t.certs, o)| == (if IsValid(t.orders, o) then 1 else 0) + Wasted(f, net, now, events, o)
  {
    hide Inv, Step, Wastes;
    if events != [] {
      var rest, e := events[..|events| - 1], events[|events| - 1];
      CertificatesAreCounted(f, net, now, rest, o);
      RunSafe(f, net, now, rest);
      StepSurplus(f, net, Run(f, net, Start(now), rest), e, o);
    } else {
      assert CertsOf(Start(now).db.t.certs, o) == {};
    }
  }

  lemma {:induction false} NothingWasted(f: Faults, net: Net, now: Time, events: seq<Event>, o: Id)
    requires forall k: nat :: f(k) == Done
    ensures Wasted(f, net, now, events, o) == 0
  {
    hide Signing, Run;
    if events != [] { NothingWasted(f, net, now, events[..|events| - 1], o); }
  }

  /** In runs without storage failures an order has at most one certificate, and has one exactly when it is valid. */
  lemma OneCertificateWithoutFailures(f: Faults, net: Net, now: Time, events: seq<Event>, o: Id)
    requires forall k: nat :: f(k) == Done
    ensures
      var t := Run(f, net, Start(now), events).db.t;
      if IsValid(t.orders, o) then t.orders[o].cert.Some? && CertsOf(t.certs, o) == {t.orders[o].cert.value}
      else CertsOf(t.certs, o) == {}
  {
    hide Inv, Run;
    var t := Run(f, net, Start(now), events).db.t;
    CertificatesAreCounted(f, net, now, events, o);
    NothingWasted(f, net, now, events, o);
    RunSafe(f, net, now, events);
    if IsValid(t.orders, o) {
      InvOrder(t, o);
      assert t.orders[o].cert.value in CertsOf(t.certs, o);
      Singleton(CertsOf(t.certs, o), t.orders[o].cert.value);
    }
  }

  lemma Singleton(s: set<Id>, c: Id)
    requires c in s && |s| <= 1
    ensures s == {c}
  {
    assert s == {c} + (s - {c});
    assert |s| == 1 + |s - {c}|;
  }

  // ---------------------------------------------------------------------------------------------
  // Every stored certificate was signed

  ghost predicate WasSigned(c: Certificate, signed: seq<SignCall>) {
    exists k :: 0 <= k < |signed| && signed[k].order == c.order && signed[k].chain == c.chain
  }

  ghost predicate CertsSigned(w: World) {
    forall id :: id in w.db.t.certs ==> WasSigned(w.db.t.certs[id], w.signed)
  }

  lemma SignOrderSigns(f: Faults, net: Net, db: Db, o: Order, csr: ParsedRequest, signer: Signer, now: Time, id: Id)
    ensures
      var r := SignOrder(f, net, db, o, csr, signer, now);
      id in r.db.t.certs ==>
        || (id in db.t.certs && r.db.t.certs[id] == db.t.certs[id])
        || (r.call.Some? && r.call.value.order == r.db.t.certs[id].order
            && r.call.value.chain == r.db.t.certs[id].chain)
  {
    hide SansFor, CreateCertificate, UpdateOrder;
    if SansFor(net, o, csr).Accepted? && signer.Chain? {
      var c := Certificate(0, o.account, o.id, [signer.leaf] + signer.intermediates);
      CertificateStored(f, db, c);
      UpdateOrderKeepsOthers(f, CreateCertificate(f, db, c).0, o.(cert := Some(db.t.nextId), status := Valid));
    }
  }

  lemma StepCertsSigned(f: Faults, net: Net, w: World, e: Event)
    requires CertsSigned(w) && Inv(w.db.t)
    ensures CertsSigned(Step(f, net, w, e).0)
  {
    hide Inv, Handle, RegisterAccount;
    var w' := Step(f, net, w, e).0;
    forall id | id in w'.db.t.certs ensures WasSigned(w'.db.t.certs[id], w'.signed) {
      match e
      case Wait(_) =>
      case Register(key, contact, onlyExisting) => RegisterKeepsOrders(f, w.db, key, contact, onlyExisting);
      case Act(account, action) =>
        var (d, acc, _) := Authenticate(f, w.db, account);
        if acc.Some? {
          if action.FinalizeOrder? {
            HandleFinalizeSigns(f, net, w.(db := d), acc.value, action, id);
          } else {
            HandleIsCalm(f, net, w.(db := d), acc.value, action);
            HandleSignsOnlyInFinalize(f, net, w.(db := d), acc.value, action);
          }
        }
    }
  }

  lemma HandleSignsOnlyInFinalize(f: Faults, net: Net, w: World, acc: Account, a: Action)
    requires !a.FinalizeOrder?
    ensures Handle(f, net, w, acc, a).0.signed == w.signed
  {
    hide NewOrder, RefreshOrder, RefreshAuthorization, ValidateChallenge, UpdateAccount, UpdateOrderList;
  }

  lemma HandleFinalizeSigns(f: Faults, net: Net, w: World, acc: Account, a: Action, id: Id)
    requires CertsSigned(w) && a.FinalizeOrder?
    ensures var w' := Handle(f, net, w, acc, a).0; id in w'.db.t.certs ==> WasSigned(w'.db.t.certs[id], w'.signed)
  {
    hide SignOrder, RefreshOrder;
    var w' := Handle(f, net, w, acc, a).0;
    var (d, o) := GetOrder(f, w.db, a.order);
    if o.Some? {
      RefreshOrderNoCerts(f, d, o.value, w.now);
      var (d1, o1, _) := RefreshOrder(f, d, o.value, w.now);
      SignOrderSigns(f, net, d1, o1, a.csr, a.signer, w.now, id);
    }
    if id in w'.db.t.certs {
      if id in w.db.t.certs && w'.db.t.certs[id] == w.db.t.certs[id] {
        SignedGrows(w.db.t.certs[id], w.signed, w'.signed);
      } else {
        var k := |w.signed|;
        assert w'.signed[k].order == w'.db.t.certs[id].order && w'.signed[k].chain == w'.db.t.certs[id].chain;
      }
    }
  }

  lemma SignedGrows(c: Certificate, s: seq<SignCall>, s': seq<SignCall>)
    requires WasSigned(c, s) && s <= s'
    ensures WasSigned(c, s')
  {
    var k :| 0 <= k < |s| && s[k].order == c.order && s[k].chain == c.chain;
    assert s'[k] == s[k];
  }

  /** In every run, every stored certificate came from a call of the signer for its order. */
  lemma {:induction false} CertificatesAreSigned(f: Faults, net: Net, now: Time, events: seq<Event>)
    ensures CertsSigned(Run(f, net, Start(now), events))
  {
    if events != [] {
      hide Step, Inv;
      var rest := events[..|events| - 1];
      CertificatesAreSigned(f, net, now, rest);
      RunSafe(f, net, now, rest);
      StepCertsSigned(f, net, Run(f, net, Start(now), rest), events[|events| - 1]);
    }
  }

  /** In every run, each stored certificate was signed by a call, before the expiry of its order,
      whose names are all proved identifiers of that order. */
  lemma EveryCertificateIsProved(f: Faults, net: Net, now: Time, events: seq<Event>, id: Id)
    requires id in Run(f, net, Start(now), events).db.t.certs
    ensures
      var w := Run(f, net, Start(now), events);
      exists k :: 0 <= k < |w.signed| && w.signed[k].order == w.db.t.certs[id].order
        && w.signed[k].chain == w.db.t.certs[id].chain && CallOk(net, w.db.t, w.signed[k])
  {
    hide Run, CallOk;
    CertificatesAreSigned(f, net, now, events);
    SignedNamesAreProved(f, net, now, events);
    var w := Run(f, net, Start(now), events);
    assert WasSigned(w.db.t.certs[id], w.signed);
  }
}
