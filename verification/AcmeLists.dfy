/** The list of an account's orders over whole runs: when it comes to name an order that is not stored, and what the
    account can do from then on (acme/db/nosql/order.go). */
module AcmeLists {
  import opened Text
  import opened Csr
  import opened Storage
  import opened AcmeStore
  import opened AcmeProtocol
  import opened AcmeInvariant
  import opened AcmeSafety
  import opened AcmeCertificates
  import opened AcmeRefresh

  predicate Missing(ids: seq<Id>, stored: set<Id>) {
    exists i :: 0 <= i < |ids| && ids[i] !in stored
  }

  /** The list of the account names an order that is not stored. */
  predicate Dangles(t: Tables, a: Id) {
    Missing(ListOf(t, a), t.orders.Keys)
  }

  // ---------------------------------------------------------------------------------------------
  // Refreshing the list

  /** The tables have the same lists, and orders with the same identifiers. */
  predicate SameOrders(t: Tables, t': Tables) {
    t'.lists == t.lists && t'.orders.Keys == t.orders.Keys
  }

  lemma UpdateOrderKeepsKeys(f: Faults, db: Db, o: Order)
    ensures SameOrders(db.t, UpdateOrder(f, db, o).0.t)
  {}

  lemma RefreshOrderKeepsKeys(f: Faults, db: Db, o: Order, now: Time)
    ensures SameOrders(db.t, RefreshOrder(f, db, o, now).0.t)
  {
    hide RefreshAll, UpdateOrder, Decide;
    RefreshAllKeepsOrders(f, db, o.authzs, now);
    var (d, o1, _) := RefreshOrder(f, db, o, now);
    UpdateOrderKeepsKeys(f, db, o1);
    UpdateOrderKeepsKeys(f, RefreshAll(f, db, o.authzs, now).0, o1);
  }

  /** Refreshing succeeds only if every listed order is stored, and what stays pending was listed. */
  lemma {:induction false} RefreshListedNeedsAll(f: Faults, db: Db, ids: seq<Id>, now: Time)
    ensures
      var (d, pending) := RefreshListed(f, db, ids, now);
      && SameOrders(db.t, d.t)
      && (pending.Some? ==> !Missing(ids, db.t.orders.Keys) && forall id :: id in pending.value ==> id in ids)
    decreases |ids|
  {
    hide RefreshOrder;
    if ids != [] {
      var (d1, o) := GetOrder(f, db, ids[0]);
      if o.Some? {
        RefreshOrderKeepsKeys(f, d1, o.value, now);
        var (d2, o1, v) := RefreshOrder(f, d1, o.value, now);
        if v.Fine? {
          RefreshListedNeedsAll(f, d2, ids[1..], now);
          assert forall i :: 0 < i < |ids| ==> ids[i] == ids[1..][i - 1];
        }
      }
    }
  }

  /** The list with the new order is saved by a call that fails, and the deletion of that order has its effect. */
  predicate TearsList(f: Faults, db: Db, account: Id, now: Time) {
    var (d, ok) := Read(f, db);
    var (d1, pending) := RefreshListed(f, d, ListOf(db.t, account), now);
    ok && pending.Some? && f(d1.ops) == Torn && f(d1.ops + 1) != Lost
  }

  /** A list that names a missing order stays as it is, and the call fails. Any other comes to name one exactly when a
      new order is torn off. */
  lemma ListDangles(f: Faults, db: Db, account: Id, added: Option<Id>, now: Time)
    requires added.Some? ==> added.value in db.t.orders && added.value !in ListOf(db.t, account)
    ensures
      var (d, ids) := UpdateOrderList(f, db, account, added, now);
      if Dangles(db.t, account) then ids.None? && Dangles(d.t, account)
      else Dangles(d.t, account) <==> added.Some? && TearsList(f, db, account, now)
  {
    hide RefreshListed;
    var (d, ok) := Read(f, db);
    var listed := ListOf(db.t, account);
    RefreshListedNeedsAll(f, d, listed, now);
    var (d1, pending) := RefreshListed(f, d, listed, now);
    if ok && pending.Some? {
      var ids := pending.value + if added.Some? then [added.value] else [];
      ListSaved(f, d1, account, ids);
      assert forall i :: 0 <= i < |pending.value| ==> ids[i] == pending.value[i] && ids[i] in listed;
      assert !Missing(ids, d1.t.orders.Keys);
      var d2 := SaveList(f, d1, account, ids).0;
      if added.Some? && f(d1.ops) != Done {
        assert ids[|ids| - 1] == added.value;
        OrderTakenOut(f, d2, added.value);
        assert Missing(ids, d2.t.orders.Keys - {added.value}) && !Missing(listed, d2.t.orders.Keys - {added.value});
      }
    }
  }

  lemma OrderTakenOut(f: Faults, db: Db, id: Id)
    ensures
      var d := DeleteOrder(f, db, id);
      d.t.lists == db.t.lists && d.t.orders.Keys == db.t.orders.Keys - if f(db.ops) == Lost then {} else {id}
  {}

  lemma ListSaved(f: Faults, db: Db, account: Id, ids: seq<Id>)
    ensures
      var d := SaveList(f, db, account, ids).0;
      && d.t.orders == db.t.orders && d.ops == db.ops + 1
      && ListOf(d.t, account) == if f(db.ops) == Lost then ListOf(db.t, account) else ids
  {}

  // ---------------------------------------------------------------------------------------------
  // Steps

  /** When the list is the same, it names a missing order as before. */
  lemma SameListDangles(t: Tables, t': Tables, who: Id, a: Id)
    requires Inv(t) && Moves(t, t', who) && ListOf(t', a) == ListOf(t, a)
    ensures Dangles(t', a) <==> Dangles(t, a)
  {
    hide Inv, ListOf;
    forall i | 0 <= i < |ListOf(t, a)| ensures ListOf(t, a)[i] in t'.orders <==> ListOf(t, a)[i] in t.orders {
      InvListed(t, a, i);
    }
  }

  lemma OtherListStays(t: Tables, t': Tables, who: Id, a: Id)
    requires Moves(t, t', who) && a != who
    ensures ListOf(t', a) == ListOf(t, a)
  {}

  lemma SignOrderKeepsLists(f: Faults, net: Net, db: Db, o: Order, csr: ParsedRequest, signer: Signer, now: Time)
    ensures SignOrder(f, net, db, o, csr, signer, now).db.t.lists == db.t.lists
  {
    hide SansFor;
  }

  /** Only PlaceOrder and ListOrders write a list. */
  lemma HandleKeepsLists(f: Faults, net: Net, w: World, acc: Account, a: Action)
    requires !a.PlaceOrder? && !a.ListOrders?
    ensures Handle(f, net, w, acc, a).0.db.t.lists == w.db.t.lists
  {
    hide RefreshOrder, RefreshAuthorization, SignOrder, ValidateChallenge, UpdateAccount;
    match a
    case FetchOrder(p, id) =>
      var (d, o) := GetOrder(f, w.db, id);
      if o.Some? { RefreshOrderKeepsKeys(f, d, o.value, w.now); }
    case FinalizeOrder(p, id, csr, signer) =>
      var (d, o) := GetOrder(f, w.db, id);
      if o.Some? {
        RefreshOrderKeepsKeys(f, d, o.value, w.now);
        var (d1, o1, _) := RefreshOrder(f, d, o.value, w.now);
        SignOrderKeepsLists(f, net, d1, o1, csr, signer, w.now);
      }
    case FetchAuthorization(id) =>
      var (d, l) := GetAuthorization(f, w.db, id);
      if l.Some? { RefreshAuthorizationKeepsOrders(f, d, l.value, w.now); }
    case AnswerChallenge(id, finding) =>
      var (d, c) := GetChallenge(f, w.db, id);
      if c.Some? { ValidateChallengeKeepsLists(f, d, c.value, finding, w.now); }
    case ChangeAccount(contact, status) =>
      UpdateAccountKeepsLists(f, w.db, if status.Some? then acc.(status := status.value) else acc.(contact := contact));
  }

  lemma ValidateChallengeKeepsLists(f: Faults, db: Db, c: Challenge, finding: Finding, now: Time)
    ensures ValidateChallenge(f, db, c, finding, now).0.t.lists == db.t.lists
  {}

  lemma UpdateAccountKeepsLists(f: Faults, db: Db, a: Account)
    ensures UpdateAccount(f, db, a).0.t.lists == db.t.lists
  {}

  /** NewOrder stores its order and then tears it off the list. */
  predicate TearsNewOrder(f: Faults, net: Net, db: Db, account: Id, provisioner: Id, r: NewOrderRequest, now: Time) {
    && RequestOk(net, r) && (forall i :: 0 <= i < |r.identifiers| ==> r.allowed(r.identifiers[i]))
    && var (d, ids) := NewAuthorizations(f, db, account, r, 0, now + ORDER_EXPIRY);
    && ids.Some?
    && var (d1, ok) := AddOrder(f, d, OrderRecord(account, provisioner, r, ids.value, now));
    && ok && TearsList(f, d1, account, now)
  }

  lemma CreateOrderDangles(f: Faults, db: Db, o: Order, now: Time)
    requires Inv(db.t)
    ensures
      var (d, ok) := CreateOrder(f, db, o, now);
      var (d1, added) := AddOrder(f, db, o);
      if Dangles(db.t, o.account) then !ok && Dangles(d.t, o.account)
      else Dangles(d.t, o.account) <==> added && TearsList(f, d1, o.account, now)
  {
    hide Inv, UpdateOrderList, TearsList;
    var (d1, added) := AddOrder(f, db, o);
    var id := db.t.nextId;
    InvFresh(db.t);
    forall i | 0 <= i < |ListOf(db.t, o.account)| ensures ListOf(db.t, o.account)[i] != id {
      InvListed(db.t, o.account, i);
    }
    assert ListOf(d1.t, o.account) == ListOf(db.t, o.account);
    if added { ListDangles(f, d1, o.account, Some(id), now); }
  }

  lemma NewOrderDangles(f: Faults, net: Net, db: Db, account: Id, provisioner: Id, r: NewOrderRequest, now: Time)
    requires Inv(db.t)
    ensures
      var (d, v) := NewOrder(f, net, db, account, provisioner, r, now);
      if Dangles(db.t, account) then v.Failed? && Dangles(d.t, account)
      else Dangles(d.t, account) <==> TearsNewOrder(f, net, db, account, provisioner, r, now)
  {
    hide Inv, Moves, NewAuthorizations, CreateOrder, AddOrder, TearsList, RequestOk;
    if RequestOk(net, r) && forall i :: 0 <= i < |r.identifiers| ==> r.allowed(r.identifiers[i]) {
      NewAuthorizationsSafe(f, db, account, r, 0, now + ORDER_EXPIRY);
      NewAuthorizationsIsCalm(f, db, account, r, 0, now + ORDER_EXPIRY);
      var (d, ids) := NewAuthorizations(f, db, account, r, 0, now + ORDER_EXPIRY);
      DanglesDependsOn(db.t, d.t, account);
      if ids.Some? { CreateOrderDangles(f, d, OrderRecord(account, provisioner, r, ids.value, now), now); }
    }
  }

  /** The event places an order of the account that is then torn off its list. */
  predicate Tears(f: Faults, net: Net, w: World, e: Event, a: Id) {
    && e.Act? && e.account == a && e.action.PlaceOrder?
    && var (d, acc, _) := Authenticate(f, w.db, a);
    acc.Some? && TearsNewOrder(f, net, d, a, e.action.provisioner, e.action.request, w.now)
  }

  /** The account places an order, or asks for the list of its orders. */
  predicate UsesList(e: Event, a: Id) {
    e.Act? && e.account == a && (e.action.PlaceOrder? || (e.action.ListOrders? && e.action.account == a))
  }

  lemma StepDangles(f: Faults, net: Net, w: World, e: Event, a: Id)
    requires Inv(w.db.t)
    ensures Dangles(Step(f, net, w, e).0.db.t, a) <==> Dangles(w.db.t, a) || Tears(f, net, w, e, a)
    ensures Dangles(w.db.t, a) && UsesList(e, a) ==> Step(f, net, w, e).1.Failed?
  {
    hide Inv, Moves, Handle, Dangles, TearsNewOrder, RegisterAccount;
    var t, t' := w.db.t, Step(f, net, w, e).0.db.t;
    match e
    case Wait(_) =>
    case Register(key, contact, onlyExisting) =>
      RegisterKeepsOrders(f, w.db, key, contact, onlyExisting);
      DanglesDependsOn(t, t', a);
    case Act(account, action) =>
      StepSafe(f, net, w, e, account);
      var (d, acc, _) := Authenticate(f, w.db, account);
      if account != a {
        OtherListStays(t, t', account, a);
        SameListDangles(t, t', account, a);
      } else if acc.Some? {
        InvAccount(t, a);
        HandleDangles(f, net, w.(db := d), acc.value, action);
      }
  }

  lemma DanglesDependsOn(t: Tables, t': Tables, a: Id)
    requires SameOrders(t, t')
    ensures Dangles(t', a) <==> Dangles(t, a)
  {
    hide Missing;
  }

  lemma HandleDangles(f: Faults, net: Net, w: World, acc: Account, a: Action)
    requires Inv(w.db.t) && acc.id in w.db.t.accounts && w.db.t.accounts[acc.id] == acc && acc.status == Valid
    ensures
      var (w', v) := Handle(f, net, w, acc, a);
      && (Dangles(w'.db.t, acc.id) <==>
            || Dangles(w.db.t, acc.id)
            || (a.PlaceOrder? && TearsNewOrder(f, net, w.db, acc.id, a.provisioner, a.request, w.now)))
      && (Dangles(w.db.t, acc.id) && UsesList(Act(acc.id, a), acc.id) ==> v.Failed?)
  {
    hide Inv, Moves, NewOrder, UpdateOrderList, TearsNewOrder, TearsList, Dangles;
    if a.PlaceOrder? {
      NewOrderDangles(f, net, w.db, acc.id, a.provisioner, a.request, w.now);
    } else if a.ListOrders? {
      ListDangles(f, w.db, acc.id, None, w.now);
    } else {
      OwnListStays(f, net, w, acc, a);
    }
  }

  lemma OwnListStays(f: Faults, net: Net, w: World, acc: Account, a: Action)
    requires Inv(w.db.t) && acc.id in w.db.t.accounts && w.db.t.accounts[acc.id] == acc && acc.status == Valid
    requires !a.PlaceOrder? && !a.ListOrders?
    ensures Dangles(Handle(f, net, w, acc, a).0.db.t, acc.id) <==> Dangles(w.db.t, acc.id)
  {
    hide Inv, Moves, Handle, Dangles;
    HandleKeepsLists(f, net, w, acc, a);
    HandleSafe(f, net, w, acc, a);
    SameListDangles(w.db.t, Handle(f, net, w, acc, a).0.db.t, acc.id, acc.id);
  }

  // ---------------------------------------------------------------------------------------------
  // Runs

  /** A step of the run tore an order of the account off its list. */
  predicate WasTorn(f: Faults, net: Net, now: Time, events: seq<Event>, a: Id) {
    events != []
    && var rest, e := events[..|events| - 1], events[|events| - 1];
    WasTorn(f, net, now, rest, a) || Tears(f, net, Run(f, net, Start(now), rest), e, a)
  }

  /** In every run, however storage calls end, the list of an account names a missing order if and only if some step
      saved the list with a new order by a call that failed, and then deleted that order. */
  lemma {:induction false} DanglingIsTorn(f: Faults, net: Net, now: Time, events: seq<Event>, a: Id)
    ensures Dangles(Run(f, net, Start(now), events).db.t, a) <==> WasTorn(f, net, now, events, a)
  {
    hide Inv, Step, Tears;
    if events != [] {
      var rest, e := events[..|events| - 1], events[|events| - 1];
      DanglingIsTorn(f, net, now, rest, a);
      RunSafe(f, net, now, rest);
      StepDangles(f, net, Run(f, net, Start(now), rest), e, a);
    }
  }

  lemma {:induction false} DanglingIsForever(f: Faults, net: Net, w: World, events: seq<Event>, a: Id)
    requires Inv(w.db.t) && Dangles(w.db.t, a)
    ensures Dangles(Run(f, net, w, events).db.t, a)
  {
    hide Inv, Step, Tears, Dangles;
    if events != [] {
      var rest, e := events[..|events| - 1], events[|events| - 1];
      DanglingIsForever(f, net, w, rest, a);
      RunKeeps(f, net, w, rest);
      StepDangles(f, net, Run(f, net, w, rest), e, a);
    }
  }

  /** Once the list of an account names a missing order, no later order of the account succeeds, nor a listing of its
      orders, whatever happens in between and however storage calls end. */
  lemma NoMoreOrders(f: Faults, net: Net, w: World, events: seq<Event>, e: Event, a: Id)
    requires Inv(w.db.t) && Dangles(w.db.t, a) && UsesList(e, a)
    ensures Step(f, net, Run(f, net, w, events), e).1.Failed?
  {
    hide Inv, Step, Dangles;
    DanglingIsForever(f, net, w, events, a);
    RunKeeps(f, net, w, events);
    StepDangles(f, net, Run(f, net, w, events), e, a);
  }

  // ---------------------------------------------------------------------------------------------
  // Without failures

  lemma {:induction false} RefreshListedSucceeds(f: Faults, db: Db, ids: seq<Id>, now: Time, who: Id)
    requires NoFaults(f) && Inv(db.t) && OwnOrders(db.t, ids, who) && !Missing(ids, db.t.orders.Keys)
    ensures RefreshListed(f, db, ids, now).1.Some?
    decreases |ids|
  {
    hide Inv, Moves, RefreshOrder, OrderStatusAt, SettleAll;
    if ids != [] {
      var (d1, o) := GetOrder(f, db, ids[0]);
      InvOrder(db.t, ids[0]);
      RefreshOrderIs(f, d1, o.value, now);
      RefreshOrderSafe(f, d1, o.value, now);
      RefreshOrderKeepsKeys(f, d1, o.value, now);
      var d2 := RefreshOrder(f, d1, o.value, now).0;
      OwnOrdersKept(db.t, d2.t, ids, who);
      RefreshListedSucceeds(f, d2, ids[1..], now, who);
    }
  }

  lemma ListingWorks(f: Faults, db: Db, account: Id, added: Option<Id>, now: Time)
    requires NoFaults(f) && Inv(db.t)
    requires added.Some? ==> added.value in db.t.orders && added.value !in ListOf(db.t, account)
    ensures UpdateOrderList(f, db, account, added, now).1.Some? <==> !Dangles(db.t, account)
  {
    hide Inv, RefreshListed, ListOf, Missing;
    ListDangles(f, db, account, added, now);
    if !Dangles(db.t, account) {
      ListIsOwn(db.t, account);
      RefreshListedSucceeds(f, Read(f, db).0, ListOf(db.t, account), now, account);
    }
  }

  lemma {:induction false} CreateChallengesSucceeds(f: Faults, db: Db, az: Authorization, types: seq<ChallengeType>,
                                                    enabled: ChallengeType -> bool)
    requires NoFaults(f)
    ensures CreateChallenges(f, db, az, types, enabled).1.Some?
    decreases |types|
  {
    if types != [] {
      if !enabled(types[0]) {
        CreateChallengesSucceeds(f, db, az, types[1..], enabled);
      } else {
        var c := Challenge(0, az.account, az.identifier.value, types[0], Pending, az.token, None, None);
        CreateChallengesSucceeds(f, CreateChallenge(f, db, c).0, az, types[1..], enabled);
      }
    }
  }

  lemma NewAuthorizationSucceeds(f: Faults, db: Db, account: Id, identifier: Identifier, expires: Time,
                                 token: Option<string>, enabled: ChallengeType -> bool)
    requires NoFaults(f)
    ensures NewAuthorization(f, db, account, identifier, expires, token, enabled).1.Some? <==> token.Some?
  {
    hide CreateChallenges;
    if token.Some? {
      var (value, wildcard) := TrimWildcard(identifier.value);
      var id := Identifier(identifier.kind, value);
      var az := Authorization(0, account, token.value, id, Pending, [], wildcard, expires, None);
      CreateChallengesSucceeds(f, db, az, ChallengeTypes(identifier.kind, wildcard), enabled);
    }
  }

  lemma {:induction false} NewAuthorizationsSucceeds(f: Faults, db: Db, account: Id, r: NewOrderRequest, i: nat,
                                                     expires: Time)
    requires NoFaults(f) && i <= |r.identifiers|
    ensures NewAuthorizations(f, db, account, r, i, expires).1.Some? <==>
            forall k :: i <= k < |r.identifiers| ==> r.token(k).Some?
    decreases |r.identifiers| - i
  {
    hide NewAuthorization;
    if i < |r.identifiers| {
      NewAuthorizationSucceeds(f, db, account, r.identifiers[i], expires, r.token(i), r.enabled);
      var d := NewAuthorization(f, db, account, r.identifiers[i], expires, r.token(i), r.enabled).0;
      NewAuthorizationsSucceeds(f, d, account, r, i + 1, expires);
    }
  }

  lemma CreateOrderWorks(f: Faults, db: Db, o: Order, now: Time)
    requires NoFaults(f) && Inv(db.t)
    requires o.status == Pending && o.error.None? && OrderOk(o, db.t.authzs, db.t.certs)
    ensures CreateOrder(f, db, o, now).1 <==> !Dangles(db.t, o.account)
  {
    hide Inv, Moves, UpdateOrderList, Missing;
    var (d, ok) := AddOrder(f, db, o);
    var id := db.t.nextId;
    InvFresh(db.t);
    AddOrderSafe(f, db, o);
    forall i | 0 <= i < |ListOf(db.t, o.account)| ensures ListOf(db.t, o.account)[i] != id {
      InvListed(db.t, o.account, i);
    }
    SameListDangles(db.t, d.t, o.account, o.account);
    ListingWorks(f, d, o.account, Some(id), now);
  }

  /** Without storage failures a new order succeeds if and only if the request is accepted, tokens can be made, and the
      list of the account names no missing order. */
  lemma OrdersWork(f: Faults, net: Net, db: Db, account: Id, provisioner: Id, r: NewOrderRequest, now: Time)
    requires NoFaults(f) && Inv(db.t)
    ensures NewOrder(f, net, db, account, provisioner, r, now).1.Fine? <==>
            && RequestOk(net, r) && (forall i :: 0 <= i < |r.identifiers| ==> r.allowed(r.identifiers[i]))
            && (forall i :: 0 <= i < |r.identifiers| ==> r.token(i).Some?) && !Dangles(db.t, account)
  {
    hide Inv, Moves, NewAuthorizations, CreateOrder, RequestOk, Dangles;
    if RequestOk(net, r) && forall i :: 0 <= i < |r.identifiers| ==> r.allowed(r.identifiers[i]) {
      var expires := now + ORDER_EXPIRY;
      NewAuthorizationsSafe(f, db, account, r, 0, expires);
      NewAuthorizationsIsCalm(f, db, account, r, 0, expires);
      NewAuthorizationsSucceeds(f, db, account, r, 0, expires);
      var (d, ids) := NewAuthorizations(f, db, account, r, 0, expires);
      DanglesDependsOn(db.t, d.t, account);
      if ids.Some? {
        assert r.identifiers[0..] == r.identifiers;
        HasIdentifiers(net, r);
        CreateOrderWorks(f, d, OrderRecord(account, provisioner, r, ids.value, now), now);
      }
    }
  }

  lemma HasIdentifiers(net: Net, r: NewOrderRequest)
    requires RequestOk(net, r)
    ensures r.identifiers != []
  {}
}
