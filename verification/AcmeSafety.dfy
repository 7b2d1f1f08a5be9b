/** Every ACME request keeps the invariant of the store and touches only the records of its account. */
module AcmeSafety {
  import opened Text
  import opened Csr
  import opened Storage
  import opened AcmeStore
  import opened AcmeProtocol
  import opened AcmeInvariant

  /** The invariant holds of the new tables, which the old ones reach by moves of `who`. */
  ghost predicate Safe(t: Tables, t': Tables, who: Id) {
    Inv(t') && Moves(t, t', who)
  }

  // Single facts of the invariant and of a move, for proofs that hide the rest

  lemma InvAuthz(t: Tables, id: Id)
    requires Inv(t) && id in t.authzs
    ensures t.authzs[id].id == id < t.nextId && AuthzOk(t.authzs[id], t.challenges) && HasChallenges(t, t.authzs[id])
  {}

  lemma InvOrder(t: Tables, id: Id)
    requires Inv(t) && id in t.orders
    ensures t.orders[id].id == id < t.nextId && OrderOk(t.orders[id], t.authzs, t.certs)
  {}

  lemma InvChallenge(t: Tables, id: Id)
    requires Inv(t) && id in t.challenges
    ensures t.challenges[id].id == id < t.nextId && ChallengeOk(t.challenges[id])
  {}

  lemma InvAccount(t: Tables, id: Id)
    requires Inv(t) && id in t.accounts
    ensures t.accounts[id].id == id < t.nextId && AccountOk(t.accounts[id])
  {}

  lemma InvFresh(t: Tables)
    requires Inv(t)
    ensures var id := t.nextId;
            id !in t.challenges && id !in t.authzs && id !in t.orders && id !in t.certs && id !in t.accounts
  {}

  lemma InvListed(t: Tables, a: Id, i: nat)
    requires Inv(t) && i < |ListOf(t, a)|
    ensures ListOf(t, a)[i] < t.nextId && (ListOf(t, a)[i] in t.orders ==> t.orders[ListOf(t, a)[i]].account == a)
  {}

  lemma InvCert(t: Tables, id: Id)
    requires Inv(t) && id in t.certs
    ensures t.certs[id].order in t.orders
  {}

  lemma MovedAuthz(t: Tables, t': Tables, who: Id, id: Id)
    requires Moves(t, t', who) && id in t.authzs
    ensures id in t'.authzs && AuthzMoves(t.authzs[id], t'.authzs[id], who)
  {}

  lemma MovedChallenge(t: Tables, t': Tables, who: Id, id: Id)
    requires Moves(t, t', who) && id in t.challenges
    ensures id in t'.challenges && ChallengeMoves(t.challenges[id], t'.challenges[id], who)
  {}

  lemma MovedOrder(t: Tables, t': Tables, who: Id, id: Id)
    requires Moves(t, t', who) && id in t.orders
    ensures id in t'.orders && OrderMoves(t.orders[id], t'.orders[id], who)
  {}

  lemma SafeTransitive(a: Tables, b: Tables, c: Tables, who: Id)
    requires Safe(a, b, who) && Safe(b, c, who)
    ensures Safe(a, c, who)
  {
    MovesTransitive(a, b, c, who);
  }

  lemma SafeReflexive(t: Tables, who: Id)
    requires Inv(t)
    ensures Safe(t, t, who)
  {
    MovesReflexive(t, who);
  }

  // ---------------------------------------------------------------------------------------------
  // The storage calls

  lemma UpdateAuthorizationSafe(f: Faults, db: Db, az: Authorization)
    requires Inv(db.t) && az.id in db.t.authzs && AuthzMoves(db.t.authzs[az.id], az, az.account)
    requires AuthzOk(az, db.t.challenges)
    ensures var (d, ok) := UpdateAuthorization(f, db, az);
            && Safe(db.t, d.t, az.account)
            && (ok ==> az.id in d.t.authzs && d.t.authzs[az.id] == az)
  {
    hide Inv, Moves;
    InvAuthz(db.t, az.id);
    AuthzPut(db.t, az.id, az, db.t.nextId, az.account);
    var after := db.t.(authzs := db.t.authzs[az.id := az]);
    WriteKeeps(f, db, after, az.account);
  }

  lemma CreateAuthorizationSafe(f: Faults, db: Db, az: Authorization)
    requires Inv(db.t) && az.error.None? && AuthzOk(az, db.t.challenges)
    ensures var (d, ok) := CreateAuthorization(f, db, az);
            && Safe(db.t, d.t, az.account)
            && (ok ==> db.t.nextId in d.t.authzs && d.t.authzs[db.t.nextId] == az.(id := db.t.nextId))
  {
    hide Inv, Moves;
    var id := db.t.nextId;
    InvFresh(db.t);
    AuthzPut(db.t, id, az.(id := id), id + 1, az.account);
    var after := db.t.(authzs := db.t.authzs[id := az.(id := id)], nextId := id + 1);
    WriteKeeps(f, db, after, az.account);
  }

  lemma CreateChallengeSafe(f: Faults, db: Db, c: Challenge)
    requires Inv(db.t) && c.status == Pending && c.error.None? && c.validated.None?
    ensures var (d, ok) := CreateChallenge(f, db, c);
            && Safe(db.t, d.t, c.account)
            && (ok ==> db.t.nextId in d.t.challenges && d.t.challenges[db.t.nextId] == c.(id := db.t.nextId))
  {
    hide Inv, Moves;
    var id := db.t.nextId;
    InvFresh(db.t);
    ChallengePut(db.t, id, c.(id := id), id + 1, c.account);
    var after := db.t.(challenges := db.t.challenges[id := c.(id := id)], nextId := id + 1);
    WriteKeeps(f, db, after, c.account);
  }

  lemma UpdateChallengeSafe(f: Faults, db: Db, c: Challenge)
    requires Inv(db.t) && c.id in db.t.challenges && ChallengeMoves(db.t.challenges[c.id], c, c.account)
    requires ChallengeOk(c)
    ensures Safe(db.t, UpdateChallenge(f, db, c).0.t, c.account)
  {
    hide Inv, Moves;
    InvChallenge(db.t, c.id);
    ChallengePut(db.t, c.id, c, db.t.nextId, c.account);
    var after := db.t.(challenges := db.t.challenges[c.id := c]);
    WriteKeeps(f, db, after, c.account);
  }

  lemma AddOrderSafe(f: Faults, db: Db, o: Order)
    requires Inv(db.t) && o.status == Pending && o.error.None? && OrderOk(o, db.t.authzs, db.t.certs)
    ensures var d := AddOrder(f, db, o).0;
            && Safe(db.t, d.t, o.account) && d.t.certs == db.t.certs
            && (db.t.nextId in d.t.orders ==> d.t.orders[db.t.nextId].account == o.account)
            && (AddOrder(f, db, o).1 ==> db.t.nextId < d.t.nextId)
  {
    hide Inv, Moves;
    var id := db.t.nextId;
    InvFresh(db.t);
    OrderPut(db.t, id, o.(id := id), id + 1, o.account);
    var after := db.t.(orders := db.t.orders[id := o.(id := id)], nextId := id + 1);
    WriteKeeps(f, db, after, o.account);
  }

  lemma SaveListSafe(f: Faults, db: Db, account: Id, ids: seq<Id>)
    requires Inv(db.t)
    requires forall i :: 0 <= i < |ids| ==>
               ids[i] < db.t.nextId && (ids[i] in db.t.orders ==> db.t.orders[ids[i]].account == account)
    ensures Safe(db.t, SaveList(f, db, account, ids).0.t, account)
  {
    hide Inv, Moves;
    ListPut(db.t, ids, account);
    var after := db.t.(lists := if ids == [] then db.t.lists - {account} else db.t.lists[account := ids]);
    WriteKeeps(f, db, after, account);
  }

  lemma DeleteOrderSafe(f: Faults, t: Tables, db: Db, id: Id, who: Id)
    requires Safe(t, db.t, who) && id !in t.orders && db.t.certs == t.certs && Inv(t)
    ensures Safe(t, DeleteOrder(f, db, id).t, who)
  {
    hide Inv, Moves;
    forall c | c in db.t.certs ensures db.t.certs[c].order != id {
      InvCert(t, c);
    }
    OrderDeleted(t, db.t, id, who);
  }

  lemma UpdateOrderSafe(f: Faults, db: Db, o: Order)
    requires Inv(db.t) && o.id in db.t.orders && OrderMoves(db.t.orders[o.id], o, o.account)
    requires OrderOk(o, db.t.authzs, db.t.certs)
    ensures var (d, ok) := UpdateOrder(f, db, o);
            && Safe(db.t, d.t, o.account)
            && (ok ==> o.id in d.t.orders && d.t.orders[o.id] == o)
  {
    hide Inv, Moves;
    InvOrder(db.t, o.id);
    OrderPut(db.t, o.id, o, db.t.nextId, o.account);
    var after := db.t.(orders := db.t.orders[o.id := o]);
    WriteKeeps(f, db, after, o.account);
  }

  lemma CreateCertificateSafe(f: Faults, db: Db, c: Certificate)
    requires Inv(db.t) && CertOk(c, db.t.orders, db.t.authzs)
    ensures var (d, ok) := CreateCertificate(f, db, c);
            && Safe(db.t, d.t, c.account)
            && d.t.orders == db.t.orders && d.t.authzs == db.t.authzs
            && (ok ==> db.t.nextId in d.t.certs && d.t.certs[db.t.nextId] == c.(id := db.t.nextId))
  {
    hide Inv, Moves;
    var id := db.t.nextId;
    InvFresh(db.t);
    CertPut(db.t, id, c.(id := id), id + 1, c.account);
    var after := db.t.(certs := db.t.certs[id := c.(id := id)], nextId := id + 1);
    WriteKeeps(f, db, after, c.account);
  }

  lemma CreateAccountSafe(f: Faults, db: Db, a: Account, who: Id)
    requires Inv(db.t) && a.status == Valid
    ensures Safe(db.t, CreateAccount(f, db, a).0.t, who)
  {
    hide Inv, Moves, CreateAccount;
    SafeReflexive(db.t, who);
    CreateAccountLeaves(f, db, a);
    var t, t' := db.t, CreateAccount(f, db, a).0.t;
    if a.key !in t.keys && t' != t {
      AccountAdded(t, t', a.(id := t.nextId), who);
    }
  }

  /** The key index and the account come out of the three calls each as it was or with the new entry. */
  lemma CreateAccountLeaves(f: Faults, db: Db, a: Account)
    ensures var t, t', id := db.t, CreateAccount(f, db, a).0.t, db.t.nextId;
            if a.key in t.keys || f(db.ops) == Lost then t' == t
            else
              && t' == t.(keys := t'.keys, accounts := t'.accounts, nextId := id + 1)
              && t'.keys == (if Unindexes(f, db.ops) then t.keys else t.keys[a.key := id])
              && t'.accounts == (if AddsAccount(f, db.ops) then t.accounts[id := a.(id := id)] else t.accounts)
  {
    hide SaveAccount;
    var id := db.t.nextId;
    assert a.key !in db.t.keys ==> db.t.keys[a.key := id] - {a.key} == db.t.keys;
    var t1 := db.t.(keys := db.t.keys[a.key := id], nextId := id + 1);
    SaveAccountLeaves(f, Db(t1, db.ops + 1), a.(id := id));
  }

  lemma SaveAccountLeaves(f: Faults, db: Db, a: Account)
    ensures var t' := SaveAccount(f, db, a).0.t;
            && t' == db.t.(keys := t'.keys, accounts := t'.accounts)
            && t'.keys == (if f(db.ops) != Done && f(db.ops + 1) != Lost then db.t.keys - {a.key} else db.t.keys)
            && t'.accounts == (if f(db.ops) != Lost then db.t.accounts[a.id := a] else db.t.accounts)
  {}

  /** The account record was written: the index call succeeded and the second call had its effect. */
  predicate AddsAccount(f: Faults, op: nat) {
    f(op) == Done && f(op + 1) != Lost
  }

  /** The index entry was deleted again: the second call failed and the third had its effect. */
  predicate Unindexes(f: Faults, op: nat) {
    f(op) == Done && f(op + 1) != Done && f(op + 2) != Lost
  }

  lemma UpdateAccountSafe(f: Faults, db: Db, nu: Account)
    requires Inv(db.t) && nu.id in db.t.accounts && AccountMoves(db.t.accounts[nu.id], nu, nu.id)
    requires nu.status == Valid || nu.status == Deactivated
    ensures Safe(db.t, UpdateAccount(f, db, nu).0.t, nu.id)
  {
    hide Inv, Moves;
    InvAccount(db.t, nu.id);
    AccountPut(db.t, nu.id, nu, nu.id);
    WriteKeeps(f, db, db.t.(accounts := db.t.accounts[nu.id := nu]), nu.id);
  }

  // ---------------------------------------------------------------------------------------------
  // Refreshing

  /** The loaded record is the stored one. */
  ghost predicate IsStored(t: Tables, l: Loaded) {
    && l.az.id in t.authzs && t.authzs[l.az.id] == l.az
    && HasChallenges(t, l.az) && l.chs == ChallengesOf(t, l.az)
  }

  lemma RefreshAuthorizationSafe(f: Faults, db: Db, l: Loaded, now: Time)
    requires Inv(db.t) && IsStored(db.t, l)
    ensures var (d, az, ok) := RefreshAuthorization(f, db, l, now);
            && Safe(db.t, d.t, l.az.account)
            && (ok ==> d.t.authzs[l.az.id] == az && Basic(az.status))
  {
    hide Inv, Moves, UpdateAuthorization;
    SafeReflexive(db.t, l.az.account);
    InvAuthz(db.t, l.az.id);
    if l.az.status == Pending {
      if now > l.az.expires {
        UpdateAuthorizationSafe(f, db, l.az.(status := Invalid));
      } else if SomeValid(l.chs) {
        var k :| 0 <= k < |l.chs| && l.chs[k].status == Valid;
        assert db.t.challenges[l.az.challenges[k]].status == Valid;
        UpdateAuthorizationSafe(f, db, l.az.(status := Valid, error := None));
      }
    }
  }

  lemma RefreshAuthorizationKeepsOrders(f: Faults, db: Db, l: Loaded, now: Time)
    ensures var d := RefreshAuthorization(f, db, l, now).0;
            d.t == db.t.(authzs := d.t.authzs) && db.ops <= d.ops
  {
    hide UpdateAuthorization;
    UpdateAuthorizationKeepsOrders(f, db, l.az.(status := Invalid));
    UpdateAuthorizationKeepsOrders(f, db, l.az.(status := Valid, error := None));
  }

  lemma UpdateAuthorizationKeepsOrders(f: Faults, db: Db, az: Authorization)
    ensures var d := UpdateAuthorization(f, db, az).0;
            d.t == db.t.(authzs := d.t.authzs) && db.ops <= d.ops
  {}

  ghost predicate OwnAuthzs(t: Tables, ids: seq<Id>, who: Id) {
    forall i :: 0 <= i < |ids| ==> ids[i] in t.authzs && t.authzs[ids[i]].account == who
  }

  lemma OwnAuthzsKept(t: Tables, t': Tables, ids: seq<Id>, who: Id)
    requires OwnAuthzs(t, ids, who) && Moves(t, t', who)
    ensures OwnAuthzs(t', ids, who)
  {
    forall i | 0 <= i < |ids| ensures ids[i] in t'.authzs && t'.authzs[ids[i]].account == who {
      MovedAuthz(t, t', who, ids[i]);
    }
  }

  /** The refreshed authorization had status `s`, and still has it unless it was pending. */
  ghost predicate StatusSeen(t: Tables, id: Id, s: Status) {
    id in t.authzs && Basic(s) && (s != Pending ==> t.authzs[id].status == s)
  }

  lemma {:induction false} RefreshAllSafe(f: Faults, db: Db, ids: seq<Id>, now: Time, who: Id)
    requires Inv(db.t) && OwnAuthzs(db.t, ids, who)
    ensures var (d, statuses) := RefreshAll(f, db, ids, now);
            && Safe(db.t, d.t, who)
            && (statuses.Some? ==>
                  && |statuses.value| == |ids|
                  && (forall i :: 0 <= i < |ids| ==> StatusSeen(d.t, ids[i], statuses.value[i])))
    decreases |ids|
  {
    hide Inv, Moves, RefreshAuthorization;
    SafeReflexive(db.t, who);
    if ids != [] {
      var (d1, l) := GetAuthorization(f, db, ids[0]);
      if l.Some? {
        InvAuthz(db.t, ids[0]);
        RefreshAuthorizationSafe(f, d1, l.value, now);
        var (d2, az, ok) := RefreshAuthorization(f, d1, l.value, now);
        if ok {
          OwnAuthzsKept(db.t, d2.t, ids, who);
          RefreshAllSafe(f, d2, ids[1..], now, who);
          var (d3, rest) := RefreshAll(f, d2, ids[1..], now);
          SafeTransitive(db.t, d2.t, d3.t, who);
          if rest.Some? {
            var statuses := [az.status] + rest.value;
            MovedAuthz(d2.t, d3.t, who, ids[0]);
            forall i | 0 <= i < |ids| ensures StatusSeen(d3.t, ids[i], statuses[i]) {
              if i > 0 { assert ids[i] == ids[1..][i - 1]; }
            }
          }
        }
      }
    }
  }

  lemma {:induction false} CountAll(s: seq<Status>, x: Status)
    ensures Count(s, x) <= |s|
    ensures Count(s, x) == |s| <==> forall i :: 0 <= i < |s| ==> s[i] == x
    ensures Count(s, x) == 0 <==> forall i :: 0 <= i < |s| ==> s[i] != x
  {
    if s != [] {
      CountAll(s[1..], x);
      assert forall i :: 0 <= i < |s| ==> s[i] == if i == 0 then s[0] else s[1..][i - 1];
      assert forall i :: 0 <= i < |s[1..]| ==> s[1..][i] == s[i + 1];
    }
  }

  /** The "unexpected authz status" branch cannot be reached, and an order becomes ready only on all valid. */
  lemma DecideIsTotal(s: seq<Status>)
    requires forall i :: 0 <= i < |s| ==> Basic(s[i])
    ensures Decide(s).Some?
    ensures Decide(s).value == Ready <==> forall i :: 0 <= i < |s| ==> s[i] == Valid
    ensures Decide(s).value == Invalid <==> exists i :: 0 <= i < |s| && s[i] == Invalid
    ensures Decide(s).value in {Ready, Invalid, Pending}
  {
    CountAll(s, Invalid);
    CountAll(s, Pending);
    CountAll(s, Valid);
    if Count(s, Invalid) == 0 && Count(s, Pending) == 0 {
      assert forall i :: 0 <= i < |s| ==> s[i] == Valid;
    } else if Count(s, Invalid) == 0 {
      var i :| 0 <= i < |s| && s[i] == Pending;
      assert s[i] != Valid;
    } else {
      var i :| 0 <= i < |s| && s[i] == Invalid;
      assert s[i] != Valid;
    }
  }

  lemma RefreshOrderSafe(f: Faults, db: Db, o: Order, now: Time)
    requires Inv(db.t) && o.id in db.t.orders && db.t.orders[o.id] == o
    ensures var (d, o1, v) := RefreshOrder(f, db, o, now);
            && Safe(db.t, d.t, o.account)
            && (v.Fine? ==> d.t.orders[o.id] == o1 && (o1.status == Ready ==> now <= o.expires))
  {
    hide Inv, Moves, RefreshAll, UpdateOrder;
    var (d, o1, v) := RefreshOrder(f, db, o, now);
    SafeReflexive(db.t, o.account);
    InvOrder(db.t, o.id);
    if o.status == Ready && now > o.expires {
      UpdateOrderSafe(f, db, o1);
    } else if o.status == Pending && now > o.expires {
      UpdateOrderSafe(f, db, o1);
    } else if o.status == Pending {
      RefreshPendingSafe(f, db, o, now);
    }
  }

  lemma RefreshPendingSafe(f: Faults, db: Db, o: Order, now: Time)
    requires Inv(db.t) && o.id in db.t.orders && db.t.orders[o.id] == o
    requires o.status == Pending && now <= o.expires
    ensures var (d, o1, v) := RefreshOrder(f, db, o, now);
            Safe(db.t, d.t, o.account) && (v.Fine? ==> d.t.orders[o.id] == o1)
  {
    hide Inv, Moves, RefreshAll, UpdateOrder;
    var who := o.account;
    InvOrder(db.t, o.id);
    var (d, statuses) := RefreshAll(f, db, o.authzs, now);
    RefreshAllSafe(f, db, o.authzs, now, who);
    RefreshAllKeepsOrders(f, db, o.authzs, now);
    if statuses.Some? {
      DecideIsTotal(statuses.value);
      var s := Decide(statuses.value).value;
      if s != Pending {
        var o1 := o.(status := s);
        InvOrder(d.t, o.id);
        assert s == Ready ==> AllValid(o1, d.t.authzs);
        assert OrderOk(o1, d.t.authzs, d.t.certs);
        UpdateOrderSafe(f, d, o1);
        SafeTransitive(db.t, d.t, UpdateOrder(f, d, o1).0.t, who);
      }
    }
  }

  lemma {:induction false} RefreshAllKeepsOrders(f: Faults, db: Db, ids: seq<Id>, now: Time)
    ensures var d := RefreshAll(f, db, ids, now).0;
            d.t == db.t.(authzs := d.t.authzs) && db.ops <= d.ops
    decreases |ids|
  {
    hide RefreshAuthorization;
    if ids != [] {
      var (d1, l) := GetAuthorization(f, db, ids[0]);
      if l.Some? {
        RefreshAuthorizationKeepsOrders(f, d1, l.value, now);
        var (d2, az, ok) := RefreshAuthorization(f, d1, l.value, now);
        if ok { RefreshAllKeepsOrders(f, d2, ids[1..], now); }
      }
    }
  }

  // ---------------------------------------------------------------------------------------------
  // The list of an account's orders

  /** The ids were handed out, and the orders among them are the account's own. */
  ghost predicate OwnOrders(t: Tables, ids: seq<Id>, who: Id) {
    forall i :: 0 <= i < |ids| ==> ids[i] < t.nextId && (ids[i] in t.orders ==> t.orders[ids[i]].account == who)
  }

  lemma OwnOrdersKept(t: Tables, t': Tables, ids: seq<Id>, who: Id)
    requires OwnOrders(t, ids, who) && Moves(t, t', who)
    ensures OwnOrders(t', ids, who)
  {}

  lemma RefreshOrderNoCerts(f: Faults, db: Db, o: Order, now: Time)
    ensures var d := RefreshOrder(f, db, o, now).0;
            d.t.certs == db.t.certs && d.t.keys == db.t.keys && d.t.accounts == db.t.accounts
  {
    hide RefreshAll, UpdateOrder, Decide;
    RefreshAllKeepsOrders(f, db, o.authzs, now);
    var (d, o1, _) := RefreshOrder(f, db, o, now);
    UpdateOrderKeepsOthers(f, db, o1);
    UpdateOrderKeepsOthers(f, RefreshAll(f, db, o.authzs, now).0, o1);
  }

  lemma UpdateOrderKeepsOthers(f: Faults, db: Db, o: Order)
    ensures var d := UpdateOrder(f, db, o).0; d.t == db.t.(orders := d.t.orders) && d.ops == db.ops + 1
  {}

  lemma {:induction false} RefreshListedSafe(f: Faults, db: Db, ids: seq<Id>, now: Time, who: Id)
    requires Inv(db.t) && OwnOrders(db.t, ids, who)
    ensures var (d, pending) := RefreshListed(f, db, ids, now);
            && Safe(db.t, d.t, who) && d.t.certs == db.t.certs
            && (pending.Some? ==> OwnOrders(d.t, pending.value, who))
    decreases |ids|
  {
    hide Inv, Moves, RefreshOrder;
    SafeReflexive(db.t, who);
    if ids != [] {
      var (d1, o) := GetOrder(f, db, ids[0]);
      if o.Some? {
        InvOrder(db.t, ids[0]);
        RefreshOrderSafe(f, d1, o.value, now);
        RefreshOrderNoCerts(f, d1, o.value, now);
        var (d2, o1, v) := RefreshOrder(f, d1, o.value, now);
        if v.Fine? {
          OwnOrdersKept(db.t, d2.t, ids, who);
          RefreshListedSafe(f, d2, ids[1..], now, who);
          var (d3, rest) := RefreshListed(f, d2, ids[1..], now);
          SafeTransitive(db.t, d2.t, d3.t, who);
          OwnOrdersKept(db.t, d3.t, ids, who);
        }
      }
    }
  }

  lemma ListIsOwn(t: Tables, account: Id)
    requires Inv(t)
    ensures OwnOrders(t, ListOf(t, account), account)
  {
    hide Inv, ListOf;
    forall i | 0 <= i < |ListOf(t, account)|
      ensures ListOf(t, account)[i] < t.nextId
              && (ListOf(t, account)[i] in t.orders ==> t.orders[ListOf(t, account)[i]].account == account) {
      InvListed(t, account, i);
    }
  }

  /** Refreshing and saving the list of an account keeps the invariant, seen from the tables `t` at the start
      of the request, in which a new order was not yet there. */
  lemma UpdateOrderListSafe(f: Faults, t: Tables, db: Db, account: Id, added: Option<Id>, now: Time)
    requires Inv(t) && Safe(t, db.t, account) && db.t.certs == t.certs
    requires added.Some? ==> added.value !in t.orders && OwnOrders(db.t, [added.value], account)
    ensures var d := UpdateOrderList(f, db, account, added, now).0; Safe(t, d.t, account) && d.t.certs == t.certs
  {
    hide Inv, Moves, RefreshListed, ListOf, SaveList, DeleteOrder;
    var (d, ok) := Read(f, db);
    if ok {
      var listed := ListOf(db.t, account);
      ListIsOwn(db.t, account);
      RefreshListedSafe(f, d, listed, now, account);
      var (d1, pending) := RefreshListed(f, d, listed, now);
      SafeTransitive(t, db.t, d1.t, account);
      if pending.Some? {
        var ids := pending.value + if added.Some? then [added.value] else [];
        if added.Some? { OwnOrdersKept(db.t, d1.t, [added.value], account); }
        assert OwnOrders(d1.t, ids, account) by {
          if added.Some? { assert [added.value][0] == added.value; }
        }
        SaveListSafe(f, d1, account, ids);
        var (d2, saved) := SaveList(f, d1, account, ids);
        SaveListKeepsOrders(f, d1, account, ids);
        SafeTransitive(t, d1.t, d2.t, account);
        if added.Some? {
          DeleteOrderSafe(f, t, d2, added.value, account);
          DeleteOrderNoCerts(f, d2, added.value);
        }
      }
    }
  }

  lemma SaveListKeepsOrders(f: Faults, db: Db, account: Id, ids: seq<Id>)
    ensures var d := SaveList(f, db, account, ids).0; d.t == db.t.(lists := d.t.lists)
  {}

  lemma DeleteOrderNoCerts(f: Faults, db: Db, id: Id)
    ensures var d := DeleteOrder(f, db, id); d.t == db.t.(orders := d.t.orders)
  {}

  lemma CreateOrderSafe(f: Faults, db: Db, o: Order, now: Time)
    requires Inv(db.t) && o.status == Pending && o.error.None? && OrderOk(o, db.t.authzs, db.t.certs)
    ensures var d := CreateOrder(f, db, o, now).0; Safe(db.t, d.t, o.account) && d.t.certs == db.t.certs
  {
    hide Inv, Moves, AddOrder, UpdateOrderList;
    var id := db.t.nextId;
    InvFresh(db.t);
    AddOrderSafe(f, db, o);
    var (d, ok) := AddOrder(f, db, o);
    if ok { UpdateOrderListSafe(f, db.t, d, o.account, Some(id), now); }
  }

  // ---------------------------------------------------------------------------------------------
  // Finalizing and answering challenges

  lemma SignOrderSafe(f: Faults, net: Net, db: Db, o: Order, csr: ParsedRequest, signer: Signer, now: Time)
    requires Inv(db.t) && o.id in db.t.orders && db.t.orders[o.id] == o && o.status == Ready
    ensures var r := SignOrder(f, net, db, o, csr, signer, now); Safe(db.t, r.db.t, o.account)
  {
    hide Inv, Moves, SansFor, CreateCertificate, UpdateOrder;
    SafeReflexive(db.t, o.account);
    InvOrder(db.t, o.id);
    if SansFor(net, o, csr).Accepted? && signer.Chain? {
      var c := Certificate(0, o.account, o.id, [signer.leaf] + signer.intermediates);
      CreateCertificateSafe(f, db, c);
      var (d1, ok1) := CreateCertificate(f, db, c);
      if ok1 {
        var o2 := o.(cert := Some(db.t.nextId), status := Valid);
        UpdateOrderSafe(f, d1, o2);
        SafeTransitive(db.t, d1.t, UpdateOrder(f, d1, o2).0.t, o.account);
      }
    }
  }

  lemma FinalizeSafe(f: Faults, net: Net, db: Db, o: Order, csr: ParsedRequest, signer: Signer, now: Time)
    requires Inv(db.t) && o.id in db.t.orders && db.t.orders[o.id] == o
    ensures var r := Finalize(f, net, db, o, csr, signer, now); Safe(db.t, r.db.t, o.account)
  {
    hide Inv, RefreshOrder, SignOrder, Moves;
    var (d, o1, v) := RefreshOrder(f, db, o, now);
    RefreshOrderSafe(f, db, o, now);
    if v.Fine? && o1.status == Ready {
      MovedOrder(db.t, d.t, o.account, o.id);
      SignOrderSafe(f, net, d, o1, csr, signer, now);
      SafeTransitive(db.t, d.t, SignOrder(f, net, d, o1, csr, signer, now).db.t, o.account);
    }
  }

  lemma ValidateChallengeSafe(f: Faults, db: Db, c: Challenge, finding: Finding, now: Time)
    requires Inv(db.t) && c.id in db.t.challenges && db.t.challenges[c.id] == c
    ensures var (d, _, _) := ValidateChallenge(f, db, c, finding, now); Safe(db.t, d.t, c.account)
  {
    hide Inv, Moves, UpdateChallenge;
    var (d, c1, v) := ValidateChallenge(f, db, c, finding, now);
    SafeReflexive(db.t, c.account);
    InvChallenge(db.t, c.id);
    if c.status == Pending && !finding.Aborted? {
      UpdateChallengeSafe(f, db, c1);
    }
  }

  // ---------------------------------------------------------------------------------------------
  // Placing orders

  ghost predicate AllServe(t: Tables, ids: seq<Id>, az: Authorization) {
    forall k :: 0 <= k < |ids| ==> ids[k] in t.challenges && Serves(t.challenges[ids[k]], az)
  }

  lemma {:induction false} CreateChallengesSafe(f: Faults, db: Db, az: Authorization, types: seq<ChallengeType>,
                                                enabled: ChallengeType -> bool)
    requires Inv(db.t)
    requires forall i :: 0 <= i < |types| ==> Admits(az.identifier.kind, az.wildcard, types[i])
    ensures var (d, ids) := CreateChallenges(f, db, az, types, enabled);
            Safe(db.t, d.t, az.account) && (ids.Some? ==> AllServe(d.t, ids.value, az))
    decreases |types|
  {
    hide Inv, Moves, CreateChallenge;
    SafeReflexive(db.t, az.account);
    if types != [] {
      if !enabled(types[0]) {
        CreateChallengesSafe(f, db, az, types[1..], enabled);
      } else {
        var id := db.t.nextId;
        var c := Challenge(0, az.account, az.identifier.value, types[0], Pending, az.token, None, None);
        CreateChallengeSafe(f, db, c);
        var (d, ok) := CreateChallenge(f, db, c);
        if ok {
          CreateChallengesSafe(f, d, az, types[1..], enabled);
          var (d1, rest) := CreateChallenges(f, d, az, types[1..], enabled);
          SafeTransitive(db.t, d.t, d1.t, az.account);
          MovedChallenge(d.t, d1.t, az.account, id);
        }
      }
    }
  }

  lemma NewAuthorizationSafe(f: Faults, db: Db, account: Id, identifier: Identifier, expires: Time,
                             token: Option<string>, enabled: ChallengeType -> bool)
    requires Inv(db.t)
    ensures var (d, id) := NewAuthorization(f, db, account, identifier, expires, token, enabled);
            && Safe(db.t, d.t, account)
            && (id.Some? ==> id.value in d.t.authzs && Covers(d.t.authzs[id.value], account, expires, identifier))
  {
    hide Inv, Moves, CreateChallenges, CreateAuthorization;
    SafeReflexive(db.t, account);
    var (value, wildcard) := TrimWildcard(identifier.value);
    if token.Some? {
      var name := Identifier(identifier.kind, value);
      var az := Authorization(0, account, token.value, name, Pending, [], wildcard, expires, None);
      TypesAreAdmitted(identifier.kind, wildcard);
      CreateChallengesSafe(f, db, az, ChallengeTypes(identifier.kind, wildcard), enabled);
      var (d, chs) := CreateChallenges(f, db, az, ChallengeTypes(identifier.kind, wildcard), enabled);
      if chs.Some? {
        var az1 := az.(challenges := chs.value);
        CreateAuthorizationSafe(f, d, az1);
        SafeTransitive(db.t, d.t, CreateAuthorization(f, d, az1).0.t, account);
      }
    }
  }

  ghost predicate AllCovered(t: Tables, ids: seq<Id>, account: Id, expires: Time, identifiers: seq<Identifier>) {
    && |ids| == |identifiers|
    && forall k :: 0 <= k < |ids| ==> ids[k] in t.authzs && Covers(t.authzs[ids[k]], account, expires, identifiers[k])
  }

  lemma {:induction false} NewAuthorizationsSafe(f: Faults, db: Db, account: Id, r: NewOrderRequest, i: nat,
                                                 expires: Time)
    requires Inv(db.t) && i <= |r.identifiers|
    ensures var (d, ids) := NewAuthorizations(f, db, account, r, i, expires);
            && Safe(db.t, d.t, account)
            && (ids.Some? ==> AllCovered(d.t, ids.value, account, expires, r.identifiers[i..]))
    decreases |r.identifiers| - i
  {
    hide Inv, Moves, NewAuthorization;
    SafeReflexive(db.t, account);
    if i < |r.identifiers| {
      NewAuthorizationSafe(f, db, account, r.identifiers[i], expires, r.token(i), r.enabled);
      var (d, id) := NewAuthorization(f, db, account, r.identifiers[i], expires, r.token(i), r.enabled);
      if id.Some? {
        NewAuthorizationsSafe(f, d, account, r, i + 1, expires);
        var (d1, rest) := NewAuthorizations(f, d, account, r, i + 1, expires);
        SafeTransitive(db.t, d.t, d1.t, account);
        if rest.Some? {
          MovedAuthz(d.t, d1.t, account, id.value);
          var ids := [id.value] + rest.value;
          forall k | 0 <= k < |ids|
            ensures ids[k] in d1.t.authzs && Covers(d1.t.authzs[ids[k]], account, expires, r.identifiers[i..][k])
          {
            if k > 0 { assert r.identifiers[i + 1..][k - 1] == r.identifiers[i..][k]; }
          }
        }
      }
    }
  }

  lemma NewOrderSafe(f: Faults, net: Net, db: Db, account: Id, provisioner: Id, r: NewOrderRequest, now: Time)
    requires Inv(db.t)
    ensures var (d, _) := NewOrder(f, net, db, account, provisioner, r, now); Safe(db.t, d.t, account)
  {
    hide Inv, Moves, NewAuthorizations, CreateOrder;
    SafeReflexive(db.t, account);
    if RequestOk(net, r) {
      var expires := now + ORDER_EXPIRY;
      NewAuthorizationsSafe(f, db, account, r, 0, expires);
      var (d, ids) := NewAuthorizations(f, db, account, r, 0, expires);
      if ids.Some? {
        assert r.identifiers[0..] == r.identifiers;
        var o := OrderRecord(account, provisioner, r, ids.value, now);
        CreateOrderSafe(f, d, o, now);
        SafeTransitive(db.t, d.t, CreateOrder(f, d, o, now).0.t, account);
      }
    }
  }

  // ---------------------------------------------------------------------------------------------
  // Requests

  lemma HandleSafe(f: Faults, net: Net, w: World, acc: Account, a: Action)
    requires Inv(w.db.t) && acc.id in w.db.t.accounts && w.db.t.accounts[acc.id] == acc && acc.status == Valid
    ensures Safe(w.db.t, Handle(f, net, w, acc, a).0.db.t, acc.id)
  {
    hide Inv, Moves, RefreshOrder, Finalize, RefreshAuthorization, ValidateChallenge, UpdateAccount, UpdateOrderList;
    SafeReflexive(w.db.t, acc.id);
    var d := Read(f, w.db).0;
    match a
    case PlaceOrder(p, r) => NewOrderSafe(f, net, w.db, acc.id, p, r, w.now);
    case FetchOrder(p, id) =>
      if id in w.db.t.orders {
        InvOrder(w.db.t, id);
        RefreshOrderSafe(f, d, w.db.t.orders[id], w.now);
      }
    case FinalizeOrder(p, id, csr, signer) =>
      if id in w.db.t.orders {
        InvOrder(w.db.t, id);
        FinalizeSafe(f, net, d, w.db.t.orders[id], csr, signer, w.now);
      }
    case FetchAuthorization(id) =>
      var (d, l) := GetAuthorization(f, w.db, id);
      if l.Some? {
        InvAuthz(w.db.t, id);
        RefreshAuthorizationSafe(f, d, l.value, w.now);
      }
    case AnswerChallenge(id, finding) =>
      if id in w.db.t.challenges {
        InvChallenge(w.db.t, id);
        ValidateChallengeSafe(f, d, w.db.t.challenges[id], finding, w.now);
      }
    case ChangeAccount(contact, status) =>
      if AccountChangeOk(contact, status) {
        UpdateAccountSafe(f, w.db, if status.Some? then acc.(status := status.value) else acc.(contact := contact));
      }
    case ListOrders(account) => UpdateOrderListSafe(f, w.db.t, w.db, acc.id, None, w.now);
  }

  lemma RegisterSafe(f: Faults, db: Db, key: string, contact: seq<string>, onlyExisting: bool, who: Id)
    requires Inv(db.t)
    ensures Safe(db.t, RegisterAccount(f, db, key, contact, onlyExisting).0.t, who)
  {
    hide Inv, Moves, CreateAccount;
    SafeReflexive(db.t, who);
    var (d, _) := GetAccountByKey(f, db, key);
    CreateAccountSafe(f, d, Account(0, key, contact, Valid), who);
  }

  /** `who` is the account the step acts for; a step for no account may be seen as anyone's. */
  predicate ActsFor(e: Event, who: Id) {
    e.Act? ==> e.account == who
  }

  /** Every step keeps the invariant, goes forward, and changes records of its own account only. */
  lemma StepSafe(f: Faults, net: Net, w: World, e: Event, who: Id)
    requires Inv(w.db.t) && ActsFor(e, who)
    ensures Safe(w.db.t, Step(f, net, w, e).0.db.t, who)
  {
    hide Inv, Moves, Handle, RegisterAccount;
    SafeReflexive(w.db.t, who);
    match e
    case Wait(_) =>
    case Register(key, contact, onlyExisting) => RegisterSafe(f, w.db, key, contact, onlyExisting, who);
    case Act(account, action) =>
      var (d, acc, _) := Authenticate(f, w.db, account);
      if acc.Some? {
        InvAccount(w.db.t, account);
        HandleSafe(f, net, w.(db := d), acc.value, action);
      }
  }

  function Actor(e: Event): Id {
    if e.Act? then e.account else 0
  }

  lemma StartSafe(now: Time)
    ensures Inv(Start(now).db.t)
  {}

  /** The invariant holds after every run, however storage calls end. */
  lemma {:induction false} RunSafe(f: Faults, net: Net, now: Time, events: seq<Event>)
    ensures Inv(Run(f, net, Start(now), events).db.t)
  {
    StartSafe(now);
    RunKeeps(f, net, Start(now), events);
  }

  lemma {:induction false} RunKeeps(f: Faults, net: Net, w: World, events: seq<Event>)
    requires Inv(w.db.t)
    ensures Inv(Run(f, net, w, events).db.t)
  {
    hide Inv, Moves, Step;
    if events != [] {
      var rest, e := events[..|events| - 1], events[|events| - 1];
      RunKeeps(f, net, w, rest);
      StepSafe(f, net, Run(f, net, w, rest), e, Actor(e));
    }
  }
}
