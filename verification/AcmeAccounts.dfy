/** Ownership, deactivation, and forward-only statuses over whole runs. */
module AcmeAccounts {
  import opened Text
  import opened Csr
  import opened Storage
  import opened AcmeStore
  import opened AcmeProtocol
  import opened AcmeInvariant
  import opened AcmeSafety
  import opened AcmeCertificates

  /** The records of account `a` are the same in both stores, and `a` has no new ones. */
  ghost predicate Untouched(t: Tables, t': Tables, a: Id) {
    && (forall id :: id in t.orders && t.orders[id].account == a ==> id in t'.orders && t'.orders[id] == t.orders[id])
    && (forall id :: id in t'.orders && t'.orders[id].account == a ==> id in t.orders && t.orders[id] == t'.orders[id])
    && (forall id :: id in t.authzs && t.authzs[id].account == a ==> id in t'.authzs && t'.authzs[id] == t.authzs[id])
    && (forall id :: id in t'.authzs && t'.authzs[id].account == a ==> id in t.authzs && t.authzs[id] == t'.authzs[id])
    && (forall id :: id in t.challenges && t.challenges[id].account == a ==>
          id in t'.challenges && t'.challenges[id] == t.challenges[id])
    && (forall id :: id in t'.challenges && t'.challenges[id].account == a ==>
          id in t.challenges && t.challenges[id] == t'.challenges[id])
    && (forall id :: id in t.certs && t.certs[id].account == a ==> id in t'.certs && t'.certs[id] == t.certs[id])
    && (forall id :: id in t'.certs && t'.certs[id].account == a ==> id in t.certs && t.certs[id] == t'.certs[id])
    && (a in t.accounts ==> a in t'.accounts && t'.accounts[a] == t.accounts[a])
    && (a in t'.lists <==> a in t.lists) && (a in t.lists ==> t'.lists[a] == t.lists[a])
  }

  lemma UntouchedByOthers(t: Tables, t': Tables, who: Id, a: Id)
    requires Moves(t, t', who) && Inv(t) && a != who
    ensures Untouched(t, t', a)
  {}

  lemma UntouchedTransitive(t: Tables, t1: Tables, t2: Tables, a: Id)
    requires Untouched(t, t1, a) && Untouched(t1, t2, a)
    ensures Untouched(t, t2, a)
  {}

  /** A step by one account never changes, and never adds, a record of another. */
  lemma OthersAreUntouched(f: Faults, net: Net, w: World, e: Event, a: Id)
    requires Inv(w.db.t) && (e.Act? ==> e.account != a)
    ensures Untouched(w.db.t, Step(f, net, w, e).0.db.t, a)
  {
    hide Inv, Moves, Step;
    var who := if e.Act? then e.account else a + 1;
    StepSafe(f, net, w, e, who);
    UntouchedByOthers(w.db.t, Step(f, net, w, e).0.db.t, who, a);
  }

  /** An account that is not valid changes nothing, and nothing is signed for it. */
  lemma InactiveAccountsDoNothing(f: Faults, net: Net, w: World, a: Id, action: Action)
    requires a in w.db.t.accounts ==> w.db.t.accounts[a].status != Valid
    ensures var w' := Step(f, net, w, Act(a, action)).0; w'.db.t == w.db.t && w'.signed == w.signed
  {
    hide Handle;
  }

  /** Once deactivated, an account stays so and none of its records ever changes again. */
  lemma {:induction false} DeactivationIsFinal(f: Faults, net: Net, w: World, events: seq<Event>, a: Id)
    requires Inv(w.db.t) && a in w.db.t.accounts && w.db.t.accounts[a].status == Deactivated
    ensures Untouched(w.db.t, Run(f, net, w, events).db.t, a)
  {
    hide Inv, Step;
    if events != [] {
      var rest, e := events[..|events| - 1], events[|events| - 1];
      DeactivationIsFinal(f, net, w, rest, a);
      RunKeeps(f, net, w, rest);
      var w1 := Run(f, net, w, rest);
      if e.Act? && e.account == a {
        InactiveAccountsDoNothing(f, net, w1, a, e.action);
      } else {
        OthersAreUntouched(f, net, w1, e, a);
      }
      UntouchedTransitive(w.db.t, w1.db.t, Run(f, net, w, events).db.t, a);
    }
  }

  // ---------------------------------------------------------------------------------------------
  // Keys

  lemma KeysMoveOn(a: Tables, b: Tables, c: Tables)
    requires KeysMove(a, b) && KeysMove(b, c) && a.nextId <= b.nextId
    requires forall id :: id in a.accounts ==> id in b.accounts && b.accounts[id].key == a.accounts[id].key
    requires forall id :: id in b.accounts ==> id in c.accounts && c.accounts[id].key == b.accounts[id].key
    ensures KeysMove(a, c)
  {}

  /** Over every run accounts keep their keys, index entries stay, and new accounts have keys without an entry. */
  lemma {:induction false} RunKeepsKeys(f: Faults, net: Net, w: World, events: seq<Event>)
    requires Inv(w.db.t)
    ensures
      var t, t' := w.db.t, Run(f, net, w, events).db.t;
      && KeysMove(t, t') && t.nextId <= t'.nextId
      && forall id :: id in t.accounts ==> id in t'.accounts && t'.accounts[id].key == t.accounts[id].key
  {
    hide Inv, Step;
    if events != [] {
      var rest, e := events[..|events| - 1], events[|events| - 1];
      RunKeepsKeys(f, net, w, rest);
      RunKeeps(f, net, w, rest);
      var w1 := Run(f, net, w, rest);
      StepSafe(f, net, w1, e, Actor(e));
      KeysMoveOn(w.db.t, w1.db.t, Run(f, net, w, events).db.t);
    }
  }

  /** The index leads from the account's key to the account. */
  predicate Indexed(t: Tables, a: Id) {
    a in t.accounts && t.accounts[a].key in t.keys && t.keys[t.accounts[a].key] == a
  }

  /** Once an indexed account is deactivated, no later run adds an account with its key, and every registration
      of the key is refused. */
  lemma DeactivatedKeyIsSpent(f: Faults, net: Net, w: World, events: seq<Event>, a: Id, b: Id)
    requires Inv(w.db.t) && Indexed(w.db.t, a) && w.db.t.accounts[a].status == Deactivated
    ensures
      var t := Run(f, net, w, events).db.t;
      && Indexed(t, a) && t.accounts[a] == w.db.t.accounts[a]
      && (b in t.accounts && t.accounts[b].key == t.accounts[a].key ==> b in w.db.t.accounts)
    ensures forall contact, only ::
      RegisterAccount(f, Run(f, net, w, events).db, w.db.t.accounts[a].key, contact, only).1.Failed?
  {
    hide Inv, Run, CreateAccount, NewAccountOk;
    DeactivationIsFinal(f, net, w, events, a);
    RunKeepsKeys(f, net, w, events);
  }

  /** The accounts that the index does not lead to. */
  ghost function Unindexed(t: Tables): set<Id> {
    set a | a in t.accounts && !Indexed(t, a)
  }

  /** The step registers a key, saves the account in a call that fails, and then deletes the index entry. */
  predicate Orphans(f: Faults, db: Db, e: Event) {
    && e.Register?
    && var (d, found) := GetAccountByKey(f, db, e.key);
    && found.NoAccount? && NewAccountOk(e.contact, e.onlyExisting) && !e.onlyExisting && e.key !in db.t.keys
    && f(d.ops) == Done && f(d.ops + 1) == Torn && f(d.ops + 2) != Lost
  }

  /** How many steps of a run do so. */
  function Orphaned(f: Faults, net: Net, now: Time, events: seq<Event>): nat {
    if events == [] then 0
    else
      var rest, e := events[..|events| - 1], events[|events| - 1];
      Orphaned(f, net, now, rest) + if Orphans(f, Run(f, net, Start(now), rest).db, e) then 1 else 0
  }

  lemma CalmKeepsUnindexed(t: Tables, t': Tables)
    requires Calm(t, t')
    ensures Unindexed(t') == Unindexed(t)
  {}

  /** A registration that does not reach CreateAccount, or finds an index entry, changes nothing. */
  lemma RegisterIs(f: Faults, db: Db, e: Event)
    requires e.Register?
    ensures
      var (d, found) := GetAccountByKey(f, db, e.key);
      var reached := found.NoAccount? && NewAccountOk(e.contact, e.onlyExisting) && !e.onlyExisting
        && e.key !in db.t.keys;
      RegisterAccount(f, db, e.key, e.contact, e.onlyExisting).0.t ==
      if reached then CreateAccount(f, d, Account(0, e.key, e.contact, Valid)).0.t else db.t
  {
    hide NewAccountOk;
  }

  lemma StepUnindexed(f: Faults, net: Net, w: World, e: Event)
    requires Inv(w.db.t)
    ensures var t, t' := w.db.t, Step(f, net, w, e).0.db.t;
            Unindexed(t') == Unindexed(t) + if Orphans(f, w.db, e) then {t.nextId} else {}
    ensures w.db.t.nextId !in w.db.t.accounts
  {
    hide Inv, Calm, Handle, RegisterAccount, NewAccountOk, Unindexed;
    InvFresh(w.db.t);
    match e
    case Wait(_) =>
    case Register(key, contact, onlyExisting) =>
      RegisterIs(f, w.db, e);
      var (d, _) := GetAccountByKey(f, w.db, key);
      CreateAccountUnindexed(f, d, Account(0, key, contact, Valid));
    case Act(account, action) =>
      var (d, acc, _) := Authenticate(f, w.db, account);
      if acc.Some? {
        ActKeepsUnindexed(f, net, w.(db := d), acc.value, action);
      }
  }

  lemma CreateAccountUnindexed(f: Faults, db: Db, a: Account)
    requires Inv(db.t)
    ensures var t, t' := db.t, CreateAccount(f, db, a).0.t;
            Unindexed(t') == Unindexed(t) +
              if a.key !in t.keys && AddsAccount(f, db.ops) && Unindexes(f, db.ops) then {t.nextId} else {}
  {
    hide Inv, CreateAccount;
    CreateAccountLeaves(f, db, a);
    InvFresh(db.t);
    var t, t' := db.t, CreateAccount(f, db, a).0.t;
    forall x | x in t.accounts ensures Indexed(t', x) <==> Indexed(t, x) {
      InvAccount(t, x);
    }
  }

  lemma ActKeepsUnindexed(f: Faults, net: Net, w: World, acc: Account, a: Action)
    requires Inv(w.db.t)
    ensures Unindexed(Handle(f, net, w, acc, a).0.db.t) == Unindexed(w.db.t)
  {
    hide Inv, SignOrder, RefreshOrder;
    if a.FinalizeOrder? {
      var (d, o) := GetOrder(f, w.db, a.order);
      if o.Some? {
        InvOrder(w.db.t, a.order);
        RefreshOrderNoCerts(f, d, o.value, w.now);
        var (d1, o1, _) := RefreshOrder(f, d, o.value, w.now);
        SignOrderKeepsAccounts(f, net, d1, o1, a.csr, a.signer, w.now);
      }
    } else {
      HandleIsCalm(f, net, w, acc, a);
      CalmKeepsUnindexed(w.db.t, Handle(f, net, w, acc, a).0.db.t);
    }
  }

  lemma SignOrderKeepsAccounts(f: Faults, net: Net, db: Db, o: Order, csr: ParsedRequest, signer: Signer, now: Time)
    ensures var t := SignOrder(f, net, db, o, csr, signer, now).db.t; t.accounts == db.t.accounts && t.keys == db.t.keys
  {
    hide SansFor, CreateCertificate, UpdateOrder;
    if SansFor(net, o, csr).Accepted? && signer.Chain? {
      var c := Certificate(0, o.account, o.id, [signer.leaf] + signer.intermediates);
      CreateCertificateKeepsAccounts(f, db, c);
      UpdateOrderKeepsOthers(f, CreateCertificate(f, db, c).0, o.(cert := Some(db.t.nextId), status := Valid));
    }
  }

  lemma CreateCertificateKeepsAccounts(f: Faults, db: Db, c: Certificate)
    ensures var t := CreateCertificate(f, db, c).0.t; t.accounts == db.t.accounts && t.keys == db.t.keys
  {}

  /** In every run, however storage calls end, the accounts that their key does not lead to are exactly as many as
      registrations whose account was saved by a call that failed, and whose index entry was then deleted. */
  lemma {:induction false} UnindexedAreOrphaned(f: Faults, net: Net, now: Time, events: seq<Event>)
    ensures |Unindexed(Run(f, net, Start(now), events).db.t)| == Orphaned(f, net, now, events)
  {
    hide Inv, Step, Orphans;
    if events != [] {
      var rest, e := events[..|events| - 1], events[|events| - 1];
      UnindexedAreOrphaned(f, net, now, rest);
      RunSafe(f, net, now, rest);
      StepUnindexed(f, net, Run(f, net, Start(now), rest), e);
    } else {
      assert Unindexed(Start(now).db.t) == {};
    }
  }

  /** Two accounts share a key only after such a registration. */
  lemma SharedKeyNeedsOrphan(f: Faults, net: Net, now: Time, events: seq<Event>, a: Id, b: Id)
    requires
      var t := Run(f, net, Start(now), events).db.t;
      a != b && a in t.accounts && b in t.accounts && t.accounts[a].key == t.accounts[b].key
    ensures Orphaned(f, net, now, events) > 0
  {
    hide Run;
    UnindexedAreOrphaned(f, net, now, events);
    var t := Run(f, net, Start(now), events).db.t;
    assert a in Unindexed(t) || b in Unindexed(t);
  }

  /** Storage whose call number `n` ends with `fault`, and all others as asked. */
  function FaultAt(n: nat, fault: Fault): Faults {
    k => if k == n then fault else Done
  }

  /** Such a run: the account of the first registration is saved by a call that fails, its index entry is deleted,
      and the key registers again. */
  lemma TwoAccountsOneKey(net: Net, now: Time, key: string)
    ensures
      var t := Run(FaultAt(2, Torn), net, Start(now), [Register(key, [], false), Register(key, [], false)]).db.t;
      0 in t.accounts && 1 in t.accounts && t.accounts[0].key == t.accounts[1].key == key
  {
    hide Step;
    var f, e := FaultAt(2, Torn), Register(key, [], false);
    var one, two := [e], [e, e];
    assert two[..1] == one && one[..0] == [];
    assert Run(f, net, Start(now), one) == Step(f, net, Start(now), e).0;
    assert Run(f, net, Start(now), two) == Step(f, net, Run(f, net, Start(now), one), e).0;
    FirstRegistration(net, now, key);
    SecondRegistration(net, now, key);
  }

  /** The server after the first registration: the account is stored, and its key has no entry. */
  function OrphanOnly(now: Time, key: string): World {
    World(Db(EMPTY.t.(accounts := map[0 := Account(0, key, [], Valid)], nextId := 1), 4), now, [])
  }

  lemma FirstRegistration(net: Net, now: Time, key: string)
    ensures Step(FaultAt(2, Torn), net, Start(now), Register(key, [], false)).0 == OrphanOnly(now, key)
  {
    assert map[key := 0] - {key} == map[];
  }

  lemma SecondRegistration(net: Net, now: Time, key: string)
    ensures
      var t := Step(FaultAt(2, Torn), net, OrphanOnly(now, key), Register(key, [], false)).0.db.t;
      0 in t.accounts && 1 in t.accounts && t.accounts[0].key == t.accounts[1].key == key
  {
    hide CreateAccount;
    var f, db := FaultAt(2, Torn), OrphanOnly(now, key).db;
    CreateAccountLeaves(f, GetAccountByKey(f, db, key).0, Account(0, key, [], Valid));
  }

  // ---------------------------------------------------------------------------------------------
  // Status changes per record

  /** How often the stored status of a record changed along a run, seen through `status`. */
  ghost function Changes(f: Faults, net: Net, now: Time, events: seq<Event>, status: Tables -> Option<Status>): nat {
    if events == [] then 0
    else
      var rest := events[..|events| - 1];
      var before := status(Run(f, net, Start(now), rest).db.t);
      var after := status(Run(f, net, Start(now), events).db.t);
      Changes(f, net, now, rest, status) + if before.Some? && after != before then 1 else 0
  }

  function OrderStatus(id: Id): Tables -> Option<Status> {
    (t: Tables) => if id in t.orders then Some(t.orders[id].status) else None
  }

  function AuthzStatus(id: Id): Tables -> Option<Status> {
    (t: Tables) => if id in t.authzs then Some(t.authzs[id].status) else None
  }

  function ChallengeStatus(id: Id): Tables -> Option<Status> {
    (t: Tables) => if id in t.challenges then Some(t.challenges[id].status) else None
  }

  function Progress(s: Option<Status>): nat {
    if s.None? then 0 else Rank(s.value)
  }

  /** A status view that a step never takes back and changes only upwards. */
  ghost predicate GoesForward(before: Option<Status>, after: Option<Status>) {
    before.Some? ==> after.Some? && (after == before || Rank(before.value) < Rank(after.value))
  }

  lemma StatusesGoForward(f: Faults, net: Net, w: World, e: Event, id: Id)
    requires Inv(w.db.t)
    ensures
      var t, t' := w.db.t, Step(f, net, w, e).0.db.t;
      && GoesForward(OrderStatus(id)(t), OrderStatus(id)(t'))
      && GoesForward(AuthzStatus(id)(t), AuthzStatus(id)(t'))
      && GoesForward(ChallengeStatus(id)(t), ChallengeStatus(id)(t'))
  {
    hide Inv, Moves, Step;
    var t, t' := w.db.t, Step(f, net, w, e).0.db.t;
    StepSafe(f, net, w, e, Actor(e));
    if id in t.orders { MovedOrder(t, t', Actor(e), id); }
    if id in t.authzs {
      MovedAuthz(t, t', Actor(e), id);
      InvAuthz(t', id);
    }
    if id in t.challenges {
      MovedChallenge(t, t', Actor(e), id);
      InvChallenge(t', id);
    }
  }

  lemma {:induction false} ChangesAreBounded(f: Faults, net: Net, now: Time, events: seq<Event>, id: Id)
    ensures
      var t := Run(f, net, Start(now), events).db.t;
      && Changes(f, net, now, events, OrderStatus(id)) <= Progress(OrderStatus(id)(t))
      && 2 * Changes(f, net, now, events, AuthzStatus(id)) <= Progress(AuthzStatus(id)(t))
      && 2 * Changes(f, net, now, events, ChallengeStatus(id)) <= Progress(ChallengeStatus(id)(t))
  {
    hide Inv, Moves, Step, OrderStatus, AuthzStatus, ChallengeStatus;
    if events != [] {
      var rest, e := events[..|events| - 1], events[|events| - 1];
      ChangesAreBounded(f, net, now, rest, id);
      var w := Run(f, net, Start(now), rest);
      RunSafe(f, net, now, rest);
      RunSafe(f, net, now, events);
      StatusesGoForward(f, net, w, e, id);
      BasicStatuses(w.db.t, id);
      BasicStatuses(Run(f, net, Start(now), events).db.t, id);
    }
  }

  lemma BasicStatuses(t: Tables, id: Id)
    requires Inv(t)
    ensures AuthzStatus(id)(t).Some? ==> Basic(AuthzStatus(id)(t).value)
    ensures ChallengeStatus(id)(t).Some? ==> Basic(ChallengeStatus(id)(t).value)
  {
    hide Inv;
    if id in t.authzs { InvAuthz(t, id); }
    if id in t.challenges { InvChallenge(t, id); }
  }

  /** In every run an order changes status at most twice, an authorization and a challenge at most once. */
  lemma FewStatusChanges(f: Faults, net: Net, now: Time, events: seq<Event>, id: Id)
    ensures Changes(f, net, now, events, OrderStatus(id)) <= 2
    ensures Changes(f, net, now, events, AuthzStatus(id)) <= 1
    ensures Changes(f, net, now, events, ChallengeStatus(id)) <= 1
  {
    ChangesAreBounded(f, net, now, events, id);
  }
}
