/** What each request leaves in the store and answers: accounts, challenges, fetched records and finalizations
    (acme/api/account.go, acme/api/handler.go, acme/api/order.go). */
module AcmeRequests {
  import opened Text
  import opened Csr
  import opened Storage
  import opened AcmeStore
  import opened AcmeProtocol
  import opened AcmeInvariant
  import opened AcmeSafety
  import opened AcmeRefresh
  import opened AcmeAccounts

  /** The account is stored as valid, and the call that reads it succeeds. */
  predicate Passes(f: Faults, db: Db, a: Id) {
    f(db.ops) == Done && a in db.t.accounts && db.t.accounts[a].status == Valid
  }

  /** Only such an account gets to a handler; any other changes nothing and fails. */
  lemma Passing(f: Faults, net: Net, w: World, a: Id, action: Action)
    requires Inv(w.db.t)
    ensures
      if Passes(f, w.db, a) then
        && w.db.t.accounts[a].id == a
        && Step(f, net, w, Act(a, action)) ==
           Handle(f, net, w.(db := w.db.(ops := w.db.ops + 1)), w.db.t.accounts[a], action)
      else
        && Step(f, net, w, Act(a, action)).0 == w.(db := w.db.(ops := w.db.ops + 1))
        && Step(f, net, w, Act(a, action)).1.Failed?
        && (f(w.db.ops) == Done && a in w.db.t.accounts ==>
              Step(f, net, w, Act(a, action)).1 == Failed(Unauthorized))
  {
    hide Inv, Handle;
    if a in w.db.t.accounts { InvAccount(w.db.t, a); }
  }

  // ---------------------------------------------------------------------------------------------
  // Accounts

  /** The only status that may be asked for is deactivated, and only without contacts; no contact is empty. */
  predicate ChangeIsOk(contact: seq<string>, status: Option<Status>) {
    && (status.Some? ==> status == Some(Deactivated) && contact == [])
    && forall i :: 0 <= i < |contact| ==> |contact[i]| > 0
  }

  /** The account as asked for: deactivated, or with the contacts given. */
  function ChangedAccount(acc: Account, contact: seq<string>, status: Option<Status>): Account {
    Account(acc.id, acc.key, if contact == [] then acc.contact else contact,
            if status.None? then acc.status else Deactivated)
  }

  /** A change of the account is refused, or asks for nothing, or is stored unless its write is lost; and the answer is
      that it was made exactly when it was made without failure. */
  lemma AccountChanges(f: Faults, net: Net, w: World, a: Id, contact: seq<string>, status: Option<Status>)
    requires Inv(w.db.t)
    ensures
      var (w', v) := Step(f, net, w, Act(a, ChangeAccount(contact, status)));
      var t, op := w.db.t, w.db.ops;
      var asked := Passes(f, w.db, a) && ChangeIsOk(contact, status) && (status.Some? || contact != []);
      && w'.now == w.now && w'.signed == w.signed
      && w'.db.t == (if asked && f(op + 1) != Lost
                     then t.(accounts := t.accounts[a := ChangedAccount(t.accounts[a], contact, status)]) else t)
      && (v.Fine? <==> Passes(f, w.db, a) && ChangeIsOk(contact, status) && (asked ==> f(op + 1) == Done))
      && (v == Failed(Malformed) <==> Passes(f, w.db, a) && !ChangeIsOk(contact, status))
  {
    hide Inv;
    Passing(f, net, w, a, ChangeAccount(contact, status));
    assert AccountChangeOk(contact, status) <==> ChangeIsOk(contact, status) by {
      assert forall i :: 0 <= i < |contact| ==> (contact[i] != "" <==> |contact[i]| > 0);
    }
  }

  lemma {:induction false} RunAppend(f: Faults, net: Net, w: World, a: seq<Event>, b: seq<Event>)
    ensures Run(f, net, w, a + b) == Run(f, net, Run(f, net, w, a), b)
    decreases |b|
  {
    hide Step;
    if b == [] {
      assert a + b == a;
    } else {
      var rest := b[..|b| - 1];
      assert (a + b)[..|a + b| - 1] == a + rest && (a + b)[|a + b| - 1] == b[|b| - 1];
      RunAppend(f, net, w, a, rest);
    }
  }

  /** In every run: once a deactivation was answered without error, the account is deactivated, none of its records
      changes any more or is added, and each of its later requests fails. */
  lemma DeactivationTakesEffect(f: Faults, net: Net, now: Time, before: seq<Event>, contact: seq<string>,
                                status: Status, after: seq<Event>, a: Id)
    requires Step(f, net, Run(f, net, Start(now), before), Act(a, ChangeAccount(contact, Some(status)))).1.Fine?
    ensures
      var events := before + [Act(a, ChangeAccount(contact, Some(status)))];
      var t := Run(f, net, Start(now), events).db.t;
      var w' := Run(f, net, Start(now), events + after);
      && a in t.accounts && t.accounts[a].status == Deactivated
      && Untouched(t, w'.db.t, a) && w'.db.t.accounts[a].status == Deactivated
      && forall action :: Step(f, net, w', Act(a, action)).1.Failed?
  {
    hide Step, Inv, Untouched;
    var w, e := Run(f, net, Start(now), before), Act(a, ChangeAccount(contact, Some(status)));
    var events := before + [e];
    RunSafe(f, net, now, before);
    AccountChanges(f, net, w, a, contact, Some(status));
    assert events[..|events| - 1] == before && events[|events| - 1] == e;
    var w1 := Run(f, net, Start(now), events);
    assert w1 == Step(f, net, w, e).0;
    RunSafe(f, net, now, events);
    RunAppend(f, net, Start(now), events, after);
    DeactivationIsFinal(f, net, w1, after, a);
    StillThere(w1.db.t, Run(f, net, w1, after).db.t, a);
    RunSafe(f, net, now, events + after);
    forall action ensures Step(f, net, Run(f, net, w1, after), Act(a, action)).1.Failed? {
      Passing(f, net, Run(f, net, w1, after), a, action);
    }
  }

  lemma StillThere(t: Tables, t': Tables, a: Id)
    requires Untouched(t, t', a) && a in t.accounts
    ensures a in t'.accounts && t'.accounts[a] == t.accounts[a]
  {}

  /** A registration without storage failures: when it is refused and why, and the account that it makes. */
  lemma RegistrationIs(f: Faults, net: Net, w: World, key: string, contact: seq<string>, onlyExisting: bool)
    requires AllDone(f, w.db.ops, 4)
    ensures
      var (w', v) := Step(f, net, w, Register(key, contact, onlyExisting));
      var t, id := w.db.t, w.db.t.nextId;
      var known := key in t.keys && t.keys[key] in t.accounts;
      var asked := (onlyExisting ==> contact == []) && forall i :: 0 <= i < |contact| ==> |contact[i]| > 0;
      && w'.now == w.now && w'.signed == w.signed
      && v == (if known && t.accounts[t.keys[key]].status != Valid then Failed(Unauthorized)
               else if !asked then Failed(Malformed)
               else if known then Fine
               else if onlyExisting then Failed(AccountDoesNotExist)
               else if key in t.keys then Failed(ServerInternal)
               else Fine)
      && w'.db.t == if v.Fine? && !known
                    then t.(accounts := t.accounts[id := Account(id, key, contact, Valid)], keys := t.keys[key := id],
                            nextId := id + 1)
                    else t
  {
    assert forall i :: 0 <= i < |contact| ==> (contact[i] != "" <==> |contact[i]| > 0);
  }

  /** The time that the events of a run take. */
  function Waited(events: seq<Event>): nat {
    if events == [] then 0
    else
      var e := events[|events| - 1];
      Waited(events[..|events| - 1]) + if e.Wait? then e.duration else 0
  }

  /** The clock moves by waiting only. */
  lemma {:induction false} ClockIs(f: Faults, net: Net, w: World, events: seq<Event>)
    ensures Run(f, net, w, events).now == w.now + Waited(events)
  {
    hide NewOrder, Finalize, RefreshOrder, RefreshAuthorization, ValidateChallenge, UpdateAccount, UpdateOrderList,
      RegisterAccount;
    if events != [] {
      ClockIs(f, net, w, events[..|events| - 1]);
    }
  }

  // ---------------------------------------------------------------------------------------------
  // Challenges

  /** The challenge after a validator came to this finding. */
  function AnsweredChallenge(c: Challenge, finding: Finding, now: Time): Challenge {
    match finding
    case Proved => Challenge(c.id, c.account, c.value, c.kind, Valid, c.token, Some(now), None)
    case Unproved(true, p) => Challenge(c.id, c.account, c.value, c.kind, Invalid, c.token, c.validated, Some(p))
    case Unproved(false, p) => Challenge(c.id, c.account, c.value, c.kind, Pending, c.token, c.validated, Some(p))
    case Aborted => c
  }

  /** An answer to a pending challenge of the account is stored unless the write is lost: proved it is valid from now
      on, by a final failure it is invalid, by another it stays pending, with the problem; nothing else changes. */
  lemma ChallengeAnswers(f: Faults, net: Net, w: World, a: Id, id: Id, finding: Finding)
    requires Inv(w.db.t)
    ensures
      var (w', v) := Step(f, net, w, Act(a, AnswerChallenge(id, finding)));
      var t, op := w.db.t, w.db.ops;
      var own := Passes(f, w.db, a) && f(op + 1) == Done && id in t.challenges && t.challenges[id].account == a;
      var open := own && t.challenges[id].status == Pending && !finding.Aborted?;
      && w'.now == w.now && w'.signed == w.signed
      && w'.db.t == (if open && f(op + 2) != Lost
                     then t.(challenges := t.challenges[id := AnsweredChallenge(t.challenges[id], finding, w.now)])
                     else t)
      && (v.Fine? <==> own && (t.challenges[id].status == Pending ==> !finding.Aborted? && f(op + 2) == Done))
  {
    hide Inv;
    Passing(f, net, w, a, AnswerChallenge(id, finding));
    if id in w.db.t.challenges { InvChallenge(w.db.t, id); }
  }

  // ---------------------------------------------------------------------------------------------
  // Records of others

  /** The request names a record of another account, or an order of another provisioner. */
  predicate Foreign(t: Tables, a: Id, action: Action) {
    match action
    case FetchOrder(p, id) => id in t.orders && (t.orders[id].account != a || t.orders[id].provisioner != p)
    case FinalizeOrder(p, id, _, _) => id in t.orders && (t.orders[id].account != a || t.orders[id].provisioner != p)
    case FetchAuthorization(id) => id in t.authzs && t.authzs[id].account != a
    case AnswerChallenge(id, _) => id in t.challenges && t.challenges[id].account != a
    case ListOrders(account) => account != a
    case _ => false
  }

  /** Such a request changes nothing, has nothing signed and fails, as unauthorized unless a read fails. */
  lemma ForeignRequestsAreRefused(f: Faults, net: Net, w: World, a: Id, action: Action)
    requires Inv(w.db.t) && Foreign(w.db.t, a, action)
    ensures
      var (w', v) := Step(f, net, w, Act(a, action));
      && w'.db.t == w.db.t && w'.signed == w.signed && v.Failed?
      && (AllDone(f, w.db.ops, 2) && a in w.db.t.accounts ==> v == Failed(Unauthorized))
  {
    hide Inv, NewOrder, Finalize, RefreshOrder, RefreshAuthorization, ValidateChallenge, UpdateAccount,
      UpdateOrderList;
    Passing(f, net, w, a, action);
    if action.FetchAuthorization? { InvAuthz(w.db.t, action.authz); }
  }

  /** The request names a record that is not stored. */
  predicate Unknown(t: Tables, action: Action) {
    match action
    case FetchOrder(_, id) => id !in t.orders
    case FinalizeOrder(_, id, _, _) => id !in t.orders
    case FetchAuthorization(id) => id !in t.authzs
    case AnswerChallenge(id, _) => id !in t.challenges
    case _ => false
  }

  lemma UnknownRecordsAreRefused(f: Faults, net: Net, w: World, a: Id, action: Action)
    requires Inv(w.db.t) && Unknown(w.db.t, action)
    ensures
      var (w', v) := Step(f, net, w, Act(a, action));
      && w'.db.t == w.db.t && w'.signed == w.signed && v.Failed?
      && (Passes(f, w.db, a) ==> v == Failed(ServerInternal))
  {
    hide Inv, NewOrder, Finalize, RefreshOrder, RefreshAuthorization, ValidateChallenge, UpdateAccount,
      UpdateOrderList;
    Passing(f, net, w, a, action);
  }

  // ---------------------------------------------------------------------------------------------
  // Fetching

  /** A fetch without storage failures brings the stored order to its status at the time, and no other order. */
  lemma FetchedOrderIs(f: Faults, net: Net, w: World, a: Id, provisioner: Id, id: Id)
    requires NoFaults(f) && Inv(w.db.t) && Passes(f, w.db, a) && id in w.db.t.orders
    requires !Foreign(w.db.t, a, FetchOrder(provisioner, id))
    ensures
      var (w', v) := Step(f, net, w, Act(a, FetchOrder(provisioner, id)));
      var o := w.db.t.orders[id];
      && v == Fine && (forall i :: 0 <= i < |o.authzs| ==> o.authzs[i] in w.db.t.authzs)
      && id in w'.db.t.orders && w'.db.t.orders[id].status == OrderStatusAt(w.db.t, o, w.now)
      && w'.db.t.orders == w.db.t.orders[id := w'.db.t.orders[id]]
  {
    hide Inv, RefreshOrder, OrderStatusAt, SettleAll;
    Passing(f, net, w, a, FetchOrder(provisioner, id));
    InvOrder(w.db.t, id);
    RefreshOrderIs(f, w.db.(ops := w.db.ops + 2), w.db.t.orders[id], w.now);
  }

  lemma FetchedAuthorizationIs(f: Faults, net: Net, w: World, a: Id, id: Id)
    requires NoFaults(f) && Inv(w.db.t) && Passes(f, w.db, a) && id in w.db.t.authzs && w.db.t.authzs[id].account == a
    ensures
      var (w', v) := Step(f, net, w, Act(a, FetchAuthorization(id)));
      var t := w.db.t;
      v == Fine && w'.db.t == t.(authzs := t.authzs[id := Settled(t, t.authzs[id], w.now)])
  {
    hide Inv, RefreshAuthorization, Settled;
    Passing(f, net, w, a, FetchAuthorization(id));
    InvAuthz(w.db.t, id);
    var d := w.db.(ops := w.db.ops + 2);
    RefreshAuthorizationIs(f, d, Loaded(d.t.authzs[id], ChallengesOf(d.t, d.t.authzs[id])), w.now);
  }

  // ---------------------------------------------------------------------------------------------
  // Finalizing

  /** However storage calls end, a finalization answered without error leaves the order valid, with a stored
      certificate of its own. */
  lemma FineMeansIssued(f: Faults, net: Net, w: World, a: Id, provisioner: Id, id: Id, csr: ParsedRequest,
                        signer: Signer)
    requires Inv(w.db.t)
    ensures
      var (w', v) := Step(f, net, w, Act(a, FinalizeOrder(provisioner, id, csr, signer)));
      var t := w'.db.t;
      v.Fine? ==>
        && id in t.orders && t.orders[id].status == Valid && t.orders[id].account == a
        && t.orders[id].cert.Some? && t.orders[id].cert.value in t.certs
        && t.certs[t.orders[id].cert.value].order == id
  {
    hide Inv, Moves, Finalize, Step;
    var action := FinalizeOrder(provisioner, id, csr, signer);
    Passing(f, net, w, a, action);
    StepSafe(f, net, w, Act(a, action), a);
    var (w', v) := Step(f, net, w, Act(a, action));
    if v.Fine? {
      FinalizeFine(f, net, w.db.(ops := w.db.ops + 2), id, csr, signer, w.now);
      InvOrder(w'.db.t, id);
      MovedOrder(w.db.t, w'.db.t, a, id);
    }
  }

  lemma FinalizeFine(f: Faults, net: Net, db: Db, id: Id, csr: ParsedRequest, signer: Signer, now: Time)
    requires Inv(db.t)
    ensures id in db.t.orders ==>
              var r := Finalize(f, net, db, db.t.orders[id], csr, signer, now);
              r.verdict.Fine? ==> id in r.db.t.orders && r.db.t.orders[id].status == Valid
  {
    hide Inv, Moves, RefreshOrder, SansFor, CreateCertificate;
    if id in db.t.orders {
      var o := db.t.orders[id];
      InvOrder(db.t, id);
      RefreshOrderSafe(f, db, o, now);
      var (d, o1, _) := RefreshOrder(f, db, o, now);
      MovedOrder(db.t, d.t, o.account, id);
    }
  }

  /** What a finalization without storage failures answers, for an order with this status. */
  function FinalizeAnswer(status: Status, names: SansResult, signer: Signer): Verdict {
    match status
    case Valid => Fine
    case Ready =>
      if names.Refused? then Failed(if names.error == UnsupportedKind then ServerInternal else BadCSR)
      else if signer.Chain? then Fine else Failed(ServerInternal)
    case _ => Failed(OrderNotReady)
  }

  function ChainOf(signer: Signer): seq<string> {
    if signer.Chain? then [signer.leaf] + signer.intermediates else []
  }

  /** Without storage failures a finalization goes by the status of the order at the time: a ready one with matching
      names is handed to the signer, once, with the validity of the order, and becomes valid with the chain returned. */
  lemma FinalizationIs(f: Faults, net: Net, w: World, a: Id, provisioner: Id, id: Id, csr: ParsedRequest,
                       signer: Signer)
    requires NoFaults(f) && Inv(w.db.t) && Passes(f, w.db, a) && id in w.db.t.orders
    requires !Foreign(w.db.t, a, FinalizeOrder(provisioner, id, csr, signer))
    ensures
      var (w', v) := Step(f, net, w, Act(a, FinalizeOrder(provisioner, id, csr, signer)));
      var t, t', o, cert := w.db.t, w'.db.t, w.db.t.orders[id], w.db.t.nextId;
      && (forall i :: 0 <= i < |o.authzs| ==> o.authzs[i] in t.authzs)
      && var status, names := OrderStatusAt(t, o, w.now), SansFor(net, o, csr);
      var accepted := status == Ready && names.Accepted?;
      && v == FinalizeAnswer(status, names, signer)
      && w'.signed == w.signed +
           (if accepted && !signer.NotAuthorized?
            then [SignCall(id, w.now, csr.commonName, names.sans, o.notBefore, o.notAfter, ChainOf(signer))] else [])
      && id in t'.orders && t'.orders == t.orders[id := t'.orders[id]]
      && t'.orders[id].status == (if accepted && signer.Chain? then Valid else status)
      && t'.orders[id].cert == (if accepted && signer.Chain? then Some(cert) else o.cert)
      && t'.certs == (if accepted && signer.Chain?
                      then t.certs[cert := Certificate(cert, a, id, ChainOf(signer))] else t.certs)
  {
    hide Inv, Finalize, OrderStatusAt, SansFor;
    Passing(f, net, w, a, FinalizeOrder(provisioner, id, csr, signer));
    InvOrder(w.db.t, id);
    FinalizeIs(f, net, w.db.(ops := w.db.ops + 2), w.db.t.orders[id], csr, signer, w.now);
    assert w.signed + [] == w.signed;
  }

  lemma FinalizeIs(f: Faults, net: Net, db: Db, o: Order, csr: ParsedRequest, signer: Signer, now: Time)
    requires NoFaults(f) && Inv(db.t) && o.id in db.t.orders && db.t.orders[o.id] == o
    ensures
      var r, t, cert := Finalize(f, net, db, o, csr, signer, now), db.t, db.t.nextId;
      && (forall i :: 0 <= i < |o.authzs| ==> o.authzs[i] in t.authzs)
      && var status, names := OrderStatusAt(t, o, now), SansFor(net, o, csr);
      var accepted := status == Ready && names.Accepted?;
      var done := accepted && signer.Chain?;
      && r.verdict == FinalizeAnswer(status, names, signer)
      && r.call == (if accepted && !signer.NotAuthorized?
                    then Some(SignCall(o.id, now, csr.commonName, names.sans, o.notBefore, o.notAfter, ChainOf(signer)))
                    else None)
      && o.id in r.db.t.orders && r.db.t.orders == t.orders[o.id := r.db.t.orders[o.id]]
      && r.db.t.orders[o.id].status == (if done then Valid else status)
      && r.db.t.orders[o.id].cert == (if done then Some(cert) else o.cert)
      && r.db.t.certs == (if done then t.certs[cert := Certificate(cert, o.account, o.id, ChainOf(signer))]
                          else t.certs)
  {
    hide Inv, Moves, RefreshOrder, OrderStatusAt, SansFor, SignOrder;
    InvOrder(db.t, o.id);
    RefreshedIs(f, db, o, now);
    var (d, o1, _) := RefreshOrder(f, db, o, now);
    SameNames(net, o, o1, csr);
    SigningIs(f, net, d, o1, csr, signer, now);
  }

  lemma RefreshedIs(f: Faults, db: Db, o: Order, now: Time)
    requires NoFaults(f) && Inv(db.t) && o.id in db.t.orders && db.t.orders[o.id] == o
    ensures forall i :: 0 <= i < |o.authzs| ==> o.authzs[i] in db.t.authzs
    ensures
      var (d, o1, v) := RefreshOrder(f, db, o, now);
      && v == Fine && d.t == db.t.(authzs := d.t.authzs, orders := db.t.orders[o.id := o1])
      && o1 == o.(status := OrderStatusAt(db.t, o, now), error := o1.error)
      && o1.status in {Pending, Ready, Valid, Invalid}
  {
    hide Inv, RefreshOrder, StatusAt;
    InvOrder(db.t, o.id);
    RefreshOrderIs(f, db, o, now);
  }

  lemma SameNames(net: Net, o: Order, o1: Order, csr: ParsedRequest)
    requires o1.identifiers == o.identifiers
    ensures SansFor(net, o1, csr) == SansFor(net, o, csr)
  {}

  lemma SigningIs(f: Faults, net: Net, db: Db, o: Order, csr: ParsedRequest, signer: Signer, now: Time)
    requires NoFaults(f) && o.id in db.t.orders && db.t.orders[o.id] == o
    ensures
      var r, names := SignOrder(f, net, db, o, csr, signer, now), SansFor(net, o, csr);
      var done, cert := names.Accepted? && signer.Chain?, db.t.nextId;
      && r.verdict == FinalizeAnswer(Ready, names, signer)
      && r.call == (if names.Accepted? && !signer.NotAuthorized?
                    then Some(SignCall(o.id, now, csr.commonName, names.sans, o.notBefore, o.notAfter, ChainOf(signer)))
                    else None)
      && r.db.t.orders == (if done then db.t.orders[o.id := o.(status := Valid, cert := Some(cert))] else db.t.orders)
      && r.db.t.certs == (if done then db.t.certs[cert := Certificate(cert, o.account, o.id, ChainOf(signer))]
                          else db.t.certs)
  {
    hide SansFor;
  }
}
