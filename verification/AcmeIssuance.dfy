/** What the signer is ever asked to sign. */
module AcmeIssuance {
  import opened Text
  import opened Csr
  import opened Storage
  import opened AcmeStore
  import opened AcmeProtocol
  import opened AcmeInvariant
  import opened AcmeSafety

  // ---------------------------------------------------------------------------------------------
  // Every name handed to the signer was proved

  /** A valid challenge for the identifier, by a method admitted for it (section 7.1.4 of RFC 8555). */
  predicate IsProof(c: Challenge, az: Authorization, id: Identifier) {
    var wildcard := HasPrefix(id.value, "*.");
    && c.status == Valid && c.validated.Some?
    && c.account == az.account && c.token == az.token && id.value == (if wildcard then "*." else "") + c.value
    && Admits(id.kind, wildcard, c.kind)
  }

  /** The authorization is stored as valid and one of its challenges proves the identifier. */
  ghost predicate Proved(t: Tables, azId: Id, id: Identifier) {
    && azId in t.authzs && t.authzs[azId].status == Valid
    && exists k :: 0 <= k < |t.authzs[azId].challenges| && t.authzs[azId].challenges[k] in t.challenges
         && IsProof(t.challenges[t.authzs[azId].challenges[k]], t.authzs[azId], id)
  }

  /** The name is that of an identifier of the order, and that identifier is proved. */
  ghost predicate NameProved(net: Net, t: Tables, o: Order, san: San) {
    exists i :: 0 <= i < |o.identifiers| && i < |o.authzs| && Names(net, o.identifiers[i], san)
      && Proved(t, o.authzs[i], o.identifiers[i])
  }

  /** What holds of every call of the signer, in the store of that moment and ever after. A common name is an identifier
      of the order only where there is no permanent identifier. */
  ghost predicate CallOk(net: Net, t: Tables, call: SignCall) {
    && call.order in t.orders
    && var o := t.orders[call.order];
    && call.at <= o.expires && call.notBefore == o.notBefore && call.notAfter == o.notAfter
    && (forall pid :: ForDevice(o.identifiers, pid) ==> call.sans == [PermanentId(pid)])
    && (forall s :: s in call.sans ==> NameProved(net, t, o, s))
    && (forall i :: 0 <= i < |o.identifiers| ==> Listed(net, o, o.identifiers[i], call.sans))
    && (NoDevice(o.identifiers) && call.commonName != "" ==>
          exists i :: 0 <= i < |o.identifiers| && SameName(net, o.identifiers[i], call.commonName))
  }

  /** The first permanent identifier, with a value. */
  ghost predicate ForDevice(ids: seq<Identifier>, pid: string) {
    && pid != ""
    && exists i :: 0 <= i < |ids| && ids[i] == Identifier(PermanentIdentifier, pid)
         && forall j :: 0 <= j < i ==> ids[j].kind != PermanentIdentifier
  }

  ghost predicate NoDevice(ids: seq<Identifier>) {
    forall pid :: !ForDevice(ids, pid)
  }

  /** In an order without permanent identifiers every identifier is handed on. */
  ghost predicate Listed(net: Net, o: Order, id: Identifier, sans: seq<San>) {
    NoDevice(o.identifiers) && id.kind != PermanentIdentifier ==>
      exists s :: s in sans && Names(net, id, s)
  }

  ghost predicate SignedOk(net: Net, w: World) {
    forall k :: 0 <= k < |w.signed| ==> CallOk(net, w.db.t, w.signed[k])
  }

  lemma AllValidAreProved(t: Tables, id: Id, i: nat)
    requires Inv(t) && id in t.orders && AllValid(t.orders[id], t.authzs) && i < |t.orders[id].authzs|
    ensures i < |t.orders[id].identifiers| && Proved(t, t.orders[id].authzs[i], t.orders[id].identifiers[i])
  {
    hide Inv;
    var o := t.orders[id];
    InvOrder(t, id);
    var az := t.authzs[o.authzs[i]];
    InvAuthz(t, o.authzs[i]);
    var k :| 0 <= k < |az.challenges| && t.challenges[az.challenges[k]].status == Valid;
    InvChallenge(t, az.challenges[k]);
    assert IsProof(t.challenges[az.challenges[k]], az, o.identifiers[i]);
  }

  lemma ProvedKept(t: Tables, t': Tables, who: Id, azId: Id, id: Identifier)
    requires Moves(t, t', who) && Proved(t, azId, id)
    ensures Proved(t', azId, id)
  {
    hide Moves;
    MovedAuthz(t, t', who, azId);
    var az := t.authzs[azId];
    var k :| 0 <= k < |az.challenges| && az.challenges[k] in t.challenges
      && IsProof(t.challenges[az.challenges[k]], az, id);
    MovedChallenge(t, t', who, az.challenges[k]);
    assert t'.challenges[az.challenges[k]] == t.challenges[az.challenges[k]];
  }

  lemma CallKept(net: Net, t: Tables, t': Tables, who: Id, call: SignCall)
    requires Moves(t, t', who) && CallOk(net, t, call)
    ensures CallOk(net, t', call)
  {
    hide Moves, Names, Proved, SameName, Lawful, ForDevice;
    MovedOrder(t, t', who, call.order);
    var o, o' := t.orders[call.order], t'.orders[call.order];
    forall s | s in call.sans ensures NameProved(net, t', o', s) {
      assert NameProved(net, t, o, s);
      var i :| 0 <= i < |o.identifiers| && i < |o.authzs| && Names(net, o.identifiers[i], s)
        && Proved(t, o.authzs[i], o.identifiers[i]);
      ProvedKept(t, t', who, o.authzs[i], o.identifiers[i]);
      assert Names(net, o'.identifiers[i], s) && Proved(t', o'.authzs[i], o'.identifiers[i]);
    }
    forall i | 0 <= i < |o'.identifiers| ensures Listed(net, o', o'.identifiers[i], call.sans) {
      assert Listed(net, o, o.identifiers[i], call.sans);
    }
  }

  /** The order is for a device exactly when the loop finds an identifier. */
  lemma {:induction false} FirstPermanentIdentifierIs(ids: seq<Identifier>)
    ensures forall pid :: ForDevice(ids, pid) <==> pid != "" && pid == FirstPermanentIdentifier(ids)
  {
    if ids != [] && ids[0].kind != PermanentIdentifier {
      var rest := ids[1..];
      FirstPermanentIdentifierIs(rest);
      forall pid ensures ForDevice(ids, pid) <==> ForDevice(rest, pid) {
        if ForDevice(rest, pid) {
          var i :| 0 <= i < |rest| && rest[i] == Identifier(PermanentIdentifier, pid)
            && forall j :: 0 <= j < i ==> rest[j].kind != PermanentIdentifier;
          assert ids[i + 1] == rest[i] && forall j :: 0 < j <= i ==> ids[j] == rest[j - 1];
        }
        if ForDevice(ids, pid) {
          var i :| 0 <= i < |ids| && ids[i] == Identifier(PermanentIdentifier, pid)
            && forall j :: 0 <= j < i ==> ids[j].kind != PermanentIdentifier;
          assert rest[i - 1] == ids[i] && forall j :: 0 <= j < i - 1 ==> rest[j] == ids[j + 1];
        }
      }
    }
  }

  /** Names accepted for an order are names of its identifiers. */
  lemma SansForNames(net: Net, o: Order, csr: ParsedRequest)
    requires SansFor(net, o, csr).Accepted?
    ensures
      var sans := SansFor(net, o, csr).sans;
      && (forall s :: s in sans ==> exists i :: 0 <= i < |o.identifiers| && Names(net, o.identifiers[i], s))
      && (forall i :: 0 <= i < |o.identifiers| ==> Listed(net, o, o.identifiers[i], sans))
      && (forall pid :: ForDevice(o.identifiers, pid) ==> sans == [PermanentId(pid)])
      && (NoDevice(o.identifiers) && csr.commonName != "" ==>
            exists i :: 0 <= i < |o.identifiers| && SameName(net, o.identifiers[i], csr.commonName))
  {
    hide Lawful, Sans, Canonical, SameName;
    var pid := FirstPermanentIdentifier(o.identifiers);
    FirstPermanentIdentifierIs(o.identifiers);
    if pid != "" {
      assert ForDevice(o.identifiers, pid);
      var i :| 0 <= i < |o.identifiers| && o.identifiers[i] == Identifier(PermanentIdentifier, pid);
      assert Names(net, o.identifiers[i], PermanentId(pid));
    } else {
      AcceptedSansMatchIdentifiers(net, o.identifiers, csr);
      if csr.commonName != "" { AcceptedCommonName(net, o.identifiers, csr); }
    }
  }

  /** The call that SignOrder makes is for proved names of an order that has not expired. */
  lemma SignOrderCallOk(f: Faults, net: Net, db: Db, o: Order, csr: ParsedRequest, signer: Signer, now: Time)
    requires Inv(db.t) && o.id in db.t.orders && db.t.orders[o.id] == o && o.status == Ready && now <= o.expires
    ensures var r := SignOrder(f, net, db, o, csr, signer, now);
            r.call.Some? ==> r.call.value.order == o.id && CallOk(net, db.t, r.call.value)
  {
    hide Inv, SansFor, Names, Proved, SameName, Lawful, ForDevice, CreateCertificate, UpdateOrder;
    var r := SignOrder(f, net, db, o, csr, signer, now);
    if r.call.Some? {
      var sans := SansFor(net, o, csr).sans;
      SansForNames(net, o, csr);
      InvOrder(db.t, o.id);
      forall s | s in sans ensures NameProved(net, db.t, o, s) {
        var i :| 0 <= i < |o.identifiers| && Names(net, o.identifiers[i], s);
        AllValidAreProved(db.t, o.id, i);
      }
    }
  }

  lemma FinalizeCallOk(f: Faults, net: Net, db: Db, o: Order, csr: ParsedRequest, signer: Signer, now: Time)
    requires Inv(db.t) && o.id in db.t.orders && db.t.orders[o.id] == o
    ensures var r := Finalize(f, net, db, o, csr, signer, now);
            r.call.Some? ==> CallOk(net, r.db.t, r.call.value)
  {
    hide Inv, Moves, RefreshOrder, SignOrder, CallOk;
    var (d, o1, v) := RefreshOrder(f, db, o, now);
    RefreshOrderSafe(f, db, o, now);
    if v.Fine? && o1.status == Ready {
      MovedOrder(db.t, d.t, o.account, o.id);
      SignOrderCallOk(f, net, d, o1, csr, signer, now);
      SignOrderSafe(f, net, d, o1, csr, signer, now);
      var r := SignOrder(f, net, d, o1, csr, signer, now);
      if r.call.Some? { CallKept(net, d.t, r.db.t, o.account, r.call.value); }
    }
  }

  /** The only handler that calls the signer is FinalizeOrder. */
  lemma HandleSigned(f: Faults, net: Net, w: World, acc: Account, a: Action)
    requires Inv(w.db.t)
    ensures var w' := Handle(f, net, w, acc, a).0;
            && w.signed <= w'.signed
            && (forall k :: |w.signed| <= k < |w'.signed| ==> CallOk(net, w'.db.t, w'.signed[k]))
  {
    hide Inv, CallOk, Finalize, NewOrder, RefreshOrder, RefreshAuthorization, ValidateChallenge, UpdateAccount,
      UpdateOrderList;
    if a.FinalizeOrder? && a.order in w.db.t.orders {
      InvOrder(w.db.t, a.order);
      FinalizeCallOk(f, net, Read(f, w.db).0, w.db.t.orders[a.order], a.csr, a.signer, w.now);
    }
  }

  lemma StepSignedOk(f: Faults, net: Net, w: World, e: Event)
    requires Inv(w.db.t) && SignedOk(net, w)
    ensures SignedOk(net, Step(f, net, w, e).0)
  {
    hide Inv, Moves, CallOk, Handle, RegisterAccount;
    var w' := Step(f, net, w, e).0;
    StepSafe(f, net, w, e, Actor(e));
    if e.Act? {
      var (d, acc, _) := Authenticate(f, w.db, e.account);
      if acc.Some? { HandleSigned(f, net, w.(db := d), acc.value, e.action); }
    }
    forall k | 0 <= k < |w'.signed| ensures CallOk(net, w'.db.t, w'.signed[k]) {
      if k < |w.signed| {
        CallKept(net, w.db.t, w'.db.t, Actor(e), w.signed[k]);
      }
    }
  }

  /** In every run, however storage calls end: each name ever handed to the signer for an order is that of an
      identifier of the order whose authorization is valid through a valid challenge; and for an order without a
      permanent identifier, so is a common name. */
  lemma {:induction false} SignedNamesAreProved(f: Faults, net: Net, now: Time, events: seq<Event>)
    ensures SignedOk(net, Run(f, net, Start(now), events))
  {
    if events != [] {
      hide Inv, CallOk, Step;
      var rest := events[..|events| - 1];
      SignedNamesAreProved(f, net, now, rest);
      RunSafe(f, net, now, rest);
      StepSignedOk(f, net, Run(f, net, Start(now), rest), events[|events| - 1]);
    }
  }

  /** A valid authorization with a valid dns-01 challenge for the domain below the wildcard `n`. */
  ghost predicate ProvedByDns(t: Tables, azId: Id, n: string) {
    && azId in t.authzs && t.authzs[azId].status == Valid
    && exists k :: 0 <= k < |t.authzs[azId].challenges| && t.authzs[azId].challenges[k] in t.challenges
         && IsDnsProof(t.challenges[t.authzs[azId].challenges[k]], n)
  }

  predicate IsDnsProof(c: Challenge, n: string) {
    c.status == Valid && c.kind == DNS01 && EqualFold("*." + c.value, n)
  }

  /** In every run, each wildcard name ever handed to the signer is proved by a dns-01 challenge of a valid
      authorization of the order. */
  lemma WildcardsAreProvedByDns(f: Faults, net: Net, now: Time, events: seq<Event>, k: nat, n: string)
    requires k < |Run(f, net, Start(now), events).signed|
    requires DNSName(n) in Run(f, net, Start(now), events).signed[k].sans && HasPrefix(n, "*.")
    ensures
      var w := Run(f, net, Start(now), events);
      && w.signed[k].order in w.db.t.orders
      && var o := w.db.t.orders[w.signed[k].order];
      && exists i :: 0 <= i < |o.authzs| && ProvedByDns(w.db.t, o.authzs[i], n)
  {
    hide Run, NameProved, ProvedByDns, SameName, Listed;
    SignedNamesAreProved(f, net, now, events);
    var w := Run(f, net, Start(now), events);
    assert CallOk(net, w.db.t, w.signed[k]);
    WildcardIsProvedByDns(net, w.db.t, w.db.t.orders[w.signed[k].order], n);
  }

  lemma WildcardIsProvedByDns(net: Net, t: Tables, o: Order, n: string)
    requires NameProved(net, t, o, DNSName(n)) && HasPrefix(n, "*.")
    ensures exists i :: 0 <= i < |o.authzs| && ProvedByDns(t, o.authzs[i], n)
  {
    hide Lawful;
    var i :| 0 <= i < |o.identifiers| && i < |o.authzs| && Names(net, o.identifiers[i], DNSName(n))
             && Proved(t, o.authzs[i], o.identifiers[i]);
    var az := t.authzs[o.authzs[i]];
    var k :| 0 <= k < |az.challenges| && az.challenges[k] in t.challenges
             && IsProof(t.challenges[az.challenges[k]], az, o.identifiers[i]);
    WildcardProof(t.challenges[az.challenges[k]], az, o.identifiers[i], n);
    assert ProvedByDns(t, o.authzs[i], n);
  }

  lemma WildcardProof(c: Challenge, az: Authorization, id: Identifier, n: string)
    requires IsProof(c, az, id) && id.kind == DNS && n == ToLower(id.value) && HasPrefix(n, "*.")
    ensures IsDnsProof(c, n)
  {
    LowerKeepsWildcard(id.value);
    assert "*." + c.value == id.value;
    LowerIsIdempotent(id.value);
  }
}
