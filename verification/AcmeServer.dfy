/** The ACME server as it is written: records in memory that methods change before saving them, a store
    whose calls decide how they end, handlers that call both. Each method is proved against its
    specification in AcmeProtocol, and the server as a whole against the statements about runs. */
module AcmeServer {
  import opened Text
  import opened Csr
  import opened Storage
  import opened AcmeStore
  import opened AcmeProtocol
  import opened AcmeInvariant
  import opened AcmeSafety
  import opened AcmeIssuance
  import opened AcmeCertificates
  import opened AcmeAccounts
  import opened AcmeLists

  /** The nosql database (acme/db/nosql): tables, and calls that end as the oracle says. */
  class Database {
    const faults: Faults
    var t: Tables
    var ops: nat

    constructor (faults: Faults)
      ensures this.faults == faults && Contents() == EMPTY
    {
      this.faults := faults;
      t, ops := EMPTY.t, 0;
    }

    function Contents(): Db
      reads this
    {
      Db(t, ops)
    }

    /** One write: it has its effect unless it is lost, and reports success only if it is done. */
    method Save(after: Tables) returns (ok: bool)
      modifies this
      ensures (Contents(), ok) == Write(faults, old(Contents()), after)
    {
      var fault := faults(ops);
      ops := ops + 1;
      if fault != Lost {
        t := after;
      }
      ok := fault == Done;
    }

    /** One read. */
    method Load() returns (ok: bool)
      modifies this
      ensures (Contents(), ok) == Read(faults, old(Contents()))
    {
      ok := faults(ops) == Done;
      ops := ops + 1;
    }

    /** A call that fails since the record it needs is missing, or one it needs to be missing is there. */
    method Refuse() returns (ok: bool)
      modifies this
      ensures Contents() == old(Contents()).(ops := old(ops) + 1) && !ok
    {
      ops := ops + 1;
      ok := false;
    }

    method GetAccount(id: Id) returns (acc: Option<Account>)
      modifies this
      ensures (Contents(), acc) == AcmeStore.GetAccount(faults, old(Contents()), id)
    {
      var ok := Load();
      acc := if ok && id in t.accounts then Some(t.accounts[id]) else None;
    }

    method GetAccountByKey(key: string) returns (r: Lookup)
      modifies this
      ensures (Contents(), r) == AcmeStore.GetAccountByKey(faults, old(Contents()), key)
    {
      var ok := Load();
      if !ok {
        return LookupFailed;
      }
      if key !in t.keys {
        return NoAccount;
      }
      ok := Load();
      if !ok {
        return LookupFailed;
      }
      r := if t.keys[key] in t.accounts then Found(t.accounts[t.keys[key]]) else NoAccount;
    }

    method CreateAccount(a: Account) returns (ok: bool)
      modifies this
      ensures (Contents(), ok) == AcmeStore.CreateAccount(faults, old(Contents()), a)
    {
      if a.key in t.keys {
        ok := Refuse();
        return;
      }
      var id := t.nextId;
      ok := Save(t.(keys := t.keys[a.key := id], nextId := id + 1));
      if !ok {
        return;
      }
      ok := Save(t.(accounts := t.accounts[id := a.(id := id)]));
      if !ok {
        var _ := Save(t.(keys := t.keys - {a.key}));
      }
    }

    method UpdateAccount(a: Account) returns (ok: bool)
      modifies this
      ensures (Contents(), ok) == AcmeStore.UpdateAccount(faults, old(Contents()), a)
    {
      if a.id !in t.accounts {
        ok := Refuse();
        return;
      }
      var nu := t.accounts[a.id].(contact := a.contact, status := a.status);
      ok := Save(t.(accounts := t.accounts[a.id := nu]));
    }

    method CreateChallenge(c: Challenge) returns (id: Id, ok: bool)
      modifies this
      ensures id == old(t.nextId) && (Contents(), ok) == AcmeStore.CreateChallenge(faults, old(Contents()), c)
    {
      id := t.nextId;
      var nu := c.(id := id, status := Pending, validated := None, error := None);
      ok := Save(t.(challenges := t.challenges[id := nu], nextId := id + 1));
    }

    method GetChallenge(id: Id) returns (ch: AcmeChallenge?)
      modifies this
      ensures ch != null ==> fresh(ch)
      ensures var r := AcmeStore.GetChallenge(faults, old(Contents()), id);
              Contents() == r.0 && (ch == null <==> r.1.None?) && (ch != null ==> ch.Value() == r.1.value)
    {
      var ok := Load();
      if !ok || id !in t.challenges {
        return null;
      }
      ch := new AcmeChallenge(t.challenges[id]);
    }

    method UpdateChallenge(c: Challenge) returns (ok: bool)
      modifies this
      ensures (Contents(), ok) == AcmeStore.UpdateChallenge(faults, old(Contents()), c)
    {
      if c.id !in t.challenges {
        ok := Refuse();
        return;
      }
      var nu := t.challenges[c.id].(status := c.status, error := c.error, validated := c.validated);
      ok := Save(t.(challenges := t.challenges[c.id := nu]));
    }

    method CreateAuthorization(az: Authorization) returns (id: Id, ok: bool)
      modifies this
      ensures id == old(t.nextId) && (Contents(), ok) == AcmeStore.CreateAuthorization(faults, old(Contents()), az)
    {
      id := t.nextId;
      ok := Save(t.(authzs := t.authzs[id := az.(id := id, error := None)], nextId := id + 1));
    }

    method GetAuthorization(id: Id) returns (az: AcmeAuthorization?)
      modifies this
      ensures az != null ==> fresh(az)
      ensures var r := AcmeStore.GetAuthorization(faults, old(Contents()), id);
              Contents() == r.0 && (az == null <==> r.1.None?) && (az != null ==> az.Value() == r.1.value)
    {
      var ok := Load();
      if !ok || id !in t.authzs || !HasChallenges(t, t.authzs[id]) {
        return null;
      }
      az := new AcmeAuthorization(Loaded(t.authzs[id], ChallengesOf(t, t.authzs[id])));
    }

    method UpdateAuthorization(az: Authorization) returns (ok: bool)
      modifies this
      ensures (Contents(), ok) == AcmeStore.UpdateAuthorization(faults, old(Contents()), az)
    {
      if az.id !in t.authzs {
        ok := Refuse();
        return;
      }
      var nu := t.authzs[az.id].(status := az.status, error := az.error);
      ok := Save(t.(authzs := t.authzs[az.id := nu]));
    }

    method GetOrder(id: Id) returns (o: AcmeOrder?)
      modifies this
      ensures o != null ==> fresh(o)
      ensures var r := AcmeStore.GetOrder(faults, old(Contents()), id);
              Contents() == r.0 && (o == null <==> r.1.None?) && (o != null ==> o.Value() == r.1.value)
    {
      var ok := Load();
      if !ok || id !in t.orders {
        return null;
      }
      o := new AcmeOrder(t.orders[id]);
    }

    method UpdateOrder(o: Order) returns (ok: bool)
      modifies this
      ensures (Contents(), ok) == AcmeStore.UpdateOrder(faults, old(Contents()), o)
    {
      if o.id !in t.orders {
        ok := Refuse();
        return;
      }
      var nu := t.orders[o.id].(status := o.status, error := o.error, cert := o.cert);
      ok := Save(t.(orders := t.orders[o.id := nu]));
    }

    method CreateOrder(o: Order, now: Time) returns (ok: bool)
      modifies this
      ensures (Contents(), ok) == AcmeProtocol.CreateOrder(faults, old(Contents()), o, now)
    {
      hide AcmeProtocol.UpdateOrderList;
      var id := t.nextId;
      ok := Save(t.(orders := t.orders[id := o.(id := id, cert := None, error := None)], nextId := id + 1));
      if !ok {
        return;
      }
      var ids := UpdateOrderList(o.account, Some(id), now);
      ok := ids.Some?;
    }

    /** updateAddOrderIDs */
    method UpdateOrderList(account: Id, added: Option<Id>, now: Time) returns (r: Option<seq<Id>>)
      modifies this
      ensures (Contents(), r) == AcmeProtocol.UpdateOrderList(faults, old(Contents()), account, added, now)
    {
      hide RefreshListed;
      var ok := Load();
      if !ok {
        return None;
      }
      var listed := if account in t.lists then t.lists[account] else [];
      var pending := RefreshOrders(listed, now);
      if pending.None? {
        return None;
      }
      var ids := pending.value;
      if added.Some? {
        ids := ids + [added.value];
      }
      assert pending.value + [] == pending.value;
      if listed == [] && ids == [] {
        return Some([]);
      }
      ok := Save(t.(lists := if ids == [] then t.lists - {account} else t.lists[account := ids]));
      if ok {
        return Some(ids);
      }
      if added.Some? {
        var _ := Save(t.(orders := t.orders - {added.value}));
      }
      r := None;
    }

    /** The loop of updateAddOrderIDs: the listed orders that are still pending after a refresh. */
    method RefreshOrders(listed: seq<Id>, now: Time) returns (r: Option<seq<Id>>)
      modifies this
      ensures (Contents(), r) == RefreshListed(faults, old(Contents()), listed, now)
    {
      hide RefreshOrder;
      var pending: seq<Id> := [];
      ghost var all := RefreshListed(faults, Contents(), listed, now);
      assert listed[0..] == listed;
      assert all.1.Some? ==> [] + all.1.value == all.1.value;
      for i := 0 to |listed|
        invariant all == AfterIds(pending, RefreshListed(faults, Contents(), listed[i..], now))
      {
        ghost var here := listed[i..];
        assert here[0] == listed[i] && here[1..] == listed[i + 1..];
        ghost var before := pending;
        var o := GetOrder(listed[i]);
        if o == null {
          return None;
        }
        var v := o.UpdateStatus(this, now);
        if v.Failed? {
          return None;
        }
        if o.status == Pending {
          pending := pending + [listed[i]];
        }
        ghost var rest := RefreshListed(faults, Contents(), listed[i + 1..], now).1;
        KeptFirst(before, pending, if o.status == Pending then [listed[i]] else [], rest);
      }
      assert listed[|listed|..] == [];
      assert pending + [] == pending;
      r := Some(pending);
    }

    method CreateCertificate(c: Certificate) returns (id: Id, ok: bool)
      modifies this
      ensures id == old(t.nextId) && (Contents(), ok) == AcmeStore.CreateCertificate(faults, old(Contents()), c)
    {
      id := t.nextId;
      ok := Save(t.(certs := t.certs[id := c.(id := id)], nextId := id + 1));
      if !ok {
        return;
      }
      ok := Save(t);
    }
  }

  lemma KeptFirst(before: seq<Id>, after: seq<Id>, kept: seq<Id>, rest: Option<seq<Id>>)
    requires after == before + kept
    ensures rest.Some? ==> after + rest.value == before + (kept + rest.value)
  {}

  /** The signer, which remembers what it was asked to sign. */
  class CertificateAuthority {
    var calls: seq<SignCall>

    constructor ()
      ensures calls == []
    {
      calls := [];
    }
  }

  class AcmeChallenge {
    const id: Id
    const account: Id
    const value: string
    const kind: ChallengeType
    const token: string
    var status: Status
    var validated: Option<Time>
    var error: Option<Problem>

    constructor (c: Challenge)
      ensures Value() == c
    {
      id, account, value, kind, token := c.id, c.account, c.value, c.kind, c.token;
      status, validated, error := c.status, c.validated, c.error;
    }

    function Value(): Challenge
      reads this
    {
      Challenge(id, account, value, kind, status, token, validated, error)
    }

    /** storeError: unless the save is lost, a stored pending challenge has the problem and is invalid exactly if it was
        marked so, and no other record has changed. */
    method StoreError(store: Database, markInvalid: bool, problem: Problem) returns (v: Verdict)
      modifies this, store
      ensures (store.Contents(), Value(), v) ==
              Recorded(store.faults, old(store.Contents()), old(Value()), markInvalid, problem)
      ensures old(Inv(store.t) && Current(store.t, Value()) && status == Pending) ==>
              && ErrorOnly(old(store.t), store.t, old(Value()), markInvalid, problem,
                           store.faults(old(store.ops)) != Lost)
              && (v == Fine ==> Current(store.t, Value()))
    {
      hide Inv, ErrorOnly, AcmeStore.UpdateChallenge;
      error := Some(problem);
      if markInvalid {
        status := Invalid;
      }
      if old(Inv(store.t) && Current(store.t, Value()) && status == Pending) {
        ErrorIsSafe(store.faults, store.Contents(), old(Value()), markInvalid, problem);
      }
      var ok := store.UpdateChallenge(Value());
      return if ok then Fine else Failed(ServerInternal);
    }

    /** Challenge.Validate, for a validator that ends with `finding`. */
    method Validate(store: Database, finding: Finding, now: Time) returns (v: Verdict)
      modifies this, store
      ensures (store.Contents(), Value(), v) ==
              ValidateChallenge(store.faults, old(store.Contents()), old(Value()), finding, now)
    {
      if status != Pending {
        return Fine;
      }
      match finding
      case Aborted => return Failed(ServerInternal);
      case Unproved(final, problem) =>
        v := StoreError(store, final, problem);
      case Proved =>
        status := Valid;
        error := None;
        validated := Some(now);
        var ok := store.UpdateChallenge(Value());
        return if ok then Fine else Failed(ServerInternal);
    }
  }

  /** The invariant is kept, and only the challenge changed, if it was saved: it has the problem, and is invalid if
      marked so and else still pending. */
  ghost predicate ErrorOnly(t: Tables, t': Tables, c: Challenge, markInvalid: bool, problem: Problem, saved: bool) {
    && Safe(t, t', c.account)
    && t' == if !saved then t
             else
               var status := if markInvalid then Invalid else Pending;
               t.(challenges := t.challenges[c.id := c.(status := status, error := Some(problem))])
  }

  lemma ErrorIsSafe(f: Faults, db: Db, c: Challenge, markInvalid: bool, problem: Problem)
    requires Inv(db.t) && Current(db.t, c) && c.status == Pending
    ensures var (d, c1, v) := Recorded(f, db, c, markInvalid, problem);
            && ErrorOnly(db.t, d.t, c, markInvalid, problem, f(db.ops) != Lost)
            && (v == Fine ==> Current(d.t, c1))
  {
    hide Inv, Safe, Moves;
    InvChallenge(db.t, c.id);
    UpdateChallengeSafe(f, db, Recorded(f, db, c, markInvalid, problem).1);
  }

  /** The record in memory is the stored one. */
  predicate Current(t: Tables, c: Challenge) {
    c.id in t.challenges && t.challenges[c.id] == c
  }

  /** What recording an error leaves in the store and in memory. */
  function Recorded(f: Faults, db: Db, c: Challenge, markInvalid: bool, problem: Problem): (Db, Challenge, Verdict) {
    var c1 := c.(error := Some(problem), status := if markInvalid then Invalid else c.status);
    var (d, ok) := AcmeStore.UpdateChallenge(f, db, c1);
    (d, c1, if ok then Fine else Failed(ServerInternal))
  }

  class AcmeAuthorization {
    const id: Id
    const account: Id
    const token: string
    const identifier: Identifier
    const challengeIds: seq<Id>
    const challenges: seq<Challenge>
    const wildcard: bool
    const expires: Time
    var status: Status
    var error: Option<Problem>

    constructor (l: Loaded)
      ensures Value() == l
    {
      var az := l.az;
      id, account, token, identifier, challengeIds := az.id, az.account, az.token, az.identifier, az.challenges;
      challenges, wildcard, expires, status, error := l.chs, az.wildcard, az.expires, az.status, az.error;
    }

    function Record(): Authorization
      reads this
    {
      Authorization(id, account, token, identifier, status, challengeIds, wildcard, expires, error)
    }

    function Value(): Loaded
      reads this
    {
      Loaded(Record(), challenges)
    }

    /** Authorization.UpdateStatus */
    method UpdateStatus(store: Database, now: Time) returns (ok: bool)
      modifies this, store
      ensures (store.Contents(), Record(), ok) ==
              RefreshAuthorization(store.faults, old(store.Contents()), old(Value()), now)
    {
      match status
      case Invalid => return true;
      case Valid => return true;
      case Pending =>
        if now > expires {
          status := Invalid;
        } else {
          var isValid := false;
          for i := 0 to |challenges|
            invariant !isValid && forall j :: 0 <= j < i ==> challenges[j].status != Valid
            invariant status == old(status) && error == old(error) && store.Contents() == old(store.Contents())
          {
            if challenges[i].status == Valid {
              isValid := true;
              break;
            }
          }
          if !isValid {
            return true;
          }
          status := Valid;
          error := None;
        }
        ok := store.UpdateAuthorization(Record());
      case _ => return false;
    }
  }

  /** The statuses already seen, put before those still to come. */
  ghost function After(seen: seq<Status>, rest: (Db, Option<seq<Status>>)): (Db, Option<seq<Status>>) {
    (rest.0, if rest.1.None? then None else Some(seen + rest.1.value))
  }

  lemma {:induction false} CountAppend(s: seq<Status>, x: Status, y: Status)
    ensures Count(s + [x], y) == Count(s, y) + if x == y then 1 else 0
  {
    if s != [] {
      CountAppend(s[1..], x, y);
      assert (s + [x])[1..] == s[1..] + [x];
    }
  }

  class AcmeOrder {
    const id: Id
    const account: Id
    const provisioner: Id
    const expires: Time
    const identifiers: seq<Identifier>
    const authzs: seq<Id>
    const notBefore: Time
    const notAfter: Time
    var status: Status
    var cert: Option<Id>
    var error: Option<Problem>

    constructor (o: Order)
      ensures Value() == o
    {
      id, account, provisioner, expires, identifiers := o.id, o.account, o.provisioner, o.expires, o.identifiers;
      authzs, notBefore, notAfter, status, cert, error := o.authzs, o.notBefore, o.notAfter, o.status, o.cert, o.error;
    }

    function Value(): Order
      reads this
    {
      Order(id, account, provisioner, status, expires, identifiers, authzs, notBefore, notAfter, cert, error)
    }

    /** The loop of UpdateStatus over the authorizations, counting their statuses. */
    method CountStatuses(store: Database, now: Time) returns (ok: bool, count: map<Status, nat>)
      modifies store
      ensures var (d, statuses) := RefreshAll(store.faults, old(store.Contents()), authzs, now);
              && store.Contents() == d && ok == statuses.Some?
              && (ok ==> |statuses.value| == |authzs|)
              && (ok ==> Tallied(count, statuses.value))
    {
      hide RefreshAuthorization, AcmeStore.GetAuthorization, Tallied;
      TallyNone();
      count := map[Valid := 0, Invalid := 0, Pending := 0];
      ghost var seen: seq<Status> := [];
      ghost var all := RefreshAll(store.faults, store.Contents(), authzs, now);
      assert authzs[0..] == authzs;
      assert all.1.Some? ==> [] + all.1.value == all.1.value;
      for i := 0 to |authzs|
        invariant |seen| == i
        invariant all == After(seen, RefreshAll(store.faults, store.Contents(), authzs[i..], now))
        invariant Tallied(count, seen)
      {
        ghost var here := authzs[i..];
        assert here[0] == authzs[i] && here[1..] == authzs[i + 1..];
        var az := store.GetAuthorization(authzs[i]);
        if az == null {
          return false, count;
        }
        var updated := az.UpdateStatus(store, now);
        if !updated {
          return false, count;
        }
        TallyOne(count, seen, az.status);
        ghost var rest := RefreshAll(store.faults, store.Contents(), authzs[i + 1..], now).1;
        assert rest.Some? ==> (seen + [az.status]) + rest.value == seen + ([az.status] + rest.value);
        seen := seen + [az.status];
        count := count[az.status := if az.status in count then count[az.status] + 1 else 1];
      }
      assert authzs[|authzs|..] == [];
      assert seen + [] == seen;
      ok := true;
    }

    /** Order.UpdateStatus */
    method UpdateStatus(store: Database, now: Time) returns (v: Verdict)
      modifies this, store
      ensures (store.Contents(), Value(), v) == RefreshOrder(store.faults, old(store.Contents()), old(Value()), now)
    {
      match status {
      case Invalid => return Fine;
      case Valid => return Fine;
      case Ready =>
        if now > expires {
          status := Invalid;
          error := Some(Malformed);
        } else {
          return Fine;
        }
      case Pending =>
        if now > expires {
          status := Invalid;
          error := Some(Malformed);
        } else {
          var ok, count := CountStatuses(store, now);
          if !ok {
            return Failed(ServerInternal);
          }
          if count[Invalid] > 0 {
            status := Invalid;
          } else if count[Pending] > 0 {
            return Fine;
          } else if count[Valid] == |authzs| {
            status := Ready;
          } else {
            return Failed(ServerInternal);
          }
        }
      case Deactivated => return Failed(ServerInternal);
      }
      var ok := store.UpdateOrder(Value());
      return if ok then Fine else Failed(ServerInternal);
    }

    method FindPermanentIdentifier() returns (pid: string)
      ensures pid == FirstPermanentIdentifier(identifiers)
    {
      pid := "";
      assert identifiers[0..] == identifiers;
      for i := 0 to |identifiers|
        invariant pid == ""
        invariant FirstPermanentIdentifier(identifiers) == FirstPermanentIdentifier(identifiers[i..])
      {
        assert identifiers[i..][1..] == identifiers[i + 1..];
        if identifiers[i].kind == PermanentIdentifier {
          pid := identifiers[i].value;
          return;
        }
      }
    }

    /** Order.Finalize */
    method Finalize(net: Net, store: Database, csr: CertificateRequest, ca: CertificateAuthority, signer: Signer,
                    now: Time)
      returns (v: Verdict)
      requires Parsed(csr.Value())
      modifies this, store, csr, ca
      ensures
        var r := AcmeProtocol.Finalize(store.faults, net, old(store.Contents()), old(Value()), old(csr.Value()),
          signer, now);
        && store.Contents() == r.db && Value() == r.order && v == r.verdict
        && ca.calls == if r.call.Some? then old(ca.calls) + [r.call.value] else old(ca.calls)
    {
      v := UpdateStatus(store, now);
      if v.Failed? {
        return;
      }
      match status
      case Invalid => return Failed(OrderNotReady);
      case Valid => return Fine;
      case Pending => return Failed(OrderNotReady);
      case Deactivated => return Failed(ServerInternal);
      case Ready =>
        v := Sign(net, store, csr, ca, signer, now);
    }

    /** Finalize once the order is ready. */
    method Sign(net: Net, store: Database, csr: CertificateRequest, ca: CertificateAuthority, signer: Signer, now: Time)
      returns (v: Verdict)
      requires Parsed(csr.Value())
      modifies this, store, csr, ca
      ensures
        var r := SignOrder(store.faults, net, old(store.Contents()), old(Value()), old(csr.Value()), signer, now);
        && store.Contents() == r.db && Value() == r.order && v == r.verdict
        && ca.calls == if r.call.Some? then old(ca.calls) + [r.call.value] else old(ca.calls)
    {
      hide Canonical, Sans, Lawful, FirstPermanentIdentifier, AcmeStore.CreateCertificate, AcmeStore.UpdateOrder;
      csr.Canonicalize(net);
      var pid := FindPermanentIdentifier();
      var sans: seq<San>;
      if pid != "" {
        sans := [PermanentId(pid)];
      } else {
        var r := ComputeSans(net, identifiers, csr.Value());
        if r.Refused? {
          return Failed(SansProblem(r.error));
        }
        sans := r.sans;
      }
      match signer
      case NotAuthorized => return Failed(ServerInternal);
      case SignError =>
        ca.calls := ca.calls + [SignCall(id, now, csr.commonName, sans, notBefore, notAfter, [])];
        return Failed(ServerInternal);
      case Chain(leaf, intermediates) =>
        var chain := [leaf] + intermediates;
        ca.calls := ca.calls + [SignCall(id, now, csr.commonName, sans, notBefore, notAfter, chain)];
        var certId, created := store.CreateCertificate(Certificate(0, account, id, chain));
        if !created {
          return Failed(ServerInternal);
        }
        cert := Some(certId);
        status := Valid;
        var ok := store.UpdateOrder(Value());
        return if ok then Fine else Failed(ServerInternal);
    }
  }

  /** The handlers, with the clock of the server. */
  class Server {
    const net: Net
    const store: Database
    const ca: CertificateAuthority
    var now: Time

    constructor (net: Net, faults: Faults, now: Time)
      ensures fresh(store) && fresh(ca) && this.net == net && store.faults == faults && State() == Start(now)
    {
      this.net := net;
      this.store := new Database(faults);
      this.ca := new CertificateAuthority();
      this.now := now;
    }

    function State(): World
      reads this, store, ca
    {
      World(store.Contents(), now, ca.calls)
    }

    /** NewOrderRequest.Validate */
    method ValidateNewOrder(r: NewOrderRequest) returns (ok: bool)
      ensures ok == RequestOk(net, r)
    {
      if |r.identifiers| == 0 {
        return false;
      }
      for i := 0 to |r.identifiers|
        invariant forall j :: 0 <= j < i ==> IdentifierOk(net, r.nameOk, r.identifiers[j])
      {
        if !IdentifierOk(net, r.nameOk, r.identifiers[i]) {
          return false;
        }
      }
      return true;
    }

    /** The loop of newAuthorization over the challenge types. */
    method AddChallenges(az: Authorization, types: seq<ChallengeType>, enabled: ChallengeType -> bool)
      returns (made: Option<seq<Id>>)
      modifies store
      ensures (store.Contents(), made) ==
              CreateChallenges(store.faults, old(store.Contents()), az, types, enabled)
    {
      hide AcmeStore.CreateChallenge;
      var ids: seq<Id> := [];
      ghost var all := CreateChallenges(store.faults, store.Contents(), az, types, enabled);
      assert types[0..] == types;
      assert all.1.Some? ==> [] + all.1.value == all.1.value;
      for i := 0 to |types|
        invariant all == AfterIds(ids, CreateChallenges(store.faults, store.Contents(), az, types[i..], enabled))
      {
        ghost var here := types[i..];
        assert here[0] == types[i] && here[1..] == types[i + 1..];
        if !enabled(types[i]) {
          continue;
        }
        var ch := Challenge(0, az.account, az.identifier.value, types[i], Pending, az.token, None, None);
        var id, ok := store.CreateChallenge(ch);
        if !ok {
          return None;
        }
        ghost var rest := CreateChallenges(store.faults, store.Contents(), az, types[i + 1..], enabled).1;
        assert rest.Some? ==> (ids + [id]) + rest.value == ids + ([id] + rest.value);
        ids := ids + [id];
      }
      assert ids + [] == ids;
      made := Some(ids);
    }

    /** newAuthorization */
    method AddAuthorization(account: Id, identifier: Identifier, expires: Time, token: Option<string>,
                            enabled: ChallengeType -> bool)
      returns (id: Option<Id>)
      modifies store
      ensures (store.Contents(), id) ==
              NewAuthorization(store.faults, old(store.Contents()), account, identifier, expires, token, enabled)
    {
      var (value, wildcard) := TrimWildcard(identifier.value);
      if token.None? {
        return None;
      }
      var name := Identifier(identifier.kind, value);
      var az := Authorization(0, account, token.value, name, Pending, [], wildcard, expires, None);
      var ids := AddChallenges(az, ChallengeTypes(identifier.kind, wildcard), enabled);
      if ids.None? {
        return None;
      }
      var azId, ok := store.CreateAuthorization(az.(challenges := ids.value));
      return if ok then Some(azId) else None;
    }

    /** NewOrder */
    method PlaceOrder(acc: Account, provisioner: Id, r: NewOrderRequest) returns (v: Verdict)
      modifies store
      ensures (store.Contents(), v) == NewOrder(store.faults, net, old(store.Contents()), acc.id, provisioner, r, now)
    {
      hide NewAuthorizations, AcmeProtocol.CreateOrder;
      var ok := ValidateNewOrder(r);
      if !ok {
        return Failed(Malformed);
      }
      for i := 0 to |r.identifiers|
        invariant forall j :: 0 <= j < i ==> r.allowed(r.identifiers[j])
      {
        if !r.allowed(r.identifiers[i]) {
          return Failed(RejectedIdentifier);
        }
      }
      var ids := AddAuthorizations(acc, r, now + ORDER_EXPIRY);
      if ids.None? {
        return Failed(ServerInternal);
      }
      var created := store.CreateOrder(OrderRecord(acc.id, provisioner, r, ids.value, now), now);
      return if created then Fine else Failed(ServerInternal);
    }

    /** The loop of NewOrder: one authorization per identifier. */
    method AddAuthorizations(acc: Account, r: NewOrderRequest, expires: Time) returns (made: Option<seq<Id>>)
      modifies store
      ensures (store.Contents(), made) == NewAuthorizations(store.faults, old(store.Contents()), acc.id, r, 0, expires)
    {
      hide NewAuthorization;
      var ids: seq<Id> := [];
      ghost var all := NewAuthorizations(store.faults, store.Contents(), acc.id, r, 0, expires);
      assert all.1.Some? ==> [] + all.1.value == all.1.value;
      for i := 0 to |r.identifiers|
        invariant all == AfterIds(ids, NewAuthorizations(store.faults, store.Contents(), acc.id, r, i, expires))
      {
        var azId := AddAuthorization(acc.id, r.identifiers[i], expires, r.token(i), r.enabled);
        if azId.None? {
          return None;
        }
        ghost var rest := NewAuthorizations(store.faults, store.Contents(), acc.id, r, i + 1, expires).1;
        assert rest.Some? ==> (ids + [azId.value]) + rest.value == ids + ([azId.value] + rest.value);
        ids := ids + [azId.value];
      }
      assert ids + [] == ids;
      return Some(ids);
    }

    /** The handlers behind lookupJWK. */
    method HandleAction(acc: Account, a: Action) returns (v: Verdict)
      modifies store, ca
      ensures (State(), v) == Handle(store.faults, net, old(State()), acc, a)
    {
      match a
      case PlaceOrder(p, r) =>
        v := PlaceOrder(acc, p, r);
      case FetchOrder(p, id) =>
        var o := store.GetOrder(id);
        if o == null {
          return Failed(ServerInternal);
        }
        if acc.id != o.account || p != o.provisioner {
          return Failed(Unauthorized);
        }
        v := o.UpdateStatus(store, now);
      case FinalizeOrder(p, id, csr, signer) =>
        var o := store.GetOrder(id);
        if o == null {
          return Failed(ServerInternal);
        }
        if acc.id != o.account || p != o.provisioner {
          return Failed(Unauthorized);
        }
        var request := new CertificateRequest(csr);
        v := o.Finalize(net, store, request, ca, signer, now);
      case FetchAuthorization(id) =>
        var az := store.GetAuthorization(id);
        if az == null {
          return Failed(ServerInternal);
        }
        if acc.id != az.account {
          return Failed(Unauthorized);
        }
        var ok := az.UpdateStatus(store, now);
        return if ok then Fine else Failed(ServerInternal);
      case AnswerChallenge(id, finding) =>
        var ch := store.GetChallenge(id);
        if ch == null {
          return Failed(ServerInternal);
        }
        if acc.id != ch.account {
          return Failed(Unauthorized);
        }
        v := ch.Validate(store, finding, now);
      case ChangeAccount(contact, status) =>
        if !AccountChangeOk(contact, status) {
          return Failed(Malformed);
        }
        if status.None? && contact == [] {
          return Fine;
        }
        var nu := acc;
        if status.Some? {
          nu := nu.(status := status.value);
        } else {
          nu := nu.(contact := contact);
        }
        var ok := store.UpdateAccount(nu);
        return if ok then Fine else Failed(ServerInternal);
      case ListOrders(account) =>
        if account != acc.id {
          return Failed(Unauthorized);
        }
        var ids := store.UpdateOrderList(acc.id, None, now);
        return if ids.Some? then Fine else Failed(ServerInternal);
    }

    /** extractJWK followed by NewAccount. */
    method RegisterKey(key: string, contact: seq<string>, onlyExisting: bool) returns (v: Verdict)
      modifies store
      ensures (store.Contents(), v) ==
              RegisterAccount(store.faults, old(store.Contents()), key, contact, onlyExisting)
    {
      hide AcmeStore.CreateAccount;
      var found := store.GetAccountByKey(key);
      if found.LookupFailed? {
        return Failed(ServerInternal);
      }
      if found.Found? && found.account.status != Valid {
        return Failed(Unauthorized);
      }
      if onlyExisting && |contact| > 0 {
        return Failed(Malformed);
      }
      for i := 0 to |contact|
        invariant forall j :: 0 <= j < i ==> contact[j] != ""
      {
        if contact[i] == "" {
          return Failed(Malformed);
        }
      }
      if found.Found? {
        return Fine;
      }
      if onlyExisting {
        return Failed(AccountDoesNotExist);
      }
      var ok := store.CreateAccount(Account(0, key, contact, Valid));
      return if ok then Fine else Failed(ServerInternal);
    }

    /** Serves one event, as `Step` says: the invariant is kept, records change for the acting account only and
        forward only. */
    method Serve(e: Event) returns (v: Verdict)
      modifies this, store, ca
      ensures (State(), v) == Step(store.faults, net, old(State()), e)
      ensures old(Inv(State().db.t)) ==> Safe(old(State().db.t), State().db.t, Actor(e))
    {
      hide Inv, Safe, Handle, RegisterAccount;
      if Inv(State().db.t) {
        StepSafe(store.faults, net, State(), e, Actor(e));
      }
      match e
      case Wait(t) =>
        now := now + t;
        return Fine;
      case Register(key, contact, onlyExisting) =>
        v := RegisterKey(key, contact, onlyExisting);
      case Act(account, action) =>
        var acc := store.GetAccount(account);
        if acc.None? {
          return Failed(ServerInternal);
        }
        if acc.value.status != Valid {
          return Failed(Unauthorized);
        }
        v := HandleAction(acc.value, action);
    }

    /** Serves a list of events on a new server: whatever they are and however storage calls end, the store keeps its
        invariant, every name handed to the signer is proved, every certificate was signed, orders have exactly the
        certificates that their status and the unsaved finalizations account for, accounts that their key does not lead
        to come only from registrations that were saved and then unindexed, and lists name missing orders only after
        an order was torn off. */
    method ServeAll(events: seq<Event>)
      requires State() == Start(now)
      modifies this, store, ca
      ensures State() == Run(store.faults, net, Start(old(now)), events)
      ensures Inv(store.t) && SignedOk(net, State()) && CertsSigned(State())
      ensures forall o :: |CertsOf(store.t.certs, o)| ==
                (if IsValid(store.t.orders, o) then 1 else 0) + Wasted(store.faults, net, old(now), events, o)
      ensures |Unindexed(store.t)| == Orphaned(store.faults, net, old(now), events)
      ensures forall a :: Dangles(store.t, a) <==> WasTorn(store.faults, net, old(now), events, a)
    {
      hide Dangles, WasTorn, Inv, SignedOk, CertsSigned, Step, Wasted, Orphaned, Unindexed, CertsOf;
      for i := 0 to |events|
        invariant State() == Run(store.faults, net, Start(old(now)), events[..i])
      {
        assert events[..i + 1][..i] == events[..i];
        var _ := Serve(events[i]);
      }
      assert events[..|events|] == events;
      var f, start := store.faults, old(now);
      RunSafe(f, net, start, events);
      SignedNamesAreProved(f, net, start, events);
      CertificatesAreSigned(f, net, start, events);
      UnindexedAreOrphaned(f, net, start, events);
      forall o ensures |CertsOf(store.t.certs, o)| ==
        (if IsValid(store.t.orders, o) then 1 else 0) + Wasted(f, net, start, events, o) {
        CertificatesAreCounted(f, net, start, events, o);
      }
      forall a ensures Dangles(store.t, a) <==> WasTorn(f, net, start, events, a) {
        DanglingIsTorn(f, net, start, events, a);
      }
    }
  }

  /** The counts of the three statuses that an authorization can have. */
  ghost predicate Tallied(count: map<Status, nat>, seen: seq<Status>) {
    forall s :: s in {Valid, Invalid, Pending} ==> s in count && count[s] == Count(seen, s)
  }

  lemma TallyNone()
    ensures Tallied(map[Valid := 0, Invalid := 0, Pending := 0], [])
  {}

  lemma TallyOne(count: map<Status, nat>, seen: seq<Status>, x: Status)
    requires Tallied(count, seen)
    ensures Tallied(count[x := if x in count then count[x] + 1 else 1], seen + [x])
  {
    forall s ensures Count(seen + [x], s) == Count(seen, s) + if x == s then 1 else 0 {
      CountAppend(seen, x, s);
    }
  }

  /** The identifiers already made, put before those still to come. */
  ghost function AfterIds(ids: seq<Id>, rest: (Db, Option<seq<Id>>)): (Db, Option<seq<Id>>) {
    (rest.0, if rest.1.None? then None else Some(ids + rest.1.value))
  }
}
