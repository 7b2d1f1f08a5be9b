/** The ACME handlers as functions from the state before a request to the state after it
    (acme/order.go, acme/authorization.go, acme/challenge.go, acme/api). */
module AcmeProtocol {
  import opened Text
  import opened Csr
  import opened Storage
  import opened AcmeStore

  /** How a call ends. */
  datatype Verdict = Fine | Failed(problem: Problem)

  // ---------------------------------------------------------------------------------------------
  // Authorizations and orders

  predicate SomeValid(chs: seq<Challenge>) {
    exists i :: 0 <= i < |chs| && chs[i].status == Valid
  }

  /** Authorization.UpdateStatus: the store, the record in memory, and whether the call succeeded. */
  function RefreshAuthorization(f: Faults, db: Db, l: Loaded, now: Time): (Db, Authorization, bool) {
    match l.az.status
    case Invalid => (db, l.az, true)
    case Valid => (db, l.az, true)
    case Pending =>
      if now > l.az.expires then
        var az := l.az.(status := Invalid);
        var (d, ok) := UpdateAuthorization(f, db, az);
        (d, az, ok)
      else if SomeValid(l.chs) then
        var az := l.az.(status := Valid, error := None);
        var (d, ok) := UpdateAuthorization(f, db, az);
        (d, az, ok)
      else (db, l.az, true)
    case _ => (db, l.az, false)
  }

  /** The loop of Order.UpdateStatus: loads and refreshes each authorization; its statuses if no call fails. */
  function RefreshAll(f: Faults, db: Db, ids: seq<Id>, now: Time): (Db, Option<seq<Status>>)
    decreases |ids|
  {
    if ids == [] then (db, Some([])) else
    var (d1, l) := GetAuthorization(f, db, ids[0]);
    if l.None? then (d1, None) else
    var (d2, az, ok) := RefreshAuthorization(f, d1, l.value, now);
    if !ok then (d2, None) else
    var (d3, rest) := RefreshAll(f, d2, ids[1..], now);
    if rest.None? then (d3, None) else (d3, Some([az.status] + rest.value))
  }

  function Count(s: seq<Status>, x: Status): nat {
    if s == [] then 0 else (if s[0] == x then 1 else 0) + Count(s[1..], x)
  }

  /** The status that a pending order takes from its authorizations; None is the "unexpected" branch. */
  function Decide(statuses: seq<Status>): Option<Status> {
    if Count(statuses, Invalid) > 0 then Some(Invalid)
    else if Count(statuses, Pending) > 0 then Some(Pending)
    else if Count(statuses, Valid) == |statuses| then Some(Ready)
    else None
  }

  function SaveOrder(f: Faults, db: Db, o: Order): (Db, Order, Verdict) {
    var (d, ok) := UpdateOrder(f, db, o);
    (d, o, if ok then Fine else Failed(ServerInternal))
  }

  /** Order.UpdateStatus */
  function RefreshOrder(f: Faults, db: Db, o: Order, now: Time): (Db, Order, Verdict) {
    match o.status
    case Invalid => (db, o, Fine)
    case Valid => (db, o, Fine)
    case Ready =>
      if now > o.expires then SaveOrder(f, db, o.(status := Invalid, error := Some(Malformed)))
      else (db, o, Fine)
    case Pending =>
      if now > o.expires then SaveOrder(f, db, o.(status := Invalid, error := Some(Malformed)))
      else
        var (d, statuses) := RefreshAll(f, db, o.authzs, now);
        if statuses.None? then (d, o, Failed(ServerInternal)) else
        var s := Decide(statuses.value);
        if s.None? then (d, o, Failed(ServerInternal))
        else if s.value == Pending then (d, o, Fine)
        else SaveOrder(f, d, o.(status := s.value))
    case Deactivated => (db, o, Failed(ServerInternal))
  }

  // ---------------------------------------------------------------------------------------------
  // The list of an account's orders

  /** The loop of updateAddOrderIDs: loads and refreshes each listed order; those still pending if no call fails. */
  function RefreshListed(f: Faults, db: Db, ids: seq<Id>, now: Time): (Db, Option<seq<Id>>)
    decreases |ids|
  {
    if ids == [] then (db, Some([])) else
    var (d1, o) := GetOrder(f, db, ids[0]);
    if o.None? then (d1, None) else
    var (d2, o1, v) := RefreshOrder(f, d1, o.value, now);
    if v.Failed? then (d2, None) else
    var (d3, rest) := RefreshListed(f, d2, ids[1..], now);
    if rest.None? then (d3, None)
    else (d3, Some((if o1.status == Pending then [ids[0]] else []) + rest.value))
  }

  /** updateAddOrderIDs: refreshes the listed orders and saves the list of those still pending, with a new one;
      when the list is not saved the new order is deleted. */
  function UpdateOrderList(f: Faults, db: Db, account: Id, added: Option<Id>, now: Time): (Db, Option<seq<Id>>) {
    var (d, ok) := Read(f, db);
    if !ok then (d, None) else
    var listed := ListOf(db.t, account);
    var (d1, pending) := RefreshListed(f, d, listed, now);
    if pending.None? then (d1, None) else
    var ids := pending.value + if added.Some? then [added.value] else [];
    if listed == [] && ids == [] then (d1, Some([])) else
    var (d2, saved) := SaveList(f, d1, account, ids);
    if saved then (d2, Some(ids))
    else (if added.Some? then DeleteOrder(f, d2, added.value) else d2, None)
  }

  /** CreateOrder: the record, then the list of the account. */
  function CreateOrder(f: Faults, db: Db, o: Order, now: Time): (Db, bool) {
    var id := db.t.nextId;
    var (d, ok) := AddOrder(f, db, o);
    if !ok then (d, false) else
    var (d1, ids) := UpdateOrderList(f, d, o.account, Some(id), now);
    (d1, ids.Some?)
  }

  // ---------------------------------------------------------------------------------------------
  // Finalization

  /** A call of the certificate authority's signer and the chain it returned, which is empty if it failed. */
  datatype SignCall = SignCall(order: Id, at: Time, commonName: string, sans: seq<San>,
                               notBefore: Time, notAfter: Time, chain: seq<string>)

  /** The value of the first permanent identifier, or the empty string. */
  function FirstPermanentIdentifier(ids: seq<Identifier>): string {
    if ids == [] then ""
    else if ids[0].kind == PermanentIdentifier then ids[0].value
    else FirstPermanentIdentifier(ids[1..])
  }

  /** The alternative names that Finalize hands to the signer. */
  function SansFor(net: Net, o: Order, csr: ParsedRequest): SansResult {
    var pid := FirstPermanentIdentifier(o.identifiers);
    if pid != "" then Accepted([PermanentId(pid)]) else Sans(net, o.identifiers, Canonical(net, csr))
  }

  function SansProblem(e: SansError): Problem {
    match e
    case UnsupportedKind => ServerInternal
    case _ => BadCSR
  }

  /** What the provisioner and the signer answer: refusal before signing, a signing error, or a chain. */
  datatype Signer = NotAuthorized | SignError | Chain(leaf: string, intermediates: seq<string>)

  datatype Finalized = Finalized(db: Db, order: Order, call: Option<SignCall>, verdict: Verdict)

  /** Order.Finalize */
  function Finalize(f: Faults, net: Net, db: Db, o: Order, csr: ParsedRequest, signer: Signer, now: Time): Finalized {
    var (d, o1, v) := RefreshOrder(f, db, o, now);
    if v.Failed? then Finalized(d, o1, None, v) else
    match o1.status
    case Valid => Finalized(d, o1, None, Fine)
    case Ready => SignOrder(f, net, d, o1, csr, signer, now)
    case Invalid => Finalized(d, o1, None, Failed(OrderNotReady))
    case Pending => Finalized(d, o1, None, Failed(OrderNotReady))
    case Deactivated => Finalized(d, o1, None, Failed(ServerInternal))
  }

  function CallFor(o: Order, csr: ParsedRequest, sans: seq<San>, now: Time, chain: seq<string>): SignCall {
    SignCall(o.id, now, csr.commonName, sans, o.notBefore, o.notAfter, chain)
  }

  /** The part of Finalize after the status check. */
  function SignOrder(f: Faults, net: Net, db: Db, o: Order, csr: ParsedRequest, signer: Signer, now: Time): Finalized {
    var names := SansFor(net, o, csr);
    if names.Refused? then Finalized(db, o, None, Failed(SansProblem(names.error)))
    else match signer
    case NotAuthorized => Finalized(db, o, None, Failed(ServerInternal))
    case SignError =>
      Finalized(db, o, Some(CallFor(o, csr, names.sans, now, [])), Failed(ServerInternal))
    case Chain(leaf, intermediates) =>
      var chain := [leaf] + intermediates;
      var call := Some(CallFor(o, csr, names.sans, now, chain));
      var (d, o2, v) := StoreChain(f, db, o, chain);
      Finalized(d, o2, call, v)
  }

  /** The end of Finalize: the certificate is stored, then the order is saved as valid. */
  function StoreChain(f: Faults, db: Db, o: Order, chain: seq<string>): (Db, Order, Verdict) {
    var certId := db.t.nextId;
    var (d, ok) := CreateCertificate(f, db, Certificate(0, o.account, o.id, chain));
    if !ok then (d, o, Failed(ServerInternal)) else SaveOrder(f, d, o.(cert := Some(certId), status := Valid))
  }

  // ---------------------------------------------------------------------------------------------
  // Challenges

  /** What a validator finds: proof, a failure (final or not), or an error that is not recorded. */
  datatype Finding = Proved | Unproved(final: bool, problem: Problem) | Aborted

  /** Challenge.Validate with the outcome of the network check given. */
  function ValidateChallenge(f: Faults, db: Db, c: Challenge, finding: Finding, now: Time): (Db, Challenge, Verdict) {
    if c.status != Pending then (db, c, Fine)
    else match finding
    case Aborted => (db, c, Failed(ServerInternal))
    case Proved =>
      var c1 := c.(status := Valid, error := None, validated := Some(now));
      var (d, ok) := UpdateChallenge(f, db, c1);
      (d, c1, if ok then Fine else Failed(ServerInternal))
    case Unproved(final, problem) =>
      var c1 := c.(error := Some(problem), status := if final then Invalid else c.status);
      var (d, ok) := UpdateChallenge(f, db, c1);
      (d, c1, if ok then Fine else Failed(ServerInternal))
  }

  // ---------------------------------------------------------------------------------------------
  // New orders

  /** trimIfWildcard */
  function TrimWildcard(value: string): (r: (string, bool))
    ensures r.1 == HasPrefix(value, "*.") && value == (if r.1 then "*." else "") + r.0
  {
    if HasPrefix(value, "*.") then (value[2..], true) else (value, false)
  }

  /** challengeTypes */
  function ChallengeTypes(kind: Kind, wildcard: bool): seq<ChallengeType> {
    match kind
    case IP => [HTTP01, TLSALPN01]
    case DNS => if wildcard then [DNS01] else [DNS01, HTTP01, TLSALPN01]
    case PermanentIdentifier => [DeviceAttest01]
    case OtherKind(_) => []
  }

  /** A new-order request with what the server's configuration and random source answer to it. */
  datatype NewOrderRequest = NewOrderRequest(
    identifiers: seq<Identifier>, notBefore: Option<Time>, notAfter: Option<Time>,
    nameOk: string -> bool, allowed: Identifier -> bool, enabled: ChallengeType -> bool,
    token: nat -> Option<string>, duration: Time)

  predicate IdentifierOk(net: Net, nameOk: string -> bool, id: Identifier) {
    match id.kind
    case IP => net.parse(id.value) != ""
    case DNS => nameOk(TrimWildcard(id.value).0)
    case PermanentIdentifier => id.value != ""
    case OtherKind(_) => false
  }

  /** NewOrderRequest.Validate */
  predicate RequestOk(net: Net, r: NewOrderRequest) {
    r.identifiers != [] && forall i :: 0 <= i < |r.identifiers| ==> IdentifierOk(net, r.nameOk, r.identifiers[i])
  }

  /** The loop of newAuthorization: one challenge per enabled type; their identifiers if no call fails. */
  function CreateChallenges(f: Faults, db: Db, az: Authorization, types: seq<ChallengeType>,
                            enabled: ChallengeType -> bool): (Db, Option<seq<Id>>)
    decreases |types|
  {
    if types == [] then (db, Some([]))
    else if !enabled(types[0]) then CreateChallenges(f, db, az, types[1..], enabled)
    else
      var id := db.t.nextId;
      var c := Challenge(0, az.account, az.identifier.value, types[0], Pending, az.token, None, None);
      var (d, ok) := CreateChallenge(f, db, c);
      if !ok then (d, None) else
      var (d1, rest) := CreateChallenges(f, d, az, types[1..], enabled);
      if rest.None? then (d1, None) else (d1, Some([id] + rest.value))
  }

  /** newAuthorization: the identifier of the new authorization if no call fails. */
  function NewAuthorization(f: Faults, db: Db, account: Id, identifier: Identifier, expires: Time,
                            token: Option<string>, enabled: ChallengeType -> bool): (Db, Option<Id>) {
    var (value, wildcard) := TrimWildcard(identifier.value);
    if token.None? then (db, None) else
    var name := Identifier(identifier.kind, value);
    var az := Authorization(0, account, token.value, name, Pending, [], wildcard, expires, None);
    var (d, chs) := CreateChallenges(f, db, az, ChallengeTypes(identifier.kind, wildcard), enabled);
    if chs.None? then (d, None) else
    var id := d.t.nextId;
    var (d1, ok) := CreateAuthorization(f, d, az.(challenges := chs.value));
    (d1, if ok then Some(id) else None)
  }

  /** The loop of NewOrder over the identifiers from position `i` on. */
  function NewAuthorizations(f: Faults, db: Db, account: Id, r: NewOrderRequest, i: nat, expires: Time)
      : (Db, Option<seq<Id>>)
    requires i <= |r.identifiers|
    decreases |r.identifiers| - i
  {
    if i == |r.identifiers| then (db, Some([])) else
    var (d, id) := NewAuthorization(f, db, account, r.identifiers[i], expires, r.token(i), r.enabled);
    if id.None? then (d, None) else
    var (d1, rest) := NewAuthorizations(f, d, account, r, i + 1, expires);
    if rest.None? then (d1, None) else (d1, Some([id.value] + rest.value))
  }

  const ORDER_EXPIRY: Time := 24 * 3600
  const ORDER_BACKDATE: Time := 60

  /** The order record that NewOrder stores. */
  function OrderRecord(account: Id, provisioner: Id, r: NewOrderRequest, authzs: seq<Id>, now: Time): Order {
    var start := if r.notBefore.Some? then r.notBefore.value else now;
    Order(0, account, provisioner, Pending, now + ORDER_EXPIRY, r.identifiers, authzs,
          if r.notBefore.Some? then start else start - ORDER_BACKDATE,
          if r.notAfter.Some? then r.notAfter.value else start + r.duration, None, None)
  }

  /** NewOrder after the account check. */
  function NewOrder(f: Faults, net: Net, db: Db, account: Id, provisioner: Id, r: NewOrderRequest, now: Time)
      : (Db, Verdict)
  {
    if !RequestOk(net, r) then (db, Failed(Malformed))
    else if exists i :: 0 <= i < |r.identifiers| && !r.allowed(r.identifiers[i]) then (db, Failed(RejectedIdentifier))
    else
      var (d, ids) := NewAuthorizations(f, db, account, r, 0, now + ORDER_EXPIRY);
      if ids.None? then (d, Failed(ServerInternal)) else
      var (d1, ok) := CreateOrder(f, d, OrderRecord(account, provisioner, r, ids.value, now), now);
      (d1, if ok then Fine else Failed(ServerInternal))
  }

  // ---------------------------------------------------------------------------------------------
  // Requests

  /** The server: its store, its clock and the calls made to the signer. */
  datatype World = World(db: Db, now: Time, signed: seq<SignCall>)

  datatype Action =
    | PlaceOrder(provisioner: Id, request: NewOrderRequest)
    | FetchOrder(provisioner: Id, order: Id)
    | FinalizeOrder(provisioner: Id, order: Id, csr: ParsedRequest, signer: Signer)
    | FetchAuthorization(authz: Id)
    | AnswerChallenge(challenge: Id, finding: Finding)
    | ChangeAccount(contact: seq<string>, status: Option<Status>)
    | ListOrders(account: Id)

  /** A step of a run: time passes, an account is registered, or an account acts. */
  datatype Event =
    | Wait(duration: nat)
    | Register(key: string, contact: seq<string>, onlyExisting: bool)
    | Act(account: Id, action: Action)

  /** UpdateAccountRequest.Validate */
  predicate AccountChangeOk(contact: seq<string>, status: Option<Status>) {
    if status.Some? then contact == [] && status.value == Deactivated
    else forall i :: 0 <= i < |contact| ==> contact[i] != ""
  }

  /** The body of a handler, for an account that passed the middleware. */
  function Handle(f: Faults, net: Net, w: World, acc: Account, a: Action): (World, Verdict) {
    match a
    case PlaceOrder(p, r) =>
      var (d, v) := NewOrder(f, net, w.db, acc.id, p, r, w.now);
      (w.(db := d), v)
    case FetchOrder(p, id) =>
      var (d, o) := GetOrder(f, w.db, id);
      if o.None? then (w.(db := d), Failed(ServerInternal))
      else if o.value.account != acc.id || o.value.provisioner != p then (w.(db := d), Failed(Unauthorized))
      else
        var (d1, _, v) := RefreshOrder(f, d, o.value, w.now);
        (w.(db := d1), v)
    case FinalizeOrder(p, id, csr, signer) =>
      var (d, o) := GetOrder(f, w.db, id);
      if o.None? then (w.(db := d), Failed(ServerInternal))
      else if o.value.account != acc.id || o.value.provisioner != p then (w.(db := d), Failed(Unauthorized))
      else
        var r := Finalize(f, net, d, o.value, csr, signer, w.now);
        (w.(db := r.db, signed := if r.call.Some? then w.signed + [r.call.value] else w.signed), r.verdict)
    case FetchAuthorization(id) =>
      var (d, l) := GetAuthorization(f, w.db, id);
      if l.None? then (w.(db := d), Failed(ServerInternal))
      else if l.value.az.account != acc.id then (w.(db := d), Failed(Unauthorized))
      else
        var (d1, _, ok) := RefreshAuthorization(f, d, l.value, w.now);
        (w.(db := d1), if ok then Fine else Failed(ServerInternal))
    case AnswerChallenge(id, finding) =>
      var (d, c) := GetChallenge(f, w.db, id);
      if c.None? then (w.(db := d), Failed(ServerInternal))
      else if c.value.account != acc.id then (w.(db := d), Failed(Unauthorized))
      else
        var (d1, _, v) := ValidateChallenge(f, d, c.value, finding, w.now);
        (w.(db := d1), v)
    case ChangeAccount(contact, status) =>
      if !AccountChangeOk(contact, status) then (w, Failed(Malformed))
      else if status.None? && contact == [] then (w, Fine)
      else
        var nu := if status.Some? then acc.(status := status.value) else acc.(contact := contact);
        var (d, ok) := UpdateAccount(f, w.db, nu);
        (w.(db := d), if ok then Fine else Failed(ServerInternal))
    case ListOrders(account) =>
      if account != acc.id then (w, Failed(Unauthorized))
      else
        var (d, ids) := UpdateOrderList(f, w.db, acc.id, None, w.now);
        (w.(db := d), if ids.Some? then Fine else Failed(ServerInternal))
  }

  /** lookupJWK: only a stored account whose status is valid may act. */
  function Authenticate(f: Faults, db: Db, account: Id): (Db, Option<Account>, Problem) {
    var (d, acc) := GetAccount(f, db, account);
    if acc.None? then (d, None, ServerInternal)
    else if acc.value.status != Valid then (d, None, Unauthorized)
    else (d, acc, ServerInternal)
  }

  /** NewAccountRequest.Validate */
  predicate NewAccountOk(contact: seq<string>, onlyExisting: bool) {
    (onlyExisting ==> contact == []) && forall i :: 0 <= i < |contact| ==> contact[i] != ""
  }

  /** extractJWK followed by NewAccount. */
  function RegisterAccount(f: Faults, db: Db, key: string, contact: seq<string>, onlyExisting: bool): (Db, Verdict) {
    var (d, found) := GetAccountByKey(f, db, key);
    if found.LookupFailed? then (d, Failed(ServerInternal))
    else if found.Found? && found.account.status != Valid then (d, Failed(Unauthorized))
    else if !NewAccountOk(contact, onlyExisting) then (d, Failed(Malformed))
    else if found.Found? then (d, Fine)
    else if onlyExisting then (d, Failed(AccountDoesNotExist))
    else
      var (d1, ok) := CreateAccount(f, d, Account(0, key, contact, Valid));
      (d1, if ok then Fine else Failed(ServerInternal))
  }

  function Step(f: Faults, net: Net, w: World, e: Event): (World, Verdict) {
    match e
    case Wait(t) => (w.(now := w.now + t), Fine)
    case Register(key, contact, onlyExisting) =>
      var (d, v) := RegisterAccount(f, w.db, key, contact, onlyExisting);
      (w.(db := d), v)
    case Act(account, action) =>
      var (d, acc, problem) := Authenticate(f, w.db, account);
      if acc.None? then (w.(db := d), Failed(problem))
      else Handle(f, net, w.(db := d), acc.value, action)
  }

  function Run(f: Faults, net: Net, w: World, events: seq<Event>): World {
    if events == [] then w
    else Step(f, net, Run(f, net, w, events[..|events| - 1]), events[|events| - 1]).0
  }

  function Start(now: Time): World {
    World(EMPTY, now, [])
  }
}
