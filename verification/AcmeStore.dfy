/** The records of the ACME server and the storage calls on them, any of which may fail (acme/db/nosql). */
module AcmeStore {
  import opened Text
  import opened Csr
  import opened Storage

  /** Identifiers of records; storage hands out fresh ones. */
  type Id = nat

  /** Seconds. */
  type Time = int

  datatype Status = Pending | Ready | Valid | Invalid | Deactivated

  datatype ChallengeType = HTTP01 | DNS01 | TLSALPN01 | DeviceAttest01

  /** The ACME problem types that the modelled code reports. */
  datatype Problem =
    | ServerInternal | Malformed | Unauthorized | AccountDoesNotExist | RejectedIdentifier
    | OrderNotReady | BadCSR | Connection | DNSProblem | BadAttestation

  datatype Account = Account(id: Id, key: string, contact: seq<string>, status: Status)

  datatype Order = Order(
    id: Id, account: Id, provisioner: Id, status: Status, expires: Time,
    identifiers: seq<Identifier>, authzs: seq<Id>, notBefore: Time, notAfter: Time,
    cert: Option<Id>, error: Option<Problem>)

  datatype Authorization = Authorization(
    id: Id, account: Id, token: string, identifier: Identifier, status: Status,
    challenges: seq<Id>, wildcard: bool, expires: Time, error: Option<Problem>)

  datatype Challenge = Challenge(
    id: Id, account: Id, value: string, kind: ChallengeType, status: Status, token: string,
    validated: Option<Time>, error: Option<Problem>)

  datatype Certificate = Certificate(id: Id, account: Id, order: Id, chain: seq<string>)

  /** The tables and the next fresh identifier. `keys` finds accounts by key, `lists` the orders of an account. */
  datatype Tables = Tables(
    accounts: map<Id, Account>, keys: map<string, Id>, orders: map<Id, Order>, lists: map<Id, seq<Id>>,
    authzs: map<Id, Authorization>, challenges: map<Id, Challenge>, certs: map<Id, Certificate>,
    nextId: Id)

  /** The store: its tables and the number of storage calls made so far. */
  datatype Db = Db(t: Tables, ops: nat)

  const EMPTY: Db := Db(Tables(map[], map[], map[], map[], map[], map[], map[], 0), 0)

  /** One storage call that writes `after`. */
  function Write(f: Faults, db: Db, after: Tables): (Db, bool) {
    match f(db.ops)
    case Done => (Db(after, db.ops + 1), true)
    case Lost => (Db(db.t, db.ops + 1), false)
    case Torn => (Db(after, db.ops + 1), false)
  }

  function Read(f: Faults, db: Db): (Db, bool) {
    (db.(ops := db.ops + 1), f(db.ops).Done?)
  }

  function GetAccount(f: Faults, db: Db, id: Id): (Db, Option<Account>) {
    var (d, ok) := Read(f, db);
    (d, if ok && id in db.t.accounts then Some(db.t.accounts[id]) else None)
  }

  /** How the search for an account by its key ends. */
  datatype Lookup = NoAccount | Found(account: Account) | LookupFailed

  /** GetAccountByKeyID: the key index, then the account; an entry without an account counts as none. */
  function GetAccountByKey(f: Faults, db: Db, key: string): (Db, Lookup) {
    var (d, ok) := Read(f, db);
    if !ok then (d, LookupFailed)
    else if key !in db.t.keys then (d, NoAccount)
    else
      var (d1, ok1) := Read(f, d);
      (d1, if !ok1 then LookupFailed
           else if db.t.keys[key] in db.t.accounts then Found(db.t.accounts[db.t.keys[key]])
           else NoAccount)
  }

  /** CreateAccount: the key index, then the account; when the account is not saved the index entry is deleted. */
  function CreateAccount(f: Faults, db: Db, a: Account): (Db, bool) {
    if a.key in db.t.keys then (db.(ops := db.ops + 1), false)
    else
      var id := db.t.nextId;
      var (d1, ok1) := Write(f, db, db.t.(keys := db.t.keys[a.key := id], nextId := id + 1));
      if ok1 then SaveAccount(f, d1, a.(id := id)) else (d1, false)
  }

  /** The second and third call of CreateAccount. */
  function SaveAccount(f: Faults, db: Db, a: Account): (Db, bool) {
    var (d, ok) := Write(f, db, db.t.(accounts := db.t.accounts[a.id := a]));
    if ok then (d, true) else (Write(f, d, d.t.(keys := d.t.keys - {a.key})).0, false)
  }

  function UpdateAccount(f: Faults, db: Db, a: Account): (Db, bool) {
    if a.id !in db.t.accounts then (db.(ops := db.ops + 1), false)
    else
      var nu := db.t.accounts[a.id].(contact := a.contact, status := a.status);
      Write(f, db, db.t.(accounts := db.t.accounts[a.id := nu]))
  }

  function GetOrder(f: Faults, db: Db, id: Id): (Db, Option<Order>) {
    var (d, ok) := Read(f, db);
    (d, if ok && id in db.t.orders then Some(db.t.orders[id]) else None)
  }

  /** The first half of CreateOrder: the record. */
  function AddOrder(f: Faults, db: Db, o: Order): (Db, bool) {
    var id := db.t.nextId;
    Write(f, db, db.t.(orders := db.t.orders[id := o.(id := id, cert := None, error := None)], nextId := id + 1))
  }

  function DeleteOrder(f: Faults, db: Db, id: Id): Db {
    Write(f, db, db.t.(orders := db.t.orders - {id})).0
  }

  /** The orders listed for an account. */
  function ListOf(t: Tables, account: Id): seq<Id> {
    if account in t.lists then t.lists[account] else []
  }

  /** Saves the list of an account; an empty list is no entry. */
  function SaveList(f: Faults, db: Db, account: Id, ids: seq<Id>): (Db, bool) {
    Write(f, db, db.t.(lists := if ids == [] then db.t.lists - {account} else db.t.lists[account := ids]))
  }

  /** UpdateOrder saves the status, the error and the certificate identifier only. */
  function UpdateOrder(f: Faults, db: Db, o: Order): (Db, bool) {
    if o.id !in db.t.orders then (db.(ops := db.ops + 1), false)
    else
      var nu := db.t.orders[o.id].(status := o.status, error := o.error, cert := o.cert);
      Write(f, db, db.t.(orders := db.t.orders[o.id := nu]))
  }

  /** An authorization with its challenges, as one read returns it. */
  datatype Loaded = Loaded(az: Authorization, chs: seq<Challenge>)

  predicate HasChallenges(t: Tables, az: Authorization) {
    forall i :: 0 <= i < |az.challenges| ==> az.challenges[i] in t.challenges
  }

  function ChallengesOf(t: Tables, az: Authorization): (r: seq<Challenge>)
    requires HasChallenges(t, az)
  {
    seq(|az.challenges|, i requires 0 <= i < |az.challenges| => t.challenges[az.challenges[i]])
  }

  function GetAuthorization(f: Faults, db: Db, id: Id): (Db, Option<Loaded>) {
    var (d, ok) := Read(f, db);
    (d, if ok && id in db.t.authzs && HasChallenges(db.t, db.t.authzs[id])
        then Some(Loaded(db.t.authzs[id], ChallengesOf(db.t, db.t.authzs[id]))) else None)
  }

  function CreateAuthorization(f: Faults, db: Db, az: Authorization): (Db, bool) {
    var id := db.t.nextId;
    Write(f, db, db.t.(authzs := db.t.authzs[id := az.(id := id, error := None)], nextId := id + 1))
  }

  /** UpdateAuthorization saves the status and the error only. */
  function UpdateAuthorization(f: Faults, db: Db, az: Authorization): (Db, bool) {
    if az.id !in db.t.authzs then (db.(ops := db.ops + 1), false)
    else
      var nu := db.t.authzs[az.id].(status := az.status, error := az.error);
      Write(f, db, db.t.(authzs := db.t.authzs[az.id := nu]))
  }

  function GetChallenge(f: Faults, db: Db, id: Id): (Db, Option<Challenge>) {
    var (d, ok) := Read(f, db);
    (d, if ok && id in db.t.challenges then Some(db.t.challenges[id]) else None)
  }

  /** CreateChallenge stores every new challenge as pending. */
  function CreateChallenge(f: Faults, db: Db, c: Challenge): (Db, bool) {
    var id := db.t.nextId;
    var nu := c.(id := id, status := Pending, validated := None, error := None);
    Write(f, db, db.t.(challenges := db.t.challenges[id := nu], nextId := id + 1))
  }

  /** UpdateChallenge saves the status, the error and the validation time only. */
  function UpdateChallenge(f: Faults, db: Db, c: Challenge): (Db, bool) {
    if c.id !in db.t.challenges then (db.(ops := db.ops + 1), false)
    else
      var nu := db.t.challenges[c.id].(status := c.status, error := c.error, validated := c.validated);
      Write(f, db, db.t.(challenges := db.t.challenges[c.id := nu]))
  }

  /** CreateCertificate: the certificate, then the index by serial number, which nothing here reads. */
  function CreateCertificate(f: Faults, db: Db, c: Certificate): (Db, bool) {
    var id := db.t.nextId;
    var (d, ok) := Write(f, db, db.t.(certs := db.t.certs[id := c.(id := id)], nextId := id + 1));
    if ok then Write(f, d, d.t) else (d, false)
  }
}
