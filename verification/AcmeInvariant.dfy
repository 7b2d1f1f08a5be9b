/** What every storage write of the ACME server keeps, and how records may move. */
module AcmeInvariant {
  import opened Text
  import opened Csr
  import opened Storage
  import opened AcmeStore
  import opened AcmeProtocol

  /** The statuses of challenges and authorizations. */
  predicate Basic(s: Status) {
    s == Pending || s == Valid || s == Invalid
  }

  predicate ChallengeOk(c: Challenge) {
    Basic(c.status) && (c.status == Valid ==> c.validated.Some? && c.error.None?)
  }

  /** The challenge proves control of the authorization's identifier by an admitted method. */
  predicate Serves(c: Challenge, az: Authorization) {
    && c.account == az.account && c.token == az.token && c.value == az.identifier.value
    && Admits(az.identifier.kind, az.wildcard, c.kind)
  }

  /** The ways to prove an identifier: a wildcard only by DNS, an address by HTTP or TLS, a device by attestation. */
  predicate Admits(kind: Kind, wildcard: bool, c: ChallengeType) {
    match c
    case DNS01 => kind == DNS
    case HTTP01 => kind == IP || (kind == DNS && !wildcard)
    case TLSALPN01 => kind == IP || (kind == DNS && !wildcard)
    case DeviceAttest01 => kind == PermanentIdentifier
  }

  /** challengeTypes lists exactly the admitted types, each once. */
  lemma TypesAreAdmitted(kind: Kind, wildcard: bool)
    ensures var types := ChallengeTypes(kind, wildcard);
            && (forall c :: c in types <==> Admits(kind, wildcard, c))
            && (forall i, j :: 0 <= i < j < |types| ==> types[i] != types[j])
  {
    var types := ChallengeTypes(kind, wildcard);
    forall c ensures c in types <==> Admits(kind, wildcard, c) {
      match c
      case DNS01 =>
      case HTTP01 =>
      case TLSALPN01 =>
      case DeviceAttest01 =>
    }
  }

  ghost predicate AuthzOk(az: Authorization, chs: map<Id, Challenge>) {
    && Basic(az.status)
    && (forall k :: 0 <= k < |az.challenges| ==> az.challenges[k] in chs && Serves(chs[az.challenges[k]], az))
    && (az.status == Valid ==> exists k :: 0 <= k < |az.challenges| && chs[az.challenges[k]].status == Valid)
  }

  /** The authorization is the one NewOrder makes for this identifier of this order. */
  predicate Covers(az: Authorization, account: Id, expires: Time, identifier: Identifier) {
    && az.account == account && az.expires == expires
    && az.identifier.kind == identifier.kind && az.wildcard == HasPrefix(identifier.value, "*.")
    && identifier.value == (if az.wildcard then "*." else "") + az.identifier.value
  }

  ghost predicate AllValid(o: Order, azs: map<Id, Authorization>) {
    forall i :: 0 <= i < |o.authzs| ==> o.authzs[i] in azs && azs[o.authzs[i]].status == Valid
  }

  ghost predicate OrderOk(o: Order, azs: map<Id, Authorization>, certs: map<Id, Certificate>) {
    && o.status != Deactivated
    && |o.authzs| == |o.identifiers| > 0
    && (forall i :: 0 <= i < |o.authzs| ==>
          o.authzs[i] in azs && Covers(azs[o.authzs[i]], o.account, o.expires, o.identifiers[i]))
    && (o.status == Ready || o.status == Valid ==> AllValid(o, azs))
    && (if o.status == Valid then o.cert.Some? && o.cert.value in certs && certs[o.cert.value].order == o.id
        else o.cert.None?)
  }

  ghost predicate CertOk(c: Certificate, orders: map<Id, Order>, azs: map<Id, Authorization>) {
    && c.chain != []
    && c.order in orders && c.account == orders[c.order].account && AllValid(orders[c.order], azs)
  }

  predicate AccountOk(a: Account) {
    a.status == Valid || a.status == Deactivated
  }

  ghost predicate ChallengesOk(chs: map<Id, Challenge>) {
    forall id :: id in chs ==> chs[id].id == id && ChallengeOk(chs[id])
  }

  ghost predicate AuthzsOk(azs: map<Id, Authorization>, chs: map<Id, Challenge>) {
    forall id :: id in azs ==> azs[id].id == id && AuthzOk(azs[id], chs)
  }

  ghost predicate OrdersOk(orders: map<Id, Order>, azs: map<Id, Authorization>, certs: map<Id, Certificate>) {
    forall id :: id in orders ==> orders[id].id == id && OrderOk(orders[id], azs, certs)
  }

  ghost predicate CertsOk(certs: map<Id, Certificate>, orders: map<Id, Order>, azs: map<Id, Authorization>) {
    forall id :: id in certs ==> certs[id].id == id && CertOk(certs[id], orders, azs)
  }

  ghost predicate AccountsOk(accounts: map<Id, Account>) {
    forall id :: id in accounts ==> accounts[id].id == id && AccountOk(accounts[id])
  }

  /** An index entry leads to no account or to one with that key. */
  ghost predicate KeysOk(keys: map<string, Id>, accounts: map<Id, Account>) {
    forall k :: k in keys && keys[k] in accounts ==> accounts[keys[k]].key == k
  }

  /** A listed order is the account's own, or was deleted. */
  ghost predicate ListsOk(lists: map<Id, seq<Id>>, orders: map<Id, Order>) {
    forall a, i :: a in lists && 0 <= i < |lists[a]| && lists[a][i] in orders ==> orders[lists[a][i]].account == a
  }

  /** No identifier in use will be handed out again. */
  ghost predicate IdsUsed(t: Tables) {
    && (forall id :: id in t.challenges || id in t.authzs || id in t.orders || id in t.certs || id in t.accounts ==>
          id < t.nextId)
    && (forall k :: k in t.keys ==> t.keys[k] < t.nextId)
    && (forall a, i :: a in t.lists && 0 <= i < |t.lists[a]| ==> t.lists[a][i] < t.nextId)
  }

  /** The invariant of the store. */
  ghost predicate Inv(t: Tables) {
    && IdsUsed(t)
    && ChallengesOk(t.challenges)
    && AuthzsOk(t.authzs, t.challenges)
    && OrdersOk(t.orders, t.authzs, t.certs)
    && CertsOk(t.certs, t.orders, t.authzs)
    && AccountsOk(t.accounts)
    && KeysOk(t.keys, t.accounts)
    && ListsOk(t.lists, t.orders)
  }

  // ---------------------------------------------------------------------------------------------
  // How records move (section 7.1.6 of RFC 8555)

  predicate ChallengeMoves(c: Challenge, c': Challenge, who: Id) {
    && c' == c.(status := c'.status, error := c'.error, validated := c'.validated)
    && (c' == c || (c.account == who && c.status == Pending))
  }

  predicate AuthzMoves(a: Authorization, a': Authorization, who: Id) {
    && a' == a.(status := a'.status, error := a'.error)
    && (a' == a || (a.account == who && a.status == Pending && a'.status != Pending))
  }

  function Rank(s: Status): nat {
    match s
    case Pending => 0
    case Ready => 1
    case _ => 2
  }

  predicate OrderMoves(o: Order, o': Order, who: Id) {
    && o' == o.(status := o'.status, error := o'.error, cert := o'.cert)
    && (o' == o || (o.account == who && Rank(o.status) < Rank(o'.status)))
  }

  predicate AccountMoves(a: Account, a': Account, who: Id) {
    && a' == a.(contact := a'.contact, status := a'.status)
    && (a' == a || (a.id == who && a.status == Valid))
  }

  ghost predicate ChallengesMove(t: map<Id, Challenge>, t': map<Id, Challenge>, who: Id) {
    && (forall id :: id in t ==> id in t' && ChallengeMoves(t[id], t'[id], who))
    && (forall id :: id in t' && id !in t ==> t'[id].account == who)
  }

  ghost predicate AuthzsMove(t: map<Id, Authorization>, t': map<Id, Authorization>, who: Id) {
    && (forall id :: id in t ==> id in t' && AuthzMoves(t[id], t'[id], who))
    && (forall id :: id in t' && id !in t ==> t'[id].account == who)
  }

  ghost predicate OrdersMove(t: map<Id, Order>, t': map<Id, Order>, who: Id) {
    && (forall id :: id in t ==> id in t' && OrderMoves(t[id], t'[id], who))
    && (forall id :: id in t' && id !in t ==> t'[id].account == who)
  }

  ghost predicate CertsMove(t: map<Id, Certificate>, t': map<Id, Certificate>, who: Id) {
    && (forall id :: id in t ==> id in t' && t'[id] == t[id])
    && (forall id :: id in t' && id !in t ==> t'[id].account == who)
  }

  ghost predicate AccountsMove(t: map<Id, Account>, t': map<Id, Account>, who: Id) {
    forall id :: id in t ==> id in t' && AccountMoves(t[id], t'[id], who)
  }

  /** Index entries stay, and a new account has a key that had no entry. */
  ghost predicate KeysMove(t: Tables, t': Tables) {
    && (forall k :: k in t.keys ==> k in t'.keys && t'.keys[k] == t.keys[k])
    && (forall k :: k in t'.keys && k !in t.keys ==> t.nextId <= t'.keys[k])
    && (forall id :: id in t'.accounts && id !in t.accounts ==> t'.accounts[id].key !in t.keys && t.nextId <= id)
  }

  /** New orders get identifiers that were not handed out before. */
  ghost predicate NewOrdersAreFresh(t: Tables, t': Tables) {
    forall id :: id in t'.orders && id !in t.orders ==> t.nextId <= id
  }

  ghost predicate ListsMove(t: map<Id, seq<Id>>, t': map<Id, seq<Id>>, who: Id) {
    forall a :: a != who ==> (a in t <==> a in t') && (a in t ==> t'[a] == t[a])
  }

  /** From `t` to `t'` only records of `who` are added or changed, and every change goes forward. */
  ghost predicate Moves(t: Tables, t': Tables, who: Id) {
    && t.nextId <= t'.nextId
    && ChallengesMove(t.challenges, t'.challenges, who)
    && AuthzsMove(t.authzs, t'.authzs, who)
    && OrdersMove(t.orders, t'.orders, who)
    && NewOrdersAreFresh(t, t')
    && ListsMove(t.lists, t'.lists, who)
    && CertsMove(t.certs, t'.certs, who)
    && AccountsMove(t.accounts, t'.accounts, who)
    && KeysMove(t, t')
  }

  lemma MovesReflexive(t: Tables, who: Id)
    ensures Moves(t, t, who)
  {}

  lemma ChallengesMoveOn(a: map<Id, Challenge>, b: map<Id, Challenge>, c: map<Id, Challenge>, who: Id)
    requires ChallengesMove(a, b, who) && ChallengesMove(b, c, who)
    ensures ChallengesMove(a, c, who)
  {
    forall id | id in a ensures id in c && ChallengeMoves(a[id], c[id], who) { assert id in b; }
  }

  lemma AuthzsMoveOn(a: map<Id, Authorization>, b: map<Id, Authorization>, c: map<Id, Authorization>, who: Id)
    requires AuthzsMove(a, b, who) && AuthzsMove(b, c, who)
    ensures AuthzsMove(a, c, who)
  {
    forall id | id in a ensures id in c && AuthzMoves(a[id], c[id], who) { assert id in b; }
  }

  lemma OrdersMoveOn(a: map<Id, Order>, b: map<Id, Order>, c: map<Id, Order>, who: Id)
    requires OrdersMove(a, b, who) && OrdersMove(b, c, who)
    ensures OrdersMove(a, c, who)
  {
    forall id | id in a ensures id in c && OrderMoves(a[id], c[id], who) { assert id in b; }
  }

  lemma AccountsMoveOn(a: map<Id, Account>, b: map<Id, Account>, c: map<Id, Account>, who: Id)
    requires AccountsMove(a, b, who) && AccountsMove(b, c, who)
    ensures AccountsMove(a, c, who)
  {
    forall id | id in a ensures id in c && AccountMoves(a[id], c[id], who) { assert id in b; }
  }

  lemma MovesTransitive(a: Tables, b: Tables, c: Tables, who: Id)
    requires Moves(a, b, who) && Moves(b, c, who)
    ensures Moves(a, c, who)
  {
    ChallengesMoveOn(a.challenges, b.challenges, c.challenges, who);
    AuthzsMoveOn(a.authzs, b.authzs, c.authzs, who);
    OrdersMoveOn(a.orders, b.orders, c.orders, who);
    AccountsMoveOn(a.accounts, b.accounts, c.accounts, who);
  }

  // ---------------------------------------------------------------------------------------------
  // Records stay well-formed when the records they refer to move

  lemma AuthzKept(az: Authorization, chs: map<Id, Challenge>, chs': map<Id, Challenge>, who: Id)
    requires AuthzOk(az, chs) && ChallengesMove(chs, chs', who)
    ensures AuthzOk(az, chs')
  {
    if az.status == Valid {
      var k :| 0 <= k < |az.challenges| && chs[az.challenges[k]].status == Valid;
      assert chs'[az.challenges[k]].status == Valid;
    }
  }

  lemma AuthzsKept(azs: map<Id, Authorization>, chs: map<Id, Challenge>, chs': map<Id, Challenge>, who: Id)
    requires AuthzsOk(azs, chs) && ChallengesMove(chs, chs', who)
    ensures AuthzsOk(azs, chs')
  {
    forall id | id in azs ensures AuthzOk(azs[id], chs') { AuthzKept(azs[id], chs, chs', who); }
  }

  lemma AllValidKept(o: Order, azs: map<Id, Authorization>, azs': map<Id, Authorization>, who: Id)
    requires AllValid(o, azs) && AuthzsMove(azs, azs', who)
    ensures AllValid(o, azs')
  {}

  lemma OrdersKept(orders: map<Id, Order>, azs: map<Id, Authorization>, azs': map<Id, Authorization>,
                   certs: map<Id, Certificate>, who: Id)
    requires OrdersOk(orders, azs, certs) && AuthzsMove(azs, azs', who)
    ensures OrdersOk(orders, azs', certs)
  {
    forall id | id in orders ensures OrderOk(orders[id], azs', certs) {
      if orders[id].status == Ready || orders[id].status == Valid { AllValidKept(orders[id], azs, azs', who); }
    }
  }

  lemma CertsKept(certs: map<Id, Certificate>, orders: map<Id, Order>, orders': map<Id, Order>,
                  azs: map<Id, Authorization>, azs': map<Id, Authorization>, who: Id)
    requires CertsOk(certs, orders, azs) && OrdersMove(orders, orders', who) && AuthzsMove(azs, azs', who)
    ensures CertsOk(certs, orders', azs')
  {
    forall id | id in certs ensures CertOk(certs[id], orders', azs') {
      var o := orders[certs[id].order];
      AllValidKept(o, azs, azs', who);
      assert OrderMoves(o, orders'[certs[id].order], who);
    }
  }

  // ---------------------------------------------------------------------------------------------
  // The single writes

  /** However a write ends, it either made the move or changed nothing. */
  lemma WriteKeeps(f: Faults, db: Db, after: Tables, who: Id)
    requires Inv(db.t) && Inv(after) && Moves(db.t, after, who)
    ensures Inv(Write(f, db, after).0.t) && Moves(db.t, Write(f, db, after).0.t, who)
  {
    MovesReflexive(db.t, who);
  }

  lemma ChallengePut(t: Tables, id: Id, c: Challenge, nextId: Id, who: Id)
    requires Inv(t) && t.nextId <= nextId && id < nextId
    requires if id in t.challenges then ChallengeMoves(t.challenges[id], c, who) else c.account == who
    requires c.id == id && ChallengeOk(c)
    ensures var t' := t.(challenges := t.challenges[id := c], nextId := nextId); Inv(t') && Moves(t, t', who)
  {
    var chs := t.challenges[id := c];
    assert ChallengesMove(t.challenges, chs, who);
    AuthzsKept(t.authzs, t.challenges, chs, who);
    MovesReflexive(t, who);
  }

  lemma AuthzPut(t: Tables, id: Id, az: Authorization, nextId: Id, who: Id)
    requires Inv(t) && t.nextId <= nextId && id < nextId
    requires if id in t.authzs then AuthzMoves(t.authzs[id], az, who) else az.account == who
    requires az.id == id && AuthzOk(az, t.challenges)
    ensures var t' := t.(authzs := t.authzs[id := az], nextId := nextId); Inv(t') && Moves(t, t', who)
  {
    var azs := t.authzs[id := az];
    MovesReflexive(t, who);
    assert AuthzsMove(t.authzs, azs, who);
    OrdersKept(t.orders, t.authzs, azs, t.certs, who);
    CertsKept(t.certs, t.orders, t.orders, t.authzs, azs, who);
  }

  lemma OrderPut(t: Tables, id: Id, o: Order, nextId: Id, who: Id)
    requires Inv(t) && t.nextId <= nextId && id < nextId
    requires if id in t.orders then OrderMoves(t.orders[id], o, who) else o.account == who && id == t.nextId
    requires o.id == id && OrderOk(o, t.authzs, t.certs)
    ensures var t' := t.(orders := t.orders[id := o], nextId := nextId); Inv(t') && Moves(t, t', who)
  {
    var orders := t.orders[id := o];
    MovesReflexive(t, who);
    assert OrdersMove(t.orders, orders, who);
    CertsKept(t.certs, t.orders, orders, t.authzs, t.authzs, who);
  }

  lemma CertPut(t: Tables, id: Id, c: Certificate, nextId: Id, who: Id)
    requires Inv(t) && t.nextId <= nextId && id < nextId && id !in t.certs && c.account == who
    requires c.id == id && CertOk(c, t.orders, t.authzs)
    ensures var t' := t.(certs := t.certs[id := c], nextId := nextId); Inv(t') && Moves(t, t', who)
  {
    var certs := t.certs[id := c];
    MovesReflexive(t, who);
    forall i | i in t.orders ensures OrderOk(t.orders[i], t.authzs, certs) {}
  }

  lemma ListPut(t: Tables, ids: seq<Id>, who: Id)
    requires Inv(t)
    requires forall i :: 0 <= i < |ids| ==>
               ids[i] < t.nextId && (ids[i] in t.orders ==> t.orders[ids[i]].account == who)
    ensures var t' := t.(lists := if ids == [] then t.lists - {who} else t.lists[who := ids]);
            Inv(t') && Moves(t, t', who)
  {
    hide OrdersOk, CertsOk, AuthzsOk, ChallengesOk, AccountsOk, KeysOk;
    MovesReflexive(t, who);
  }

  /** An order that was not there at the start, and that no certificate belongs to, may be deleted. */
  lemma OrderDeleted(t: Tables, t': Tables, id: Id, who: Id)
    requires Inv(t') && Moves(t, t', who) && id !in t.orders
    requires forall c :: c in t'.certs ==> t'.certs[c].order != id
    ensures var t1 := t'.(orders := t'.orders - {id}); Inv(t1) && Moves(t, t1, who)
  {
    hide Inv;
    DeletedOrderKeepsInv(t', id);
  }

  lemma DeletedOrderKeepsInv(t: Tables, id: Id)
    requires Inv(t) && forall c :: c in t.certs ==> t.certs[c].order != id
    ensures Inv(t.(orders := t.orders - {id}))
  {
    hide ChallengesOk, AuthzsOk, AccountsOk, KeysOk;
  }

  lemma AccountPut(t: Tables, id: Id, a: Account, who: Id)
    requires Inv(t) && id in t.accounts && AccountMoves(t.accounts[id], a, who) && a.id == id && AccountOk(a)
    ensures var t' := t.(accounts := t.accounts[id := a]); Inv(t') && Moves(t, t', who)
  {
    MovesReflexive(t, who);
  }

  /** The tables that the three calls of CreateAccount can leave behind: with or without the index entry,
      with or without the account. */
  lemma AccountAdded(t: Tables, t': Tables, a: Account, who: Id)
    requires Inv(t) && a.key !in t.keys && a.id == t.nextId && AccountOk(a)
    requires t'.keys == t.keys || t'.keys == t.keys[a.key := a.id]
    requires t'.accounts == t.accounts || t'.accounts == t.accounts[a.id := a]
    requires t' == t.(keys := t'.keys, accounts := t'.accounts, nextId := t.nextId + 1)
    ensures Inv(t') && Moves(t, t', who)
  {
    hide OrdersOk, CertsOk, AuthzsOk, ChallengesOk, AccountsOk, KeysOk, AccountsMove, KeysMove;
    AccountsAfterAdding(t, t', a, who);
    MovesReflexive(t, who);
  }

  lemma AccountsAfterAdding(t: Tables, t': Tables, a: Account, who: Id)
    requires Inv(t) && a.key !in t.keys && a.id == t.nextId && AccountOk(a)
    requires t'.keys == t.keys || t'.keys == t.keys[a.key := a.id]
    requires t'.accounts == t.accounts || t'.accounts == t.accounts[a.id := a]
    ensures AccountsOk(t'.accounts) && KeysOk(t'.keys, t'.accounts)
    ensures AccountsMove(t.accounts, t'.accounts, who) && KeysMove(t, t')
  {
    hide OrdersOk, CertsOk, AuthzsOk, ChallengesOk, ListsOk;
  }
}
