/** Three runs from an empty store: one that ends with two certificates for one order, one that has a certificate signed
    for a common name that nobody proved, and one that leaves an account unable to order. */
module AcmeRuns {
  import opened Text
  import opened Csr
  import opened Storage
  import opened AcmeStore
  import opened AcmeProtocol
  import opened AcmeSafety
  import opened AcmeCertificates
  import opened AcmeLists

  /** What an order of the runs asks for: a DNS name, or a permanent identifier. */
  datatype Wish = Name | Device {
    function Id(): Identifier {
      Identifier(if Name? then DNS else PermanentIdentifier, "a")
    }

    function Proof(): ChallengeType {
      if Name? then DNS01 else DeviceAttest01
    }
  }

  function Request1(wish: Wish): NewOrderRequest {
    NewOrderRequest([wish.Id()], None, None, _ => true, _ => true, kind => kind == wish.Proof(), _ => Some("t"), 0)
  }

  const REGISTRATION: Event := Register("k", [], false)
  const PROOF: Event := Act(0, AnswerChallenge(1, Proved))

  function Placing(wish: Wish): Event {
    Act(0, PlaceOrder(7, Request1(wish)))
  }

  function Finalization(csr: ParsedRequest): Event {
    Act(0, FinalizeOrder(7, 3, csr, Chain("c", [])))
  }

  // The records as they are stored

  const ACCOUNT: Account := Account(0, "k", [], Valid)

  function ChallengeAs(wish: Wish, status: Status, validated: Option<Time>): Challenge {
    Challenge(1, 0, "a", wish.Proof(), status, "t", validated, None)
  }

  function AuthzAs(wish: Wish, status: Status): Authorization {
    Authorization(2, 0, "t", wish.Id(), status, [1], false, ORDER_EXPIRY, None)
  }

  function OrderAs(wish: Wish, status: Status): Order {
    Order(3, 0, 7, status, ORDER_EXPIRY, [wish.Id()], [2], -ORDER_BACKDATE, 0, None, None)
  }

  function Registered(): Db {
    Db(EMPTY.t.(accounts := map[0 := ACCOUNT], keys := map["k" := 0], nextId := 1), 3)
  }

  /** After the authorizations of the order were stored. */
  function Authorized(wish: Wish): Db {
    Db(Registered().t.(challenges := map[1 := ChallengeAs(wish, Pending, None)],
                       authzs := map[2 := AuthzAs(wish, Pending)], nextId := 3), 6)
  }

  function Placed(wish: Wish): Db {
    Db(Authorized(wish).t.(orders := map[3 := OrderAs(wish, Pending)], lists := map[0 := [3]], nextId := 4), 9)
  }

  function Answered(wish: Wish): Db {
    Db(Placed(wish).t.(challenges := map[1 := ChallengeAs(wish, Valid, Some(0))]), 12)
  }

  /** After the refresh that makes the order ready, at storage call `ops`. */
  function MadeReady(wish: Wish, ops: nat): Db {
    Db(Answered(wish).t.(authzs := map[2 := AuthzAs(wish, Valid)], orders := map[3 := OrderAs(wish, Ready)]), ops)
  }

  // ---------------------------------------------------------------------------------------------
  // The steps that the runs share

  lemma Registration(f: Faults, net: Net)
    requires AllDone(f, 0, 3)
    ensures Step(f, net, Start(0), REGISTRATION).0 == World(Registered(), 0, [])
  {}

  lemma Authorizing(f: Faults, wish: Wish)
    requires AllDone(f, 0, 6)
    ensures NewAuthorizations(f, Registered().(ops := 4), 0, Request1(wish), 0, ORDER_EXPIRY) ==
            (Authorized(wish), Some([2]))
  {
    hide CreateChallenges;
    var db, r := Registered().(ops := 4), Request1(wish);
    var az := Authorization(0, 0, "t", wish.Id(), Pending, [], false, ORDER_EXPIRY, None);
    MakeChallenge(f, wish, db, az);
    var d1 := Db(db.t.(challenges := map[1 := ChallengeAs(wish, Pending, None)], nextId := 2), 5);
    assert TrimWildcard("a") == ("a", false);
    assert NewAuthorization(f, db, 0, wish.Id(), ORDER_EXPIRY, Some("t"), r.enabled) == (Authorized(wish), Some(2));
    assert NewAuthorizations(f, Authorized(wish), 0, r, 1, ORDER_EXPIRY) == (Authorized(wish), Some([]));
    assert [2] + [] == [2];
  }

  lemma MakeChallenge(f: Faults, wish: Wish, db: Db, az: Authorization)
    requires AllDone(f, 0, 5) && db == Registered().(ops := 4)
    requires az == Authorization(0, 0, "t", wish.Id(), Pending, [], false, ORDER_EXPIRY, None)
    ensures CreateChallenges(f, db, az, ChallengeTypes(wish.Id().kind, false), Request1(wish).enabled) ==
            (Db(db.t.(challenges := map[1 := ChallengeAs(wish, Pending, None)], nextId := 2), 5), Some([1]))
  {
    var on, c := Request1(wish).enabled, ChallengeAs(wish, Pending, None);
    var d := Db(db.t.(challenges := map[1 := c], nextId := 2), 5);
    assert CreateChallenges(f, d, az, [], on) == (d, Some([]));
    assert db.t.challenges[1 := c] == map[1 := c] && [1] + [] == [1];
    assert [TLSALPN01][1..] == [] && [HTTP01, TLSALPN01][1..] == [TLSALPN01] && [DeviceAttest01][1..] == [];
    if wish.Name? {
      assert CreateChallenges(f, d, az, [TLSALPN01], on) == (d, Some([]));
      assert CreateChallenges(f, d, az, [HTTP01, TLSALPN01], on) == (d, Some([]));
      assert ChallengeTypes(DNS, false)[1..] == [HTTP01, TLSALPN01];
    }
  }

  lemma PlacingOrder(f: Faults, net: Net, wish: Wish)
    requires AllDone(f, 0, 9)
    ensures Step(f, net, World(Registered(), 0, []), Placing(wish)).0 == World(Placed(wish), 0, [])
  {
    hide NewAuthorizations, CreateOrder;
    Authorizing(f, wish);
    MakeOrder(f, wish);
  }

  lemma MakeOrder(f: Faults, wish: Wish)
    requires AllDone(f, 0, 9)
    ensures CreateOrder(f, Authorized(wish), OrderRecord(0, 7, Request1(wish), [2], 0), 0) == (Placed(wish), true)
  {
    var d := AddOrder(f, Authorized(wish), OrderRecord(0, 7, Request1(wish), [2], 0)).0;
    assert d == Db(Placed(wish).t.(lists := map[]), 7);
    assert RefreshListed(f, d.(ops := 8), [], 0) == (d.(ops := 8), Some([]));
    assert [] + [3] == [3];
  }

  lemma Answering(f: Faults, net: Net, wish: Wish)
    requires AllDone(f, 0, 12)
    ensures Step(f, net, World(Placed(wish), 0, []), PROOF).0 == World(Answered(wish), 0, [])
  {}

  lemma Refresh(f: Faults, wish: Wish)
    requires AllDone(f, 0, 17)
    ensures RefreshOrder(f, Answered(wish).(ops := 14), OrderAs(wish, Pending), 0) ==
            (MadeReady(wish, 17), OrderAs(wish, Ready), Fine)
  {
    hide RefreshAll, Decide;
    var db := Answered(wish).(ops := 14);
    RefreshAuthz(f, wish);
    assert db.t.orders[3 := OrderAs(wish, Ready)] == map[3 := OrderAs(wish, Ready)];
    DecideIsTotal([Valid]);
  }

  lemma RefreshAuthz(f: Faults, wish: Wish)
    requires AllDone(f, 0, 16)
    ensures
      var db := Answered(wish).(ops := 14);
      RefreshAll(f, db, [2], 0) == (Db(db.t.(authzs := map[2 := AuthzAs(wish, Valid)]), 16), Some([Valid]))
  {
    var db := Answered(wish).(ops := 14);
    var az, az' := AuthzAs(wish, Pending), AuthzAs(wish, Valid);
    var d1, l := db.(ops := 15), Loaded(az, [ChallengeAs(wish, Valid, Some(0))]);
    assert HasChallenges(db.t, az) && ChallengesOf(db.t, az) == l.chs;
    assert db.t.authzs[2 := az'] == map[2 := az'];
    assert GetAuthorization(f, db, 2) == (d1, Some(l));
    assert l.chs[0].status == Valid;
    var d2 := Db(d1.t.(authzs := map[2 := az']), 16);
    assert RefreshAuthorization(f, d1, l, 0) == (d2, az', true);
    assert [2][1..] == [];
    assert RefreshAll(f, d2, [], 0) == (d2, Some([]));
    assert [Valid] + [] == [Valid];
  }

  /** The first three events. */
  lemma Prefix(f: Faults, net: Net, wish: Wish)
    requires AllDone(f, 0, 12)
    ensures Run(f, net, Start(0), [REGISTRATION, Placing(wish), PROOF]) == World(Answered(wish), 0, [])
  {
    hide Step, AllDone;
    var e := [REGISTRATION, Placing(wish), PROOF];
    assert e[..3] == e && e[..0] == [];
    assert forall i :: 0 < i <= 3 ==> e[..i][..i - 1] == e[..i - 1] && e[..i][i - 1] == e[i - 1];
    assert AllDone(f, 0, 9) && AllDone(f, 0, 3) by { DoneBefore(f, 12, 9); DoneBefore(f, 12, 3); }
    assert Run(f, net, Start(0), e[..0]) == Start(0);
    Registration(f, net);
    assert Run(f, net, Start(0), e[..1]) == World(Registered(), 0, []);
    PlacingOrder(f, net, wish);
    assert Run(f, net, Start(0), e[..2]) == World(Placed(wish), 0, []);
    Answering(f, net, wish);
  }

  lemma DoneBefore(f: Faults, calls: nat, fewer: nat)
    requires AllDone(f, 0, calls) && fewer <= calls
    ensures AllDone(f, 0, fewer)
  {}

  /** The call of the signer in a finalization. */
  function TheCall(net: Net, wish: Wish, csr: ParsedRequest): SignCall
    requires SansFor(net, OrderAs(wish, Ready), csr).Accepted?
  {
    CallFor(OrderAs(wish, Ready), csr, SansFor(net, OrderAs(wish, Ready), csr).sans, 0, ["c"])
  }

  /** The first finalization makes the order ready and has its certificate signed. */
  lemma Finalizing(f: Faults, net: Net, wish: Wish, csr: ParsedRequest)
    requires AllDone(f, 0, 17) && SansFor(net, OrderAs(wish, Ready), csr).Accepted?
    ensures
      var w := Step(f, net, World(Answered(wish), 0, []), Finalization(csr)).0;
      && w.signed == [TheCall(net, wish, csr)] && w.now == 0
      && w.db == StoreChain(f, MadeReady(wish, 17), OrderAs(wish, Ready), ["c"]).0
  {
    hide RefreshOrder, SansFor, StoreChain;
    Refresh(f, wish);
    assert ["c"] + [] == ["c"];
    assert f(12) == Done && f(13) == Done;
  }

  // ---------------------------------------------------------------------------------------------
  // Two certificates for one order: the save of the order after the first signing is lost, and it is finalized again

  /** Storage whose call number 19 is lost. */
  function LostSave(): Faults {
    k => if k == 19 then Lost else Done
  }

  const CSR: ParsedRequest := Request("", ["a"], [], [], [])

  /** One registration, one order for one name, its challenge proved, and two finalizations. */
  function Events(): seq<Event> {
    [REGISTRATION, Placing(Name), PROOF, Finalization(CSR), Finalization(CSR)]
  }

  const CERT: Certificate := Certificate(4, 0, 3, ["c"])

  /** After the first signing: the certificate is stored, and the order is still ready. */
  function SignedOnce(): Db {
    Db(MadeReady(Name, 0).t.(certs := map[4 := CERT], nextId := 5), 20)
  }

  /** The request names exactly the identifier of the order. */
  lemma NamesMatch(net: Net)
    ensures SansFor(net, OrderAs(Name, Ready), CSR).Accepted?
  {
    hide Sans, Canonical, Lawful;
    var ids := [Name.Id()];
    assert FirstPermanentIdentifier(ids) == "" by { assert ids[1..] == []; }
    assert ids[..0] == [];
    assert ValuesOf(ids, DNS) == [] + ["a"] && ValuesOf(ids, IP) == [] + [];
    assert RequestedNames(net, CSR) == ["a"] + [] && RequestedAddresses(net, CSR) == [] + [];
    assert OrderNames(ids) == RequestedNames(net, CSR);
    assert OrderAddresses(net, ids) == [];
    SansDecideSetEquality(net, ids, CSR);
  }

  lemma FirstSigning()
    ensures StoreChain(LostSave(), MadeReady(Name, 17), OrderAs(Name, Ready), ["c"]).0 == SignedOnce()
  {}

  lemma SecondSigning(net: Net, signed: seq<SignCall>)
    requires SansFor(net, OrderAs(Name, Ready), CSR).Accepted?
    ensures
      var t := Step(LostSave(), net, World(SignedOnce(), 0, signed), Finalization(CSR)).0.db.t;
      4 in t.certs && 5 in t.certs && t.certs[4].order == t.certs[5].order == 3 && t.certs.Keys == {4, 5}
  {
    hide SansFor, StoreChain, Step;
    SecondFinalizing(net, signed);
    ChainIsStored(LostSave(), SignedOnce().(ops := 22), OrderAs(Name, Ready), ["c"]);
  }

  lemma SecondFinalizing(net: Net, signed: seq<SignCall>)
    requires SansFor(net, OrderAs(Name, Ready), CSR).Accepted?
    ensures Step(LostSave(), net, World(SignedOnce(), 0, signed), Finalization(CSR)).0.db ==
            StoreChain(LostSave(), SignedOnce().(ops := 22), OrderAs(Name, Ready), ["c"]).0
  {
    hide SansFor, StoreChain, RefreshOrder;
    StillReady();
    assert ["c"] + [] == ["c"];
  }

  lemma StillReady()
    ensures
      var db, o := SignedOnce().(ops := 22), OrderAs(Name, Ready);
      RefreshOrder(LostSave(), db, o, 0) == (db, o, Fine)
  {}

  /** The order ends with two certificates. */
  lemma TwoCertificates(net: Net)
    ensures |CertsOf(Run(LostSave(), net, Start(0), Events()).db.t.certs, 3)| == 2
  {
    hide Step, SansFor, StoreChain;
    var f, e, w := LostSave(), Events(), Start(0);
    assert e[..5] == e && e[..3] == [REGISTRATION, Placing(Name), PROOF];
    assert e[..5][..4] == e[..4] && e[..4][..3] == e[..3];
    Prefix(f, net, Name);
    NamesMatch(net);
    Finalizing(f, net, Name, CSR);
    FirstSigning();
    var signed := [TheCall(net, Name, CSR)];
    assert Run(f, net, w, e[..4]) == World(SignedOnce(), 0, signed);
    SecondSigning(net, signed);
    assert CertsOf(Run(f, net, w, e[..5]).db.t.certs, 3) == {4, 5};
  }

  // ---------------------------------------------------------------------------------------------
  // A common name that nobody proved: the order is for a permanent identifier

  /** Whatever the request names, a run hands its common name to the signer for an order that it is no identifier of. */
  lemma UnprovedCommonName(f: Faults, net: Net, csr: ParsedRequest)
    requires AllDone(f, 0, 17)
    ensures
      var w := Run(f, net, Start(0), [REGISTRATION, Placing(Device), PROOF, Finalization(csr)]);
      && |w.signed| == 1 && w.signed[0].order in w.db.t.orders && w.signed[0].commonName == csr.commonName
      && w.signed[0].sans == [PermanentId("a")]
      && var ids := w.db.t.orders[w.signed[0].order].identifiers;
      forall i :: 0 <= i < |ids| ==> !SameName(net, ids[i], csr.commonName)
  {
    hide Step, StoreChain, AllDone;
    var before, o := [REGISTRATION, Placing(Device), PROOF], OrderAs(Device, Ready);
    var e := before + [Finalization(csr)];
    assert e == [REGISTRATION, Placing(Device), PROOF, Finalization(csr)];
    assert e[..|e| - 1] == before && e[|e| - 1] == Finalization(csr);
    DoneBefore(f, 17, 12);
    Prefix(f, net, Device);
    Finalizing(f, net, Device, csr);
    ChainIsStored(f, MadeReady(Device, 17), o, ["c"]);
  }

  // ---------------------------------------------------------------------------------------------
  // An account that cannot order any more: the list is saved by a call that fails, and the order is then deleted

  /** Storage whose call number 8 fails after its effect. */
  function TornSave(): Faults {
    k => if k == 8 then Torn else Done
  }

  lemma TearOrder(net: Net)
    ensures
      var w := Step(TornSave(), net, World(Registered(), 0, []), Placing(Name)).0;
      ListOf(w.db.t, 0) == [3] && w.db.t.orders == map[]
  {
    hide NewAuthorizations, CreateOrder;
    Authorizing(TornSave(), Name);
    LoseOrder();
  }

  lemma LoseOrder()
    ensures
      var t := CreateOrder(TornSave(), Authorized(Name), OrderRecord(0, 7, Request1(Name), [2], 0), 0).0.t;
      ListOf(t, 0) == [3] && t.orders == map[]
  {
    var f := TornSave();
    var d := AddOrder(f, Authorized(Name), OrderRecord(0, 7, Request1(Name), [2], 0)).0;
    assert d == Db(Placed(Name).t.(lists := map[]), 7);
    assert RefreshListed(f, d.(ops := 8), [], 0) == (d.(ops := 8), Some([]));
    assert [] + [3] == [3];
  }

  /** After one registration and one order the list names an order that is not stored, and no later order of the
      account succeeds, although no storage call fails any more. */
  lemma StuckAccount(net: Net, events: seq<Event>, e: Event)
    requires UsesList(e, 0)
    ensures
      var w := Run(TornSave(), net, Start(0), [REGISTRATION, Placing(Name)]);
      Dangles(w.db.t, 0) && Step(TornSave(), net, Run(TornSave(), net, w, events), e).1.Failed?
  {
    hide Step;
    var f, start := TornSave(), [REGISTRATION, Placing(Name)];
    assert start[..1] == [REGISTRATION] && [REGISTRATION][..0] == [];
    Registration(f, net);
    assert Run(f, net, Start(0), [REGISTRATION]) == World(Registered(), 0, []);
    TearOrder(net);
    var w := Run(f, net, Start(0), start);
    assert ListOf(w.db.t, 0)[0] !in w.db.t.orders;
    RunSafe(f, net, 0, start);
    NoMoreOrders(f, net, w, events, e, 0);
  }
}
