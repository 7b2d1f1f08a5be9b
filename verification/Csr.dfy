/** Comparison of a certificate signing request with the identifiers of an ACME order (acme/order.go). */
module Csr {
  import opened Text

  datatype Kind = DNS | IP | PermanentIdentifier | OtherKind(name: string)

  datatype Identifier = Identifier(kind: Kind, value: string)

  /** A subject alternative name handed to the signer. */
  datatype San = DNSName(value: string) | IPAddress(value: string) | PermanentId(value: string)

  /** An IP address is a string of 4 or 16 bytes; the empty string stands for Go's nil address. */
  predicate IsAddress(a: string) {
    |a| == 4 || |a| == 16
  }

  const V4_IN_V6: string := ['\0', '\0', '\0', '\0', '\0', '\0', '\0', '\0', '\0', '\0', '\U{ff}', '\U{ff}']

  function To16(a: string): (r: string)
    ensures |r| == 16 <==> IsAddress(a)
    ensures r == "" <==> a == ""
    ensures |a| != 4 ==> r == a
    ensures |a| == 4 ==> |r| == 16 && r[12..] == a
    ensures |a| == 4 ==> forall i :: 0 <= i < 12 ==> r[i] as int == if i < 10 then 0 else 255
  {
    if |a| == 4 then V4_IN_V6 + a else a
  }

  /** Go's net package: `parse` is ParseIP and `text` is IP.String. */
  datatype NetFunctions = NetFunctions(parse: string -> string, text: string -> string)

  /** What the net package promises: parsing yields nil or 16 bytes, printing depends only on the
      16-byte form, and parsing undoes printing (the text of nil does not parse). */
  ghost predicate Lawful(n: NetFunctions) {
    && (forall s :: n.parse(s) == "" || |n.parse(s)| == 16)
    && (forall a {:trigger To16(a), n.text(a)} | IsAddress(a) :: n.text(To16(a)) == n.text(a))
    && (forall a {:trigger n.parse(n.text(a))} | a == "" || IsAddress(a) :: n.parse(n.text(a)) == To16(a))
  }

  ghost const REFERENCE: NetFunctions := NetFunctions(s => if |s| == 16 then s else "", To16)

  type Net = n: NetFunctions | Lawful(n) ghost witness REFERENCE

  /** The parts of a signing request that the comparison reads. */
  datatype Request = Request(commonName: string, dnsNames: seq<string>, ips: seq<string>,
                             emails: seq<string>, uris: seq<string>)

  /** x509 parsing only produces addresses of 4 or 16 bytes. */
  predicate Parsed(csr: Request) {
    forall i :: 0 <= i < |csr.ips| ==> IsAddress(csr.ips[i])
  }

  type ParsedRequest = r: Request | Parsed(r) witness Request("", [], [], [], [])

  datatype SansError = UnsupportedName | UnsupportedKind | NamesDiffer | AddressesDiffer

  datatype SansResult = Accepted(sans: seq<San>) | Refused(error: SansError)

  function Normalized(ips: seq<string>): seq<string> { Map(To16, ips) }

  /** Values of the identifiers of one kind, in order. */
  function ValuesOf(ids: seq<Identifier>, kind: Kind): seq<string> {
    if ids == [] then []
    else ValuesOf(ids[..|ids| - 1], kind) + (if ids[|ids| - 1].kind == kind then [ids[|ids| - 1].value] else [])
  }

  function OrderNames(ids: seq<Identifier>): seq<string> { ValuesOf(ids, DNS) }

  function OrderAddresses(net: Net, ids: seq<Identifier>): seq<string> { Map(net.parse, ValuesOf(ids, IP)) }

  /** DNS names the request asks for: its list, and a common name that is not an address. */
  function RequestedNames(net: Net, csr: Request): seq<string> {
    csr.dnsNames + if csr.commonName != "" && net.parse(csr.commonName) == "" then [csr.commonName] else []
  }

  /** Addresses the request asks for: its list, and a common name that is an address. */
  function RequestedAddresses(net: Net, csr: Request): seq<string> {
    csr.ips + if csr.commonName != "" && net.parse(csr.commonName) != "" then [net.parse(csr.commonName)] else []
  }

  /** The request in canonical form: names lower-cased, addresses in 16 bytes, both sorted and unique. */
  function Canonical(net: Net, csr: Request): Request {
    csr.(dnsNames := SortUnique(Lowered(RequestedNames(net, csr))),
         ips := SortUnique(Normalized(RequestedAddresses(net, csr))))
  }

  predicate Supported(k: Kind) { !k.OtherKind? }

  predicate AddressesAreEqual(x: string, y: string) {
    x != "" && y != "" && To16(x) == To16(y)
  }

  /** The addresses are the same, position by position. */
  predicate AllEqual(a: seq<string>, b: seq<string>) {
    |a| == |b| && forall i :: 0 <= i < |a| ==> AddressesAreEqual(a[i], b[i])
  }

  /** The alternative names for an order with these identifiers and this canonical request. */
  function Sans(net: Net, ids: seq<Identifier>, csr: Request): SansResult {
    var names := SortUnique(Lowered(OrderNames(ids)));
    var ips := SortUnique(Normalized(OrderAddresses(net, ids)));
    if csr.emails != [] || csr.uris != [] then Refused(UnsupportedName)
    else if exists i :: 0 <= i < |ids| && !Supported(ids[i].kind) then Refused(UnsupportedKind)
    else if csr.dnsNames != names then Refused(NamesDiffer)
    else if !AllEqual(csr.ips, ips) then Refused(AddressesDiffer)
    else Accepted(SansOf(net, csr))
  }

  function SansOf(net: Net, csr: Request): seq<San> {
    Map(s => DNSName(s), csr.dnsNames) + Map(a => IPAddress(net.text(a)), csr.ips)
  }

  // ---------------------------------------------------------------------------------------------
  // What the comparison decides

  ghost function NameSet(names: seq<string>): set<string> { Elements(Lowered(names)) }

  ghost function AddressSet(ips: seq<string>): set<string> { Elements(Normalized(ips)) }

  lemma MappedElements(f: string -> string, s: seq<string>)
    ensures Elements(Map(f, s)) == set x | x in s :: f(x)
  {
    forall y ensures y in Elements(Map(f, s)) <==> y in (set x | x in s :: f(x)) {
      if y in Map(f, s) {
        var i :| 0 <= i < |s| && Map(f, s)[i] == y;
        assert s[i] in s && f(s[i]) == y;
      }
      if y in (set x | x in s :: f(x)) {
        var x :| x in s && f(x) == y;
        var i :| 0 <= i < |s| && s[i] == x;
        assert Map(f, s)[i] == y;
      }
    }
  }

  lemma RequestedAddressesAreReal(net: Net, csr: Request)
    requires Parsed(csr)
    ensures forall a :: a in AddressSet(RequestedAddresses(net, csr)) ==> |a| == 16
  {
    MappedElements(To16, RequestedAddresses(net, csr));
  }

  /** The element-wise comparison of the two sorted lists is equality of the lists. */
  lemma CanonicalAddressesMatch(net: Net, ids: seq<Identifier>, csr: Request)
    requires Parsed(csr)
    ensures
      var a := Canonical(net, csr).ips;
      var b := SortUnique(Normalized(OrderAddresses(net, ids)));
      a == b <==> |a| == |b| && forall i :: 0 <= i < |b| ==> AddressesAreEqual(a[i], b[i])
  {
    var a := Canonical(net, csr).ips;
    var b := SortUnique(Normalized(OrderAddresses(net, ids)));
    SortUniqueProperties(Normalized(RequestedAddresses(net, csr)));
    SortUniqueProperties(Normalized(OrderAddresses(net, ids)));
    RequestedAddressesAreReal(net, csr);
    MappedElements(To16, OrderAddresses(net, ids));
    forall i | 0 <= i < |a| ensures |a[i]| == 16 {
      assert a[i] in Elements(a);
    }
    forall i | 0 <= i < |b| ensures b[i] == "" || |b[i]| == 16 {
      assert b[i] in Elements(b);
    }
  }

  /** Section 7.4 of RFC 8555: the request is accepted exactly when it names the same set of DNS
      names (up to case) and the same set of addresses (as 16 bytes) as the order. */
  lemma SansDecideSetEquality(net: Net, ids: seq<Identifier>, csr: Request)
    requires Parsed(csr) && csr.emails == [] && csr.uris == []
    requires forall i :: 0 <= i < |ids| ==> Supported(ids[i].kind)
    ensures Sans(net, ids, Canonical(net, csr)).Accepted? <==>
            && NameSet(RequestedNames(net, csr)) == NameSet(OrderNames(ids))
            && AddressSet(RequestedAddresses(net, csr)) == AddressSet(OrderAddresses(net, ids))
  {
    CanonicalAddressesMatch(net, ids, csr);
    SortUniqueDecidesSetEquality(Lowered(RequestedNames(net, csr)), Lowered(OrderNames(ids)));
    SortUniqueDecidesSetEquality(Normalized(RequestedAddresses(net, csr)), Normalized(OrderAddresses(net, ids)));
  }

  /** Why a request is refused: it has email or URI names; or the order has an identifier of an unknown type; or the DNS
      names differ; or the addresses do. */
  lemma RefusedSans(net: Net, ids: seq<Identifier>, csr: Request)
    requires Parsed(csr) && Sans(net, ids, Canonical(net, csr)).Refused?
    ensures Sans(net, ids, Canonical(net, csr)).error ==
            if |csr.emails| + |csr.uris| > 0 then UnsupportedName
            else if exists i :: 0 <= i < |ids| && ids[i].kind.OtherKind? then UnsupportedKind
            else if NameSet(RequestedNames(net, csr)) != NameSet(OrderNames(ids)) then NamesDiffer
            else AddressesDiffer
  {
    SortUniqueDecidesSetEquality(Lowered(RequestedNames(net, csr)), Lowered(OrderNames(ids)));
  }

  lemma SansAt(net: Net, csr: Request)
    ensures
      var sans := SansOf(net, csr);
      && |sans| == |csr.dnsNames| + |csr.ips|
      && (forall i :: 0 <= i < |csr.dnsNames| ==> sans[i] == DNSName(csr.dnsNames[i]))
      && (forall i :: |csr.dnsNames| <= i < |sans| ==> sans[i] == IPAddress(net.text(csr.ips[i - |csr.dnsNames|])))
  {}

  /** No alternative name is listed twice: printing keeps addresses apart. */
  lemma SansListsEachOnce(net: Net, csr: Request)
    requires StrictlySorted(csr.dnsNames) && StrictlySorted(csr.ips)
    requires forall i :: 0 <= i < |csr.ips| ==> |csr.ips[i]| == 16
    ensures var sans := SansOf(net, csr);
            forall i, j :: 0 <= i < j < |sans| ==> sans[i] != sans[j]
  {
    var sans := SansOf(net, csr);
    var d := |csr.dnsNames|;
    SansAt(net, csr);
    forall i, j | 0 <= i < j < |sans| ensures sans[i] != sans[j] {
      if j < d {
        LessAsymmetric(csr.dnsNames[i], csr.dnsNames[j]);
      } else if d <= i {
        LessAsymmetric(csr.ips[i - d], csr.ips[j - d]);
        assert net.parse(net.text(csr.ips[i - d])) == csr.ips[i - d];
        assert net.parse(net.text(csr.ips[j - d])) == csr.ips[j - d];
      }
    }
  }

  lemma SansListsAll(net: Net, csr: Request)
    ensures
      var sans := SansOf(net, csr);
      && (forall n :: DNSName(n) in sans <==> n in csr.dnsNames)
      && (forall t :: IPAddress(t) in sans <==> exists i :: 0 <= i < |csr.ips| && net.text(csr.ips[i]) == t)
      && (forall p :: PermanentId(p) !in sans)
  {
    hide Lawful, SansOf;
    var sans := SansOf(net, csr);
    var d := |csr.dnsNames|;
    SansAt(net, csr);
    forall n | n in csr.dnsNames ensures DNSName(n) in sans {
      var i :| 0 <= i < d && csr.dnsNames[i] == n;
      assert sans[i] == DNSName(n);
    }
    forall i | 0 <= i < |csr.ips| ensures IPAddress(net.text(csr.ips[i])) in sans {
      assert sans[d + i] == IPAddress(net.text(csr.ips[i]));
    }
    forall x | x in sans
      ensures match x
              case DNSName(n) => n in csr.dnsNames
              case IPAddress(t) => exists i :: 0 <= i < |csr.ips| && net.text(csr.ips[i]) == t
              case PermanentId(_) => false
    {
      var i :| 0 <= i < |sans| && sans[i] == x;
      if i >= d { assert net.text(csr.ips[i - d]) == x.value; }
    }
  }

  /** An accepted request lists, in canonical form, exactly the order's names and addresses. */
  lemma AcceptedMeansEqual(net: Net, ids: seq<Identifier>, csr: Request)
    requires Parsed(csr) && Sans(net, ids, Canonical(net, csr)).Accepted?
    ensures
      var c := Canonical(net, csr);
      && Sans(net, ids, c).sans == SansOf(net, c)
      && StrictlySorted(c.dnsNames) && Elements(c.dnsNames) == NameSet(OrderNames(ids))
      && StrictlySorted(c.ips) && Elements(c.ips) == AddressSet(OrderAddresses(net, ids))
      && forall i :: 0 <= i < |c.ips| ==> |c.ips[i]| == 16
  {
    hide SansOf, SortUnique, Lawful, StrictlySorted, Lowered, Normalized, OrderNames, OrderAddresses,
      RequestedAddresses, AddressesAreEqual;
    var c := Canonical(net, csr);
    CanonicalAddressesMatch(net, ids, csr);
    SortUniqueProperties(Lowered(OrderNames(ids)));
    SortUniqueProperties(Normalized(OrderAddresses(net, ids)));
    SortUniqueProperties(Normalized(RequestedAddresses(net, csr)));
    RequestedAddressesAreReal(net, csr);
    forall i | 0 <= i < |c.ips| ensures |c.ips[i]| == 16 {
      assert c.ips[i] in Elements(c.ips);
    }
  }

  /** On success every identifier of the order is listed, each once, and nothing else. */
  lemma AcceptedSansAreExact(net: Net, ids: seq<Identifier>, csr: Request)
    requires Parsed(csr) && Sans(net, ids, Canonical(net, csr)).Accepted?
    ensures
      var sans := Sans(net, ids, Canonical(net, csr)).sans;
      && (forall i, j :: 0 <= i < j < |sans| ==> sans[i] != sans[j])
      && (forall n :: DNSName(n) in sans <==> n in NameSet(OrderNames(ids)))
      && (forall t :: IPAddress(t) in sans <==>
            exists a :: a in AddressSet(OrderAddresses(net, ids)) && net.text(a) == t)
      && (forall p :: PermanentId(p) !in sans)
  {
    hide Lawful, SansOf, Sans, Canonical, StrictlySorted, NameSet, AddressSet;
    var c := Canonical(net, csr);
    AcceptedMeansEqual(net, ids, csr);
    SansListsEachOnce(net, c);
    SansListsAll(net, c);
    forall t ensures IPAddress(t) in SansOf(net, c) <==> exists a :: a in Elements(c.ips) && net.text(a) == t {
      if a :| a in Elements(c.ips) && net.text(a) == t {
        var i :| 0 <= i < |c.ips| && c.ips[i] == a;
      }
      if i :| 0 <= i < |c.ips| && net.text(c.ips[i]) == t {
        assert c.ips[i] in Elements(c.ips);
      }
    }
  }

  /** The alternative name stands for this identifier: equal up to case, or the same address. */
  predicate Names(net: Net, id: Identifier, san: San) {
    match san
    case DNSName(n) => id.kind == DNS && n == ToLower(id.value)
    case IPAddress(t) => id.kind == IP && t == net.text(net.parse(id.value))
    case PermanentId(p) => id.kind == PermanentIdentifier && p == id.value
  }

  predicate SameName(net: Net, id: Identifier, name: string) {
    match id.kind
    case DNS => EqualFold(id.value, name)
    case IP => net.parse(id.value) == net.parse(name) != ""
    case _ => false
  }

  lemma {:induction false} ValuesOfMember(ids: seq<Identifier>, kind: Kind, v: string)
    ensures v in ValuesOf(ids, kind) <==> exists i :: 0 <= i < |ids| && ids[i].kind == kind && ids[i].value == v
  {
    if ids != [] {
      var init := ids[..|ids| - 1];
      ValuesOfMember(init, kind, v);
      assert forall i :: 0 <= i < |init| ==> init[i] == ids[i];
    }
  }

  lemma NameSetMember(ids: seq<Identifier>, n: string)
    ensures n in NameSet(OrderNames(ids)) <==>
      exists i :: 0 <= i < |ids| && ids[i].kind == DNS && ToLower(ids[i].value) == n
  {
    MappedElements(ToLower, OrderNames(ids));
    if n in NameSet(OrderNames(ids)) {
      var v :| v in OrderNames(ids) && ToLower(v) == n;
      ValuesOfMember(ids, DNS, v);
    }
    if i :| 0 <= i < |ids| && ids[i].kind == DNS && ToLower(ids[i].value) == n {
      ValuesOfMember(ids, DNS, ids[i].value);
    }
  }

  lemma AddressSetMember(net: Net, ids: seq<Identifier>, a: string)
    ensures a in AddressSet(OrderAddresses(net, ids)) <==>
      exists i :: 0 <= i < |ids| && ids[i].kind == IP && net.parse(ids[i].value) == a
  {
    MappedElements(net.parse, ValuesOf(ids, IP));
    MappedElements(To16, OrderAddresses(net, ids));
    assert forall v :: To16(net.parse(v)) == net.parse(v);
    assert forall x :: x in OrderAddresses(net, ids) <==> x in Elements(OrderAddresses(net, ids));
    if a in AddressSet(OrderAddresses(net, ids)) {
      var v :| v in ValuesOf(ids, IP) && net.parse(v) == a;
      ValuesOfMember(ids, IP, v);
    }
    if i :| 0 <= i < |ids| && ids[i].kind == IP && net.parse(ids[i].value) == a {
      ValuesOfMember(ids, IP, ids[i].value);
      assert net.parse(ids[i].value) in Elements(OrderAddresses(net, ids));
    }
  }

  /** On success each name handed on is that of an identifier, and each identifier is handed on. */
  lemma AcceptedSansMatchIdentifiers(net: Net, ids: seq<Identifier>, csr: Request)
    requires Parsed(csr) && Sans(net, ids, Canonical(net, csr)).Accepted?
    ensures
      var sans := Sans(net, ids, Canonical(net, csr)).sans;
      && (forall s :: s in sans ==> exists i :: 0 <= i < |ids| && Names(net, ids[i], s))
      && (forall i :: 0 <= i < |ids| && ids[i].kind != PermanentIdentifier ==>
            exists s :: s in sans && Names(net, ids[i], s))
  {
    hide Lawful, SansOf, SortUnique, Map, Sans, Canonical, NameSet, AddressSet;
    var sans := Sans(net, ids, Canonical(net, csr)).sans;
    AcceptedSansAreExact(net, ids, csr);
    AcceptedKinds(net, ids, Canonical(net, csr));
    forall s | s in sans ensures exists i :: 0 <= i < |ids| && Names(net, ids[i], s) {
      match s
      case DNSName(n) => NameSetMember(ids, n);
      case IPAddress(t) =>
        var a :| a in AddressSet(OrderAddresses(net, ids)) && net.text(a) == t;
        AddressSetMember(net, ids, a);
    }
    forall i | 0 <= i < |ids| && ids[i].kind != PermanentIdentifier
      ensures exists s :: s in sans && Names(net, ids[i], s)
    {
      if ids[i].kind == DNS {
        NameSetMember(ids, ToLower(ids[i].value));
        assert DNSName(ToLower(ids[i].value)) in sans;
        assert Names(net, ids[i], DNSName(ToLower(ids[i].value)));
      } else {
        AddressSetMember(net, ids, net.parse(ids[i].value));
        assert IPAddress(net.text(net.parse(ids[i].value))) in sans;
        assert Names(net, ids[i], IPAddress(net.text(net.parse(ids[i].value))));
      }
    }
  }

  lemma AcceptedKinds(net: Net, ids: seq<Identifier>, csr: Request)
    requires Sans(net, ids, csr).Accepted?
    ensures csr.emails == [] && csr.uris == [] && forall i :: 0 <= i < |ids| ==> Supported(ids[i].kind)
  {}

  /** On success a common name, too, is that of an identifier. */
  lemma AcceptedCommonName(net: Net, ids: seq<Identifier>, csr: Request)
    requires Parsed(csr) && Sans(net, ids, Canonical(net, csr)).Accepted? && csr.commonName != ""
    ensures exists i :: 0 <= i < |ids| && SameName(net, ids[i], csr.commonName)
  {
    var cn := csr.commonName;
    AcceptedKinds(net, ids, Canonical(net, csr));
    SansDecideSetEquality(net, ids, csr);
    if net.parse(cn) == "" {
      var names := RequestedNames(net, csr);
      assert Lowered(names)[|names| - 1] == ToLower(cn);
      NameSetMember(ids, ToLower(cn));
      var i :| 0 <= i < |ids| && ids[i].kind == DNS && ToLower(ids[i].value) == ToLower(cn);
      assert SameName(net, ids[i], cn);
    } else {
      var ips := RequestedAddresses(net, csr);
      assert Normalized(ips)[|ips| - 1] == net.parse(cn);
      AddressSetMember(net, ids, net.parse(cn));
      var i :| 0 <= i < |ids| && ids[i].kind == IP && net.parse(ids[i].value) == net.parse(cn);
      assert SameName(net, ids[i], cn);
    }
  }

  // ---------------------------------------------------------------------------------------------
  // The code, step by step

  /** numberOfIdentifierType */
  method NumberOfIdentifierType(kind: Kind, ids: seq<Identifier>) returns (c: nat)
    ensures c == |ValuesOf(ids, kind)|
  {
    c := 0;
    for i := 0 to |ids|
      invariant c == |ValuesOf(ids[..i], kind)|
    {
      assert ids[..i + 1][..i] == ids[..i];
      if ids[i].kind == kind {
        c := c + 1;
      }
    }
    assert ids[..|ids|] == ids;
  }

  /** Lists the elements of a set in whatever order the iteration yields them. */
  method Listing(s: set<string>) returns (r: seq<string>)
    ensures Elements(r) == s
    ensures forall i, j :: 0 <= i < j < |r| ==> r[i] != r[j]
  {
    r := [];
    var rest := s;
    while rest != {}
      invariant rest <= s && Elements(r) == s - rest
      invariant forall i, j :: 0 <= i < j < |r| ==> r[i] != r[j]
      invariant forall i :: 0 <= i < |r| ==> r[i] !in rest
      decreases rest
    {
      var x :| x in rest;
      forall i | 0 <= i < |r| ensures r[i] != x { assert r[i] !in rest; }
      assert Elements(r + [x]) == Elements(r) + {x};
      r := r + [x];
      rest := rest - {x};
    }
  }

  /** uniqueSortedLowerNames */
  method UniqueSortedLowerNames(names: seq<string>) returns (unique: seq<string>)
    ensures unique == SortUnique(Lowered(names))
  {
    var nameMap: map<string, int> := map[];
    for i := 0 to |names|
      invariant nameMap.Keys == set j | 0 <= j < i :: ToLower(names[j])
    {
      nameMap := nameMap[ToLower(names[i]) := 1];
    }
    unique := Listing(nameMap.Keys);
    assert Elements(unique) == Elements(Lowered(names)) by {
      forall x ensures x in nameMap.Keys <==> x in Lowered(names) {
        if x in nameMap.Keys {
          var j :| 0 <= j < |names| && ToLower(names[j]) == x;
          assert Lowered(names)[j] == x;
        }
      }
    }
    SortUniqueDecidesSetEquality(unique, Lowered(names));
    unique := SortStrings(unique);
  }

  /** uniqueSortedIPs */
  method UniqueSortedIPs(net: Net, ips: seq<string>) returns (unique: seq<string>)
    requires forall i :: 0 <= i < |ips| ==> ips[i] == "" || IsAddress(ips[i])
    ensures unique == SortUnique(Normalized(ips))
  {
    var entries: map<string, string> := map[];
    for i := 0 to |ips|
      invariant entries.Keys == set j | 0 <= j < i :: net.text(ips[j])
      invariant forall t :: t in entries ==> entries[t] == net.parse(t)
    {
      entries := entries[net.text(ips[i]) := net.parse(net.text(ips[i]))];
    }
    var keys := Listing(entries.Keys);
    unique := [];
    for i := 0 to |keys|
      invariant unique == Map(net.parse, keys[..i])
    {
      assert keys[i] in Elements(keys);
      unique := unique + [entries[keys[i]]];
    }
    assert keys[..|keys|] == keys;
    KeysAreAddresses(net, ips, keys);
    SortUniqueDecidesSetEquality(unique, Normalized(ips));
    unique := SortStrings(unique);
  }

  /** Printed addresses are as good as 16-byte addresses for telling addresses apart. */
  lemma KeysAreAddresses(net: Net, ips: seq<string>, keys: seq<string>)
    requires forall i :: 0 <= i < |ips| ==> ips[i] == "" || IsAddress(ips[i])
    requires Elements(keys) == set j | 0 <= j < |ips| :: net.text(ips[j])
    requires forall i, j :: 0 <= i < j < |keys| ==> keys[i] != keys[j]
    ensures Elements(Map(net.parse, keys)) == Elements(Normalized(ips))
    ensures forall i, j :: 0 <= i < j < |keys| ==> net.parse(keys[i]) != net.parse(keys[j])
  {
    forall k | 0 <= k < |keys| ensures net.text(net.parse(keys[k])) == keys[k] {
      assert keys[k] in Elements(keys);
      var j :| 0 <= j < |ips| && net.text(ips[j]) == keys[k];
    }
    MappedElements(net.parse, keys);
    MappedElements(To16, ips);
    forall y ensures y in Elements(Map(net.parse, keys)) <==> y in Elements(Normalized(ips)) {
      if y in Elements(Map(net.parse, keys)) {
        var t :| t in keys && net.parse(t) == y;
        assert t in Elements(keys);
        var j :| 0 <= j < |ips| && net.text(ips[j]) == t;
        assert ips[j] in ips;
      }
      if y in Elements(Normalized(ips)) {
        var a :| a in ips && To16(a) == y;
        var j :| 0 <= j < |ips| && ips[j] == a;
        assert net.text(ips[j]) in Elements(keys);
      }
    }
  }

  /** The signing request object that canonicalize edits in place. */
  class CertificateRequest {
    const commonName: string
    const emails: seq<string>
    const uris: seq<string>
    var dnsNames: seq<string>
    var ips: seq<string>

    constructor (r: Request)
      ensures Value() == r
    {
      commonName, emails, uris, dnsNames, ips := r.commonName, r.emails, r.uris, r.dnsNames, r.ips;
    }

    function Value(): Request
      reads this
    {
      Request(commonName, dnsNames, ips, emails, uris)
    }

    /** canonicalize: the common name joins the addresses or the names, then both are normalized. */
    method Canonicalize(net: Net)
      requires Parsed(Value())
      modifies this
      ensures Value() == Canonical(net, old(Value()))
    {
      if commonName != "" {
        var ip := net.parse(commonName);
        if ip != "" {
          ips := ips + [ip];
        } else {
          dnsNames := dnsNames + [commonName];
        }
      }
      assert dnsNames == RequestedNames(net, old(Value())) && ips == RequestedAddresses(net, old(Value()));
      dnsNames := UniqueSortedLowerNames(dnsNames);
      ips := UniqueSortedIPs(net, ips);
    }
  }

  lemma ValuesOfStep(ids: seq<Identifier>, i: nat, kind: Kind)
    requires i < |ids|
    ensures ValuesOf(ids[..i + 1], kind) ==
            ValuesOf(ids[..i], kind) + (if ids[i].kind == kind then [ids[i].value] else [])
    ensures |ValuesOf(ids[..i + 1], kind)| <= |ValuesOf(ids, kind)|
  {
    assert ids[..i + 1][..i] == ids[..i];
    CountIsMonotone(ids, i + 1, kind);
  }

  /** The first half of sans: arrays sized by counting and filled by running indexes. */
  method CollectIdentifiers(net: Net, ids: seq<Identifier>)
    returns (supported: bool, names: array<string>, ips: array<string>)
    ensures supported <==> forall i :: 0 <= i < |ids| ==> Supported(ids[i].kind)
    ensures supported ==> names[..] == OrderNames(ids) && ips[..] == OrderAddresses(net, ids)
  {
    hide Lawful, ValuesOf;
    var numNames := NumberOfIdentifierType(DNS, ids);
    var numIPs := NumberOfIdentifierType(IP, ids);
    names, ips := new string[numNames], new string[numIPs];
    var indexDNS, indexIP := 0, 0;
    assert ids[..0] == [];
    EmptyValues(DNS);
    EmptyValues(IP);
    for i := 0 to |ids|
      invariant indexDNS == |ValuesOf(ids[..i], DNS)| <= numNames && indexIP == |ValuesOf(ids[..i], IP)| <= numIPs
      invariant forall k :: 0 <= k < indexDNS ==> names[k] == ValuesOf(ids[..i], DNS)[k]
      invariant forall k :: 0 <= k < indexIP ==> ips[k] == net.parse(ValuesOf(ids[..i], IP)[k])
      invariant forall j :: 0 <= j < i ==> Supported(ids[j].kind)
    {
      ValuesOfStep(ids, i, DNS);
      ValuesOfStep(ids, i, IP);
      match ids[i].kind {
        case DNS =>
          names[indexDNS] := ids[i].value;
          indexDNS := indexDNS + 1;
        case IP =>
          ips[indexIP] := net.parse(ids[i].value);
          indexIP := indexIP + 1;
        case PermanentIdentifier =>
        case OtherKind(_) =>
          return false, names, ips;
      }
    }
    assert ids[..|ids|] == ids;
    return true, names, ips;
  }

  lemma EmptyValues(kind: Kind)
    ensures ValuesOf([], kind) == []
  {}

  /** sans: the identifiers of the order against the canonical request, position by position. */
  method ComputeSans(net: Net, ids: seq<Identifier>, csr: Request) returns (r: SansResult)
    ensures r == Sans(net, ids, csr)
  {
    if |csr.emails| > 0 || |csr.uris| > 0 {
      return Refused(UnsupportedName);
    }
    var supported, names, ips := CollectIdentifiers(net, ids);
    if !supported {
      return Refused(UnsupportedKind);
    }
    var orderNames := UniqueSortedLowerNames(names[..]);
    var orderIPs := UniqueSortedIPs(net, ips[..]);
    r := CompareSans(net, orderNames, orderIPs, csr);
  }

  /** The second half of sans: one array of alternative names, filled while comparing. */
  method CompareSans(net: Net, orderNames: seq<string>, orderIPs: seq<string>, csr: Request) returns (r: SansResult)
    ensures r == if csr.dnsNames != orderNames then Refused(NamesDiffer)
                 else if !AllEqual(csr.ips, orderIPs) then Refused(AddressesDiffer)
                 else Accepted(SansOf(net, csr))
  {
    hide AddressesAreEqual, Lawful;
    var sans := new San[|csr.dnsNames| + |csr.ips|](_ => DNSName(""));
    var same := FillNames(sans, csr.dnsNames, orderNames);
    if !same {
      return Refused(NamesDiffer);
    }
    same := FillAddresses(net, sans, |csr.dnsNames|, csr.ips, orderIPs);
    if !same {
      return Refused(AddressesDiffer);
    }
    assert sans[..] == SansOf(net, csr);
    return Accepted(sans[..]);
  }

  /** The loop over the DNS names. */
  method FillNames(sans: array<San>, names: seq<string>, orderNames: seq<string>) returns (same: bool)
    requires |names| <= sans.Length
    modifies sans
    ensures same <==> names == orderNames
    ensures same ==> forall k :: 0 <= k < |names| ==> sans[k] == DNSName(names[k])
  {
    if |names| != |orderNames| {
      return false;
    }
    for index := 0 to |names|
      invariant forall k :: 0 <= k < index ==> names[k] == orderNames[k] && sans[k] == DNSName(names[k])
    {
      if names[index] != orderNames[index] {
        return false;
      }
      sans[index] := DNSName(names[index]);
    }
    same := true;
  }

  /** The loop over the addresses, which goes on at position `start`. */
  method FillAddresses(net: Net, sans: array<San>, start: nat, ips: seq<string>, orderIPs: seq<string>)
    returns (same: bool)
    requires start + |ips| <= sans.Length
    modifies sans
    ensures same <==> AllEqual(ips, orderIPs)
    ensures forall k :: 0 <= k < start ==> sans[k] == old(sans[k])
    ensures same ==> forall k :: 0 <= k < |ips| ==> sans[start + k] == IPAddress(net.text(ips[k]))
  {
    hide AddressesAreEqual, Lawful;
    if |ips| != |orderIPs| {
      return false;
    }
    var index := start;
    for i := 0 to |ips|
      invariant index == start + i
      invariant forall k :: 0 <= k < i ==> AddressesAreEqual(ips[k], orderIPs[k])
      invariant forall k :: 0 <= k < start ==> sans[k] == old(sans[k])
      invariant forall k :: 0 <= k < i ==> sans[start + k] == IPAddress(net.text(ips[k]))
    {
      if !AddressesAreEqual(ips[i], orderIPs[i]) {
        return false;
      }
      sans[index] := IPAddress(net.text(ips[i]));
      index := index + 1;
    }
    same := true;
  }

  lemma {:induction false} CountIsMonotone(ids: seq<Identifier>, i: nat, kind: Kind)
    requires i <= |ids|
    ensures |ValuesOf(ids[..i], kind)| <= |ValuesOf(ids, kind)|
    decreases |ids| - i
  {
    if i == |ids| {
      assert ids[..i] == ids;
    } else {
      assert ids[..i + 1][..i] == ids[..i];
      CountIsMonotone(ids, i + 1, kind);
    }
  }
}
