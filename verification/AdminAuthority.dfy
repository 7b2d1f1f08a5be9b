/** The authority's cache of admins and provisioners in front of its database (authority/admins.go,
    authority/provisioners.go, authority/authority.go): write through, and repair by reloading. */
module AdminAuthority {
  import opened Storage
  import opened AdminCollection

  /** What the database keeps of an admin, under its id. */
  datatype AdminRecord = AdminRecord(provisionerId: string, subject: string, typ: AdminType)

  ghost function RecordOf(a: Admin): AdminRecord
    reads a
  {
    AdminRecord(a.provisionerId, a.subject, a.typ)
  }

  /** The cached admins are the stored ones, field by field. */
  ghost predicate Same(byID: map<string, Admin>, stored: map<string, AdminRecord>)
    reads byID.Values
  {
    byID.Keys == stored.Keys && forall id :: id in byID ==> stored[id] == RecordOf(byID[id])
  }

  predicate SameHolder(r: AdminRecord, q: AdminRecord) {
    r.subject == q.subject && r.provisionerId == q.provisionerId
  }

  /** Collections can be built from these records: names are distinct, admins have a provisioner, and a subject occurs
      once per provisioner. */
  ghost predicate Loadable(stored: map<string, AdminRecord>, names: map<string, string>) {
    && DistinctNames(names)
    && (forall id :: id in stored ==> stored[id].provisionerId in names)
    && (forall i, j :: i in stored && j in stored && SameHolder(stored[i], stored[j]) ==> i == j)
  }

  // ---------------------------------------------------------------------------------------------
  // Listings of finite maps

  /** The list holds every entry of the map once, in some order. */
  ghost predicate Lists<V>(l: seq<(string, V)>, m: map<string, V>) {
    && (forall i, j :: 0 <= i < j < |l| ==> l[i].0 != l[j].0)
    && (forall i :: 0 <= i < |l| ==> l[i].0 in m && m[l[i].0] == l[i].1)
    && forall k :: k in m ==> exists i :: 0 <= i < |l| && l[i].0 == k
  }

  lemma ListsOneMap<V>(l: seq<(string, V)>, m: map<string, V>, m': map<string, V>)
    requires Lists(l, m) && Lists(l, m')
    ensures m == m'
  {
    forall k | k in m ensures k in m' && m[k] == m'[k] {
      var i :| 0 <= i < |l| && l[i].0 == k;
    }
    forall k | k in m' ensures k in m {
      var i :| 0 <= i < |l| && l[i].0 == k;
    }
  }

  lemma ListsMore<V>(l: seq<(string, V)>, m: map<string, V>, k: string, v: V)
    requires Lists(l, m) && k !in m
    ensures Lists(l + [(k, v)], m[k := v])
  {
    var l', m' := l + [(k, v)], m[k := v];
    assert l'[|l|] == (k, v);
    forall x | x in m' ensures exists i :: 0 <= i < |l'| && l'[i].0 == x {
      if x == k { assert l'[|l|].0 == x; } else {
        var i :| 0 <= i < |l| && l[i].0 == x;
        assert l'[i].0 == x;
      }
    }
  }

  method ListOf<V>(m: map<string, V>) returns (l: seq<(string, V)>)
    ensures Lists(l, m)
  {
    l := [];
    var rest := m.Keys;
    ghost var done := map[];
    while rest != {}
      invariant rest <= m.Keys && Lists(l, done) && done.Keys == m.Keys - rest
      invariant forall k :: k in done ==> done[k] == m[k]
      decreases |rest|
    {
      var k :| k in rest;
      ListsMore(l, done, k, m[k]);
      l := l + [(k, m[k])];
      done := done[k := m[k]];
      rest := rest - {k};
    }
    assert done == m;
  }

  // ---------------------------------------------------------------------------------------------
  // The database

  class AdminDB {
    var admins: map<string, AdminRecord>
    var provisioners: map<string, string>
    var ops: nat
    const faults: Faults

    constructor (faults: Faults, admins: map<string, AdminRecord>, provisioners: map<string, string>)
      ensures this.faults == faults && ops == 0 && this.admins == admins && this.provisioners == provisioners
    {
      this.faults, ops, this.admins, this.provisioners := faults, 0, admins, provisioners;
    }

    /** CreateAdmin: the id, chosen at random, must not be in use. */
    method CreateAdmin(id: string, r: AdminRecord) returns (ok: bool)
      modifies this`admins, this`ops
      ensures ops == old(ops) + 1 && ok == (id !in old(admins) && faults(old(ops)) == Done)
      ensures admins == if id in old(admins) || faults(old(ops)) == Lost then old(admins) else old(admins)[id := r]
    {
      var fault := faults(ops);
      ops := ops + 1;
      if id in admins {
        return false;
      }
      if fault != Lost {
        admins := admins[id := r];
      }
      ok := fault == Done;
    }

    /** UpdateAdmin: replaces the type of a stored admin. */
    method UpdateAdmin(id: string, typ: AdminType) returns (ok: bool)
      modifies this`admins, this`ops
      ensures ops == old(ops) + 1 && ok == (id in old(admins) && faults(old(ops)) == Done)
      ensures admins == if id !in old(admins) || faults(old(ops)) == Lost then old(admins)
                        else old(admins)[id := old(admins)[id].(typ := typ)]
    {
      var fault := faults(ops);
      ops := ops + 1;
      if id !in admins {
        return false;
      }
      if fault != Lost {
        admins := admins[id := admins[id].(typ := typ)];
      }
      ok := fault == Done;
    }

    /** DeleteAdmin: the admin must be stored. */
    method DeleteAdmin(id: string) returns (ok: bool)
      modifies this`admins, this`ops
      ensures ops == old(ops) + 1 && ok == (id in old(admins) && faults(old(ops)) == Done)
      ensures admins == if faults(old(ops)) == Lost then old(admins) else old(admins) - {id}
    {
      var fault := faults(ops);
      ops := ops + 1;
      ok := fault == Done && id in admins;
      if fault != Lost {
        admins := admins - {id};
      }
    }

    /** CreateProvisioner: the id, chosen at random, must not be in use. */
    method CreateProvisioner(id: string, name: string) returns (ok: bool)
      modifies this`provisioners, this`ops
      ensures ops == old(ops) + 1 && ok == (id !in old(provisioners) && faults(old(ops)) == Done)
      ensures provisioners == if id in old(provisioners) || faults(old(ops)) == Lost then old(provisioners)
                              else old(provisioners)[id := name]
    {
      var fault := faults(ops);
      ops := ops + 1;
      if id in provisioners {
        return false;
      }
      if fault != Lost {
        provisioners := provisioners[id := name];
      }
      ok := fault == Done;
    }

    /** DeleteProvisioner: the provisioner must be stored. */
    method DeleteProvisioner(id: string) returns (ok: bool)
      modifies this`provisioners, this`ops
      ensures ops == old(ops) + 1 && ok == (id in old(provisioners) && faults(old(ops)) == Done)
      ensures provisioners == if faults(old(ops)) == Lost then old(provisioners) else old(provisioners) - {id}
    {
      var fault := faults(ops);
      ops := ops + 1;
      ok := fault == Done && id in provisioners;
      if fault != Lost {
        provisioners := provisioners - {id};
      }
    }

    /** GetAdmins: all admins as new objects, in the order of the storage. */
    method GetAdmins() returns (ok: bool, l: seq<Admin>)
      modifies this`ops
      ensures ops == old(ops) + 1 && ok == (faults(old(ops)) == Done)
      ensures ok ==> Records(l, admins) && forall k :: 0 <= k < |l| ==> fresh(l[k])
    {
      ok := faults(ops) == Done;
      ops := ops + 1;
      l := [];
      if ok {
        var entries := ListOf(admins);
        l := Unmarshal(entries, admins);
      }
    }

    /** GetProvisioners, with the initialisation of each; a failure of either ends a reload alike. */
    method GetProvisioners() returns (ok: bool, l: seq<(string, string)>)
      modifies this`ops
      ensures ops == old(ops) + 1 && ok == (faults(old(ops)) == Done) && (ok ==> Lists(l, provisioners))
    {
      ok := faults(ops) == Done;
      ops := ops + 1;
      l := ListOf(provisioners);
    }
  }

  /** The admins have the ids and records of the map, each once. */
  ghost predicate Records(l: seq<Admin>, stored: map<string, AdminRecord>)
    reads l
  {
    && DistinctIds(l)
    && (forall i :: 0 <= i < |l| ==> l[i].id in stored && stored[l[i].id] == RecordOf(l[i]))
    && (forall id :: id in stored ==> exists i :: 0 <= i < |l| && l[i].id == id)
  }

  ghost predicate DistinctIds(s: seq<Admin>) {
    forall i, j :: 0 <= i < j < |s| ==> s[i].id != s[j].id
  }

  method Unmarshal(entries: seq<(string, AdminRecord)>, ghost stored: map<string, AdminRecord>) returns (l: seq<Admin>)
    requires Lists(entries, stored)
    ensures Records(l, stored) && forall k :: 0 <= k < |l| ==> fresh(l[k])
  {
    l := [];
    for i := 0 to |entries|
      invariant |l| == i && forall k :: 0 <= k < i ==> fresh(l[k])
      invariant forall k :: 0 <= k < i ==> l[k].id == entries[k].0 && RecordOf(l[k]) == entries[k].1
    {
      var (id, r) := entries[i];
      var adm := new Admin(id, r.provisionerId, r.subject, r.typ);
      l := l + [adm];
    }
    forall id | id in stored ensures exists i :: 0 <= i < |l| && l[i].id == id {
      var i :| 0 <= i < |entries| && entries[i].0 == id;
      assert l[i].id == id;
    }
  }

  // ---------------------------------------------------------------------------------------------
  // Building collections

  /** Ids and names are distinct. */
  ghost predicate LoadableNames(l: seq<(string, string)>) {
    forall i, j :: 0 <= i < j < |l| ==> l[i].0 != l[j].0 && l[i].1 != l[j].1
  }

  /** The provisioner half of a reload: every id and every name may be stored once. */
  method LoadProvisioners(l: seq<(string, string)>) returns (ok: bool, names: map<string, string>)
    ensures ok <==> LoadableNames(l)
    ensures ok ==> Lists(l, names) && DistinctNames(names)
  {
    hide Lists;
    names := map[];
    var byName := {};
    ListsNothing(l, names);
    for i := 0 to |l|
      invariant Lists(l[..i], names) && DistinctNames(names) && LoadableNames(l[..i])
      invariant forall n :: n in byName <==> exists p :: p in names && names[p] == n
    {
      var (id, name) := l[i];
      if id in names {
        ListedBefore(l, i, names, id);
        return false, names;
      }
      if name in byName {
        ghost var p :| p in names && names[p] == name;
        ListedBefore(l, i, names, p);
        return false, names;
      }
      NamesGrow(names, id, name, byName);
      NamesStay(l, i, names);
      ListsMore(l[..i], names, id, name);
      assert l[..i + 1] == l[..i] + [(id, name)];
      names := names[id := name];
      byName := byName + {name};
    }
    assert l[..|l|] == l;
    ok := true;
  }

  lemma ListsNothing<V>(l: seq<(string, V)>, m: map<string, V>)
    requires m == map[]
    ensures Lists(l[..0], m)
  {}

  /** A key of the part that was passed stands in it. */
  lemma ListedBefore(l: seq<(string, string)>, i: nat, names: map<string, string>, k: string)
    requires i < |l| && Lists(l[..i], names) && k in names && (k == l[i].0 || names[k] == l[i].1)
    ensures !LoadableNames(l)
  {
    var j :| 0 <= j < |l[..i]| && l[..i][j].0 == k;
    assert l[j].0 == k && l[j].1 == names[k];
  }

  lemma NamesStay(l: seq<(string, string)>, i: nat, names: map<string, string>)
    requires i < |l| && Lists(l[..i], names) && LoadableNames(l[..i])
    requires l[i].0 !in names && forall p :: p in names ==> names[p] != l[i].1
    ensures LoadableNames(l[..i + 1])
  {
    forall j, k | 0 <= j < k < |l[..i + 1]| ensures l[j].0 != l[k].0 && l[j].1 != l[k].1 {
      assert l[..i][j] == l[j];
      if k < i { assert l[..i][k] == l[k]; }
    }
  }

  lemma NamesGrow(names: map<string, string>, id: string, name: string, byName: set<string>)
    requires DistinctNames(names) && id !in names && name !in byName
    requires forall n :: n in byName <==> exists p :: p in names && names[p] == n
    ensures DistinctNames(names[id := name])
    ensures var names' := names[id := name];
            forall n :: n in byName + {name} <==> exists p :: p in names' && names'[p] == n
  {
    var names' := names[id := name];
    forall n | n in byName + {name} ensures exists p :: p in names' && names'[p] == n {
      if n == name { assert names'[id] == n; } else {
        var p :| p in names && names[p] == n;
        assert p in names' && names'[p] == n;
      }
    }
    forall n | exists p :: p in names' && names'[p] == n ensures n in byName + {name} {
      var p :| p in names' && names'[p] == n;
      if p != id { assert p in names && names[p] == n; }
    }
    forall p | p in names ensures names[p] != name {}
  }

  /** The listing of a map has distinct ids, so that only the names decide. */
  lemma ListedNames(l: seq<(string, string)>, m: map<string, string>)
    requires Lists(l, m)
    ensures LoadableNames(l) <==> DistinctNames(m)
  {
    if LoadableNames(l) {
      forall p, q | p in m && q in m && m[p] == m[q] ensures p == q {
        var i :| 0 <= i < |l| && l[i].0 == p;
        var j :| 0 <= j < |l| && l[j].0 == q;
      }
    }
  }

  /** Every admin has a provisioner, and ids, and subjects within a provisioner, are distinct. */
  ghost predicate LoadableAdmins(l: seq<Admin>, names: map<string, string>) {
    && DistinctIds(l)
    && (forall i :: 0 <= i < |l| ==> l[i].provisionerId in names)
    && (forall i, j :: 0 <= i < j < |l| ==>
          !(l[i].subject == l[j].subject && names[l[i].provisionerId] == names[l[j].provisionerId]))
  }

  /** Collections can be built from the configured lists. */
  ghost predicate ConfigLoads(provisioners: seq<(string, string)>, admins: seq<Admin>) {
    LoadableNames(provisioners) && exists names :: Lists(provisioners, names) && LoadableAdmins(admins, names)
  }

  /** Every admin was stored with the name that its provisioner has. */
  ghost predicate AtHome(c: Collection)
    reads c, c.provisioners
  {
    forall a :: a in c.Members() ==>
      a in c.home && a.provisionerId in c.provisioners.names && c.home[a] == c.provisioners.names[a.provisionerId]
  }

  /** The collection holds these admins and no others. */
  ghost predicate Holds(c: Collection, l: seq<Admin>)
    reads c
  {
    && c.Members() == AdminsIn(l)
    && (forall i :: 0 <= i < |l| ==> l[i].id in c.byID && c.byID[l[i].id] == l[i])
    && (forall id :: id in c.byID ==> exists i :: 0 <= i < |l| && l[i].id == id)
  }

  ghost function AdminsIn(s: seq<Admin>): set<Admin> {
    set a | a in s
  }

  /** The admin half of a reload: stores every listed admin in an empty collection. */
  method LoadAdmins(l: seq<Admin>, provisioners: Provisioners) returns (ok: bool, c: Collection)
    ensures ok <==> LoadableAdmins(l, provisioners.names)
    ensures fresh(c) && c.provisioners == provisioners
    ensures ok ==> c.Indexed() && c.Counted() && AtHome(c) && Holds(c, l) && fresh(c.Arrays())
  {
    hide Collection.Indexed, Collection.Counted, AtHome, LoadableAdmins, Holds;
    c := new Collection(provisioners);
    NothingHeld(c, l);
    for i := 0 to |l|
      invariant fresh(c) && c.provisioners == provisioners && c.Indexed() && c.Counted() && fresh(c.Arrays())
      invariant AtHome(c) && Holds(c, l[..i]) && LoadableAdmins(l[..i], provisioners.names)
    {
      ok := LoadAdmin(c, l, i);
      if !ok {
        return false, c;
      }
    }
    assert l[..|l|] == l;
    ok := true;
  }

  lemma NothingHeld(c: Collection, l: seq<Admin>)
    requires c.byProv == map[] && c.byID == map[] && c.sorted == []
    ensures c.Arrays() == {} && AtHome(c) && Holds(c, l[..0]) && LoadableAdmins(l[..0], c.provisioners.names)
  {}

  /** One round of the admin half of a reload. */
  method LoadAdmin(c: Collection, l: seq<Admin>, i: nat) returns (ok: bool)
    requires i < |l| && c.Indexed() && AtHome(c) && Holds(c, l[..i]) && LoadableAdmins(l[..i], c.provisioners.names)
    modifies c, c.Arrays()
    ensures ok ==> c.Indexed() && (old(c.Counted()) ==> c.Counted()) && fresh(c.Arrays() - old(c.Arrays()))
    ensures ok ==> AtHome(c) && Holds(c, l[..i + 1]) && LoadableAdmins(l[..i + 1], c.provisioners.names)
    ensures !ok ==> !LoadableAdmins(l, c.provisioners.names)
  {
    hide Collection.Indexed, Collection.Counted, AtHome, LoadableAdmins, Holds, Collection.Members;
    var adm, names := l[i], c.provisioners.names;
    if adm.provisionerId !in names {
      NoHome(l, i, names);
      return false;
    }
    var n := names[adm.provisionerId];
    ghost var free := adm.id !in c.byID && (adm.subject, n) !in c.bySubProv;
    if free { StillLoadable(c, l, i); } else { HeldTwice(c, l, i); }
    ghost var was := c.byID;
    ghost var home, members := c.home, c.Members();
    HomesAre(c);
    var stored := c.Store(adm, adm.provisionerId, n);
    if stored != AdminOk {
      return false;
    }
    HoldsOneMore(was, members, c, l, i);
    HomesAfter(members, home, names, adm);
    HomesAre(c);
    ok := true;
  }

  /** AtHome on values. */
  ghost predicate Homes(members: set<Admin>, home: map<Admin, string>, names: map<string, string>) {
    forall a :: a in members ==> a in home && a.provisionerId in names && home[a] == names[a.provisionerId]
  }

  lemma HomesAre(c: Collection)
    ensures AtHome(c) <==> Homes(c.Members(), c.home, c.provisioners.names)
  {}

  lemma HomesAfter(members: set<Admin>, home: map<Admin, string>, names: map<string, string>, a: Admin)
    requires Homes(members, home, names) && a.provisionerId in names
    ensures Homes(members + {a}, home[a := names[a.provisionerId]], names)
  {}

  lemma HoldsOneMore(was: map<string, Admin>, members: set<Admin>, c: Collection, l: seq<Admin>, i: nat)
    requires i < |l| && c.byID == was[l[i].id := l[i]] && l[i].id !in was && c.Members() == members + {l[i]}
    requires members == AdminsIn(l[..i])
    requires forall k :: 0 <= k < |l[..i]| ==> l[..i][k].id in was && was[l[..i][k].id] == l[..i][k]
    requires forall id :: id in was ==> exists k :: 0 <= k < |l[..i]| && l[..i][k].id == id
    ensures Holds(c, l[..i + 1])
  {
    assert l[..i + 1] == l[..i] + [l[i]];
    var more := l[..i + 1];
    forall id | id in c.byID ensures exists k :: 0 <= k < |more| && more[k].id == id {
      if id == l[i].id { assert more[i].id == id; } else {
        var k :| 0 <= k < |l[..i]| && l[..i][k].id == id;
        assert more[k].id == id;
      }
    }
    assert AdminsIn(more) == AdminsIn(l[..i]) + {l[i]};
  }

  lemma NoHome(l: seq<Admin>, i: nat, names: map<string, string>)
    requires i < |l| && l[i].provisionerId !in names
    ensures !LoadableAdmins(l, names)
  {}

  lemma MemberIsIndexed(c: Collection, id: string)
    requires c.Indexed() && id in c.byID
    ensures var a := c.byID[id];
            && a.id == id && a in c.sorted && a in c.home
            && (a.subject, c.home[a]) in c.bySubProv && c.bySubProv[(a.subject, c.home[a])] == a
  {}

  lemma SubjectIsHeld(c: Collection, k: (string, string))
    requires c.Indexed() && k in c.bySubProv
    ensures var a := c.bySubProv[k];
            a in c.Members() && a.id in c.byID && c.byID[a.id] == a && a in c.home && k == (a.subject, c.home[a])
  {}

  lemma MemberHeld(c: Collection, a: Admin)
    requires c.Indexed() && a in c.Members()
    ensures a.id in c.byID && c.byID[a.id] == a && a in c.home
  {}

  /** An admin whose id, or whose subject and provisioner, the collection holds already cannot be loaded. */
  lemma HeldTwice(c: Collection, l: seq<Admin>, i: nat)
    requires i < |l| && c.Indexed() && AtHome(c) && Holds(c, l[..i]) && l[i].provisionerId in c.provisioners.names
    requires l[i].id in c.byID || (l[i].subject, c.provisioners.names[l[i].provisionerId]) in c.bySubProv
    ensures !LoadableAdmins(l, c.provisioners.names)
  {
    hide Collection.Indexed;
    if l[i].id in c.byID {
      var j :| 0 <= j < |l[..i]| && l[..i][j].id == l[i].id;
      assert l[j].id == l[i].id;
    } else {
      var k := (l[i].subject, c.provisioners.names[l[i].provisionerId]);
      SubjectIsHeld(c, k);
      var j :| 0 <= j < |l[..i]| && l[..i][j] == c.bySubProv[k];
      assert l[j] == c.bySubProv[k];
    }
  }

  lemma StillLoadable(c: Collection, l: seq<Admin>, i: nat)
    requires i < |l| && c.Indexed() && AtHome(c) && Holds(c, l[..i]) && LoadableAdmins(l[..i], c.provisioners.names)
    requires l[i].provisionerId in c.provisioners.names && l[i].id !in c.byID
    requires (l[i].subject, c.provisioners.names[l[i].provisionerId]) !in c.bySubProv
    ensures LoadableAdmins(l[..i + 1], c.provisioners.names)
    ensures c.Members() == AdminsIn(l[..i])
    ensures forall k :: 0 <= k < |l[..i]| ==> l[..i][k].id in c.byID && c.byID[l[..i][k].id] == l[..i][k]
    ensures forall id :: id in c.byID ==> exists k :: 0 <= k < |l[..i]| && l[..i][k].id == id
  {
    hide Collection.Indexed;
    var names := c.provisioners.names;
    forall j | 0 <= j < i
      ensures l[j].id != l[i].id && l[j].provisionerId in c.provisioners.names
              && !(l[j].subject == l[i].subject && names[l[j].provisionerId] == names[l[i].provisionerId]) {
      assert l[..i][j] == l[j] && l[j] in AdminsIn(l[..i]);
      MemberIsIndexed(c, l[j].id);
    }
    assert l[..i + 1] == l[..i] + [l[i]];
    forall j, k | 0 <= j < k < i
      ensures l[j].id != l[k].id
              && !(l[j].subject == l[k].subject && names[l[j].provisionerId] == names[l[k].provisionerId]) {
      assert l[..i][j] == l[j] && l[..i][k] == l[k];
    }
  }

  /** The admins read from a database can be loaded exactly when its records can. */
  lemma RecordsLoad(l: seq<Admin>, stored: map<string, AdminRecord>, names: map<string, string>)
    requires Records(l, stored) && DistinctNames(names)
    ensures LoadableAdmins(l, names) <==> Loadable(stored, names)
  {
    if Loadable(stored, names) {
      forall i, j | 0 <= i < j < |l|
        ensures l[i].provisionerId in names && l[j].provisionerId in names
                && !(l[i].subject == l[j].subject && names[l[i].provisionerId] == names[l[j].provisionerId]) {
        assert stored[l[i].id] == RecordOf(l[i]) && stored[l[j].id] == RecordOf(l[j]);
      }
    }
    if LoadableAdmins(l, names) {
      forall id | id in stored ensures stored[id].provisionerId in names {
        var i :| 0 <= i < |l| && l[i].id == id;
      }
      forall x, y | x in stored && y in stored && SameHolder(stored[x], stored[y]) ensures x == y {
        var i :| 0 <= i < |l| && l[i].id == x;
        var j :| 0 <= j < |l| && l[j].id == y;
      }
    }
  }

  lemma HeldRecords(c: Collection, l: seq<Admin>, stored: map<string, AdminRecord>)
    requires Records(l, stored) && Holds(c, l)
    ensures Same(c.byID, stored)
  {
    forall id | id in c.byID ensures id in stored && stored[id] == RecordOf(c.byID[id]) {
      var i :| 0 <= i < |l| && l[i].id == id;
    }
    forall id | id in stored ensures id in c.byID {
      var i :| 0 <= i < |l| && l[i].id == id;
    }
  }

  /** What a cache with agreeing indexes holds can be loaded again. */
  lemma IndexedIsLoadable(c: Collection, stored: map<string, AdminRecord>)
    requires c.Indexed() && AtHome(c) && DistinctNames(c.provisioners.names) && Same(c.byID, stored)
    ensures Loadable(stored, c.provisioners.names)
  {
    hide Collection.Indexed;
    var names := c.provisioners.names;
    forall id | id in stored
      ensures stored[id].provisionerId in names && id in c.byID && c.byID[id].id == id
              && (stored[id].subject, names[stored[id].provisionerId]) in c.bySubProv
              && c.bySubProv[(stored[id].subject, names[stored[id].provisionerId])] == c.byID[id] {
      MemberIsIndexed(c, id);
      assert c.byID[id] in c.Members();
    }
  }


  // ---------------------------------------------------------------------------------------------
  // The authority

  /** How a change of the admins ends: made; refused by the cache; not made since the first write failed;
      undone or completed by a reload; or, when the reload failed too, cached and not known to be stored. */
  datatype Outcome = Accepted | Refused | WriteFailed | Repaired | RepairFailed

  class Authority {
    var admins: Collection
    var provisioners: Provisioners
    var configProvisioners: seq<(string, string)>
    var configAdmins: seq<Admin>
    const enableAdmin: bool
    const adminDB: AdminDB

    constructor (adminDB: AdminDB, enableAdmin: bool, configProvisioners: seq<(string, string)>,
                 configAdmins: seq<Admin>)
      ensures this.adminDB == adminDB && this.enableAdmin == enableAdmin
      ensures this.configProvisioners == configProvisioners && this.configAdmins == configAdmins
      ensures fresh(admins) && fresh(provisioners)
    {
      var none := new Provisioners(map[]);
      this.adminDB, this.enableAdmin, provisioners := adminDB, enableAdmin, none;
      this.configProvisioners, this.configAdmins := configProvisioners, configAdmins;
      admins := new Collection(none);
    }

    ghost predicate Valid()
      reads this, admins, admins.Arrays(), provisioners
    {
      admins.provisioners == provisioners && admins.Indexed() && DistinctNames(provisioners.names)
    }

    /** The admin API is in use, and the cache holds what the database holds. */
    ghost predicate Synced()
      reads this, admins, admins.byID.Values, provisioners, adminDB
    {
      enableAdmin && Same(admins.byID, adminDB.admins) && provisioners.names == adminDB.provisioners
    }

    /** The two reads of a reload that starts at this storage call succeed. */
    ghost predicate ReadsBack(op: nat) {
      adminDB.faults(op) == Done && adminDB.faults(op + 1) == Done
    }

    /** A reload that starts at this storage call succeeds: from the database, or else from the configuration. */
    ghost predicate CanLoad(op: nat)
      reads this, adminDB
    {
      if enableAdmin then ReadsBack(op) && Loadable(adminDB.admins, adminDB.provisioners)
      else ConfigLoads(configProvisioners, configAdmins)
    }

    /** A start finds a database without provisioners and sets up a first one. */
    static ghost predicate SetsUp(db: AdminDB, enableAdmin: bool, linked: bool)
      reads db
    {
      enableAdmin && !linked && db.faults(db.ops) == Done && db.provisioners == map[]
    }

    /** A start succeeds: without the admin API if the configuration loads; else if the provisioners can be read, the
        first provisioner and its super admin can be stored where there are none, and all is then read and loads. */
    static ghost predicate Starts(db: AdminDB, enableAdmin: bool, configProvisioners: seq<(string, string)>,
                                  configAdmins: seq<Admin>, linked: bool, provId: string, provName: string,
                                  adminId: string)
      reads db
    {
      if !enableAdmin then ConfigLoads(configProvisioners, configAdmins)
      else
        && db.faults(db.ops) == Done
        && if SetsUp(db, enableAdmin, linked) then
             && adminId !in db.admins && AllDone(db.faults, db.ops + 1, 4)
             && Loadable(db.admins[adminId := AdminRecord(provId, "step", SuperAdmin)], map[provId := provName])
           else
             AllDone(db.faults, db.ops + 1, 2) && Loadable(db.admins, db.provisioners)
    }

    /** The part of init that concerns admins: a database without provisioners gets a first one, with a super admin,
        unless the deployment is linked; then everything is loaded. */
    static method New(adminDB: AdminDB, enableAdmin: bool, configProvisioners: seq<(string, string)>,
                      configAdmins: seq<Admin>, linked: bool, provId: string, provName: string, adminId: string)
      returns (a: Authority?)
      modifies adminDB
      ensures a != null ==>
        && fresh(a) && a.adminDB == adminDB && a.enableAdmin == enableAdmin
        && a.Valid() && a.admins.Counted() && AtHome(a.admins) && (enableAdmin ==> a.Synced())
      ensures a != null && enableAdmin && !linked && old(adminDB.provisioners) == map[] ==>
        provId in a.provisioners.names && a.admins.Supers() != {}
      ensures a != null <==>
        old(Starts(adminDB, enableAdmin, configProvisioners, configAdmins, linked, provId, provName, adminId))
      ensures
        var first, op := old(SetsUp(adminDB, enableAdmin, linked)), old(adminDB.ops);
        && (first && !AllDone(adminDB.faults, op + 1, 2) ==>
              adminDB.ops == op + if adminDB.faults(op + 1) != Done then 2 else 3)
        && adminDB.provisioners == (if first && adminDB.faults(op + 1) != Lost then map[provId := provName]
                                    else old(adminDB.provisioners))
        && adminDB.admins == (if first && adminDB.faults(op + 1) == Done && adminId !in old(adminDB.admins)
                                 && adminDB.faults(op + 2) != Lost
                              then old(adminDB.admins)[adminId := AdminRecord(provId, "step", SuperAdmin)]
                              else old(adminDB.admins))
    {
      hide Collection.Counted, Collection.Supers, Loadable, AtHome, ConfigLoads, Authority.Valid,
        Authority.Synced;
      a := new Authority(adminDB, enableAdmin, configProvisioners, configAdmins);
      var ok := true;
      if enableAdmin {
        ok := SetUp(adminDB, linked, provId, provName, adminId);
      }
      if !ok {
        return null;
      }
      assert a.CanLoad(adminDB.ops) <==>
        old(Starts(adminDB, enableAdmin, configProvisioners, configAdmins, linked, provId, provName, adminId));
      ok := a.Reload();
      if !ok {
        return null;
      }
      if old(SetsUp(adminDB, enableAdmin, linked)) {
        FirstIsSuper(a, adminId);
      }
    }

    /** The first part of init: a first provisioner with a super admin where there is no provisioner. */
    static method SetUp(adminDB: AdminDB, linked: bool, provId: string, provName: string, adminId: string)
      returns (ok: bool)
      modifies adminDB
      ensures
        var first, op := old(SetsUp(adminDB, true, linked)), old(adminDB.ops);
        && (ok <==> adminDB.faults(op) == Done
                    && (first ==> AllDone(adminDB.faults, op + 1, 2) && adminId !in old(adminDB.admins)))
        && adminDB.ops == op + (if !first then 1 else if adminDB.faults(op + 1) != Done then 2 else 3)
        && adminDB.provisioners == (if first && adminDB.faults(op + 1) != Lost then map[provId := provName]
                                    else old(adminDB.provisioners))
        && adminDB.admins == (if first && adminDB.faults(op + 1) == Done && adminId !in old(adminDB.admins)
                                 && adminDB.faults(op + 2) != Lost
                              then old(adminDB.admins)[adminId := AdminRecord(provId, "step", SuperAdmin)]
                              else old(adminDB.admins))
    {
      hide Lists;
      var provs;
      ok, provs := adminDB.GetProvisioners();
      if !ok {
        return;
      }
      ListedNone(provs, adminDB.provisioners);
      if |provs| == 0 && !linked {
        ok := adminDB.CreateProvisioner(provId, provName);
        if !ok {
          return;
        }
        ok := adminDB.CreateAdmin(adminId, AdminRecord(provId, "step", SuperAdmin));
      }
    }

    /** ReloadAdminResources: builds new collections, and puts them in place only once both are complete. */
    method Reload() returns (ok: bool)
      modifies this, adminDB`ops
      ensures ok <==> old(CanLoad(adminDB.ops))
      ensures ok ==> Valid() && admins.Counted() && AtHome(admins) && (enableAdmin ==> Synced())
      ensures ok ==> Holds(admins, configAdmins) && Lists(configProvisioners, provisioners.names)
      ensures ok ==> fresh(admins) && fresh(admins.Arrays()) && fresh(provisioners)
      ensures ok && !enableAdmin ==> configAdmins == old(configAdmins) && configProvisioners == old(configProvisioners)
      ensures !ok ==> admins == old(admins) && provisioners == old(provisioners)
      ensures !ok ==> configAdmins == old(configAdmins) && configProvisioners == old(configProvisioners)
      ensures !ok ==> (old(Valid()) ==> Valid()) && (old(admins.Counted()) ==> admins.Counted())
      ensures !ok ==> (old(AtHome(admins)) ==> AtHome(admins))
    {
      hide Collection.Indexed, CountsOk, DistinctNames, Loadable, CanLoad, Lists, Holds, AtHome, Same;
      assert forall a :: a in admins.Arrays() ==> allocated(a);
      ghost var cached := admins.Supers();
      var provList, adminList, provClxn, adminClxn;
      ok, provList, adminList, provClxn, adminClxn := Load();
      if ok {
        ghost var supers := adminClxn.Supers();
        assert forall a :: a in adminClxn.byID.Values ==> allocated(a);
        assert forall a :: a in adminClxn.Arrays() ==> allocated(a);
        configProvisioners := provList;
        provisioners := provClxn;
        configAdmins := adminList;
        admins := adminClxn;
        assert admins.Supers() == supers;
      } else {
        assert admins.Supers() == cached;
      }
    }

    /** The first part of a reload, which changes nothing. */
    method Load()
      returns (ok: bool, provList: seq<(string, string)>, adminList: seq<Admin>, provClxn: Provisioners,
               adminClxn: Collection)
      modifies adminDB`ops
      ensures ok <==> old(CanLoad(adminDB.ops))
      ensures ok && !enableAdmin ==> adminList == configAdmins && provList == configProvisioners
      ensures ok ==>
        fresh(adminClxn) && fresh(adminClxn.Arrays()) && fresh(provClxn) && adminClxn.provisioners == provClxn
      ensures ok ==> adminClxn.Indexed() && adminClxn.Counted() && AtHome(adminClxn) && DistinctNames(provClxn.names)
      ensures ok ==> Holds(adminClxn, adminList) && Lists(provList, provClxn.names)
      ensures ok && enableAdmin ==> Same(adminClxn.byID, adminDB.admins) && provClxn.names == adminDB.provisioners
    {
      hide Collection.Indexed, Collection.Counted, Lists, DistinctNames, Records, LoadableAdmins, LoadableNames,
        Holds, AtHome, Same, Loadable;
      provList, adminList, provClxn, adminClxn := configProvisioners, configAdmins, provisioners, admins;
      if enableAdmin {
        ok, provList := adminDB.GetProvisioners();
        if !ok {
          return;
        }
        ok, adminList := adminDB.GetAdmins();
        if !ok {
          return;
        }
        ListedNames(provList, adminDB.provisioners);
        if !LoadableNames(provList) {
          UnloadableNames(adminDB.admins, adminDB.provisioners);
        } else {
          RecordsLoad(adminList, adminDB.admins, adminDB.provisioners);
        }
      }
      var names;
      ok, names := LoadProvisioners(provList);
      if !ok {
        return;
      }
      if enableAdmin {
        ListsOneMap(provList, names, adminDB.provisioners);
      } else if exists m :: Lists(provList, m) && LoadableAdmins(adminList, m) {
        ghost var m :| Lists(provList, m) && LoadableAdmins(adminList, m);
        ListsOneMap(provList, names, m);
      }
      provClxn := new Provisioners(names);
      ok, adminClxn := LoadAdmins(adminList, provClxn);
      if ok && enableAdmin {
        HeldRecords(adminClxn, adminList, adminDB.admins);
      }
    }

    /** StoreAdmin: writes to the database, then to the cache. The provisioner is the caller's; `id` is the random
        id that the database picks. */
    method StoreAdmin(r: AdminRecord, provId: string, provName: string, id: string) returns (o: Outcome)
      requires Valid()
      modifies this, admins, admins.Arrays(), adminDB`admins, adminDB`ops
      ensures Valid() && (old(admins.Counted()) || o == Repaired ==> admins.Counted())
      ensures o == Repaired || (old(AtHome(admins)) && old(IsProvisioner(provId, provName))) ==> AtHome(admins)
      ensures o == Refused <==> r.provisionerId != provId || (r.subject, provName) in old(admins.bySubProv)
      ensures o == WriteFailed <==>
              o != Refused && (id in old(adminDB.admins) || adminDB.faults(old(adminDB.ops)) != Done)
      ensures o in {Refused, WriteFailed} ==> unchanged(this) && unchanged(admins)
      ensures adminDB.admins == if o == Refused || id in old(adminDB.admins) || adminDB.faults(old(adminDB.ops)) == Lost
                                then old(adminDB.admins) else old(adminDB.admins)[id := r]
      ensures o == Repaired && enableAdmin ==> Synced()
      ensures o == RepairFailed ==> admins == old(admins) && admins.byID == old(admins.byID)
      ensures old(Synced()) ==> o in {Accepted, Refused, WriteFailed}
      ensures old(Synced()) ==>
        (Synced() <==> o != WriteFailed || id in old(adminDB.admins) || adminDB.faults(old(adminDB.ops)) == Lost)
    {
      hide Collection.Indexed, Collection.Counted, DistinctNames, Same, AtHome;
      assert forall a :: a in admins.byID.Values ==> allocated(a);
      assert forall a :: a in admins.Arrays() ==> allocated(a);
      assert forall a :: a in admins.Members() ==> allocated(a);
      if r.provisionerId != provId {
        return Refused;
      }
      if (r.subject, provName) in admins.bySubProv {
        return Refused;
      }
      var ok := adminDB.CreateAdmin(id, r);
      if !ok {
        if Synced() && old(Synced()) { SameOnce(admins.byID, adminDB.admins, old(adminDB.admins)); }
        return WriteFailed;
      }
      if old(Synced()) {
        SameKeys(admins.byID, old(adminDB.admins));
      }
      assert adminDB.admins - {id} == old(adminDB.admins);
      o := StoreCached(r, provName, id);
    }

    /** The provisioner with this id is known, by this name. */
    predicate IsProvisioner(id: string, name: string)
      reads this, provisioners
    {
      id in provisioners.names && provisioners.names[id] == name
    }

    /** The second half of StoreAdmin: the admin goes into the cache, or the cache is loaded again. */
    method StoreCached(r: AdminRecord, provName: string, id: string) returns (o: Outcome)
      requires Valid()
      modifies this, admins, admins.Arrays(), adminDB`ops
      ensures Valid() && (old(admins.Counted()) || o == Repaired ==> admins.Counted())
      ensures o == Repaired || (old(AtHome(admins)) && old(IsProvisioner(r.provisionerId, provName))) ==> AtHome(admins)
      ensures o == Accepted <==> id !in old(admins.byID) && (r.subject, provName) !in old(admins.bySubProv)
      ensures o in {Accepted, Repaired, RepairFailed} && (o == Repaired && enableAdmin ==> Synced())
      ensures o == RepairFailed ==> admins == old(admins) && admins.byID == old(admins.byID)
      ensures o == Accepted ==> admins == old(admins) && provisioners == old(provisioners)
      ensures o == Accepted && old(Same(admins.byID, adminDB.admins - {id})) ==>
        id in adminDB.admins && adminDB.admins[id] == r ==> Same(admins.byID, adminDB.admins)
    {
      hide Collection.Indexed, Collection.Counted, DistinctNames, Same, AtHome, CanLoad;
      var stored := CacheNew(r, provName, id, adminDB.admins);
      if stored != AdminOk {
        var ok := Reload();
        return if ok then Repaired else RepairFailed;
      }
      o := Accepted;
    }

    /** Puts a new admin in the cache; `stored` is what the database holds. */
    method CacheNew(r: AdminRecord, provName: string, id: string, ghost stored: map<string, AdminRecord>)
      returns (a: AdminResult)
      requires Valid()
      modifies admins, admins.Arrays()
      ensures Valid() && (old(admins.Counted()) ==> admins.Counted())
      ensures old(AtHome(admins)) && IsProvisioner(r.provisionerId, provName) ==> AtHome(admins)
      ensures a == AdminOk <==> id !in old(admins.byID) && (r.subject, provName) !in old(admins.bySubProv)
      ensures a != AdminOk ==> unchanged(admins)
      ensures a == AdminOk && old(Same(admins.byID, stored - {id})) && id in stored && stored[id] == r ==>
        Same(admins.byID, stored)
    {
      hide Collection.Indexed, Collection.Counted, DistinctNames, Same, AtHome, Homes;
      assert forall a :: a in admins.Arrays() ==> allocated(a);
      assert forall a :: a in admins.Members() ==> allocated(a);
      assert forall a :: a in admins.byID.Values ==> allocated(a);
      var adm := new Admin(id, r.provisionerId, r.subject, r.typ);
      ghost var wanted := admins.byID[id := adm];
      assert forall a :: a in wanted.Values ==> allocated(a);
      if Same(admins.byID, stored - {id}) && id in stored && stored[id] == r {
        SameAfterStore(admins.byID, stored - {id}, adm);
        assert (stored - {id})[id := r] == stored;
      }
      HomesAre(admins);
      if AtHome(admins) && IsProvisioner(r.provisionerId, provName) {
        HomesAfter(admins.Members(), admins.home, provisioners.names, adm);
      }
      a := admins.Store(adm, r.provisionerId, provName);
      HomesAre(admins);
    }

    /** UpdateAdmin: changes the cached admin, then the stored one. */
    method UpdateAdmin(id: string, typ: AdminType) returns (o: Outcome)
      requires Valid() && id in admins.byID
      modifies this, admins.byID[id], adminDB`admins, adminDB`ops
      ensures Valid() && (o == Repaired ==> admins.Counted())
      ensures old(AtHome(admins)) || o == Repaired ==> AtHome(admins)
      ensures o == Refused <==>
              old(admins.byID[id].typ) == SuperAdmin && typ != SuperAdmin && old(admins.superCount) == 1
      ensures o != Repaired ==> admins == old(admins) && provisioners == old(provisioners)
      ensures o == Accepted ==>
        id in old(adminDB.admins) && adminDB.admins == old(adminDB.admins)[id := old(adminDB.admins)[id].(typ := typ)]
      ensures o == Refused ==> adminDB.admins == old(adminDB.admins)
      ensures o == Repaired && enableAdmin ==> Synced()
      ensures old(Synced()) && o != RepairFailed ==> Synced()
      ensures old(Synced()) && old(AtHome(admins)) && o == RepairFailed ==> !ReadsBack(old(adminDB.ops) + 1)
    {
      hide Collection.Indexed, Collection.Counted, Loadable, DistinctNames, Same, AtHome;
      if Synced() {
        SameKeys(admins.byID, adminDB.admins);
        if AtHome(admins) {
          IndexedIsLoadable(admins, adminDB.admins);
          LoadableRetyped(adminDB.admins, provisioners.names, id, typ);
        }
      }
      var r := UpdateCached(id, typ, adminDB.admins);
      if r != AdminOk {
        return Refused;
      }
      o := UpdateStored(id, typ);
    }

    /** The first half of UpdateAdmin: `stored` is what the database holds. */
    method UpdateCached(id: string, typ: AdminType, ghost stored: map<string, AdminRecord>) returns (r: AdminResult)
      requires Valid() && id in admins.byID
      modifies admins.byID[id]
      ensures Valid() && (old(AtHome(admins)) ==> AtHome(admins))
      ensures r == AdminOk <==>
              !(old(admins.byID[id].typ) == SuperAdmin && typ != SuperAdmin && old(admins.superCount) == 1)
      ensures old(Same(admins.byID, stored)) ==>
        id in stored && Same(admins.byID, if r == AdminOk then stored[id := stored[id].(typ := typ)] else stored)
    {
      hide Collection.Indexed, DistinctNames, AtHome;
      assert forall a :: a in admins.Arrays() ==> allocated(a);
      forall k | k in admins.byID ensures admins.byID[k].id == k {
        MemberIsIndexed(admins, k);
      }
      r := admins.Update(id, typ);
    }

    /** The second half of UpdateAdmin. */
    method UpdateStored(id: string, typ: AdminType) returns (o: Outcome)
      requires Valid()
      modifies this, adminDB`admins, adminDB`ops
      ensures Valid() && o in {Accepted, Repaired, RepairFailed} && adminDB.provisioners == old(adminDB.provisioners)
      ensures o == Accepted <==> id in old(adminDB.admins) && adminDB.faults(old(adminDB.ops)) == Done
      ensures adminDB.admins == if id !in old(adminDB.admins) || adminDB.faults(old(adminDB.ops)) == Lost
                                then old(adminDB.admins)
                                else old(adminDB.admins)[id := old(adminDB.admins)[id].(typ := typ)]
      ensures o == RepairFailed && enableAdmin && ReadsBack(old(adminDB.ops) + 1) ==>
        !Loadable(adminDB.admins, adminDB.provisioners)
      ensures o == Repaired ==> admins.Counted() && (enableAdmin ==> Synced())
      ensures old(AtHome(admins)) || o == Repaired ==> AtHome(admins)
      ensures o != Repaired ==> admins == old(admins) && provisioners == old(provisioners)
    {
      hide Collection.Indexed, Collection.Counted, Loadable, DistinctNames, AtHome;
      assert forall a :: a in admins.Arrays() ==> allocated(a);
      assert forall a :: a in admins.Members() ==> allocated(a);
      var ok := adminDB.UpdateAdmin(id, typ);
      if ok {
        return Accepted;
      }
      ok := Reload();
      return if ok then Repaired else RepairFailed;
    }

    /** removeAdmin: takes the admin out of the cache, then out of the database. */
    method RemoveAdmin(id: string) returns (o: Outcome)
      requires Valid()
      modifies this, admins, admins.Arrays(), adminDB`admins, adminDB`ops
      ensures Valid() && (old(admins.Counted()) || o == Repaired ==> admins.Counted())
      ensures old(AtHome(admins)) || o == Repaired ==> AtHome(admins)
      ensures o != WriteFailed
      ensures adminDB.admins == old(adminDB.admins) || adminDB.admins == old(adminDB.admins) - {id}
      ensures o == Refused <==> old(admins.RemoveResult(id)) != AdminOk
      ensures o != Repaired ==>
        admins == old(admins) && provisioners == old(provisioners) && admins.Arrays() == old(admins.Arrays())
        && admins.home == old(admins.home)
      ensures o == Refused ==> unchanged(admins) && unchanged(adminDB)
      ensures o == Accepted ==>
        id in old(adminDB.admins) && adminDB.admins == old(adminDB.admins) - {id} && adminDB.ops == old(adminDB.ops) + 1
      ensures o == Accepted ==> admins.byID == old(admins.byID) - {id}
      ensures o == Accepted ==> admins.Members() == old(admins.Members()) - {old(admins.byID[id])}
      ensures o == Accepted ==>
        && old(admins.byID[id]) in admins.home && var n := admins.home[old(admins.byID[id])];
        && n in old(admins.byProv) && var s := old(admins.byProv)[n];
        && 0 < s.len <= s.arr.Length && admins.byProv == old(admins.byProv)[n := Slice(s.arr, s.len - 1)]
        && s.arr[..] == AfterRemoval(old(s.arr[..]), s.len, id)
      ensures o == Repaired && enableAdmin ==> Synced()
      ensures old(Synced()) && o != RepairFailed ==> Synced()
      ensures old(Synced()) && old(AtHome(admins)) && o == RepairFailed ==> !ReadsBack(old(adminDB.ops) + 1)
    {
      hide Collection.Indexed, Collection.Counted, Loadable, DistinctNames, Same, AfterRemoval, AtHome,
        Collection.RemoveResult;
      if Synced() && AtHome(admins) {
        IndexedIsLoadable(admins, adminDB.admins);
      }
      var r := RemoveCached(id, adminDB.admins);
      if r != AdminOk {
        return Refused;
      }
      o := DeleteStored(id);
    }

    /** The first half of removeAdmin: `stored` is what the database holds. */
    method RemoveCached(id: string, ghost stored: map<string, AdminRecord>) returns (r: AdminResult)
      requires Valid()
      modifies admins, admins.Arrays()
      ensures Valid() && (old(admins.Counted()) ==> admins.Counted()) && admins.Arrays() == old(admins.Arrays())
      ensures old(AtHome(admins)) ==> AtHome(admins)
      ensures r == old(admins.RemoveResult(id)) && admins.home == old(admins.home)
      ensures r != AdminOk ==> unchanged(admins)
      ensures r == AdminOk ==> id in old(admins.byID) && admins.byID == old(admins.byID) - {id}
      ensures r == AdminOk ==> admins.Members() == old(admins.Members()) - {old(admins.byID[id])}
      ensures r == AdminOk ==>
        && old(admins.byID[id]) in admins.home && var n := admins.home[old(admins.byID[id])];
        && n in old(admins.byProv) && var s := old(admins.byProv)[n];
        && 0 < s.len <= s.arr.Length && admins.byProv == old(admins.byProv)[n := Slice(s.arr, s.len - 1)]
        && s.arr[..] == AfterRemoval(old(s.arr[..]), s.len, id)
      ensures old(Same(admins.byID, stored)) ==> Same(admins.byID, if r == AdminOk then stored - {id} else stored)
    {
      hide Collection.Indexed, Collection.Counted, DistinctNames, Same;
      ghost var rest := admins.byID - {id};
      assert forall a :: a in rest.Values ==> allocated(a);
      assert forall a :: a in admins.byID.Values ==> allocated(a);
      if Same(admins.byID, stored) {
        SameLess(admins.byID, stored, id);
      }
      r := admins.Remove(id);
    }

    /** The second half of removeAdmin. */
    method DeleteStored(id: string) returns (o: Outcome)
      requires Valid()
      modifies this, adminDB`admins, adminDB`ops
      ensures Valid() && o in {Accepted, Repaired, RepairFailed} && adminDB.provisioners == old(adminDB.provisioners)
      ensures o == Accepted <==> id in old(adminDB.admins) && adminDB.faults(old(adminDB.ops)) == Done
      ensures o == Accepted ==> adminDB.ops == old(adminDB.ops) + 1
      ensures adminDB.admins == if adminDB.faults(old(adminDB.ops)) == Lost then old(adminDB.admins)
                                else old(adminDB.admins) - {id}
      ensures old(admins.Counted()) || o == Repaired ==> admins.Counted()
      ensures old(AtHome(admins)) || o == Repaired ==> AtHome(admins)
      ensures o == Repaired && enableAdmin ==> Synced()
      ensures o == Accepted && old(Same(admins.byID, adminDB.admins - {id})) ==> Same(admins.byID, adminDB.admins)
      ensures enableAdmin && Loadable(old(adminDB.admins), adminDB.provisioners) && o == RepairFailed ==>
        !ReadsBack(old(adminDB.ops) + 1)
      ensures o != Repaired ==> admins == old(admins) && provisioners == old(provisioners)
    {
      hide Collection.Indexed, Collection.Counted, Loadable, DistinctNames, Same, AtHome;
      if Loadable(adminDB.admins, adminDB.provisioners) {
        LoadableLess(adminDB.admins, adminDB.provisioners, id);
      }
      assert forall a :: a in admins.byID.Values ==> allocated(a);
      assert forall a :: a in admins.Arrays() ==> allocated(a);
      assert forall a :: a in admins.Members() ==> allocated(a);
      var ok := adminDB.DeleteAdmin(id);
      if ok {
        return Accepted;
      }
      ok := Reload();
      return if ok then Repaired else RepairFailed;
    }

    /** RemoveProvisioner: with the admin API, removes the admins of a provisioner, unless no super admin would be left;
        then removes the provisioner. */
    method RemoveProvisioner(id: string) returns (o: Outcome)
      requires Valid()
      modifies this, admins, admins.Arrays(), provisioners, adminDB
      ensures Valid() && (old(admins.Counted()) ==> admins.Counted())
      ensures o != WriteFailed && (o == Repaired && enableAdmin ==> Synced())
      ensures old(Synced()) && o != RepairFailed ==> Synced()
      ensures o == Accepted ==> provisioners.names == old(provisioners.names) - {id} && admins == old(admins)
      ensures !enableAdmin ==> (o == Refused <==> id !in old(provisioners.names))
      ensures !enableAdmin ==> adminDB.admins == old(adminDB.admins)
      ensures !enableAdmin && o == Accepted ==> admins.Members() == old(admins.Members())
      ensures enableAdmin && old(AtHome(admins)) && old(admins.Counted()) ==>
        (o == Refused <==> id !in old(provisioners.names) || old(NoOtherSuper(admins, id)))
      ensures old(AtHome(admins)) && old(admins.Counted()) && o == Refused ==>
        unchanged(this) && unchanged(admins) && unchanged(adminDB)
      ensures enableAdmin && old(AtHome(admins)) && o == Accepted ==>
        && admins.Members() == old(admins.Members()) - Of(old(admins.Members()), id) && AtHome(admins)
        && adminDB.ops == old(adminDB.ops) + |Of(old(admins.Members()), id)| + 1
        && (old(admins.Counted()) ==> admins.Supers() != {})
      ensures old(AtHome(admins)) ==> Kept(old(adminDB.admins), adminDB.admins, Of(old(admins.Members()), id))
    {
      hide Collection.Indexed, Collection.Counted, Loadable, DistinctNames, Same, Of, Kept, NoOtherSuper, AtHome;
      KeptAll(adminDB.admins, Of(admins.Members(), id));
      if id !in provisioners.names {
        return Refused;
      }
      if !enableAdmin {
        o := DropProvisioner(id);
        return;
      }
      var provName := provisioners.names[id];
      if AtHome(admins) && admins.Counted() {
        GuardMeans(admins, id);
      }
      if admins.superCount == admins.SuperCountByProvisioner(provName) {
        return Refused;
      }
      OfRest(admins.Members(), id);
      o := RemoveAdminsOf(id, provName);
      if o == Accepted {
        o := DropProvisioner(id);
      }
    }

    /** The middle part of RemoveProvisioner: removes the admins of the provisioner, if it has any. */
    method RemoveAdminsOf(id: string, provName: string) returns (o: Outcome)
      requires Valid() && IsProvisioner(id, provName)
      modifies this, admins, admins.Arrays(), adminDB`admins, adminDB`ops
      ensures Valid() && (old(admins.Counted()) ==> admins.Counted()) && (old(AtHome(admins)) ==> AtHome(admins))
      ensures o != WriteFailed && (o == Repaired && enableAdmin ==> Synced())
      ensures old(Synced()) && o != RepairFailed ==> Synced()
      ensures o != Repaired ==> admins == old(admins) && provisioners == old(provisioners)
      ensures old(AtHome(admins)) && old(admins.Counted()) && old(!NoOtherSuper(admins, id)) ==>
        o != Refused && (o == Accepted ==> admins.Supers() != {})
      ensures old(AtHome(admins)) && o == Accepted ==>
        && admins.Members() == old(admins.Members()) - Of(old(admins.Members()), id)
        && adminDB.ops == old(adminDB.ops) + |Of(old(admins.Members()), id)|
      ensures old(AtHome(admins)) ==> Kept(old(adminDB.admins), adminDB.admins, Of(old(admins.Members()), id))
    {
      hide Collection.Indexed, Collection.Counted, Loadable, DistinctNames, Same, Kept, AtHome;
      var loaded := admins.LoadByProvisioner(provName);
      if AtHome(admins) {
        SliceIsOf(admins, id);
      }
      ghost var guarded := AtHome(admins) && admins.Counted() && !NoOtherSuper(admins, id);
      ghost var members := admins.Members();
      ghost var other: Admin? := null;
      if guarded {
        ghost var b: Admin :| b in admins.Supers() && b.provisionerId != id;
        other := b;
      }
      if loaded.None? {
        KeptAll(adminDB.admins, Of(admins.Members(), id));
        return Accepted;
      }
      var s := loaded.value;
      SliceFits(admins, provName);
      ghost var orig := s.arr[..s.len];
      assert old(AtHome(admins)) ==> AdminsIn(orig) == Of(members, id);
      assert guarded ==> other in members && other !in Of(members, id);
      o := RemoveAll(provName, s, orig);
      if guarded && o in {Accepted, Refused} {
        assert other in admins.Members() && other.typ == SuperAdmin;
        assert other in admins.Supers();
        if o == Refused {
          ghost var own :| own in admins.Supers() && own in orig;
          assert own in Of(members, id);
          NotTheLast(admins, own, other);
        }
      }
    }

    /** The last part of RemoveProvisioner: takes the provisioner out of the cache, then out of the database. */
    method DropProvisioner(id: string) returns (o: Outcome)
      requires Valid() && id in provisioners.names
      modifies this, provisioners, adminDB`provisioners, adminDB`ops
      ensures Valid() && (old(admins.Counted()) ==> admins.Counted()) && o in {Accepted, Repaired, RepairFailed}
      ensures o == Repaired || (old(AtHome(admins)) && Of(old(admins.Members()), id) == {}) ==> AtHome(admins)
      ensures o == Repaired && enableAdmin ==> Synced()
      ensures old(Synced()) && o != RepairFailed ==> Synced()
      ensures o == Accepted ==>
        admins == old(admins) && provisioners == old(provisioners) && adminDB.ops == old(adminDB.ops) + 1
      ensures o == Accepted ==>
        provisioners.names == old(provisioners.names) - {id} && admins.Members() == old(admins.Members())
    {
      hide Collection.Indexed, Collection.Counted, Loadable, DistinctNames, Same, AtHome, Of, Homes;
      assert forall a :: a in admins.byID.Values ==> allocated(a);
      assert forall a :: a in admins.Arrays() ==> allocated(a);
      assert forall a :: a in admins.Members() ==> allocated(a);
      HomesAre(admins);
      if AtHome(admins) && Of(admins.Members(), id) == {} {
        HomesWithout(admins.Members(), admins.home, provisioners.names, id);
      }
      FewerNames(provisioners.names, id);
      var ok := provisioners.Remove(id);
      HomesAre(admins);
      o := DeleteStoredProvisioner(id);
    }

    /** The second half of the last part of RemoveProvisioner. */
    method DeleteStoredProvisioner(id: string) returns (o: Outcome)
      requires Valid()
      modifies this, adminDB`provisioners, adminDB`ops
      ensures Valid() && o in {Accepted, Repaired, RepairFailed}
      ensures old(admins.Counted()) || o == Repaired ==> admins.Counted()
      ensures old(AtHome(admins)) || o == Repaired ==> AtHome(admins)
      ensures o == Accepted ==>
        adminDB.provisioners == old(adminDB.provisioners) - {id} && adminDB.ops == old(adminDB.ops) + 1
      ensures o == Accepted ==> (old(Same(admins.byID, adminDB.admins)) ==> Same(admins.byID, adminDB.admins))
      ensures o == Repaired && enableAdmin ==> Synced()
      ensures o != Repaired ==> admins == old(admins) && provisioners == old(provisioners)
    {
      hide Collection.Indexed, Collection.Counted, Loadable, DistinctNames, Same, AtHome, CanLoad;
      assert forall a :: a in admins.byID.Values ==> allocated(a);
      assert forall a :: a in admins.Arrays() ==> allocated(a);
      assert forall a :: a in admins.Members() ==> allocated(a);
      var ok := adminDB.DeleteProvisioner(id);
      if ok {
        return Accepted;
      }
      ok := Reload();
      return if ok then Repaired else RepairFailed;
    }

    /** The loop of RemoveProvisioner over a slice that every removal changes in place. */
    method RemoveAll(provName: string, s: Slice, ghost orig: seq<Admin>) returns (o: Outcome)
      requires Valid() && provName in admins.byProv && s == admins.byProv[provName]
      requires s.len <= s.arr.Length && orig == s.arr[..s.len]
      modifies this, admins, admins.Arrays(), adminDB`admins, adminDB`ops
      ensures Valid() && (old(admins.Counted()) ==> admins.Counted()) && (old(AtHome(admins)) ==> AtHome(admins))
      ensures o != WriteFailed && (o == Repaired && enableAdmin ==> Synced())
      ensures old(Synced()) && o != RepairFailed ==> Synced()
      ensures o != Repaired ==> admins == old(admins) && provisioners == old(provisioners)
      ensures o == Refused ==> old(admins.Members()) - AdminsIn(orig) <= admins.Members()
      ensures o == Refused && old(AtHome(admins)) ==>
        admins.superCount == 1 && exists a :: a in admins.Supers() && a in orig
      ensures o == Accepted ==> admins.Members() == old(admins.Members()) - AdminsIn(orig)
      ensures o == Accepted ==> adminDB.ops == old(adminDB.ops) + s.len
      ensures Kept(old(adminDB.admins), adminDB.admins, AdminsIn(orig))
    {
      hide Collection.Indexed, Collection.Counted, Loadable, DistinctNames, Same, AtHome, AfterRemoval, Cascading,
        DistinctIds, AdminsIn, Kept, InSlice;
      SliceFacts(admins, provName);
      CascadeStart(orig, s.arr[..]);
      ghost var members, home := admins.Members(), admins.home;
      assert forall k :: 0 <= k < s.len ==> InSlice(members, home, provName, orig[k]);
      assert orig[..0] == [] && orig[..|orig|] == orig;
      KeptAll(adminDB.admins, AdminsIn(orig));
      NoAdmins(orig[..0]);
      o := Accepted;
      for i := 0 to s.len
        invariant o == Accepted && admins == old(admins) && provisioners == old(provisioners)
        invariant admins.Arrays() == old(admins.Arrays()) && admins.home == home
        invariant Valid() && (old(admins.Counted()) ==> admins.Counted())
        invariant (old(Synced()) ==> Synced()) && (old(AtHome(admins)) ==> AtHome(admins))
        invariant provName in admins.byProv && admins.byProv[provName] == Slice(s.arr, s.len - i)
        invariant Cascading(orig, s.arr[..], i)
        invariant admins.Members() == members - AdminsIn(orig[..i])
        invariant adminDB.ops == old(adminDB.ops) + i && Kept(old(adminDB.admins), adminDB.admins, AdminsIn(orig))
      {
        CascadeAt(orig, s.arr[..], i);
        StillInSlice(members, admins.Members(), home, provName, orig[i], orig[..i]);
        ghost var stored := adminDB.admins;
        o := RemoveNext(provName, s, i, orig);
        KeptMore(old(adminDB.admins), stored, adminDB.admins, AdminsIn(orig), orig[i]);
        if o != Accepted {
          return;
        }
      }
    }

    /** Round `i` of the loop: reads element `i` of the slice as it is now. */
    method RemoveNext(provName: string, s: Slice, i: nat, ghost orig: seq<Admin>) returns (o: Outcome)
      requires Valid() && i < s.len == |orig| <= s.arr.Length && Cascading(orig, s.arr[..], i)
      requires provName in admins.byProv && admins.byProv[provName] == Slice(s.arr, s.len - i)
      requires InSlice(admins.Members(), admins.home, provName, orig[i])
      modifies this, admins, admins.Arrays(), adminDB`admins, adminDB`ops
      ensures Valid() && (old(admins.Counted()) ==> admins.Counted()) && (old(AtHome(admins)) ==> AtHome(admins))
      ensures o != WriteFailed && (o == Repaired && enableAdmin ==> Synced())
      ensures old(Synced()) && o != RepairFailed ==> Synced()
      ensures o != Repaired ==> admins == old(admins) && provisioners == old(provisioners)
      ensures o != Repaired ==> admins.Arrays() == old(admins.Arrays()) && admins.home == old(admins.home)
      ensures o == Accepted ==> provName in admins.byProv && admins.byProv[provName] == Slice(s.arr, s.len - i - 1)
      ensures o == Accepted ==> Cascading(orig, s.arr[..], i + 1)
      ensures o == Accepted ==>
        admins.Members() == old(admins.Members()) - {orig[i]} && adminDB.ops == old(adminDB.ops) + 1
      ensures adminDB.admins == old(adminDB.admins) || adminDB.admins == old(adminDB.admins) - {orig[i].id}
      ensures o == Refused ==> admins.Members() == old(admins.Members())
      ensures o == Refused && old(AtHome(admins)) ==> orig[i] in admins.Supers() && admins.superCount == 1
    {
      hide Collection.Indexed, Collection.Counted, Loadable, DistinctNames, Same, AtHome, AfterRemoval, Cascading,
        DistinctIds;
      CascadeAt(orig, s.arr[..], i);
      CascadeStep(orig, s.arr[..], i);
      var adm := s.arr[i];
      MemberHeld(admins, adm);
      if AtHome(admins) {
        ListedAtHome(admins, adm);
      }
      o := RemoveAdmin(adm.id);
    }
  }

  lemma ListedNone(l: seq<(string, string)>, m: map<string, string>)
    requires Lists(l, m)
    ensures |l| == 0 <==> m == map[]
  {
    if |l| > 0 { assert l[0].0 in m; }
    if m != map[] {
      var k :| k in m;
      var i :| 0 <= i < |l| && l[i].0 == k;
    }
  }

  lemma UnloadableNames(stored: map<string, AdminRecord>, names: map<string, string>)
    requires !DistinctNames(names)
    ensures !Loadable(stored, names)
  {}

  /** A stored super admin is cached as one. */
  lemma FirstIsSuper(a: Authority, id: string)
    requires a.Valid() && a.Synced() && id in a.adminDB.admins && a.adminDB.admins[id].typ == SuperAdmin
    ensures a.admins.Supers() != {} && a.provisioners.names == a.adminDB.provisioners
  {
    MemberIsIndexed(a.admins, id);
    assert a.admins.byID[id] in a.admins.Supers();
  }

  lemma SameAfterStore(byID: map<string, Admin>, stored: map<string, AdminRecord>, adm: Admin)
    requires Same(byID, stored)
    ensures Same(byID[adm.id := adm], stored[adm.id := RecordOf(adm)])
  {}

  // ---------------------------------------------------------------------------------------------
  // The cascade, as a statement about the backing array

  /** The admins of a provisioner, by its id. */
  ghost function Of(admins: set<Admin>, id: string): set<Admin> {
    set a | a in admins && a.provisionerId == id
  }

  ghost function IdsOf(admins: set<Admin>): set<string> {
    set a | a in admins :: a.id
  }

  lemma OfRest(members: set<Admin>, id: string)
    ensures Of(members - Of(members, id), id) == {}
  {}

  lemma NoAdmins(s: seq<Admin>)
    requires s == []
    ensures AdminsIn(s) == {}
  {}

  /** No record but those of the given admins went or changed. */
  ghost predicate Kept(before: map<string, AdminRecord>, after: map<string, AdminRecord>, gone: set<Admin>) {
    forall k :: k in before && k !in IdsOf(gone) ==> k in after && after[k] == before[k]
  }

  lemma KeptAll(stored: map<string, AdminRecord>, gone: set<Admin>)
    ensures Kept(stored, stored, gone)
  {}

  lemma KeptMore(before: map<string, AdminRecord>, stored: map<string, AdminRecord>, after: map<string, AdminRecord>,
                 gone: set<Admin>, a: Admin)
    requires Kept(before, stored, gone) && a in gone && (after == stored || after == stored - {a.id})
    ensures Kept(before, after, gone)
  {}

  /** With every admin at home, the slice of a provisioner holds its admins, each once. */
  lemma SliceIsOf(c: Collection, id: string)
    requires c.Indexed() && AtHome(c) && DistinctNames(c.provisioners.names) && id in c.provisioners.names
    ensures var n := c.provisioners.names[id];
            && (n !in c.byProv ==> Of(c.Members(), id) == {})
            && (n in c.byProv ==>
                  var s := c.byProv[n];
                  && s.len <= s.arr.Length && AdminsIn(s.arr[..s.len]) == Of(c.Members(), id)
                  && |Of(c.Members(), id)| == s.len)
  {
    hide Collection.Indexed, DistinctNames;
    var names := c.provisioners.names;
    var n := names[id];
    forall a | a in c.Members() ensures a in c.home && (c.home[a] == n <==> a.provisionerId == id) {
      NameOnce(names, a.provisionerId, id);
    }
    if n in c.byProv {
      SliceFacts(c, n);
      var s := c.byProv[n];
      DistinctSize(s.arr[..s.len]);
    } else {
      forall a | a in c.Members() ensures a.provisionerId != id {
        MemberHasSlice(c, a);
      }
    }
  }

  lemma SliceFits(c: Collection, n: string)
    requires c.Indexed() && n in c.byProv
    ensures c.byProv[n].len <= c.byProv[n].arr.Length
  {}

  lemma NameOnce(names: map<string, string>, p: string, q: string)
    requires DistinctNames(names) && p in names && q in names
    ensures names[p] == names[q] <==> p == q
  {}

  lemma MemberHasSlice(c: Collection, a: Admin)
    requires c.Indexed() && a in c.Members()
    ensures a in c.home && c.home[a] in c.byProv
  {
    assert c.lists.Keys == c.byProv.Keys;
  }

  lemma DistinctSize(s: seq<Admin>)
    requires DistinctIds(s)
    ensures |AdminsIn(s)| == |s|
  {
    if s != [] {
      var r := s[..|s| - 1];
      DistinctSize(r);
      assert AdminsIn(s) == AdminsIn(r) + {s[|s| - 1]};
    }
  }

  /** With exact counters the guard of RemoveProvisioner holds exactly when no other super admin is left. */
  lemma GuardMeans(c: Collection, id: string)
    requires AtHome(c) && c.Counted() && DistinctNames(c.provisioners.names) && id in c.provisioners.names
    ensures c.superCount == c.SuperCountByProvisioner(c.provisioners.names[id]) <==> NoOtherSuper(c, id)
  {
    hide DistinctNames;
    var names := c.provisioners.names;
    var supers, own := c.Supers(), InProvisioner(c.Supers(), c.home, names[id]);
    forall a | a in supers ensures a in own <==> a.provisionerId == id {
      assert a in c.Members();
      NameOnce(names, a.provisionerId, id);
    }
    assert supers == own + (supers - own);
    assert c.superCount == |own| <==> supers - own == {};
  }

  /** No super admin belongs to another provisioner. */
  ghost predicate NoOtherSuper(c: Collection, id: string)
    reads c, c.Members()
  {
    forall a :: a in c.Supers() ==> a.provisionerId == id
  }

  /** The backing array after `i` rounds: from `i` on as at the start; below `i`, while still in the
      slice of the remaining admins, the elements from the end in reverse. */
  ghost predicate Cascading(orig: seq<Admin>, arr: seq<Admin>, i: nat) {
    && i <= |orig| <= |arr| && DistinctIds(orig)
    && (forall k :: i <= k < |orig| ==> arr[k] == orig[k])
    && (forall k :: 0 <= k < i && k < |orig| - i ==> arr[k] == orig[|orig| - 1 - k])
  }

  lemma CascadeStart(orig: seq<Admin>, arr: seq<Admin>)
    requires |orig| <= |arr| && arr[..|orig|] == orig && DistinctIds(orig)
    ensures Cascading(orig, arr, 0)
  {}

  lemma CascadeAt(orig: seq<Admin>, arr: seq<Admin>, i: nat)
    requires Cascading(orig, arr, i) && i < |orig|
    ensures i < |arr| && arr[i] == orig[i] && orig[i] !in AdminsIn(orig[..i])
    ensures AdminsIn(orig[..i + 1]) == AdminsIn(orig[..i]) + {orig[i]}
    ensures AdminsIn(orig[..i]) <= AdminsIn(orig) && orig[i] in AdminsIn(orig)
  {}

  /** Round `i` removes element `i` of the slice as it was at the start. */
  lemma CascadeStep(orig: seq<Admin>, arr: seq<Admin>, i: nat)
    requires Cascading(orig, arr, i) && i < |orig|
    ensures Cascading(orig, AfterRemoval(arr, |orig| - i, orig[i].id), i + 1)
  {
    var n := |orig|;
    var arr' := AfterRemoval(arr, n - i, orig[i].id);
    forall k | i + 1 <= k < n ensures arr'[k] == orig[k] {
      assert orig[k].id != orig[i].id;
    }
    forall k | 0 <= k < i + 1 && k < n - (i + 1) ensures arr'[k] == orig[n - 1 - k] {
      if k < i { assert orig[n - 1 - k].id != orig[i].id; }
    }
  }

  lemma ListFacts(byID: map<string, Admin>, bySubProv: map<(string, string), Admin>, lists: map<string, seq<Admin>>,
                  sorted: seq<Admin>, home: map<Admin, string>, n: string)
    requires Agree(byID, bySubProv, lists, sorted, home) && n in lists
    ensures DistinctIds(lists[n])
    ensures forall k :: 0 <= k < |lists[n]| ==> lists[n][k] in sorted && lists[n][k] in home && home[lists[n][k]] == n
    ensures forall a :: a in sorted ==> a in home && (home[a] == n ==> a in lists[n])
  {
    hide SortedById, SubjectsAgree;
    var l := lists[n];
    forall i, j | 0 <= i < j < |l| ensures l[i].id != l[j].id {
      assert l[i] in l && l[j] in l && l[i] != l[j];
    }
  }

  lemma SliceFacts(c: Collection, n: string)
    requires c.Indexed() && n in c.byProv
    ensures var s := c.byProv[n];
            && s.len <= s.arr.Length && DistinctIds(s.arr[..s.len])
            && (forall k :: 0 <= k < s.len ==> InSlice(c.Members(), c.home, n, s.arr[k]))
            && (forall a :: a in c.Members() && InSlice(c.Members(), c.home, n, a) ==> a in s.arr[..s.len])
  {
    hide Agree, DistinctIds;
    ListFacts(c.byID, c.bySubProv, c.lists, c.sorted, c.home, n);
  }

  /** A member that was stored with this name. */
  ghost predicate InSlice(members: set<Admin>, home: map<Admin, string>, n: string, a: Admin) {
    a in members && a in home && home[a] == n
  }

  lemma StillInSlice(members: set<Admin>, now: set<Admin>, home: map<Admin, string>, n: string, a: Admin,
                     gone: seq<Admin>)
    requires InSlice(members, home, n, a) && now == members - AdminsIn(gone) && a !in AdminsIn(gone)
    ensures InSlice(now, home, n, a)
  {}

  /** An admin at home is refused removal only as the last super admin. */
  lemma ListedAtHome(c: Collection, a: Admin)
    requires c.Indexed() && AtHome(c) && a in c.Members()
    ensures a.id in c.byID && c.byID[a.id] == a
    ensures c.RemoveResult(a.id) != AdminOk ==> a.typ == SuperAdmin && c.superCount == 1
  {
    hide Collection.Indexed;
    MemberHeld(c, a);
  }

  lemma HomesWithout(members: set<Admin>, home: map<Admin, string>, names: map<string, string>, id: string)
    requires Homes(members, home, names) && Of(members, id) == {}
    ensures Homes(members, home, names - {id})
  {
    assert forall a :: a in members ==> (a in Of(members, id) <==> a.provisionerId == id);
  }

  lemma FewerNames(names: map<string, string>, id: string)
    requires DistinctNames(names)
    ensures DistinctNames(names - {id})
  {}

  lemma NotTheLast(c: Collection, a: Admin, b: Admin)
    requires c.Counted() && a in c.Supers() && b in c.Supers() && a != b
    ensures c.superCount != 1
  {
    assert {a, b} <= c.Supers();
    SubsetSize({a, b}, c.Supers());
  }

  lemma SubsetSize(s: set<Admin>, t: set<Admin>)
    requires s <= t
    ensures |s| <= |t|
  {
    assert t == s + (t - s);
  }

  /** A backing array after the removal of an admin from the slice of its first `len` elements. */
  ghost function AfterRemoval(arr: seq<Admin>, len: nat, id: string): seq<Admin>
    requires 0 < len <= |arr|
  {
    seq(|arr|, k requires 0 <= k < |arr| => if k < len && arr[k].id == id then arr[len - 1] else arr[k])
  }

  lemma LoadableRetyped(stored: map<string, AdminRecord>, names: map<string, string>, id: string, typ: AdminType)
    requires Loadable(stored, names) && id in stored
    ensures Loadable(stored[id := stored[id].(typ := typ)], names)
  {}

  lemma SameLess(byID: map<string, Admin>, stored: map<string, AdminRecord>, id: string)
    requires Same(byID, stored)
    ensures Same(byID - {id}, stored - {id}) && byID.Keys == stored.Keys
  {}

  lemma SameKeys(byID: map<string, Admin>, stored: map<string, AdminRecord>)
    requires Same(byID, stored)
    ensures byID.Keys == stored.Keys
  {}

  lemma SameOnce(byID: map<string, Admin>, stored: map<string, AdminRecord>, stored': map<string, AdminRecord>)
    requires Same(byID, stored) && Same(byID, stored')
    ensures stored == stored'
  {}

  lemma LoadableLess(stored: map<string, AdminRecord>, names: map<string, string>, id: string)
    requires Loadable(stored, names)
    ensures Loadable(stored - {id}, names)
  {}

  // ---------------------------------------------------------------------------------------------
  // A first start that fails half-way

  lemma NoAdminsNoSupers(a: Authority)
    requires a.Valid() && a.Synced() && a.adminDB.admins == map[]
    ensures a.admins.Supers() == {}
  {
    forall x | x in a.admins.Members() ensures false {
      MemberHeld(a.admins, x);
    }
  }

  lemma LoneProvisionerLoads(id: string, name: string)
    ensures Loadable(map[], map[id := name])
  {}

  /** The call that stores the first super admin is lost; the next start finds a provisioner, and leaves the authority
      without any super admin. */
  method StartTwice() returns (first: Authority?, second: Authority?)
    ensures first == null && second != null
    ensures second.enableAdmin && second.Valid() && second.provisioners.names != map[] && second.admins.Supers() == {}
  {
    hide Collection.Indexed, Collection.Counted, Collection.Supers, AtHome, Loadable, Authority.Valid, ConfigLoads;
    var db := new AdminDB(k => if k == 2 then Lost else Done, map[], map[]);
    assert !AllDone(db.faults, 1, 2) by { assert db.faults(2) == Lost; }
    first := Authority.New(db, true, [], [], false, "p", "P", "a");
    assert db.ops == 3 && db.admins == map[] && db.provisioners == map["p" := "P"];
    assert "p" in db.provisioners && db.faults(3) == Done && AllDone(db.faults, 4, 2);
    LoneProvisionerLoads("p", "P");
    second := Authority.New(db, true, [], [], false, "q", "P", "a");
    NoAdminsNoSupers(second);
  }
}
