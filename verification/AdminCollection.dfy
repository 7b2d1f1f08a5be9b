/** The in-memory collection of admins (authority/administrator/collection.go): four indexes over the
    same objects, two counters, and slices whose backing arrays are shared with their readers. */
module AdminCollection {
  import opened Text
  import opened AdminPaging

  datatype AdminType = SuperAdmin | PlainAdmin

  class Admin {
    const id: string
    const provisionerId: string
    const subject: string
    var typ: AdminType

    constructor (id: string, provisionerId: string, subject: string, typ: AdminType)
      ensures this.id == id && this.provisionerId == provisionerId && this.subject == subject && this.typ == typ
    {
      this.id, this.provisionerId, this.subject, this.typ := id, provisionerId, subject, typ;
    }
  }

  /** The provisioners, by id, with their names; ids and names are both unique. */
  class Provisioners {
    var names: map<string, string>

    constructor (names: map<string, string>)
      ensures this.names == names
    {
      this.names := names;
    }

    method Remove(id: string) returns (ok: bool)
      modifies this
      ensures ok == (id in old(names)) && names == old(names) - {id}
    {
      ok := id in names;
      names := names - {id};
    }
  }

  predicate DistinctNames(names: map<string, string>) {
    forall p, q :: p in names && q in names && names[p] == names[q] ==> p == q
  }

  /** A Go slice of a backing array: the first `len` elements. */
  datatype Slice = Slice(arr: array<Admin>, len: nat)

  ghost function ArraysOf(slices: map<string, Slice>): set<array<Admin>> {
    set n | n in slices :: slices[n].arr
  }

  /** No two slices share a backing array. */
  ghost predicate Separate(slices: map<string, Slice>) {
    forall n, m :: n in slices && m in slices && n != m ==> slices[n].arr != slices[m].arr
  }

  lemma SeparateAfterSet(slices: map<string, Slice>, n: string, t: Slice)
    requires Separate(slices) && forall m :: m in slices && m != n ==> slices[m].arr != t.arr
    ensures Separate(slices[n := t])
  {}

  lemma ArraysAfterSet(slices: map<string, Slice>, n: string, t: Slice)
    ensures ArraysOf(slices[n := t]) <= ArraysOf(slices) + {t.arr}
    ensures n in slices && t.arr == slices[n].arr ==> ArraysOf(slices[n := t]) == ArraysOf(slices)
  {
    if n in slices && t.arr == slices[n].arr {
      forall m | m in slices ensures slices[m].arr in ArraysOf(slices[n := t]) {
        assert slices[n := t][m].arr == slices[m].arr;
      }
    }
  }

  // ---------------------------------------------------------------------------------------------
  // Agreement of the indexes, as a statement about values

  ghost predicate SortedById(s: seq<Admin>) {
    forall i, j :: 0 <= i < j < |s| ==> Less(s[i].id, s[j].id)
  }

  ghost predicate IdsAgree(byID: map<string, Admin>, sorted: seq<Admin>) {
    && (forall id :: id in byID ==> byID[id].id == id && byID[id] in sorted)
    && (forall a :: a in sorted ==> a.id in byID && byID[a.id] == a)
  }

  ghost predicate Known(sorted: seq<Admin>, home: map<Admin, string>) {
    forall a :: a in sorted ==> a in home
  }

  ghost predicate SubjectsAgree(bySubProv: map<(string, string), Admin>, sorted: seq<Admin>, home: map<Admin, string>)
    requires Known(sorted, home)
  {
    && (forall k :: k in bySubProv ==> bySubProv[k] in sorted && k == (bySubProv[k].subject, home[bySubProv[k]]))
    && (forall a :: a in sorted ==>
          (a.subject, home[a]) in bySubProv && bySubProv[(a.subject, home[a])] == a)
  }

  ghost predicate Distinct(s: seq<Admin>) {
    forall i, j :: 0 <= i < j < |s| ==> s[i] != s[j]
  }

  ghost predicate ListsAgree(lists: map<string, seq<Admin>>, sorted: seq<Admin>, home: map<Admin, string>)
    requires Known(sorted, home)
  {
    && (forall n :: n in lists ==> Distinct(lists[n]))
    && (forall n, a :: n in lists && a in lists[n] ==> a in sorted && home[a] == n)
    && (forall a :: a in sorted ==> home[a] in lists && a in lists[home[a]])
  }

  /** byID, bySubProv, byProv and the sorted list hold the same admins. */
  ghost predicate Agree(byID: map<string, Admin>, bySubProv: map<(string, string), Admin>,
                        lists: map<string, seq<Admin>>, sorted: seq<Admin>, home: map<Admin, string>) {
    && SortedById(sorted) && IdsAgree(byID, sorted) && Known(sorted, home)
    && SubjectsAgree(bySubProv, sorted, home) && ListsAgree(lists, sorted, home)
  }

  /** The first position whose id is above that of `a`. */
  function Place(a: Admin, s: seq<Admin>): (p: nat)
    ensures p <= |s|
    ensures forall i :: 0 <= i < p ==> !Less(a.id, s[i].id)
    ensures p < |s| ==> Less(a.id, s[p].id)
  {
    if s == [] || Less(a.id, s[0].id) then 0 else 1 + Place(a, s[1..])
  }

  /** Insertion at the place that keeps the list sorted by id. */
  function InsertById(a: Admin, s: seq<Admin>): seq<Admin> {
    s[..Place(a, s)] + [a] + s[Place(a, s)..]
  }

  lemma InsertByIdAt(a: Admin, s: seq<Admin>)
    requires SortedById(s) && forall k :: 0 <= k < |s| ==> s[k].id != a.id
    ensures var p, r := Place(a, s), InsertById(a, s);
            && |r| == |s| + 1 && r[p] == a
            && (forall k :: 0 <= k < p ==> r[k] == s[k] && Less(s[k].id, a.id))
            && (forall k :: p <= k < |s| ==> r[k + 1] == s[k] && Less(a.id, s[k].id))
  {
    var p := Place(a, s);
    forall i | 0 <= i < |s| ensures if i < p then Less(s[i].id, a.id) else Less(a.id, s[i].id) {
      LessTotal(s[i].id, a.id);
      if p < i { LessTransitive(a.id, s[p].id, s[i].id); }
    }
  }

  lemma InsertByIdProperties(a: Admin, s: seq<Admin>)
    requires SortedById(s) && forall k :: 0 <= k < |s| ==> s[k].id != a.id
    ensures SortedById(InsertById(a, s))
    ensures forall x :: x in InsertById(a, s) <==> x == a || x in s
  {
    hide InsertById, Place, Less;
    var p, r := Place(a, s), InsertById(a, s);
    InsertByIdAt(a, s);
    forall i, j | 0 <= i < j < |r| ensures Less(r[i].id, r[j].id) {
      var i', j' := if i > p then i - 1 else i, if j > p then j - 1 else j;
      if i > p { assert r[i' + 1] == s[i']; }
      if j > p { assert r[j' + 1] == s[j']; }
    }
    forall k | 0 <= k < |s| ensures s[k] in r {
      assert s[k] == if k < p then r[k] else r[k + 1];
    }
    forall k | 0 <= k < |r| ensures r[k] == a || r[k] in s {
      if k > p { assert r[k - 1 + 1] == s[k - 1]; }
    }
  }

  /** The binary search for a member finds it. */
  lemma SearchFinds(s: seq<Admin>, a: Admin, p: nat)
    requires SortedById(s) && a in s && p <= |s|
    requires forall k :: 0 <= k < p ==> Less(s[k].id, a.id)
    requires forall k :: p <= k < |s| ==> !Less(s[k].id, a.id)
    ensures p < |s| && s[p] == a
  {
    hide Less;
    var i :| 0 <= i < |s| && s[i] == a;
    LessIrreflexive(a.id);
    assert p <= i;
  }

  /** Removal from a slice whose order does not matter: the last element takes the freed place. */
  function ReplaceByLast(s: seq<Admin>, a: Admin): seq<Admin>
    requires s != []
  {
    seq(|s| - 1, k requires 0 <= k < |s| - 1 => if s[k] == a then s[|s| - 1] else s[k])
  }

  lemma ReplaceByLastProperties(s: seq<Admin>, a: Admin)
    requires Distinct(s) && a in s
    ensures Distinct(ReplaceByLast(s, a))
    ensures forall x :: x in ReplaceByLast(s, a) <==> x in s && x != a
  {
    var r := ReplaceByLast(s, a);
    var p :| 0 <= p < |s| && s[p] == a;
    forall x | x in s && x != a ensures x in r {
      var k :| 0 <= k < |s| && s[k] == x;
      if k == |s| - 1 { assert r[p] == x; } else { assert r[k] == x; }
    }
  }

  /** Overwriting an admin by the last one, then dropping the last place, replaces it by the last one. */
  lemma OverwritingReplaces(before: seq<Admin>, after: seq<Admin>, len: nat, a: Admin)
    requires 0 < len <= |before| == |after|
    requires forall k :: 0 <= k < len && before[k].id == a.id ==> before[k] == a
    requires forall k :: 0 <= k < |before| ==>
      after[k] == if k < len && before[k].id == a.id then before[len - 1] else before[k]
    ensures after[..len - 1] == ReplaceByLast(before[..len], a)
  {}

  lemma AgreeAfterStore(byID: map<string, Admin>, bySubProv: map<(string, string), Admin>,
                        lists: map<string, seq<Admin>>, sorted: seq<Admin>, home: map<Admin, string>, a: Admin)
    requires Agree(byID, bySubProv, lists, sorted, home)
    requires a in home && a.id !in byID && (a.subject, home[a]) !in bySubProv
    ensures var n := home[a];
            Agree(byID[a.id := a], bySubProv[(a.subject, n) := a],
                  lists[n := (if n in lists then lists[n] else []) + [a]], InsertById(a, sorted), home)
    ensures a !in sorted
  {
    hide InsertById, SortedById, ListsAgree;
    InsertByIdProperties(a, sorted);
    var s := InsertById(a, sorted);
    var n := home[a];
    assert Known(s, home);
    assert IdsAgree(byID[a.id := a], s);
    assert SubjectsAgree(bySubProv[(a.subject, n) := a], s, home);
    ListsAfterStore(lists, sorted, s, home, a);
  }

  /** The name under which an admin that is not held would be filed does not matter. */
  lemma AgreeElsewhere(byID: map<string, Admin>, bySubProv: map<(string, string), Admin>,
                       lists: map<string, seq<Admin>>, sorted: seq<Admin>, home: map<Admin, string>,
                       a: Admin, n: string)
    requires Agree(byID, bySubProv, lists, sorted, home) && a.id !in byID
    ensures Agree(byID, bySubProv, lists, sorted, home[a := n])
  {
    hide SortedById;
    assert a !in sorted;
    var home' := home[a := n];
    assert Known(sorted, home');
    assert SubjectsAgree(bySubProv, sorted, home');
    assert ListsAgree(lists, sorted, home');
  }

  lemma CountedElsewhere(count: int, counts: map<string, int>, supers: set<Admin>, home: map<Admin, string>, a: Admin,
                         n: string)
    requires CountsOk(count, counts, supers, home) && a !in supers
    ensures CountsOk(count, counts, supers, home[a := n])
  {
    forall m ensures InProvisioner(supers, home[a := n], m) == InProvisioner(supers, home, m) {}
  }

  lemma ListsAfterStore(lists: map<string, seq<Admin>>, sorted: seq<Admin>, s: seq<Admin>, home: map<Admin, string>,
                        a: Admin)
    requires Known(sorted, home) && ListsAgree(lists, sorted, home) && a !in sorted && a in home
    requires forall x :: x in s <==> x == a || x in sorted
    ensures var n := home[a];
            Known(s, home) && ListsAgree(lists[n := (if n in lists then lists[n] else []) + [a]], s, home)
  {
    var n := home[a];
    var old_ := if n in lists then lists[n] else [];
    assert Distinct(old_ + [a]);
    assert forall x :: x in old_ + [a] <==> x == a || x in old_;
  }

  lemma AgreeAfterRemove(byID: map<string, Admin>, bySubProv: map<(string, string), Admin>,
                         lists: map<string, seq<Admin>>, sorted: seq<Admin>, home: map<Admin, string>, a: Admin, i: nat)
    requires Agree(byID, bySubProv, lists, sorted, home) && i < |sorted| && sorted[i] == a
    ensures var n := home[a];
            && n in lists && lists[n] != []
            && Agree(byID - {a.id}, bySubProv - {(a.subject, n)}, lists[n := ReplaceByLast(lists[n], a)],
                     sorted[..i] + sorted[i + 1..], home)
            && (forall x :: x in sorted[..i] + sorted[i + 1..] <==> x in sorted && x != a)
            && forall k :: 0 <= k < |sorted| && k != i ==> sorted[k] != a
  {
    var n := home[a];
    var s := sorted[..i] + sorted[i + 1..];
    assert a in sorted && a in lists[n];
    SortedWithout(sorted, i);
    ReplaceByLastProperties(lists[n], a);
    assert Known(s, home);
    assert IdsAgree(byID - {a.id}, s);
    assert SubjectsAgree(bySubProv - {(a.subject, n)}, s, home);
    assert ListsAgree(lists[n := ReplaceByLast(lists[n], a)], s, home);
  }

  lemma SortedWithout(sorted: seq<Admin>, i: nat)
    requires SortedById(sorted) && i < |sorted|
    ensures var s := sorted[..i] + sorted[i + 1..];
            && SortedById(s) && (forall x :: x in s <==> x in sorted && x != sorted[i])
            && forall k :: 0 <= k < |sorted| && k != i ==> sorted[k] != sorted[i]
  {
    var s := sorted[..i] + sorted[i + 1..];
    assert forall k :: 0 <= k < |s| ==> s[k] == sorted[if k < i then k else k + 1];
    forall k | 0 <= k < |sorted| && k != i ensures sorted[k] in s && sorted[k] != sorted[i] {
      assert s[if k < i then k else k - 1] == sorted[k];
      if k < i { LessAsymmetric(sorted[k].id, sorted[i].id); } else { LessAsymmetric(sorted[i].id, sorted[k].id); }
    }
  }

  // ---------------------------------------------------------------------------------------------
  // The counters, as a statement about values

  function Get(m: map<string, int>, n: string): int {
    if n in m then m[n] else 0
  }

  ghost function InProvisioner(admins: set<Admin>, home: map<Admin, string>, n: string): set<Admin> {
    set a | a in admins && a in home && home[a] == n
  }

  ghost predicate CountsOk(count: int, counts: map<string, int>, supers: set<Admin>, home: map<Admin, string>) {
    count == |supers| && forall n :: Get(counts, n) == |InProvisioner(supers, home, n)|
  }

  lemma OneMoreInProvisioner(supers: set<Admin>, home: map<Admin, string>, a: Admin, m: string)
    requires a !in supers && a in home
    ensures |InProvisioner(supers + {a}, home, m)| == |InProvisioner(supers, home, m)| + if m == home[a] then 1 else 0
  {
    if m == home[a] {
      assert InProvisioner(supers + {a}, home, m) == InProvisioner(supers, home, m) + {a};
    } else {
      assert InProvisioner(supers + {a}, home, m) == InProvisioner(supers, home, m);
    }
  }

  lemma CountedAfterStore(count: int, counts: map<string, int>, supers: set<Admin>, home: map<Admin, string>, a: Admin)
    requires CountsOk(count, counts, supers, home) && a !in supers && a in home
    ensures var n := home[a]; CountsOk(count + 1, counts[n := Get(counts, n) + 1], supers + {a}, home)
  {
    hide InProvisioner;
    var n := home[a];
    forall m ensures Get(counts[n := Get(counts, n) + 1], m) == |InProvisioner(supers + {a}, home, m)| {
      assert Get(counts, m) == |InProvisioner(supers, home, m)|;
      OneMoreInProvisioner(supers, home, a, m);
    }
  }

  lemma CountedAfterRemove(count: int, counts: map<string, int>, supers: set<Admin>, home: map<Admin, string>, a: Admin)
    requires CountsOk(count, counts, supers, home) && a in supers && a in home
    ensures var n := home[a]; CountsOk(count - 1, counts[n := Get(counts, n) - 1], supers - {a}, home)
  {
    var n := home[a];
    forall m ensures Get(counts[n := Get(counts, n) - 1], m) == |InProvisioner(supers - {a}, home, m)| {
      assert Get(counts, m) == |InProvisioner(supers, home, m)|;
      assert InProvisioner(supers - {a}, home, m) == InProvisioner(supers, home, m) - if m == n then {a} else {};
      if m == n { assert a in InProvisioner(supers, home, m); }
    }
  }

  lemma NoCount(count: int, counts: map<string, int>, supers: set<Admin>, home: map<Admin, string>, n: string)
    requires CountsOk(count, counts, supers, home)
    requires forall a :: a in supers && a in home ==> home[a] != n
    ensures Get(counts, n) == 0
  {
    assert InProvisioner(supers, home, n) == {};
  }

  lemma NotIndexedMeansNoSupers(byID: map<string, Admin>, bySubProv: map<(string, string), Admin>,
                                lists: map<string, seq<Admin>>, sorted: seq<Admin>, home: map<Admin, string>, n: string)
    requires Agree(byID, bySubProv, lists, sorted, home)
    ensures n !in lists ==> forall a :: a in sorted && a in home ==> home[a] != n
  {}

  lemma NewAdminsAreNew(byID: map<string, Admin>, bySubProv: map<(string, string), Admin>,
                        lists: map<string, seq<Admin>>, sorted: seq<Admin>, home: map<Admin, string>, a: Admin)
    requires Agree(byID, bySubProv, lists, sorted, home) && a.id !in byID
    ensures SortedById(sorted) && a !in sorted && forall k :: 0 <= k < |sorted| ==> sorted[k].id != a.id
  {
    forall k | 0 <= k < |sorted| ensures sorted[k].id != a.id {
      assert sorted[k] in sorted;
    }
  }

  lemma IdFacts(byID: map<string, Admin>, bySubProv: map<(string, string), Admin>, lists: map<string, seq<Admin>>,
                sorted: seq<Admin>, home: map<Admin, string>, id: string)
    requires Agree(byID, bySubProv, lists, sorted, home) && id in byID
    ensures byID[id].id == id && byID[id] in sorted
  {}

  /** What the indexes say about a member. */
  lemma MemberFacts(byID: map<string, Admin>, bySubProv: map<(string, string), Admin>, lists: map<string, seq<Admin>>,
                    sorted: seq<Admin>, home: map<Admin, string>, a: Admin)
    requires Agree(byID, bySubProv, lists, sorted, home) && a.id in byID && byID[a.id] == a
    ensures SortedById(sorted) && a in sorted && a in home
    ensures var n := home[a];
            && n in lists && a in lists[n] && Distinct(lists[n])
            && forall k :: 0 <= k < |lists[n]| ==> lists[n][k].id == a.id ==> lists[n][k] == a
  {
    var n := home[a];
    forall k | 0 <= k < |lists[n]| && lists[n][k].id == a.id ensures lists[n][k] == a {
      assert lists[n][k] in lists[n];
    }
  }

  /** An admin is in the list of a provisioner exactly when it was filed there. */
  lemma ListHolds(byID: map<string, Admin>, bySubProv: map<(string, string), Admin>, lists: map<string, seq<Admin>>,
                  sorted: seq<Admin>, home: map<Admin, string>, n: string, a: Admin)
    requires Agree(byID, bySubProv, lists, sorted, home) && n in lists && a.id in byID && byID[a.id] == a
    ensures a in home && (a in lists[n] <==> home[a] == n)
    ensures forall k :: 0 <= k < |lists[n]| ==> lists[n][k].id == a.id ==> lists[n][k] == a
  {
    assert a in sorted;
    forall k | 0 <= k < |lists[n]| && lists[n][k].id == a.id ensures lists[n][k] == a {
      assert lists[n][k] in lists[n];
    }
  }

  // ---------------------------------------------------------------------------------------------
  // The collection

  datatype AdminError =
    | NotFound | LastSuperAdmin | SameId | SameSubject | WrongProvisioner | UnknownProvisioner | NotListed

  datatype AdminResult = AdminOk | AdminFailed(error: AdminError)

  class Collection {
    var byID: map<string, Admin>
    var bySubProv: map<(string, string), Admin>
    var byProv: map<string, Slice>
    var sorted: seq<Admin>
    const provisioners: Provisioners
    var superCount: int
    var superCountByProvisioner: map<string, int>

    /** The contents of the slices of byProv. */
    ghost var lists: map<string, seq<Admin>>

    /** The name of the provisioner with which an admin was stored. */
    ghost var home: map<Admin, string>

    constructor (provisioners: Provisioners)
      ensures this.provisioners == provisioners
      ensures byID == map[] && bySubProv == map[] && byProv == map[] && sorted == [] && home == map[]
      ensures Indexed() && Counted()
    {
      this.provisioners := provisioners;
      byID, bySubProv, byProv, sorted := map[], map[], map[], [];
      superCount, superCountByProvisioner, lists, home := 0, map[], map[], map[];
      new;
      assert Supers() == {};
    }

    /** The backing arrays of the per-provisioner slices. */
    ghost function Arrays(): set<array<Admin>>
      reads this`byProv
    {
      ArraysOf(byProv)
    }

    /** The slices lie in separate arrays and hold what `lists` says. */
    ghost predicate SlicesOk()
      reads this`byProv, this`lists, Arrays()
    {
      && lists.Keys == byProv.Keys
      && (forall n :: n in byProv ==>
            byProv[n].len <= byProv[n].arr.Length && byProv[n].arr[..byProv[n].len] == lists[n])
      && Separate(byProv)
    }

    ghost predicate Indexed()
      reads this, Arrays()
    {
      SlicesOk() && lists.Keys == byProv.Keys && Agree(byID, bySubProv, lists, sorted, home)
    }

    ghost function Members(): set<Admin>
      reads this`sorted
    {
      set a | a in sorted
    }

    ghost function Supers(): set<Admin>
      reads this`sorted, Members()
    {
      set a | a in sorted && a.typ == SuperAdmin
    }

    /** The counters are the true numbers of super admins. */
    ghost predicate Counted()
      reads this`superCount, this`superCountByProvisioner, this`sorted, this`home, Members()
    {
      CountsOk(superCount, superCountByProvisioner, Supers(), home)
    }

    function SuperCountByProvisioner(n: string): int
      reads this`superCountByProvisioner
    {
      Get(superCountByProvisioner, n)
    }

    /** LoadByProvisioner: a slice that shares its backing array with the collection. */
    function LoadByProvisioner(n: string): Option<Slice>
      reads this
    {
      if n in byProv then Some(byProv[n]) else None
    }

    /** Go's append: in place while there is room, else into a larger array. */
    static method Append(s: Slice, a: Admin) returns (t: Slice)
      requires s.len <= s.arr.Length
      modifies s.arr
      ensures t.len == s.len + 1 <= t.arr.Length && (t.arr == s.arr || fresh(t.arr))
      ensures t.arr[..t.len] == old(s.arr[..s.len]) + [a]
    {
      if s.len < s.arr.Length {
        s.arr[s.len] := a;
        return Slice(s.arr, s.len + 1);
      }
      var larger := new Admin[2 * s.len + 1](_ => a);
      for i := 0 to s.len
        invariant larger[..i] == s.arr[..i] && forall k :: i <= k < larger.Length ==> larger[k] == a
        invariant unchanged(s.arr)
      {
        larger[i] := s.arr[i];
      }
      t := Slice(larger, s.len + 1);
    }

    /** Adds an admin to the slice of its provisioner. */
    method PutInSlice(n: string, adm: Admin)
      requires SlicesOk()
      modifies this`byProv, this`lists, Arrays()
      ensures SlicesOk() && lists.Keys == byProv.Keys && fresh(Arrays() - old(Arrays()))
      ensures lists == old(lists)[n := (if n in old(lists) then old(lists)[n] else []) + [adm]]
    {
      var t: Slice;
      if n in byProv {
        t := Append(byProv[n], adm);
      } else {
        var arr := new Admin[1](_ => adm);
        t := Slice(arr, 1);
      }
      assert t.arr[..t.len] == (if n in old(lists) then old(lists)[n] else []) + [adm];
      SetSlice(n, t);
    }

    /** All slices but that of `n` are as `lists` says. */
    ghost predicate OtherSlicesOk(n: string)
      reads this`byProv, this`lists, Arrays()
    {
      && lists.Keys == byProv.Keys
      && (forall m :: m in byProv && m != n ==>
            byProv[m].len <= byProv[m].arr.Length && byProv[m].arr[..byProv[m].len] == lists[m])
      && Separate(byProv)
    }

    /** Makes `t` the slice of provisioner `n`. */
    method SetSlice(n: string, t: Slice)
      requires OtherSlicesOk(n) && t.len <= t.arr.Length
      requires forall m :: m in byProv && m != n ==> byProv[m].arr != t.arr
      modifies this`byProv, this`lists
      ensures SlicesOk() && lists.Keys == byProv.Keys && Arrays() <= old(Arrays()) + {t.arr}
      ensures n in old(byProv) && t.arr == old(byProv[n]).arr ==> Arrays() == old(Arrays())
      ensures byProv == old(byProv)[n := t] && lists == old(lists)[n := t.arr[..t.len]]
    {
      hide ArraysOf, Separate;
      SeparateAfterSet(byProv, n, t);
      byProv := byProv[n := t];
      lists := lists[n := t.arr[..t.len]];
      ArraysAfterSet(old(byProv), n, t);
    }

    /** Store: adds an admin whose id, and whose subject and provisioner name, are new. The provisioner is the
        argument's, whether or not it is among `provisioners`. */
    method Store(adm: Admin, provId: string, provName: string) returns (r: AdminResult)
      requires Indexed()
      modifies this, Arrays()
      ensures Indexed() && fresh(Arrays() - old(Arrays()))
      ensures r == if adm.provisionerId != provId then AdminFailed(WrongProvisioner)
                   else if adm.id in old(byID) then AdminFailed(SameId)
                   else if (adm.subject, provName) in old(bySubProv) then AdminFailed(SameSubject)
                   else AdminOk
      ensures r.AdminOk? ==> byID == old(byID)[adm.id := adm] && Members() == old(Members()) + {adm}
      ensures r.AdminOk? ==> home == old(home)[adm := provName]
      ensures r.AdminFailed? ==> unchanged(this) && unchanged(old(Arrays()))
      ensures old(Counted()) ==> Counted()
    {
      hide Agree, Counted, SlicesOk;
      if adm.provisionerId != provId {
        return AdminFailed(WrongProvisioner);
      }
      if adm.id in byID {
        return AdminFailed(SameId);
      }
      byID := byID[adm.id := adm];
      if (adm.subject, provName) in bySubProv {
        byID := byID - {adm.id};
        assert byID == old(byID);
        return AdminFailed(SameSubject);
      }
      StoreInAll(adm, provName, old(byID));
      return AdminOk;
    }

    /** Store once its checks passed: byID holds the admin, the other indexes and the counters follow. */
    method StoreInAll(adm: Admin, provName: string, ghost ids: map<string, Admin>)
      requires SlicesOk() && lists.Keys == byProv.Keys && Agree(ids, bySubProv, lists, sorted, home)
      requires adm.id !in ids && byID == ids[adm.id := adm] && (adm.subject, provName) !in bySubProv
      modifies this, Arrays()
      ensures Indexed() && fresh(Arrays() - old(Arrays()))
      ensures byID == old(byID) && Members() == old(Members()) + {adm} && home == old(home)[adm := provName]
      ensures old(Counted()) ==> Counted()
    {
      hide Agree, Counted, SlicesOk;
      var known := provName in byProv;
      PutInSlice(provName, adm);
      StoreNew(adm, provName, known, ids, old(lists));
    }

    /** The rest of Store: byID and the slice already hold the admin. */
    method StoreNew(adm: Admin, provName: string, known: bool, ghost ids: map<string, Admin>,
                    ghost slices: map<string, seq<Admin>>)
      requires Agree(ids, bySubProv, slices, sorted, home) && known == (provName in slices)
      requires adm.id !in ids && byID == ids[adm.id := adm] && (adm.subject, provName) !in bySubProv
      requires lists == slices[provName := (if known then slices[provName] else []) + [adm]]
      modifies this`bySubProv, this`sorted, this`superCount, this`superCountByProvisioner, this`home
      ensures Agree(byID, bySubProv, lists, sorted, home)
      ensures Members() == old(Members()) + {adm} && home == old(home)[adm := provName]
      ensures old(Counted()) ==> Counted()
    {
      hide Agree, InsertById, CountsOk, SortedById;
      NewAdminsAreNew(ids, bySubProv, slices, sorted, home, adm);
      AgreeElsewhere(ids, bySubProv, slices, sorted, home, adm, provName);
      if Counted() {
        CountedElsewhere(superCount, superCountByProvisioner, Supers(), home, adm, provName);
      }
      home := home[adm := provName];
      AgreeAfterStore(ids, bySubProv, slices, sorted, home, adm);
      NotIndexedMeansNoSupers(ids, bySubProv, slices, sorted, home, provName);
      bySubProv := bySubProv[(adm.subject, provName) := adm];
      assert Supers() == old(Supers());
      CountAndSort(adm, provName, known);
    }

    /** Counts a new admin and puts it in its place in the sorted list. */
    method CountAndSort(adm: Admin, provName: string, known: bool)
      requires SortedById(sorted) && adm !in sorted && forall k :: 0 <= k < |sorted| ==> sorted[k].id != adm.id
      requires adm in home && home[adm] == provName
      requires !known ==> forall a :: a in sorted && a in home ==> home[a] != provName
      modifies this`sorted, this`superCount, this`superCountByProvisioner
      ensures sorted == InsertById(adm, old(sorted)) && Members() == old(Members()) + {adm}
      ensures old(Counted()) ==> Counted()
    {
      hide InsertById, CountsOk;
      if adm.typ == SuperAdmin {
        var count := if known then SuperCountByProvisioner(provName) + 1 else 1;
        superCountByProvisioner := superCountByProvisioner[provName := count];
        superCount := superCount + 1;
      }
      InsertByIdProperties(adm, sorted);
      sorted := InsertById(adm, sorted);
      if adm.typ == SuperAdmin {
        assert Supers() == old(Supers()) + {adm};
        if old(Counted()) {
          CountedAfterStore(old(superCount), old(superCountByProvisioner), old(Supers()), home, adm);
          if !known { NoCount(old(superCount), old(superCountByProvisioner), old(Supers()), home, provName); }
        }
      } else {
        assert Supers() == old(Supers());
      }
    }

    /** sort.Search on the sorted list: the first position whose id is not below `key`. */
    method Search(key: string) returns (p: nat)
      requires SortedById(sorted)
      ensures p <= |sorted|
      ensures forall k :: 0 <= k < p ==> Less(sorted[k].id, key)
      ensures forall k :: p <= k < |sorted| ==> !Less(sorted[k].id, key)
    {
      p := 0;
      var high := |sorted|;
      while p < high
        invariant p <= high <= |sorted|
        invariant forall k :: 0 <= k < p ==> Less(sorted[k].id, key)
        invariant forall k :: high <= k < |sorted| ==> !Less(sorted[k].id, key)
      {
        var mid := (p + high) / 2;
        if Less(sorted[mid].id, key) {
          forall k | 0 <= k < mid ensures Less(sorted[k].id, key) {
            LessTransitive(sorted[k].id, sorted[mid].id, key);
          }
          p := mid + 1;
        } else {
          forall k | mid < k < |sorted| ensures !Less(sorted[k].id, key) {
            if Less(sorted[k].id, key) { LessTransitive(sorted[mid].id, sorted[k].id, key); }
          }
          high := mid;
        }
      }
    }

    /** The loop of Remove over a slice: the last element is written over the admin with this id. */
    static method Overwrite(s: Slice, id: string) returns (found: bool)
      requires s.len <= s.arr.Length
      modifies s.arr
      ensures found <==> exists k :: 0 <= k < s.len && old(s.arr[k]).id == id
      ensures forall k :: 0 <= k < s.arr.Length ==>
                s.arr[k] == if k < s.len && old(s.arr[k]).id == id then old(s.arr[s.len - 1]) else old(s.arr[k])
    {
      found := false;
      for i := 0 to s.len
        invariant found <==> exists k :: 0 <= k < i && old(s.arr[k]).id == id
        invariant forall k :: 0 <= k < s.arr.Length ==>
                    s.arr[k] == if k < i && old(s.arr[k]).id == id then old(s.arr[s.len - 1]) else old(s.arr[k])
      {
        if s.arr[i].id == id {
          s.arr[i] := s.arr[s.len - 1];
          found := true;
        }
      }
    }

    /** What a removal leaves in a backing array: its live part lost `adm`, the rest is as it was. */
    static twostate predicate Overwritten(s: Slice, id: string)
      requires s.len <= s.arr.Length
      reads s.arr
    {
      forall k :: 0 <= k < s.arr.Length ==>
        s.arr[k] == if k < s.len && old(s.arr[k]).id == id then old(s.arr[s.len - 1]) else old(s.arr[k])
    }

    /** The loop over a slice finds the admin exactly when it is there, and then leaves the others in the shorter slice;
        otherwise it changes nothing. */
    static method OverwriteMember(s: Slice, adm: Admin) returns (found: bool)
      requires s.len <= s.arr.Length
      requires forall k :: 0 <= k < s.len && s.arr[k].id == adm.id ==> s.arr[k] == adm
      modifies s.arr
      ensures found <==> adm in old(s.arr[..s.len])
      ensures found ==>
        0 < s.len && Overwritten(s, adm.id) && s.arr[..s.len - 1] == ReplaceByLast(old(s.arr[..s.len]), adm)
      ensures !found ==> forall k :: 0 <= k < s.arr.Length ==> s.arr[k] == old(s.arr[k])
    {
      hide ReplaceByLast;
      ghost var before := s.arr[..];
      found := Overwrite(s, adm.id);
      assert before[..s.len] == old(s.arr[..s.len]);
      if found {
        OverwritingReplaces(before, s.arr[..], s.len, adm);
        assert s.arr[..][..s.len - 1] == s.arr[..s.len - 1];
      }
    }

    /** Takes an admin out of the slice of a provisioner, if it is there. */
    method TakeFromSlice(n: string, adm: Admin) returns (found: bool)
      requires SlicesOk() && n in byProv
      requires forall k :: 0 <= k < |lists[n]| ==> lists[n][k].id == adm.id ==> lists[n][k] == adm
      modifies this`byProv, this`lists, byProv[n].arr
      ensures found <==> adm in old(lists[n])
      ensures SlicesOk() && lists.Keys == byProv.Keys && Arrays() == old(Arrays())
      ensures !found ==> byProv == old(byProv) && lists == old(lists) && byProv[n].arr[..] == old(byProv[n].arr[..])
      ensures found ==>
        var s := old(byProv[n]);
        && 0 < s.len <= s.arr.Length && byProv == old(byProv)[n := Slice(s.arr, s.len - 1)] && Overwritten(s, adm.id)
        && old(lists[n]) != [] && lists == old(lists)[n := ReplaceByLast(old(lists[n]), adm)]
    {
      hide ReplaceByLast, ArraysOf, Overwritten;
      var s := byProv[n];
      assert s.arr[..s.len] == lists[n];
      assert forall k :: 0 <= k < s.len ==> s.arr[k] == lists[n][k];
      found := OverwriteMember(s, adm);
      if found {
        assert OtherSlicesOk(n);
        SetSlice(n, Slice(s.arr, s.len - 1));
      } else {
        assert s.arr[..s.len] == lists[n];
      }
    }

    /** How the removal of an admin ends: it must be known, not the last super admin, its provisioner must be among
        `provisioners`, and be the one with whose name the admin was stored. */
    ghost function RemoveResult(id: string): AdminResult
      reads this, byID.Values, provisioners
    {
      if id !in byID then AdminFailed(NotFound)
      else
        var adm := byID[id];
        if adm.typ == SuperAdmin && superCount == 1 then AdminFailed(LastSuperAdmin)
        else if adm.provisionerId !in provisioners.names then AdminFailed(UnknownProvisioner)
        else if adm in home && provisioners.names[adm.provisionerId] == home[adm] then AdminOk
        else AdminFailed(NotListed)
    }

    /** Remove: takes an admin out of every index. */
    method Remove(id: string) returns (r: AdminResult)
      requires Indexed()
      modifies this, Arrays()
      ensures Indexed() && Arrays() == old(Arrays()) && home == old(home)
      ensures r == old(RemoveResult(id))
      ensures r.AdminFailed? ==>
        unchanged(this) && forall n :: n in byProv ==> byProv[n].arr[..] == old(byProv[n].arr[..])
      ensures r.AdminOk? ==> byID == old(byID) - {id} && Members() == old(Members()) - {old(byID[id])}
      ensures r.AdminOk? ==>
        && old(byID[id]) in home && var n := home[old(byID[id])];
        && n in old(byProv) && var s := old(byProv[n]);
        && 0 < s.len <= s.arr.Length && byProv == old(byProv)[n := Slice(s.arr, s.len - 1)] && Overwritten(s, id)
      ensures old(Counted()) ==> Counted()
      ensures old(Counted()) && old(Supers()) != {} ==> Supers() != {}
    {
      hide Agree, Counted, SlicesOk, SortedById, Supers;
      if id !in byID {
        return AdminFailed(NotFound);
      }
      var adm := byID[id];
      if adm.typ == SuperAdmin && superCount == 1 {
        return AdminFailed(LastSuperAdmin);
      }
      if adm.provisionerId !in provisioners.names {
        return AdminFailed(UnknownProvisioner);
      }
      IdFacts(byID, bySubProv, lists, sorted, home, id);
      MemberFacts(byID, bySubProv, lists, sorted, home, adm);
      var provName := provisioners.names[adm.provisionerId];
      assert home[adm] in byProv;
      if provName !in byProv {
        return AdminFailed(NotListed);
      }
      assert forall a :: a in Members() ==> allocated(a);
      ghost var other := if Counted() && Supers() != {} then OtherSuper(this, adm) else adm;
      var i := Search(adm.id);
      SearchFinds(sorted, adm, i);
      var found := RemoveAt(adm, provName, i);
      if found && other != adm { IsSuper(this, other); }
      return if found then AdminOk else AdminFailed(NotListed);
    }

    /** The second half of Remove: the admin is at position `i` of the sorted list. */
    method RemoveAt(adm: Admin, provName: string, i: nat) returns (found: bool)
      requires Indexed() && i < |sorted| && sorted[i] == adm && adm.id in byID && byID[adm.id] == adm
      requires provName in byProv
      modifies this, Arrays()
      ensures Indexed() && Arrays() == old(Arrays()) && home == old(home)
      ensures adm in home && (found <==> home[adm] == provName)
      ensures !found ==> unchanged(this) && forall n :: n in byProv ==> byProv[n].arr[..] == old(byProv[n].arr[..])
      ensures found ==> byID == old(byID) - {adm.id} && Members() == old(Members()) - {adm}
      ensures found ==>
        var s := old(byProv[provName]);
        && 0 < s.len <= s.arr.Length && byProv == old(byProv)[provName := Slice(s.arr, s.len - 1)]
        && Overwritten(s, adm.id)
      ensures old(Counted()) ==> Counted()
    {
      hide Agree, Counted, SlicesOk, Overwritten, ReplaceByLast;
      assert forall a :: a in Members() ==> allocated(a);
      ListHolds(byID, bySubProv, lists, sorted, home, provName, adm);
      found := TakeFromSlice(provName, adm);
      if found {
        RemoveElsewhere(adm, provName, i, old(lists));
      }
    }

    /** The rest of Remove: the slice has lost the admin, which is at position `i` of the sorted list. */
    method RemoveElsewhere(adm: Admin, provName: string, i: nat, ghost slices: map<string, seq<Admin>>)
      requires Agree(byID, bySubProv, slices, sorted, home) && i < |sorted| && sorted[i] == adm
      requires adm in home && home[adm] == provName && provName in slices && slices[provName] != []
      requires lists == slices[provName := ReplaceByLast(slices[provName], adm)]
      modifies this`byID, this`bySubProv, this`sorted, this`superCount, this`superCountByProvisioner
      ensures Agree(byID, bySubProv, lists, sorted, home)
      ensures byID == old(byID) - {adm.id} && Members() == old(Members()) - {adm}
      ensures old(Counted()) ==> Counted()
    {
      hide Agree, Counted, ReplaceByLast;
      AgreeAfterRemove(byID, bySubProv, slices, sorted, home, adm, i);
      Uncount(adm, provName, i);
      byID := byID - {adm.id};
      bySubProv := bySubProv - {(adm.subject, provName)};
    }

    /** Shifts the sorted list over position `i`. */
    method DropSorted(adm: Admin, i: nat)
      requires i < |sorted| && sorted[i] == adm && forall k :: 0 <= k < |sorted| && k != i ==> sorted[k] != adm
      modifies this`sorted
      ensures sorted == old(sorted)[..i] + old(sorted)[i + 1..]
      ensures Members() == old(Members()) - {adm}
      ensures Supers() == old(Supers()) - {adm}
    {
      sorted := sorted[..i] + sorted[i + 1..];
      assert forall k :: 0 <= k < |sorted| ==> sorted[k] == old(sorted)[if k < i then k else k + 1];
      forall k | 0 <= k < |old(sorted)| && k != i ensures old(sorted)[k] in sorted {
        assert sorted[if k < i then k else k - 1] == old(sorted)[k];
      }
    }

    /** Takes an admin out of the sorted list and of the counts. */
    method Uncount(adm: Admin, provName: string, i: nat)
      requires i < |sorted| && sorted[i] == adm && forall k :: 0 <= k < |sorted| && k != i ==> sorted[k] != adm
      requires adm in home && home[adm] == provName
      modifies this`sorted, this`superCount, this`superCountByProvisioner
      ensures sorted == old(sorted)[..i] + old(sorted)[i + 1..] && Members() == old(Members()) - {adm}
      ensures old(Counted()) ==> Counted()
    {
      hide CountsOk;
      ghost var supers := Supers();
      assert adm in supers <==> adm.typ == SuperAdmin;
      DropSorted(adm, i);
      if adm.typ == SuperAdmin {
        superCount := superCount - 1;
        superCountByProvisioner := superCountByProvisioner[provName := SuperCountByProvisioner(provName) - 1];
        assert Supers() == supers - {adm};
        if old(Counted()) {
          CountedAfterRemove(old(superCount), old(superCountByProvisioner), supers, home, adm);
        }
      } else {
        assert Supers() == supers;
      }
    }

    /** Update: changes the type of an admin in place, so in every index at once; the counters stay. */
    method Update(id: string, typ: AdminType) returns (r: AdminResult)
      requires Indexed() && id in byID
      modifies byID[id]
      ensures Indexed()
      ensures r == if old(byID[id].typ) != typ && old(byID[id].typ) == SuperAdmin && superCount == 1
                   then AdminFailed(LastSuperAdmin) else AdminOk
      ensures byID[id].typ == if r.AdminOk? then typ else old(byID[id].typ)
      ensures old(Counted()) ==> (Counted() <==> byID[id].typ == old(byID[id].typ))
      ensures old(Counted()) && old(Supers()) != {} ==> Supers() != {}
    {
      hide Agree;
      IdFacts(byID, bySubProv, lists, sorted, home, id);
      var adm := byID[id];
      if adm.typ == typ {
        return AdminOk;
      }
      if adm.typ == SuperAdmin && superCount == 1 {
        return AdminFailed(LastSuperAdmin);
      }
      adm.typ := typ;
      assert Supers() == if typ == SuperAdmin then old(Supers()) + {adm} else old(Supers()) - {adm};
      return AdminOk;
    }

    /** Find: the page of admins that starts at the cursor, and the cursor of the next one. */
    method Find(cursor: string, limit: int) returns (page: seq<Admin>, next: string)
      requires Indexed()
      ensures Ids(page) == Page(Ids(sorted), cursor, Clamp(limit)) && next == Next(Ids(sorted), cursor, Clamp(limit))
      ensures page == sorted[Skip(Ids(sorted), cursor)..PageEnd(Ids(sorted), cursor, Clamp(limit))]
    {
      hide Agree, SlicesOk, Skip, Less, SortedById, PageEnd, Next, Page;
      ListIsSorted(byID, bySubProv, lists, sorted, home);
      var max := limit;
      if limit <= 0 {
        max := DEFAULT_LIMIT;
      } else if limit > MAX_LIMIT {
        max := MAX_LIMIT;
      }
      var i := Search(cursor);
      ghost var p := i;
      page := [];
      while i < |sorted| && |page| < max
        invariant p <= i <= |sorted| && |page| == i - p <= max && page == sorted[p..i]
      {
        page := page + [sorted[i]];
        i := i + 1;
      }
      next := if i < |sorted| then sorted[i].id else "";
      ScanIsPage(sorted, cursor, max, p, i);
    }
  }

  lemma NewSubject(c: Collection, k: (string, string))
    requires c.Indexed() && forall a :: a in c.Members() ==> a.subject != k.0
    ensures k !in c.bySubProv
  {
    hide Collection.SlicesOk;
    assert forall a :: a in c.sorted ==> a in c.Members();
  }

  lemma TwoCounted(c: Collection, a: Admin, b: Admin)
    requires c.Counted() && c.Members() == {a, b} && a != b && a.typ == b.typ == SuperAdmin
    ensures c.superCount == 2
  {
    assert forall x :: x in c.sorted <==> x in c.Members();
    assert c.Supers() == {a, b};
  }

  /** Two super admins of one provisioner are stored. */
  method StoreTwo(p: Provisioners, a: Admin, b: Admin, provId: string, provName: string) returns (c: Collection)
    requires a.provisionerId == b.provisionerId == provId && a.id != b.id && a.subject != b.subject
    requires a.typ == b.typ == SuperAdmin
    ensures fresh(c) && c.provisioners == p && c.Indexed() && c.Counted() && fresh(c.Arrays())
    ensures c.byID == map[a.id := a, b.id := b] && c.Members() == {a, b} && c.superCount == 2
    ensures c.home == map[a := provName, b := provName]
  {
    hide Collection.Indexed, Collection.Counted;
    c := new Collection(p);
    var r := c.Store(a, provId, provName);
    NewSubject(c, (b.subject, provName));
    r := c.Store(b, provId, provName);
    TwoCounted(c, a, b);
  }

  lemma NoSupers(c: Collection, a: Admin)
    requires c.Members() == {a} && a.typ == PlainAdmin
    ensures c.Supers() == {}
  {
    assert forall x :: x in c.sorted <==> x in c.Members();
  }

  /** With exact counters the guard of Remove leaves another super admin. */
  ghost function OtherSuper(c: Collection, adm: Admin): (other: Admin)
    reads c, c.Members(), adm
    requires c.Counted() && c.Supers() != {} && (adm.typ == SuperAdmin ==> c.superCount != 1)
    ensures other in c.Members() && other.typ == SuperAdmin && other != adm
  {
    assert c.Supers() != {adm};
    var a :| a in c.Supers() && a != adm;
    a
  }

  lemma IsSuper(c: Collection, a: Admin)
    requires a in c.Members() && a.typ == SuperAdmin
    ensures c.Supers() != {}
  {
    assert a in c.Supers();
  }

  /** What the drift of the counters leads to: of two super admins one is made plain, and the other is then removed,
      although Remove guards the last one. */
  method LoseSuperAdmins() returns (c: Collection, r: AdminResult)
    ensures r == AdminOk && c.Indexed() && c.Members() != {} && c.Supers() == {}
  {
    hide Collection.Indexed, Collection.Counted, Collection.Supers, Collection.Overwritten;
    var provisioners := new Provisioners(map["p" := "P"]);
    var a := new Admin("a", "p", "alice", SuperAdmin);
    var b := new Admin("b", "p", "bob", SuperAdmin);
    c := StoreTwo(provisioners, a, b, "p", "P");
    r := c.Update("a", PlainAdmin);
    assert c.byID["a"] == a && a.typ == PlainAdmin;
    r := c.Remove("b");
    assert c.Members() == {a};
    NoSupers(c, a);
  }

  /** The positions that a scan of at most `max` admins reaches are those of the page. */
  lemma ScanIsPage(s: seq<Admin>, cursor: string, max: nat, p: nat, i: nat)
    requires p <= i <= |s| && i - p <= max && (i < |s| ==> i - p == max)
    requires forall k :: 0 <= k < p ==> Less(s[k].id, cursor)
    requires forall k :: p <= k < |s| ==> !Less(s[k].id, cursor)
    ensures p == Skip(Ids(s), cursor) && i == PageEnd(Ids(s), cursor, max) && Ids(s[p..i]) == Page(Ids(s), cursor, max)
    ensures Next(Ids(s), cursor, max) == if i < |s| then s[i].id else ""
  {
    hide Skip, Less;
    SearchIsSkip(s, cursor, p);
  }

  function Ids(s: seq<Admin>): (r: seq<string>)
    ensures |r| == |s| && forall i :: 0 <= i < |s| ==> r[i] == s[i].id
  {
    seq(|s|, i requires 0 <= i < |s| => s[i].id)
  }

  lemma SearchIsSkip(s: seq<Admin>, cursor: string, i: nat)
    requires i <= |s|
    requires forall k :: 0 <= k < i ==> Less(s[k].id, cursor)
    requires forall k :: i <= k < |s| ==> !Less(s[k].id, cursor)
    ensures i == Skip(Ids(s), cursor)
  {
    hide Skip, Less;
    var p := Skip(Ids(s), cursor);
    assert p < |s| ==> Ids(s)[p] == s[p].id;
    assert i < |s| ==> Ids(s)[i] == s[i].id;
  }

  lemma NothingBelowEmpty(ids: seq<string>)
    ensures Skip(ids, "") == 0
  {}

  lemma ListIsSorted(byID: map<string, Admin>, bySubProv: map<(string, string), Admin>, lists: map<string, seq<Admin>>,
                     sorted: seq<Admin>, home: map<Admin, string>)
    requires Agree(byID, bySubProv, lists, sorted, home)
    ensures SortedById(sorted)
  {}

  /** AdminClient.GetAdmins against a collection that does not change: all admins, in order. */
  method GetAdmins(c: Collection) returns (admins: seq<Admin>)
    requires c.Indexed()
    ensures admins == c.sorted
  {
    hide Agree, Less, Page;
    ListIsSorted(c.byID, c.bySubProv, c.lists, c.sorted, c.home);
    var cursor := "";
    admins := [];
    ghost var ids := Ids(c.sorted);
    assert StrictlySorted(ids);
    NothingBelowEmpty(ids);
    while true
      invariant Skip(ids, cursor) == |admins| && admins == c.sorted[..|admins|]
      decreases |c.sorted| - |admins|
    {
      var page, next := c.Find(cursor, 100);
      NextIsEmptyAtTheEnd(ids, cursor, 100);
      admins := admins + page;
      if next == "" {
        return;
      }
      SkipTo(ids, PageEnd(ids, cursor, 100));
      cursor := next;
    }
  }
}
