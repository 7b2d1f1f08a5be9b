/** The name policy engine (policy/engine.go, policy/validate.go): scans over constraints that stop at
    the first match, and what they decide. How a name is read and compared is a parameter here. */
module PolicyEngine {
  import opened PolicyDomain

  // ---------------------------------------------------------------------------------------------
  // One name against the constraints of its kind

  datatype Reason = NotAllowed | CannotParseDomain | CannotParseRFC822Name | CannotMatchNameToConstraint

  datatype Check = Passed | Failed(reason: Reason)

  /** The first answer of the matcher that is not Differs. */
  function First<C>(compare: C -> Match, constraints: seq<C>): Match {
    if constraints == [] then Differs
    else if compare(constraints[0]) != Differs then compare(constraints[0])
    else First(compare, constraints[1..])
  }

  /** Excluded constraints come first; then a permitted one has to match, if there are any. */
  function CheckName<C>(compare: C -> Match, permitted: seq<C>, excluded: seq<C>): Check {
    match First(compare, excluded)
    case Matches => Failed(NotAllowed)
    case Unmatchable => Failed(CannotMatchNameToConstraint)
    case Differs =>
      match First(compare, permitted)
      case Matches => Passed
      case Unmatchable => Failed(CannotMatchNameToConstraint)
      case Differs => if permitted == [] then Passed else Failed(NotAllowed)
  }

  lemma {:induction false} FirstStep<C>(compare: C -> Match, a: seq<C>, b: seq<C>)
    ensures First(compare, a + b) == if First(compare, a) != Differs then First(compare, a) else First(compare, b)
  {
    if a == [] {
      assert a + b == b;
    } else {
      assert (a + b)[1..] == a[1..] + b;
      FirstStep(compare, a[1..], b);
    }
  }

  lemma FirstOne<C>(compare: C -> Match, c: C)
    ensures First(compare, [c]) == compare(c)
  {
    assert [c][1..] == [];
  }

  /** checkNameConstraints. */
  method CheckNameConstraints<C>(compare: C -> Match, permitted: seq<C>, excluded: seq<C>) returns (r: Check)
    ensures r == CheckName(compare, permitted, excluded)
  {
    for i := 0 to |excluded|
      invariant First(compare, excluded[..i]) == Differs
    {
      var m := compare(excluded[i]);
      Advance(compare, excluded, i);
      if m == Unmatchable {
        return Failed(CannotMatchNameToConstraint);
      }
      if m == Matches {
        return Failed(NotAllowed);
      }
    }
    assert excluded[..|excluded|] == excluded;
    var ok := true;
    for i := 0 to |permitted|
      invariant First(compare, permitted[..i]) == Differs
      invariant ok == (i == 0)
    {
      var m := compare(permitted[i]);
      Advance(compare, permitted, i);
      if m == Unmatchable {
        return Failed(CannotMatchNameToConstraint);
      }
      ok := m == Matches;
      if ok {
        return Passed;
      }
    }
    assert permitted[..|permitted|] == permitted;
    r := if ok then Passed else Failed(NotAllowed);
  }

  lemma Advance<C>(compare: C -> Match, constraints: seq<C>, i: nat)
    requires i < |constraints| && First(compare, constraints[..i]) == Differs
    ensures First(compare, constraints[..i + 1]) == compare(constraints[i])
    ensures compare(constraints[i]) != Differs ==> First(compare, constraints) == compare(constraints[i])
  {
    var c := constraints[i];
    FirstOne(compare, c);
    FirstStep(compare, constraints[..i], [c]);
    assert constraints[..i + 1] == constraints[..i] + [c];
    FirstStep(compare, constraints[..i + 1], constraints[i + 1..]);
    assert constraints == constraints[..i + 1] + constraints[i + 1..];
  }

  lemma {:induction false} FirstIsDecision<C>(compare: C -> Match, constraints: seq<C>)
    requires forall c :: c in constraints ==> compare(c) != Unmatchable
    ensures First(compare, constraints) ==
            if exists c :: c in constraints && compare(c) == Matches then Matches else Differs
  {
    if constraints != [] {
      var rest := constraints[1..];
      FirstIsDecision(compare, rest);
      assert constraints == [constraints[0]] + rest;
      assert forall c :: c in constraints <==> c == constraints[0] || c in rest;
    }
  }

  /** When no comparison ends in an error, the scans decide by the sets of constraints alone: a name
      passes exactly when no excluded one matches, and a permitted one does or there is none. */
  lemma CheckIsDecision<C>(compare: C -> Match, permitted: seq<C>, excluded: seq<C>)
    requires forall c :: c in permitted || c in excluded ==> compare(c) != Unmatchable
    ensures CheckName(compare, permitted, excluded) ==
            if (forall c :: c in excluded ==> compare(c) != Matches)
               && (permitted == [] || exists c :: c in permitted && compare(c) == Matches)
            then Passed else Failed(NotAllowed)
  {
    hide First;
    FirstIsDecision(compare, permitted);
    FirstIsDecision(compare, excluded);
  }

  /** The first constraint that does not differ answers so. */
  ghost predicate StopsAt<C(!new)>(compare: C -> Match, constraints: seq<C>, m: Match) {
    exists i :: 0 <= i < |constraints| && compare(constraints[i]) == m
      && forall j :: 0 <= j < i ==> compare(constraints[j]) == Differs
  }

  lemma {:induction false} FirstIs<C(!new)>(compare: C -> Match, constraints: seq<C>, m: Match)
    requires m != Differs
    ensures First(compare, constraints) == m <==> StopsAt(compare, constraints, m)
  {
    if constraints != [] && compare(constraints[0]) == Differs {
      var rest := constraints[1..];
      FirstIs(compare, rest, m);
      if StopsAt(compare, rest, m) {
        var i :| 0 <= i < |rest| && compare(rest[i]) == m && forall j :: 0 <= j < i ==> compare(rest[j]) == Differs;
        assert constraints[i + 1] == rest[i] && forall j :: 0 < j <= i ==> constraints[j] == rest[j - 1];
      }
      if StopsAt(compare, constraints, m) {
        var i :| 0 <= i < |constraints| && compare(constraints[i]) == m
          && forall j :: 0 <= j < i ==> compare(constraints[j]) == Differs;
        assert rest[i - 1] == constraints[i] && forall j :: 0 <= j < i - 1 ==> rest[j] == constraints[j + 1];
      }
    } else if constraints != [] {
      assert compare(constraints[0]) == m ==> StopsAt(compare, constraints, m);
    }
  }

  /** What the scans answer when comparisons may fail: an error is reported that comes before any match, the excluded
      constraints first. */
  lemma CheckIs<C(!new)>(compare: C -> Match, permitted: seq<C>, excluded: seq<C>)
    ensures
      var r := CheckName(compare, permitted, excluded);
      var clear := !StopsAt(compare, excluded, Matches) && !StopsAt(compare, excluded, Unmatchable);
      && (r == Passed <==> clear && (permitted == [] || StopsAt(compare, permitted, Matches)))
      && (r == Failed(CannotMatchNameToConstraint) <==>
            StopsAt(compare, excluded, Unmatchable) || (clear && StopsAt(compare, permitted, Unmatchable)))
      && (r in {Passed, Failed(NotAllowed), Failed(CannotMatchNameToConstraint)})
  {
    hide First, StopsAt;
    FirstIs(compare, excluded, Matches);
    FirstIs(compare, excluded, Unmatchable);
    FirstIs(compare, permitted, Matches);
    FirstIs(compare, permitted, Unmatchable);
    if permitted == [] { NothingStops(compare, permitted); }
  }

  lemma NothingStops<C(!new)>(compare: C -> Match, constraints: seq<C>)
    requires constraints == []
    ensures First(compare, constraints) == Differs
  {}

  // ---------------------------------------------------------------------------------------------
  // Duplicates

  /** The items whose key was not seen before, in order. */
  function Unseen<C, K(==)>(key: C -> K, items: seq<C>, seen: set<K>): seq<C> {
    if items == [] then []
    else if key(items[0]) in seen then Unseen(key, items[1..], seen)
    else [items[0]] + Unseen(key, items[1..], seen + {key(items[0])})
  }

  function Unique<C, K(==)>(key: C -> K, items: seq<C>): seq<C> {
    Unseen(key, items, {})
  }

  ghost predicate Occurs<C, K>(key: C -> K, items: seq<C>, k: K) {
    exists i :: 0 <= i < |items| && key(items[i]) == k
  }

  lemma {:induction false} UnseenStep<C, K>(key: C -> K, items: seq<C>, seen: set<K>, c: C)
    ensures Unseen(key, items + [c], seen) == Unseen(key, items, seen) +
              if key(c) in seen || Occurs(key, items, key(c)) then [] else [c]
  {
    var more := items + [c];
    if items == [] {
      assert more == [c] && more[1..] == [];
      assert Unseen(key, [], seen + {key(c)}) == [];
    } else {
      assert more[1..] == items[1..] + [c];
      var seen' := if key(items[0]) in seen then seen else seen + {key(items[0])};
      UnseenStep(key, items[1..], seen', c);
      assert forall i :: 0 < i < |items| ==> items[i] == items[1..][i - 1];
      assert Occurs(key, items, key(c)) <==> key(items[0]) == key(c) || Occurs(key, items[1..], key(c));
    }
  }

  lemma UniqueStep<C, K>(key: C -> K, items: seq<C>, c: C)
    ensures Unique(key, items + [c]) ==
            if Occurs(key, items, key(c)) then Unique(key, items) else Unique(key, items) + [c]
  {
    UnseenStep(key, items, {}, c);
    assert Unique(key, items) + [] == Unique(key, items);
  }

  lemma OccursStep<C, K>(key: C -> K, items: seq<C>, c: C)
    ensures forall k :: Occurs(key, items + [c], k) <==> k == key(c) || Occurs(key, items, k)
  {
    var more := items + [c];
    forall k | Occurs(key, items, k) || k == key(c) ensures Occurs(key, more, k) {
      if k == key(c) { assert key(more[|items|]) == k; } else {
        var i :| 0 <= i < |items| && key(items[i]) == k;
        assert key(more[i]) == k;
      }
    }
  }

  /** removeDuplicates and removeDuplicateIPNets: the key is the string itself, or the CIDR notation. */
  method RemoveDuplicates<C, K(==)>(key: C -> K, items: seq<C>) returns (r: seq<C>)
    ensures r == Unique(key, items)
  {
    hide Unique, Occurs;
    if |items| <= 1 {
      UniqueShort(key, items);
      return items;
    }
    var keys: set<K> := {};
    r := [];
    NoneYet(key, items);
    for i := 0 to |items|
      invariant r == Unique(key, items[..i])
      invariant forall k :: k in keys <==> Occurs(key, items[..i], k)
    {
      UniqueStep(key, items[..i], items[i]);
      assert items[..i + 1] == items[..i] + [items[i]];
      OccursStep(key, items[..i], items[i]);
      var known := key(items[i]) in keys;
      assert known <==> Occurs(key, items[..i], key(items[i]));
      assert known ==> Unique(key, items[..i] + [items[i]]) == r;
      assert !known ==> Unique(key, items[..i] + [items[i]]) == r + [items[i]];
      if !known {
        keys := keys + {key(items[i])};
        r := r + [items[i]];
      }
    }
    assert items[..|items|] == items;
  }

  lemma NoneYet<C, K>(key: C -> K, items: seq<C>)
    ensures Unique(key, items[..0]) == [] && forall k :: !Occurs(key, items[..0], k)
  {}

  lemma UniqueShort<C, K>(key: C -> K, items: seq<C>)
    requires |items| <= 1
    ensures Unique(key, items) == items
  {
    if |items| == 1 {
      assert Unseen(key, items[1..], {} + {key(items[0])}) == [];
    }
  }

  /** The result has every key of the list, and none twice. */
  lemma UniqueIsExact<C, K(!new)>(key: C -> K, items: seq<C>)
    ensures var r := Unique(key, items);
            && (forall k :: Occurs(key, r, k) <==> Occurs(key, items, k))
            && (forall i, j :: 0 <= i < j < |r| ==> key(r[i]) != key(r[j]))
  {
    UnseenIsExact(key, items, {});
  }

  lemma {:induction false} UnseenIsExact<C, K(!new)>(key: C -> K, items: seq<C>, seen: set<K>)
    ensures var r := Unseen(key, items, seen);
            && (forall k :: Occurs(key, r, k) <==> Occurs(key, items, k) && k !in seen)
            && (forall i, j :: 0 <= i < j < |r| ==> key(r[i]) != key(r[j]))
  {
    var r := Unseen(key, items, seen);
    if items != [] {
      var c, rest := items[0], items[1..];
      OccursFirst(key, c, rest);
      assert items == [c] + rest;
      if key(c) in seen {
        UnseenIsExact(key, rest, seen);
      } else {
        var more := Unseen(key, rest, seen + {key(c)});
        UnseenIsExact(key, rest, seen + {key(c)});
        OccursFirst(key, c, more);
        assert r == [c] + more;
        forall j | 0 < j < |r| ensures key(r[j]) != key(c) {
          assert r[j] == more[j - 1];
          assert Occurs(key, more, key(more[j - 1]));
        }
        forall i, j | 0 < i < j < |r| ensures key(r[i]) != key(r[j]) {
          assert r[i] == more[i - 1] && r[j] == more[j - 1];
        }
      }
    }
  }

  lemma OccursFirst<C, K(!new)>(key: C -> K, c: C, items: seq<C>)
    ensures forall k :: Occurs(key, [c] + items, k) <==> k == key(c) || Occurs(key, items, k)
  {
    var more := [c] + items;
    forall k | k == key(c) || Occurs(key, items, k) ensures Occurs(key, more, k) {
      if k == key(c) { assert key(more[0]) == k; } else {
        var i :| 0 <= i < |items| && key(items[i]) == k;
        assert key(more[i + 1]) == k;
      }
    }
  }

  /** Comparing cannot tell items with the same key apart. */
  ghost predicate Respects<C(!new), K>(compare: C -> Match, key: C -> K) {
    forall c, d :: key(c) == key(d) ==> compare(c) == compare(d)
  }

  lemma {:induction false} UnseenKeepsFirst<C(!new), K>(compare: C -> Match, key: C -> K, items: seq<C>, seen: set<K>)
    requires Respects(compare, key) && forall c :: key(c) in seen ==> compare(c) == Differs
    ensures First(compare, Unseen(key, items, seen)) == First(compare, items)
  {
    if items != [] {
      var c, rest := items[0], items[1..];
      if key(c) in seen {
        UnseenKeepsFirst(compare, key, rest, seen);
      } else {
        var more := Unseen(key, rest, seen + {key(c)});
        assert ([c] + more)[1..] == more;
        if compare(c) == Differs {
          UnseenKeepsFirst(compare, key, rest, seen + {key(c)});
        }
      }
    }
  }

  lemma UniqueKeepsNone<C, K>(key: C -> K, items: seq<C>)
    ensures Unique(key, items) == [] <==> items == []
  {}

  /** Removing duplicate constraints changes neither whether a name passes nor the reason why not. */
  lemma DuplicatesDoNotMatter<C(!new), K>(compare: C -> Match, key: C -> K, permitted: seq<C>, excluded: seq<C>)
    requires Respects(compare, key)
    ensures CheckName(compare, Unique(key, permitted), Unique(key, excluded)) == CheckName(compare, permitted, excluded)
  {
    hide First;
    UnseenKeepsFirst(compare, key, permitted, {});
    UnseenKeepsFirst(compare, key, excluded, {});
    UniqueKeepsNone(key, permitted);
  }
}
