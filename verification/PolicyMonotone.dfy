/** What one more constraint can change: when an additional exclusion only refuses, and an additional permission only
    allows, for certificates with their names and common name (policy/validate.go). */
module PolicyMonotone {
  import opened PolicyDomain
  import opened PolicyEngine
  import opened PolicyNames

  /** The policy with `c` among the excluded constraints of a kind, at any position. */
  function Excluding(p: Policy, kind: Kind, before: seq<string>, c: string, after: seq<string>): Policy {
    p.(excluded := p.excluded.With(kind, before + [c] + after))
  }

  /** The policy with `c` appended to the permitted constraints of a kind. */
  function Permitting(p: Policy, kind: Kind, c: string): Policy {
    p.(permitted := p.permitted.With(kind, p.permitted.Of(kind) + [c]))
  }

  /** The excluded constraint stops or fails on every readable name of its kind. */
  ghost predicate StopsAll(rules: Rules, kind: Kind, c: string) {
    forall name :: rules.parse(kind, name).Readable? ==> rules.compare(kind, rules.parse(kind, name).name, c) != Differs
  }

  /** When one more exclusion can only refuse names: they are of another kind, or its kind has constraints, or nothing
      is permitted explicitly, or it leaves no name of its kind over. */
  ghost predicate ExclusionIsSafe(rules: Rules, p: Policy, kind: Kind, c: string) {
    !SanKind(kind) || Open(p, kind) || StopsAll(rules, kind, c)
  }

  lemma SizeWith(l: Lists, kind: Kind, list: seq<string>)
    ensures l.With(kind, list).Size() == l.Size() - |l.Of(kind)| + |list|
  {}

  lemma SizeOf(l: Lists, kind: Kind)
    ensures |l.Of(kind)| <= l.Size()
  {}

  lemma FirstWithout<C>(compare: C -> Match, before: seq<C>, c: C, after: seq<C>)
    requires First(compare, before + [c] + after) == Differs
    ensures First(compare, before + after) == Differs && compare(c) == Differs
  {
    hide First;
    FirstStep(compare, before + [c], after);
    FirstStep(compare, before, [c]);
    FirstStep(compare, before, after);
    FirstOne(compare, c);
  }

  lemma ExclusionKeepsName(rules: Rules, p: Policy, kind: Kind, before: seq<string>, c: string, after: seq<string>,
                           k: Kind, name: string)
    requires p.excluded.Of(kind) == before + after && ExclusionIsSafe(rules, p, kind, c) && SanKind(k)
    requires ValidateName(rules, Excluding(p, kind, before, c, after), k, name).Allowed?
    ensures ValidateName(rules, p, k, name).Allowed?
  {
    hide First;
    match rules.parse(k, name)
    case Unreadable(_) =>
    case Readable(n) =>
      if k == kind { FirstWithout(rules.Compare(k, n), before, c, after); }
  }

  /** Every set of names that `q` allows is allowed by `p`. */
  ghost predicate AllowsAll(rules: Rules, p: Policy, q: Policy) {
    forall names :: Validate(rules, q, names).Allowed? ==> Validate(rules, p, names).Allowed?
  }

  lemma SafeExclusionOnlyRefuses(rules: Rules, p: Policy, kind: Kind, before: seq<string>, c: string,
                                 after: seq<string>)
    requires p.excluded.Of(kind) == before + after && ExclusionIsSafe(rules, p, kind, c)
    ensures AllowsAll(rules, p, Excluding(p, kind, before, c, after))
  {
    hide Validate, ValidateName, ExclusionIsSafe;
    var q := Excluding(p, kind, before, c, after);
    SizeWith(p.excluded, kind, before + [c] + after);
    forall names | Validate(rules, q, names).Allowed? ensures Validate(rules, p, names).Allowed? {
      AllowedMeans(rules, p, names);
      AllowedMeans(rules, q, names);
      forall k, i | SanKind(k) && 0 <= i < |names.Of(k)| ensures ValidateName(rules, p, k, names.Of(k)[i]).Allowed? {
        ExclusionKeepsName(rules, p, kind, before, c, after, k, names.Of(k)[i]);
      }
    }
  }

  /** The only name is one of this kind. */
  function Only(kind: Kind, name: string): Lists {
    Lists([], [], [], [], [], []).With(kind, [name])
  }

  lemma OnlyMeans(rules: Rules, p: Policy, kind: Kind, name: string)
    requires SanKind(kind)
    ensures Validate(rules, p, Only(kind, name)).Allowed? <==>
            p.Total() == 0 || ValidateName(rules, p, kind, name).Allowed?
  {
    hide Validate, ValidateName;
    var names := Only(kind, name);
    AllowedMeans(rules, p, names);
    assert names.Of(kind)[0] == name;
    forall k, i | SanKind(k) && 0 <= i < |names.Of(k)| ensures k == kind && names.Of(k)[i] == name {}
  }

  lemma UnsafeExclusionAllows(rules: Rules, p: Policy, kind: Kind, before: seq<string>, c: string, after: seq<string>)
    requires p.excluded.Of(kind) == before + after && !ExclusionIsSafe(rules, p, kind, c)
    ensures !AllowsAll(rules, p, Excluding(p, kind, before, c, after))
  {
    hide Validate;
    var q := Excluding(p, kind, before, c, after);
    var name :| rules.parse(kind, name).Readable? && rules.compare(kind, rules.parse(kind, name).name, c) == Differs;
    OnlyMeans(rules, p, kind, name);
    OnlyMeans(rules, q, kind, name);
    SizeOf(p.permitted, kind);
    assert before == [] && after == [] && q.excluded.Of(kind) == [c];
    FirstOne(rules.Compare(kind, rules.parse(kind, name).name), c);
    assert Validate(rules, q, Only(kind, name)).Allowed? && !Validate(rules, p, Only(kind, name)).Allowed?;
  }

  lemma NameExclusions(rules: Rules, p: Policy, kind: Kind, before: seq<string>, c: string, after: seq<string>)
    requires p.excluded.Of(kind) == before + after
    ensures AllowsAll(rules, p, Excluding(p, kind, before, c, after)) <==> ExclusionIsSafe(rules, p, kind, c)
  {
    hide AllowsAll, ExclusionIsSafe;
    if ExclusionIsSafe(rules, p, kind, c) {
      SafeExclusionOnlyRefuses(rules, p, kind, before, c, after);
    } else {
      UnsafeExclusionAllows(rules, p, kind, before, c, after);
    }
  }

  /** The name can be read, and no excluded constraint of its kind stops it or fails on it. */
  predicate Passes(rules: Rules, p: Policy, kind: Kind, name: string) {
    && rules.parse(kind, name).Readable?
    && First(rules.Compare(kind, rules.parse(kind, name).name), p.excluded.Of(kind)) == Differs
  }

  /** The permitted constraint matches every readable name of its kind that the policy lets through so far. */
  ghost predicate CoversAll(rules: Rules, p: Policy, kind: Kind, c: string) {
    forall name :: Passes(rules, p, kind, name) ==> rules.compare(kind, rules.parse(kind, name).name, c) == Matches
  }

  /** No name of a kind without constraints, other than this one, can be read. */
  ghost predicate OthersUnreadable(rules: Rules, p: Policy, kind: Kind) {
    forall k, name :: SanKind(k) && k != kind && p.NumberOf(k) == 0 ==> rules.parse(k, name).Unreadable?
  }

  /** When one more permission can only allow names: its kind has one; or it matches all that its kind lets through,
      and it is not the first explicit permission, or closes no kind that lets a name through. */
  ghost predicate PermissionIsSafe(rules: Rules, p: Policy, kind: Kind, c: string) {
    || p.permitted.Of(kind) != []
    || (&& p.Total() > 0
        && (SanKind(kind) && Open(p, kind) ==> CoversAll(rules, p, kind, c))
        && (p.permitted.Size() == 0 ==> OthersUnreadable(rules, p, kind)))
  }

  lemma PermissionKeepsName(rules: Rules, p: Policy, kind: Kind, c: string, k: Kind, name: string)
    requires PermissionIsSafe(rules, p, kind, c) && SanKind(k) && ValidateName(rules, p, k, name).Allowed?
    ensures ValidateName(rules, Permitting(p, kind, c), k, name).Allowed?
  {
    hide First, OthersUnreadable, CoversAll;
    SizeWith(p.permitted, kind, p.permitted.Of(kind) + [c]);
    SizeOf(p.permitted, kind);
    if k == kind {
      PermissionKeepsOwn(rules, p, kind, c, name);
    } else if p.permitted.Of(kind) == [] && p.permitted.Size() == 0 && p.NumberOf(k) == 0 {
      UnreadableHere(rules, p, kind, k, name);
    }
  }

  lemma UnreadableHere(rules: Rules, p: Policy, kind: Kind, k: Kind, name: string)
    requires OthersUnreadable(rules, p, kind) && SanKind(k) && k != kind && p.NumberOf(k) == 0
    ensures rules.parse(k, name).Unreadable?
  {}

  lemma PermissionKeepsOwn(rules: Rules, p: Policy, kind: Kind, c: string, name: string)
    requires PermissionIsSafe(rules, p, kind, c) && SanKind(kind) && ValidateName(rules, p, kind, name).Allowed?
    ensures ValidateName(rules, Permitting(p, kind, c), kind, name).Allowed?
  {
    hide First, OthersUnreadable;
    SizeOf(p.permitted, kind);
    var n := rules.parse(kind, name).name;
    var compare := rules.Compare(kind, n);
    FirstStep(compare, p.permitted.Of(kind), [c]);
    FirstOne(compare, c);
    FirstNone(compare);
  }

  lemma FirstNone<C>(compare: C -> Match)
    ensures First(compare, []) == Differs
  {}

  lemma SafePermissionOnlyAllows(rules: Rules, p: Policy, kind: Kind, c: string)
    requires PermissionIsSafe(rules, p, kind, c)
    ensures AllowsAll(rules, Permitting(p, kind, c), p)
  {
    hide Validate, ValidateName, PermissionIsSafe;
    var q := Permitting(p, kind, c);
    NotEmpty(rules, p, kind, c);
    forall names | Validate(rules, p, names).Allowed? ensures Validate(rules, q, names).Allowed? {
      AllowedMeans(rules, p, names);
      AllowedMeans(rules, q, names);
      forall k, i | SanKind(k) && 0 <= i < |names.Of(k)| ensures ValidateName(rules, q, k, names.Of(k)[i]).Allowed? {
        PermissionKeepsName(rules, p, kind, c, k, names.Of(k)[i]);
      }
    }
  }

  lemma NotEmpty(rules: Rules, p: Policy, kind: Kind, c: string)
    requires PermissionIsSafe(rules, p, kind, c)
    ensures p.Total() > 0
  {
    hide CoversAll, OthersUnreadable;
    SizeOf(p.permitted, kind);
  }

  /** The three ways in which a permission refuses something new. */
  lemma UnsafePermissionRefuses(rules: Rules, p: Policy, kind: Kind, c: string)
    requires !PermissionIsSafe(rules, p, kind, c)
    ensures !AllowsAll(rules, Permitting(p, kind, c), p)
  {
    hide Validate, CoversAll, OthersUnreadable;
    if p.Total() == 0 {
      var k := if kind == Dns then Ip else Dns;
      ClosedKind(rules, p, kind, c, k, "");
    } else if p.permitted.Size() == 0 && !OthersUnreadable(rules, p, kind) {
      SomeOtherName(rules, p, kind, c);
    } else {
      SomeOwnName(rules, p, kind, c);
    }
  }

  lemma ClosedKind(rules: Rules, p: Policy, kind: Kind, c: string, k: Kind, name: string)
    requires SanKind(k) && k != kind && p.NumberOf(k) == 0 && p.permitted.Size() == 0
    requires p.Total() == 0 || rules.parse(k, name).Readable?
    ensures !AllowsAll(rules, Permitting(p, kind, c), p)
  {
    hide Validate, First;
    var q := Permitting(p, kind, c);
    SizeWith(p.permitted, kind, p.permitted.Of(kind) + [c]);
    OnlyMeans(rules, p, k, name);
    OnlyMeans(rules, q, k, name);
    if rules.parse(k, name).Readable? { FirstNone(rules.Compare(k, rules.parse(k, name).name)); }
    assert p.permitted.Of(k) == [] && p.excluded.Of(k) == [];
    assert Validate(rules, p, Only(k, name)).Allowed? && !Validate(rules, q, Only(k, name)).Allowed?;
  }

  lemma SomeOtherName(rules: Rules, p: Policy, kind: Kind, c: string)
    requires p.permitted.Size() == 0 && !OthersUnreadable(rules, p, kind)
    ensures !AllowsAll(rules, Permitting(p, kind, c), p)
  {
    hide Validate;
    var k, name :| SanKind(k) && k != kind && p.NumberOf(k) == 0 && rules.parse(k, name).Readable?;
    ClosedKind(rules, p, kind, c, k, name);
  }

  lemma SomeOwnName(rules: Rules, p: Policy, kind: Kind, c: string)
    requires p.Total() > 0 && SanKind(kind) && Open(p, kind) && p.permitted.Of(kind) == []
    requires !CoversAll(rules, p, kind, c)
    ensures !AllowsAll(rules, Permitting(p, kind, c), p)
  {
    hide Validate, First;
    var q := Permitting(p, kind, c);
    var name :| Passes(rules, p, kind, name) && rules.compare(kind, rules.parse(kind, name).name, c) != Matches;
    var compare := rules.Compare(kind, rules.parse(kind, name).name);
    FirstOne(compare, c);
    FirstNone(compare);
    SizeOf(q.permitted, kind);
    assert q.permitted.Of(kind) == [c];
    OnlyMeans(rules, p, kind, name);
    OnlyMeans(rules, q, kind, name);
    assert Validate(rules, p, Only(kind, name)).Allowed? && !Validate(rules, q, Only(kind, name)).Allowed?;
  }

  lemma NamePermissions(rules: Rules, p: Policy, kind: Kind, c: string)
    ensures AllowsAll(rules, Permitting(p, kind, c), p) <==> PermissionIsSafe(rules, p, kind, c)
  {
    hide AllowsAll, PermissionIsSafe;
    if PermissionIsSafe(rules, p, kind, c) {
      SafePermissionOnlyAllows(rules, p, kind, c);
    } else {
      UnsafePermissionRefuses(rules, p, kind, c);
    }
  }

  // ---------------------------------------------------------------------------------------------
  // Common names and certificates

  /** Every common name that `q` allows is allowed by `p`. */
  ghost predicate AllowsCommonNames(rules: Rules, p: Policy, q: Policy, split: string -> Lists) {
    forall cn :: ValidateCommonName(rules, q, cn, split).Allowed? ==> ValidateCommonName(rules, p, cn, split).Allowed?
  }

  /** Every certificate that `q` allows is allowed by `p`. */
  ghost predicate AllowsCertificates(rules: Rules, p: Policy, q: Policy, split: string -> Lists, verify: bool) {
    forall names, cn ::
      ValidateCertificate(rules, q, split, verify, names, cn).Allowed? ==>
      ValidateCertificate(rules, p, split, verify, names, cn).Allowed?
  }

  const NOTHING: Lists := Lists([], [], [], [], [], [])

  lemma NothingIsAllowed(rules: Rules, p: Policy, split: string -> Lists)
    ensures Validate(rules, p, NOTHING).Allowed? && ValidateCommonName(rules, p, "", split).Allowed?
  {}

  /** A certificate without names shows the common name alone, and one without common name the names. */
  lemma NamesAndCommonNames(rules: Rules, p: Policy, q: Policy, split: string -> Lists, verify: bool)
    ensures AllowsCertificates(rules, p, q, split, verify) <==>
            AllowsAll(rules, p, q) && (verify ==> AllowsCommonNames(rules, p, q, split))
  {
    hide Validate, ValidateCommonName;
    NothingIsAllowed(rules, p, split);
    NothingIsAllowed(rules, q, split);
    if AllowsCertificates(rules, p, q, split, verify) {
      forall names | Validate(rules, q, names).Allowed? ensures Validate(rules, p, names).Allowed? {
        assert ValidateCertificate(rules, q, split, verify, names, "").Allowed?;
        assert ValidateCertificate(rules, p, split, verify, names, "").Allowed?;
      }
      if verify {
        forall cn | ValidateCommonName(rules, q, cn, split).Allowed?
          ensures ValidateCommonName(rules, p, cn, split).Allowed? {
          assert ValidateCertificate(rules, q, split, verify, NOTHING, cn).Allowed?;
          assert ValidateCertificate(rules, p, split, verify, NOTHING, cn).Allowed?;
        }
      }
    }
  }

  /** The common name passes by constraints of its own. */
  predicate OwnPasses(rules: Rules, p: Policy, cn: string) {
    && p.NumberOf(CommonName) > 0
    && CheckName(rules.Compare(CommonName, Word(cn)), p.permitted.cn, p.excluded.cn).Passed?
  }

  lemma CommonNameMeans(rules: Rules, p: Policy, cn: string, split: string -> Lists)
    ensures ValidateCommonName(rules, p, cn, split).Allowed? <==>
            p.Total() == 0 || cn == "" || OwnPasses(rules, p, cn) || Validate(rules, p, split(cn)).Allowed?
  {
    hide Validate, CheckName;
  }

  /** Constraints on other kinds of names that are safe for names are safe for common names. */
  lemma OtherKindsKeepCommonNames(rules: Rules, p: Policy, q: Policy, split: string -> Lists)
    requires AllowsAll(rules, p, q) && p.permitted.cn == q.permitted.cn && p.excluded.cn == q.excluded.cn
    requires q.Total() == 0 ==> p.Total() == 0
    ensures AllowsCommonNames(rules, p, q, split)
  {
    hide Validate, ValidateCommonName, CheckName;
    forall cn | ValidateCommonName(rules, q, cn, split).Allowed?
      ensures ValidateCommonName(rules, p, cn, split).Allowed? {
      CommonNameMeans(rules, p, cn, split);
      CommonNameMeans(rules, q, cn, split);
    }
  }

  /** When one more excluded common name only refuses common names: there are such constraints already, or none of any
      kind, or it leaves only common names over that are allowed as the names they spell. */
  ghost predicate CommonNameExclusionIsSafe(rules: Rules, p: Policy, c: string, split: string -> Lists) {
    || p.NumberOf(CommonName) > 0
    || p.Total() == 0
    || (forall cn :: cn != "" && rules.compare(CommonName, Word(cn), c) == Differs ==>
          Validate(rules, p, split(cn)).Allowed?)
  }

  /** Constraints on common names do not matter to names, except that the first permission closes kinds. */
  lemma SameForNames(rules: Rules, p: Policy, q: Policy, names: Lists)
    requires p.Total() > 0 && q.Total() > 0 && p.permitted.Size() == q.permitted.Size()
    requires forall k :: SanKind(k) ==> p.permitted.Of(k) == q.permitted.Of(k) && p.excluded.Of(k) == q.excluded.Of(k)
    ensures Validate(rules, p, names).Allowed? <==> Validate(rules, q, names).Allowed?
  {
    hide Validate, CheckName;
    AllowedMeans(rules, p, names);
    AllowedMeans(rules, q, names);
    forall k, i | SanKind(k) && 0 <= i < |names.Of(k)|
      ensures ValidateName(rules, p, k, names.Of(k)[i]).Allowed? <==>
              ValidateName(rules, q, k, names.Of(k)[i]).Allowed? {
    }
  }

  lemma CommonNameExclusions(rules: Rules, p: Policy, before: seq<string>, c: string, after: seq<string>,
                             split: string -> Lists)
    requires p.excluded.cn == before + after
    ensures AllowsCommonNames(rules, p, Excluding(p, CommonName, before, c, after), split) <==>
            CommonNameExclusionIsSafe(rules, p, c, split)
  {
    hide Validate, ValidateCommonName, First;
    var q := Excluding(p, CommonName, before, c, after);
    SizeWith(p.excluded, CommonName, before + [c] + after);
    forall cn
      ensures p.Total() > 0 ==>
        (Validate(rules, p, split(cn)).Allowed? <==> Validate(rules, q, split(cn)).Allowed?) {
      if p.Total() > 0 { SameForNames(rules, p, q, split(cn)); }
    }
    forall cn
      ensures OwnPasses(rules, q, cn) && p.NumberOf(CommonName) > 0 ==> OwnPasses(rules, p, cn)
      ensures p.NumberOf(CommonName) == 0 ==>
        (OwnPasses(rules, q, cn) <==> rules.compare(CommonName, Word(cn), c) == Differs) {
      OwnExclusion(rules, p, before, c, after, cn);
    }
    forall cn ensures CommonNameBoth(rules, p, q, cn, split) {
      CommonNameMeans(rules, p, cn, split);
      CommonNameMeans(rules, q, cn, split);
    }
    if AllowsCommonNames(rules, p, q, split) && p.NumberOf(CommonName) == 0 && p.Total() > 0 {
      forall cn | cn != "" && rules.compare(CommonName, Word(cn), c) == Differs
        ensures Validate(rules, p, split(cn)).Allowed? {
        assert CommonNameBoth(rules, p, q, cn, split) && !OwnPasses(rules, p, cn);
        assert ValidateCommonName(rules, q, cn, split).Allowed?;
      }
    }
    if CommonNameExclusionIsSafe(rules, p, c, split) {
      forall cn | ValidateCommonName(rules, q, cn, split).Allowed?
      ensures ValidateCommonName(rules, p, cn, split).Allowed? {
        assert CommonNameBoth(rules, p, q, cn, split);
      }
    }
  }

  /** What the verdicts of two policies on a common name come from. */
  ghost predicate CommonNameBoth(rules: Rules, p: Policy, q: Policy, cn: string, split: string -> Lists) {
    && (ValidateCommonName(rules, p, cn, split).Allowed? <==>
          p.Total() == 0 || cn == "" || OwnPasses(rules, p, cn) || Validate(rules, p, split(cn)).Allowed?)
    && (ValidateCommonName(rules, q, cn, split).Allowed? <==>
          q.Total() == 0 || cn == "" || OwnPasses(rules, q, cn) || Validate(rules, q, split(cn)).Allowed?)
  }

  lemma OwnExclusion(rules: Rules, p: Policy, before: seq<string>, c: string, after: seq<string>, cn: string)
    requires p.excluded.cn == before + after
    ensures var q := Excluding(p, CommonName, before, c, after);
            && (OwnPasses(rules, q, cn) && p.NumberOf(CommonName) > 0 ==> OwnPasses(rules, p, cn))
            && (p.NumberOf(CommonName) == 0 ==>
                  (OwnPasses(rules, q, cn) <==> rules.compare(CommonName, Word(cn), c) == Differs))
  {
    hide First;
    var q := Excluding(p, CommonName, before, c, after);
    var compare := rules.Compare(CommonName, Word(cn));
    assert q.excluded.Of(CommonName) == before + [c] + after && q.permitted.cn == p.permitted.cn;
    if First(compare, before + [c] + after) == Differs {
      FirstWithout(compare, before, c, after);
    }
    if p.NumberOf(CommonName) == 0 {
      assert before == [] && after == [] && before + [c] + after == [c];
      FirstOne(compare, c);
      FirstNone(compare);
    }
  }

  /** When one more exclusion only refuses certificates. */
  ghost predicate SafeExclusion(rules: Rules, p: Policy, kind: Kind, c: string, split: string -> Lists, verify: bool) {
    if SanKind(kind) then Open(p, kind) || StopsAll(rules, kind, c)
    else verify ==> CommonNameExclusionIsSafe(rules, p, c, split)
  }

  /** For all rules, policies and kinds: an additional excluded constraint allows no new certificate if and only if, for
      a kind of names, the kind has constraints, or nothing is permitted explicitly, or it stops every readable name of
      the kind; for common names, they are not verified, or have constraints, or there is no constraint at all, or all
      common names that it leaves over are allowed as the names they spell. */
  lemma ExclusionsAreMonotone(rules: Rules, p: Policy, kind: Kind, before: seq<string>, c: string, after: seq<string>,
                              split: string -> Lists, verify: bool)
    requires p.excluded.Of(kind) == before + after
    ensures AllowsCertificates(rules, p, Excluding(p, kind, before, c, after), split, verify) <==>
            SafeExclusion(rules, p, kind, c, split, verify)
  {
    hide AllowsAll, AllowsCommonNames, AllowsCertificates, CommonNameExclusionIsSafe, StopsAll;
    var q := Excluding(p, kind, before, c, after);
    NamesAndCommonNames(rules, p, q, split, verify);
    NameExclusions(rules, p, kind, before, c, after);
    if SanKind(kind) {
      SizeWith(p.excluded, kind, before + [c] + after);
      if AllowsAll(rules, p, q) {
        assert q.excluded.Of(CommonName) == p.excluded.Of(CommonName);
        OtherKindsKeepCommonNames(rules, p, q, split);
      }
    } else {
      CommonNameExclusions(rules, p, before, c, after, split);
    }
  }

  /** When one more permitted common name takes none away: there is one already, or no common name is excluded, or it
      matches all that its exclusions let through but those that are allowed as the names they spell. */
  ghost predicate CommonNamePermissionIsSafe(rules: Rules, p: Policy, c: string, split: string -> Lists) {
    || p.permitted.cn != []
    || p.excluded.cn == []
    || (forall cn :: cn != "" && Stays(rules, p, cn) && rules.compare(CommonName, Word(cn), c) != Matches ==>
          Validate(rules, p, split(cn)).Allowed?)
  }

  /** No excluded common name stops it or fails on it. */
  predicate Stays(rules: Rules, p: Policy, cn: string) {
    First(rules.Compare(CommonName, Word(cn)), p.excluded.cn) == Differs
  }

  lemma OwnPermission(rules: Rules, p: Policy, c: string, cn: string)
    ensures var q := Permitting(p, CommonName, c);
            && (p.permitted.cn != [] && OwnPasses(rules, p, cn) ==> OwnPasses(rules, q, cn))
            && (p.permitted.cn == [] ==>
                  && (OwnPasses(rules, p, cn) <==> p.excluded.cn != [] && Stays(rules, p, cn))
                  && (OwnPasses(rules, q, cn) <==>
                        Stays(rules, p, cn) && rules.compare(CommonName, Word(cn), c) == Matches))
  {
    hide First;
    var q := Permitting(p, CommonName, c);
    var compare := rules.Compare(CommonName, Word(cn));
    assert q.permitted.Of(CommonName) == p.permitted.cn + [c];
    FirstStep(compare, p.permitted.cn, [c]);
    FirstOne(compare, c);
    FirstNone(compare);
    assert p.permitted.cn == [] ==> p.permitted.cn + [c] == [c];
  }

  /** A permitted common name takes no name in. */
  lemma PermittedCommonNamesClose(rules: Rules, p: Policy, c: string)
    requires p.Total() > 0
    ensures AllowsAll(rules, p, Permitting(p, CommonName, c))
  {
    hide Validate, CheckName;
    var q := Permitting(p, CommonName, c);
    SizeWith(p.permitted, CommonName, p.permitted.cn + [c]);
    forall names | Validate(rules, q, names).Allowed? ensures Validate(rules, p, names).Allowed? {
      AllowedMeans(rules, p, names);
      AllowedMeans(rules, q, names);
      forall k, i | SanKind(k) && 0 <= i < |names.Of(k)| ensures ValidateName(rules, p, k, names.Of(k)[i]).Allowed? {
        assert ValidateName(rules, q, k, names.Of(k)[i]).Allowed?;
        assert q.permitted.Of(k) == p.permitted.Of(k);
      }
    }
  }

  lemma CommonNamePermissions(rules: Rules, p: Policy, c: string, split: string -> Lists)
    requires p.Total() > 0 && AllowsAll(rules, Permitting(p, CommonName, c), p)
    ensures AllowsCommonNames(rules, Permitting(p, CommonName, c), p, split) <==>
            CommonNamePermissionIsSafe(rules, p, c, split)
  {
    hide Validate, ValidateCommonName, First, CheckName;
    var q := Permitting(p, CommonName, c);
    SizeWith(p.permitted, CommonName, p.permitted.cn + [c]);
    PermittedCommonNamesClose(rules, p, c);
    forall cn ensures CommonNameBoth(rules, p, q, cn, split) {
      CommonNameMeans(rules, p, cn, split);
      CommonNameMeans(rules, q, cn, split);
    }
    if AllowsCommonNames(rules, q, p, split) && p.permitted.cn == [] && p.excluded.cn != [] {
      forall cn | cn != "" && Stays(rules, p, cn) && rules.compare(CommonName, Word(cn), c) != Matches
        ensures Validate(rules, p, split(cn)).Allowed? {
        OwnPermission(rules, p, c, cn);
        assert CommonNameBoth(rules, p, q, cn, split);
        assert ValidateCommonName(rules, p, cn, split).Allowed?;
      }
    }
    if CommonNamePermissionIsSafe(rules, p, c, split) {
      forall cn | ValidateCommonName(rules, p, cn, split).Allowed?
      ensures ValidateCommonName(rules, q, cn, split).Allowed? {
        OwnPermission(rules, p, c, cn);
        assert CommonNameBoth(rules, p, q, cn, split);
      }
    }
  }

  /** When one more permission only allows certificates. */
  ghost predicate SafePermission(rules: Rules, p: Policy, kind: Kind, c: string, split: string -> Lists, verify: bool) {
    && PermissionIsSafe(rules, p, kind, c)
    && (!SanKind(kind) && verify ==> CommonNamePermissionIsSafe(rules, p, c, split))
  }

  /** For all rules, policies and kinds: an appended permitted constraint refuses no new certificate if and only if its
      kind has one, or it matches all that its kind lets through and closes no other kind that lets a name through; and
      a verified common name, besides, keeps what only its exclusions decided on. */
  lemma PermissionsAreMonotone(rules: Rules, p: Policy, kind: Kind, c: string, split: string -> Lists, verify: bool)
    ensures AllowsCertificates(rules, Permitting(p, kind, c), p, split, verify) <==>
            SafePermission(rules, p, kind, c, split, verify)
  {
    hide AllowsAll, AllowsCommonNames, AllowsCertificates, CommonNamePermissionIsSafe, PermissionIsSafe;
    var q := Permitting(p, kind, c);
    NamesAndCommonNames(rules, q, p, split, verify);
    NamePermissions(rules, p, kind, c);
    if PermissionIsSafe(rules, p, kind, c) {
      NotEmpty(rules, p, kind, c);
      if SanKind(kind) {
        assert q.permitted.Of(CommonName) == p.permitted.Of(CommonName);
        OtherKindsKeepCommonNames(rules, q, p, split);
      } else {
        CommonNamePermissions(rules, p, c, split);
      }
    }
  }
}
