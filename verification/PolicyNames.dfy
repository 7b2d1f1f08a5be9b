/** All names of a certificate against all constraints of a policy (policy/engine.go, policy/validate.go). */
module PolicyNames {
  import opened PolicyDomain
  import opened PolicyMailbox
  import opened PolicyEngine

  datatype Kind = CommonName | Dns | Ip | Email | Uri | Principal

  /** One list for every kind. */
  datatype Lists = Lists(cn: seq<string>, dns: seq<string>, ip: seq<string>, email: seq<string>, uri: seq<string>,
                         principal: seq<string>) {
    function Of(kind: Kind): seq<string> {
      match kind
      case CommonName => cn
      case Dns => dns
      case Ip => ip
      case Email => email
      case Uri => uri
      case Principal => principal
    }

    function With(kind: Kind, list: seq<string>): (r: Lists)
      ensures r.Of(kind) == list && forall k :: k != kind ==> r.Of(k) == Of(k)
    {
      match kind
      case CommonName => this.(cn := list)
      case Dns => this.(dns := list)
      case Ip => this.(ip := list)
      case Email => this.(email := list)
      case Uri => this.(uri := list)
      case Principal => this.(principal := list)
    }

    function Size(): nat {
      |cn| + |dns| + |ip| + |email| + |uri| + |principal|
    }
  }

  datatype Policy = Policy(permitted: Lists, excluded: Lists) {
    function NumberOf(kind: Kind): nat {
      |permitted.Of(kind)| + |excluded.Of(kind)|
    }

    function Counts(): map<Kind, nat> {
      map[CommonName := NumberOf(CommonName), Dns := NumberOf(Dns), Ip := NumberOf(Ip),
          Email := NumberOf(Email), Uri := NumberOf(Uri), Principal := NumberOf(Principal)]
    }

    function Total(): nat {
      permitted.Size() + excluded.Size()
    }
  }

  /** A name as it is compared: a mailbox for an email address, else a string. */
  datatype Subject = Word(text: string) | Address(mailbox: Mailbox)

  datatype Parsed = Readable(name: Subject) | Unreadable(reason: Reason)

  /** How names are read and compared, by kind, and the CIDR notation of a network. */
  datatype Rules = Rules(parse: (Kind, string) -> Parsed, compare: (Kind, Subject, string) -> Match,
                         cidr: string -> string) {
    function Compare(kind: Kind, name: Subject): string -> Match {
      c => compare(kind, name, c)
    }

    /** By what duplicates are told. */
    function Key(kind: Kind): string -> string {
      c => if kind == Ip then cidr(c) else c
    }
  }

  datatype Verdict = Allowed | Refused(kind: Kind, name: string, reason: Reason)

  function Answer(kind: Kind, name: string, check: Check): Verdict {
    if check.Passed? then Allowed else Refused(kind, name, check.reason)
  }

  /** One name. A kind without constraints is refused once anything is permitted explicitly. */
  function ValidateName(rules: Rules, p: Policy, kind: Kind, name: string): Verdict {
    if p.NumberOf(kind) == 0 && p.permitted.Size() > 0 then Refused(kind, name, NotAllowed)
    else
      match rules.parse(kind, name)
      case Unreadable(reason) => Refused(kind, name, reason)
      case Readable(n) =>
        Answer(kind, name, CheckName(rules.Compare(kind, n), p.permitted.Of(kind), p.excluded.Of(kind)))
  }

  /** The first refusal among the names of one kind. */
  function ValidateKind(rules: Rules, p: Policy, kind: Kind, names: seq<string>): Verdict {
    if names == [] then Allowed
    else if ValidateName(rules, p, kind, names[0]).Refused? then ValidateName(rules, p, kind, names[0])
    else ValidateKind(rules, p, kind, names[1..])
  }

  function Then(a: Verdict, b: Verdict): Verdict {
    if a.Allowed? then b else a
  }

  /** The first refusal among all names; a policy without constraints allows everything. */
  function Validate(rules: Rules, p: Policy, names: Lists): Verdict {
    if p.Total() == 0 then Allowed
    else
      Then(ValidateKind(rules, p, Dns, names.dns),
      Then(ValidateKind(rules, p, Ip, names.ip),
      Then(ValidateKind(rules, p, Email, names.email),
      Then(ValidateKind(rules, p, Uri, names.uri),
           ValidateKind(rules, p, Principal, names.principal)))))
  }

  /** The common name: allowed by its own constraints, or else as the name that it spells. */
  function ValidateCommonName(rules: Rules, p: Policy, commonName: string, split: string -> Lists): Verdict {
    if p.Total() == 0 || commonName == "" then Allowed
    else if p.NumberOf(CommonName) > 0
            && CheckName(rules.Compare(CommonName, Word(commonName)), p.permitted.cn, p.excluded.cn).Passed?
    then Allowed
    else
      match Validate(rules, p, split(commonName))
      case Allowed => Allowed
      case Refused(_, name, reason) => Refused(CommonName, name, reason)
  }

  /** All names of a certificate, and its common name where that is verified. */
  function ValidateCertificate(rules: Rules, p: Policy, split: string -> Lists, verify: bool, names: Lists, cn: string)
      : Verdict
  {
    Then(Validate(rules, p, names), if verify then ValidateCommonName(rules, p, cn, split) else Allowed)
  }

  // ---------------------------------------------------------------------------------------------
  // The engine

  function UniqueLists(rules: Rules, l: Lists): Lists {
    Lists(Unique(rules.Key(CommonName), l.cn), Unique(rules.Key(Dns), l.dns), Unique(rules.Key(Ip), l.ip),
          Unique(rules.Key(Email), l.email), Unique(rules.Key(Uri), l.uri), Unique(rules.Key(Principal), l.principal))
  }

  /** The policy without duplicate constraints. */
  function Deduplicated(rules: Rules, p: Policy): Policy {
    Policy(UniqueLists(rules, p.permitted), UniqueLists(rules, p.excluded))
  }

  lemma CountsAre(p: Policy)
    ensures forall kind :: kind in p.Counts() && p.Counts()[kind] == p.NumberOf(kind)
  {
    forall kind: Kind ensures kind in p.Counts() && p.Counts()[kind] == p.NumberOf(kind) {
      match kind
      case CommonName =>
      case Dns =>
      case Ip =>
      case Email =>
      case Uri =>
      case Principal =>
    }
  }

  class NamePolicyEngine {
    const rules: Rules
    const verifySubjectCommonName: bool
    var permitted: Lists
    var excluded: Lists
    var numberOf: map<Kind, nat>
    var totalPermitted: nat
    var totalExcluded: nat
    var total: nat

    ghost predicate Valid()
      reads this
    {
      && (forall kind :: kind in numberOf && numberOf[kind] == Policy(permitted, excluded).NumberOf(kind))
      && totalPermitted == permitted.Size() && totalExcluded == excluded.Size()
      && total == totalPermitted + totalExcluded
    }

    /** New, after the options have filled the lists. */
    constructor (rules: Rules, configured: Policy, verifySubjectCommonName: bool)
      ensures Valid() && this.rules == rules && Policy(permitted, excluded) == Deduplicated(rules, configured)
      ensures this.verifySubjectCommonName == verifySubjectCommonName
    {
      hide UniqueLists;
      this.rules, this.verifySubjectCommonName := rules, verifySubjectCommonName;
      new;
      permitted := AllUnique(rules, configured.permitted);
      excluded := AllUnique(rules, configured.excluded);
      numberOf := Policy(permitted, excluded).Counts();
      CountsAre(Policy(permitted, excluded));
      totalPermitted := permitted.Size();
      totalExcluded := excluded.Size();
      total := totalPermitted + totalExcluded;
    }

    static method AllUnique(rules: Rules, l: Lists) returns (r: Lists)
      ensures r == UniqueLists(rules, l)
    {
      var cn := RemoveDuplicates(rules.Key(CommonName), l.cn);
      var dns := RemoveDuplicates(rules.Key(Dns), l.dns);
      var ip := RemoveDuplicates(rules.Key(Ip), l.ip);
      var email := RemoveDuplicates(rules.Key(Email), l.email);
      var uri := RemoveDuplicates(rules.Key(Uri), l.uri);
      var principal := RemoveDuplicates(rules.Key(Principal), l.principal);
      r := Lists(cn, dns, ip, email, uri, principal);
    }

    /** One of the loops of validateNames. */
    method CheckAll(kind: Kind, names: seq<string>) returns (v: Verdict)
      requires Valid()
      ensures v == ValidateKind(rules, Policy(permitted, excluded), kind, names)
    {
      ghost var p := Policy(permitted, excluded);
      for i := 0 to |names|
        invariant ValidateKind(rules, p, kind, names) == ValidateKind(rules, p, kind, names[i..])
      {
        var name := names[i];
        assert names[i..][1..] == names[i + 1..];
        if numberOf[kind] == 0 && totalPermitted > 0 {
          return Refused(kind, name, NotAllowed);
        }
        var parsed := rules.parse(kind, name);
        if parsed.Unreadable? {
          return Refused(kind, name, parsed.reason);
        }
        var check := CheckNameConstraints(rules.Compare(kind, parsed.name), permitted.Of(kind), excluded.Of(kind));
        if check.Failed? {
          return Refused(kind, name, check.reason);
        }
      }
      v := Allowed;
    }

    /** validateNames. */
    method ValidateNames(names: Lists) returns (v: Verdict)
      requires Valid()
      ensures v == Validate(rules, Policy(permitted, excluded), names)
    {
      if total == 0 {
        return Allowed;
      }
      v := CheckAll(Dns, names.dns);
      if v.Refused? {
        return;
      }
      v := CheckAll(Ip, names.ip);
      if v.Refused? {
        return;
      }
      v := CheckAll(Email, names.email);
      if v.Refused? {
        return;
      }
      v := CheckAll(Uri, names.uri);
      if v.Refused? {
        return;
      }
      v := CheckAll(Principal, names.principal);
    }

    /** validateCommonName; `split` sorts a name into its kind. */
    method CheckCommonName(commonName: string, split: string -> Lists) returns (v: Verdict)
      requires Valid()
      ensures v == ValidateCommonName(rules, Policy(permitted, excluded), commonName, split)
    {
      if total == 0 {
        return Allowed;
      }
      if commonName == "" {
        return Allowed;
      }
      if numberOf[CommonName] > 0 {
        var check := CheckNameConstraints(rules.Compare(CommonName, Word(commonName)), permitted.cn, excluded.cn);
        if check.Passed? {
          return Allowed;
        }
      }
      v := ValidateNames(split(commonName));
      if v.Refused? {
        v := v.(kind := CommonName);
      }
    }

    /** IsX509CertificateRequestAllowed */
    method IsCertificateAllowed(names: Lists, commonName: string, split: string -> Lists) returns (v: Verdict)
      requires Valid()
      ensures v == ValidateCertificate(rules, Policy(permitted, excluded), split, verifySubjectCommonName, names,
                                       commonName)
    {
      v := ValidateNames(names);
      if v.Refused? {
        return;
      }
      if verifySubjectCommonName {
        v := CheckCommonName(commonName, split);
      }
    }
  }

  // ---------------------------------------------------------------------------------------------
  // Duplicates

  /** Networks with the same CIDR notation hold the same addresses. */
  ghost predicate Lawful(rules: Rules) {
    forall name, c, d :: rules.cidr(c) == rules.cidr(d) ==> rules.compare(Ip, name, c) == rules.compare(Ip, name, d)
  }

  lemma UniqueCounts(rules: Rules, l: Lists, kind: Kind)
    ensures UniqueLists(rules, l).Of(kind) == Unique(rules.Key(kind), l.Of(kind))
    ensures UniqueLists(rules, l).Of(kind) == [] <==> l.Of(kind) == []
    ensures UniqueLists(rules, l).Size() == 0 <==> l.Size() == 0
  {
    hide Unique;
    UniqueKeepsNone(rules.Key(kind), l.Of(kind));
    UniqueKeepsNone(rules.Key(CommonName), l.cn);
    UniqueKeepsNone(rules.Key(Dns), l.dns);
    UniqueKeepsNone(rules.Key(Ip), l.ip);
    UniqueKeepsNone(rules.Key(Email), l.email);
    UniqueKeepsNone(rules.Key(Uri), l.uri);
    UniqueKeepsNone(rules.Key(Principal), l.principal);
  }

  /** What is left without duplicates: of IP ranges one for each CIDR notation, of any other kind each constraint
      once. */
  lemma DuplicatesAreGone(rules: Rules, l: Lists, kind: Kind)
    ensures
      var r := UniqueLists(rules, l).Of(kind);
      if kind == Ip then
        && (forall i, j :: 0 <= i < j < |r| ==> rules.cidr(r[i]) != rules.cidr(r[j]))
        && (forall c :: c in l.ip ==> exists i :: 0 <= i < |r| && rules.cidr(r[i]) == rules.cidr(c))
      else
        && (forall i, j :: 0 <= i < j < |r| ==> r[i] != r[j])
        && (forall c :: c in r <==> c in l.Of(kind))
  {
    hide Unique;
    var key, r, list := rules.Key(kind), UniqueLists(rules, l).Of(kind), l.Of(kind);
    UniqueCounts(rules, l, kind);
    UniqueIsExact(key, list);
    forall c | c in list ensures exists i :: 0 <= i < |r| && key(r[i]) == key(c) {
      var i :| 0 <= i < |list| && list[i] == c;
      assert Occurs(key, list, key(c)) && Occurs(key, r, key(c));
    }
    if kind != Ip {
      forall c | c in r ensures c in list {
        var i :| 0 <= i < |r| && r[i] == c;
        assert Occurs(key, r, c) && Occurs(key, list, c);
      }
    }
  }

  lemma DedupKeepsName(rules: Rules, p: Policy, kind: Kind, name: string)
    requires Lawful(rules)
    ensures ValidateName(rules, Deduplicated(rules, p), kind, name) == ValidateName(rules, p, kind, name)
  {
    hide Unique, CheckName;
    UniqueCounts(rules, p.permitted, kind);
    UniqueCounts(rules, p.excluded, kind);
    match rules.parse(kind, name)
    case Unreadable(_) =>
    case Readable(n) =>
      DuplicatesDoNotMatter(rules.Compare(kind, n), rules.Key(kind), p.permitted.Of(kind), p.excluded.Of(kind));
  }

  lemma {:induction false} DedupKeepsKind(rules: Rules, p: Policy, kind: Kind, names: seq<string>)
    requires Lawful(rules)
    ensures ValidateKind(rules, Deduplicated(rules, p), kind, names) == ValidateKind(rules, p, kind, names)
  {
    hide ValidateName, Deduplicated;
    if names != [] {
      DedupKeepsName(rules, p, kind, names[0]);
      DedupKeepsKind(rules, p, kind, names[1..]);
    }
  }

  /** Removing duplicate constraints changes no verdict: not whether names are allowed, and not which
      name is refused for which reason. */
  lemma DuplicatesChangeNothing(rules: Rules, p: Policy, names: Lists)
    requires Lawful(rules)
    ensures Validate(rules, Deduplicated(rules, p), names) == Validate(rules, p, names)
  {
    hide ValidateKind, UniqueLists;
    UniqueCounts(rules, p.permitted, Dns);
    UniqueCounts(rules, p.excluded, Dns);
    DedupKeepsKind(rules, p, Dns, names.dns);
    DedupKeepsKind(rules, p, Ip, names.ip);
    DedupKeepsKind(rules, p, Email, names.email);
    DedupKeepsKind(rules, p, Uri, names.uri);
    DedupKeepsKind(rules, p, Principal, names.principal);
  }

  /** The same for the common name. */
  lemma DuplicatesChangeNoCommonName(rules: Rules, p: Policy, commonName: string, split: string -> Lists)
    requires Lawful(rules)
    ensures ValidateCommonName(rules, Deduplicated(rules, p), commonName, split) ==
      ValidateCommonName(rules, p, commonName, split)
  {
    hide Validate, Unique, CheckName;
    UniqueCounts(rules, p.permitted, CommonName);
    UniqueCounts(rules, p.excluded, CommonName);
    DuplicatesDoNotMatter(rules.Compare(CommonName, Word(commonName)), rules.Key(CommonName), p.permitted.cn,
      p.excluded.cn);
    DuplicatesChangeNothing(rules, p, split(commonName));
  }

  // ---------------------------------------------------------------------------------------------
  // What is allowed

  predicate SanKind(kind: Kind) {
    kind != CommonName
  }

  lemma {:induction false} KindAllowed(rules: Rules, p: Policy, kind: Kind, names: seq<string>)
    ensures ValidateKind(rules, p, kind, names).Allowed? <==>
            forall i :: 0 <= i < |names| ==> ValidateName(rules, p, kind, names[i]).Allowed?
  {
    hide ValidateName;
    if names != [] {
      KindAllowed(rules, p, kind, names[1..]);
      assert forall i :: 0 < i < |names| ==> names[i] == names[1..][i - 1];
      assert forall i :: 0 <= i < |names[1..]| ==> names[1..][i] == names[i + 1];
    }
  }

  /** Names are allowed exactly when each is, whatever the order; or when there is no constraint. */
  lemma AllowedMeans(rules: Rules, p: Policy, names: Lists)
    ensures Validate(rules, p, names).Allowed? <==>
            p.Total() == 0 || forall kind, i :: SanKind(kind) && 0 <= i < |names.Of(kind)| ==>
              ValidateName(rules, p, kind, names.Of(kind)[i]).Allowed?
  {
    hide ValidateName, ValidateKind;
    KindAllowed(rules, p, Dns, names.dns);
    KindAllowed(rules, p, Ip, names.ip);
    KindAllowed(rules, p, Email, names.email);
    KindAllowed(rules, p, Uri, names.uri);
    KindAllowed(rules, p, Principal, names.principal);
    forall kind | SanKind(kind)
      ensures (forall i :: 0 <= i < |names.Of(kind)| ==> ValidateName(rules, p, kind, names.Of(kind)[i]).Allowed?) <==>
              ValidateKind(rules, p, kind, names.Of(kind)).Allowed? {
      KindAllowed(rules, p, kind, names.Of(kind));
    }
    assert names.Of(Dns) == names.dns && names.Of(Ip) == names.ip && names.Of(Email) == names.email
           && names.Of(Uri) == names.uri && names.Of(Principal) == names.principal;
    assert SanKind(Dns) && SanKind(Ip) && SanKind(Email) && SanKind(Uri) && SanKind(Principal);
  }

  /** The place of a kind in the order in which names are looked at. */
  function Place(kind: Kind): nat
    requires SanKind(kind)
  {
    match kind
    case Dns => 1
    case Ip => 2
    case Email => 3
    case Uri => 4
    case Principal => 5
  }

  /** The name at position `i` of its kind is refused, and every name before it is allowed: DNS names come first, then
      IP addresses, email addresses, URIs and principals. */
  ghost predicate FirstRefused(rules: Rules, p: Policy, names: Lists, kind: Kind, i: nat) {
    && SanKind(kind) && i < |names.Of(kind)| && ValidateName(rules, p, kind, names.Of(kind)[i]).Refused?
    && (forall j :: 0 <= j < i ==> ValidateName(rules, p, kind, names.Of(kind)[j]).Allowed?)
    && (forall k, j :: SanKind(k) && Place(k) < Place(kind) && 0 <= j < |names.Of(k)| ==>
          ValidateName(rules, p, k, names.Of(k)[j]).Allowed?)
  }

  lemma {:induction false} KindRefused(rules: Rules, p: Policy, kind: Kind, names: seq<string>)
    requires ValidateKind(rules, p, kind, names).Refused?
    ensures exists i :: 0 <= i < |names|
              && ValidateKind(rules, p, kind, names) == ValidateName(rules, p, kind, names[i])
              && forall j :: 0 <= j < i ==> ValidateName(rules, p, kind, names[j]).Allowed?
  {
    hide ValidateName;
    if ValidateName(rules, p, kind, names[0]).Refused? {
      assert ValidateKind(rules, p, kind, names) == ValidateName(rules, p, kind, names[0]);
    } else {
      var rest := names[1..];
      KindRefused(rules, p, kind, rest);
      var i :| 0 <= i < |rest| && ValidateKind(rules, p, kind, rest) == ValidateName(rules, p, kind, rest[i])
        && forall j :: 0 <= j < i ==> ValidateName(rules, p, kind, rest[j]).Allowed?;
      assert names[i + 1] == rest[i] && forall j :: 0 < j <= i ==> names[j] == rest[j - 1];
    }
  }

  /** A refusal is that of the first refused name. */
  lemma RefusalIsFirst(rules: Rules, p: Policy, names: Lists)
    requires Validate(rules, p, names).Refused?
    ensures exists kind, i: nat :: FirstRefused(rules, p, names, kind, i)
              && Validate(rules, p, names) == ValidateName(rules, p, kind, names.Of(kind)[i])
  {
    hide ValidateName, ValidateKind;
    var kind := Validate(rules, p, names).kind;
    forall k | SanKind(k)
      ensures ValidateKind(rules, p, k, names.Of(k)).Refused? ==> ValidateKind(rules, p, k, names.Of(k)).kind == k
      ensures ValidateKind(rules, p, k, names.Of(k)).Allowed? <==>
              forall i :: 0 <= i < |names.Of(k)| ==> ValidateName(rules, p, k, names.Of(k)[i]).Allowed? {
      KindAllowed(rules, p, k, names.Of(k));
      RefusedKind(rules, p, k, names.Of(k));
    }
    assert names.Of(Dns) == names.dns && names.Of(Ip) == names.ip && names.Of(Email) == names.email
           && names.Of(Uri) == names.uri && names.Of(Principal) == names.principal;
    assert SanKind(Dns) && SanKind(Ip) && SanKind(Email) && SanKind(Uri) && SanKind(Principal);
    assert SanKind(kind) && Validate(rules, p, names) == ValidateKind(rules, p, kind, names.Of(kind));
    KindRefused(rules, p, kind, names.Of(kind));
    var i :| 0 <= i < |names.Of(kind)|
      && ValidateKind(rules, p, kind, names.Of(kind)) == ValidateName(rules, p, kind, names.Of(kind)[i])
      && forall j :: 0 <= j < i ==> ValidateName(rules, p, kind, names.Of(kind)[j]).Allowed?;
    assert FirstRefused(rules, p, names, kind, i);
  }

  lemma {:induction false} RefusedKind(rules: Rules, p: Policy, kind: Kind, names: seq<string>)
    ensures ValidateKind(rules, p, kind, names).Refused? ==> ValidateKind(rules, p, kind, names).kind == kind
  {
    hide CheckName;
    if names != [] { RefusedKind(rules, p, kind, names[1..]); }
  }

  /** A refused common name is reported as such, for the reason that the name it spells is refused. */
  lemma CommonNameRefusalIs(rules: Rules, p: Policy, cn: string, split: string -> Lists)
    requires ValidateCommonName(rules, p, cn, split).Refused?
    ensures
      var v, w := ValidateCommonName(rules, p, cn, split), Validate(rules, p, split(cn));
      w.Refused? && v == Refused(CommonName, w.name, w.reason)
  {
    hide Validate, CheckName;
  }

  /** Names of the kind are not refused for want of constraints. */
  predicate Open(p: Policy, kind: Kind) {
    p.NumberOf(kind) > 0 || p.permitted.Size() == 0
  }
}
