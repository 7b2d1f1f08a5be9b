/** The rules of the program itself: how it reads and compares names of every kind (policy/validate.go), and what
    that means for the verdict on a certificate. */
module PolicyCode {
  import opened Text
  import opened PolicyDomain
  import opened PolicyMailbox
  import opened PolicyOptions
  import opened PolicyEngine
  import opened PolicyNames
  import opened PolicyMonotone

  /** The foreign parts: conversion of names and of mail domains to ASCII; the host part of a URI, splitting a port off,
      and what is an IP address; containment in an IP range and CIDR notation; and the option for literal wildcards. */
  datatype Foreign = Foreign(idna: Idna, toAscii: Idna, hostOf: string -> string, splitPort: string -> Option<string>,
                             isIp: string -> bool, inRange: (string, string) -> bool, cidr: string -> string,
                             allowWildcards: bool)

  /** How validateNames reads a DNS name: the part after a leading asterisk is converted to ASCII. */
  function ReadDns(idna: Idna, dns: string): Parsed {
    var cut := HasPrefix(dns, "*.");
    var ascii := idna(if cut then dns[1..] else dns);
    if ascii.None? then Unreadable(CannotParseDomain)
    else
      var name := if cut then "*" + ascii.value else ascii.value;
      if ReverseLabels(name).None? then Unreadable(CannotParseDomain) else Readable(Word(name))
  }

  /** How validateNames reads an email address: as a mailbox, with its domain converted to ASCII. */
  function ReadEmail(toAscii: Idna, email: string): Parsed {
    var m := Parse(email);
    if m.None? then Unreadable(CannotParseRFC822Name)
    else
      var domain := toAscii(m.value.domain);
      if domain.None? then Unreadable(CannotParseDomain) else Readable(Address(Mailbox(m.value.local, domain.value)))
  }

  function Read(g: Foreign, kind: Kind, name: string): Parsed {
    match kind
    case Dns => ReadDns(g.idna, name)
    case Email => ReadEmail(g.toAscii, name)
    case _ => Readable(Word(name))
  }

  /** matchPrincipalConstraint */
  function MatchPrincipal(principal: string, constraint: string): Match {
    if constraint == "*" || EqualFold(principal, constraint) then Matches else Differs
  }

  /** matchCommonNameConstraint */
  function MatchCommonName(commonName: string, constraint: string): Match {
    if constraint != "*" && EqualFold(commonName, constraint) then Matches else Differs
  }

  /** The host that matchURIConstraint compares, without port; none if it is missing, has an asterisk, cannot be split
      from its port, or is an IP address. */
  function UriHost(g: Foreign, uri: string): Option<string> {
    var host := g.hostOf(uri);
    if host == "" || '*' in host then None
    else
      var bare := if ':' in host && host[|host| - 1] != ']' then g.splitPort(host) else Some(host);
      if bare.None? || InBrackets(bare.value) || g.isIp(bare.value) then None else bare
  }

  predicate InBrackets(host: string) {
    host != "" && host[0] == '[' && host[|host| - 1] == ']'
  }

  /** matchURIConstraint on the host of the URI. */
  function MatchHost(allowWildcards: bool, host: Option<string>, constraint: string): Match {
    if host.None? then Unmatchable
    else if !Comparable(host.value, constraint) then Differs
    else MatchDomain(allowWildcards, host.value, constraint)
  }

  /** The matchers; on a domain that is not comparable the program has none. */
  function Compare(g: Foreign, kind: Kind, name: Subject, c: string): Match {
    match name
    case Address(m) =>
      if kind == Email && ('@' in c || Comparable(m.domain, c)) then MatchEmail(g.allowWildcards, m, c) else Differs
    case Word(text) =>
      match kind
      case Dns => if Comparable(text, c) then MatchDomain(g.allowWildcards, text, c) else Differs
      case Ip => if g.inRange(text, c) then Matches else Differs
      case Uri => MatchHost(g.allowWildcards, UriHost(g, text), c)
      case Principal => MatchPrincipal(text, c)
      case CommonName => MatchCommonName(text, c)
      case Email => Differs
  }

  function CodeRules(g: Foreign): Rules {
    Rules((kind, name) => Read(g, kind, name), (kind, name, c) => Compare(g, kind, name, c), g.cidr)
  }

  /** Whether a name passes, by the sets of constraints it hits. */
  ghost predicate Decided(hits: string -> bool, permitted: seq<string>, excluded: seq<string>) {
    (forall c :: c in excluded ==> !hits(c)) && (permitted == [] || exists c :: c in permitted && hits(c))
  }

  // ---------------------------------------------------------------------------------------------
  // DNS names

  /** The constraints come out of the normalization of what was configured. */
  ghost predicate AllNormalized(idna: Idna, list: seq<string>) {
    forall c :: c in list ==> exists raw :: NormalizeDns(idna, raw) == Some(c)
  }

  /** The domain can be compared with every constraint. */
  ghost predicate AllComparable(domain: string, permitted: seq<string>, excluded: seq<string>) {
    forall c :: c in permitted || c in excluded ==> Comparable(domain, c)
  }

  /** What a domain constraint says about a name. */
  ghost predicate Hit(allowWildcards: bool, name: string, c: string) {
    || c == ""
    || (&& name != "" && name != "*" && !Blocked(allowWildcards, name) && !HasEmptyLabel(c)
        && PolicyDomain.Name(name) && PolicyDomain.Name(Base(c)) && Covers(c, name))
  }

  lemma HitMeansMatch(allowWildcards: bool, name: string, c: string)
    requires Comparable(name, c)
    ensures MatchDomain(allowWildcards, name, c) == Matches <==> Hit(allowWildcards, name, c)
  {
    hide MatchDomain;
    DomainMatches(allowWildcards, name, c);
  }

  /** A readable DNS name is decided on by normalized constraints without error and by their sets alone, and a match
      is what the constraint means letter by letter. */
  lemma DnsDecision(g: Foreign, name: string, permitted: seq<string>, excluded: seq<string>)
    requires ReverseLabels(name).Some? && AllComparable(name, permitted, excluded)
    requires AllNormalized(g.idna, permitted) && AllNormalized(g.idna, excluded)
    ensures CheckName(CodeRules(g).Compare(Dns, Word(name)), permitted, excluded) ==
            if Decided(c => Hit(g.allowWildcards, name, c), permitted, excluded) then Passed else Failed(NotAllowed)
  {
    hide CheckName, MatchDomain, ReverseLabels, NormalizeDns, Hit, Comparable;
    var compare := CodeRules(g).Compare(Dns, Word(name));
    forall c | c in permitted || c in excluded
      ensures compare(c) != Unmatchable && (compare(c) == Matches <==> Hit(g.allowWildcards, name, c)) {
      var raw :| NormalizeDns(g.idna, raw) == Some(c);
      NormalizedDnsIsReadable(g.idna, raw, g.allowWildcards, name);
      HitMeansMatch(g.allowWildcards, name, c);
    }
    CheckIsDecision(compare, permitted, excluded);
  }

  // ---------------------------------------------------------------------------------------------
  // Email addresses

  /** An email constraint as configured, without quotes and backslashes. */
  predicate Unquoted(raw: string) {
    EmailBody(raw) != "" && EmailBody(raw)[0] != '"' && '\\' !in EmailBody(raw) && ToLower(TrimSpace(raw)) != "@"
  }

  ghost predicate AllNormalizedEmails(idna: Idna, list: seq<string>) {
    forall c :: c in list ==> exists raw :: Unquoted(raw) && NormalizeEmail(idna, raw) == Some(c)
  }

  /** What an email constraint says about a mailbox: with an `@` it spells the mailbox, up to the case of the domain;
      without, it is a domain constraint. */
  ghost predicate EmailHit(allowWildcards: bool, m: Mailbox, c: string) {
    if '@' in c then exists w :: Spelled(w, c) && m.local == w.local && EqualFold(m.domain, w.domain)
    else Hit(allowWildcards, m.domain, c)
  }

  predicate Spelled(w: Mailbox, c: string) {
    DotAtom(w.local) && ReverseLabels(w.domain).Some? && c == w.local + "@" + w.domain
  }

  lemma SpelledOnce(w: Mailbox, v: Mailbox, c: string)
    requires Spelled(w, c) && Spelled(v, c)
    ensures w == v
  {
    hide Parse, DotAtom, ReverseLabels;
    PlainRoundTrip(w);
    PlainRoundTrip(v);
  }

  /** The mailbox can be compared with a constraint that has an `@`, or else its domain can and splits into labels. */
  predicate ComparableMailbox(m: Mailbox, c: string) {
    '@' in c || (Comparable(m.domain, c) && ReverseLabels(m.domain).Some?)
  }

  /** A normalized constraint can be matched with every such mailbox, and matches the ones it says. */
  lemma EmailHitMeansMatch(g: Foreign, m: Mailbox, raw: string)
    requires KeepsAt(g.idna) && Unquoted(raw) && NormalizeEmail(g.idna, raw).Some?
    requires ComparableMailbox(m, NormalizeEmail(g.idna, raw).value)
    ensures var c := NormalizeEmail(g.idna, raw).value;
            && MatchEmail(g.allowWildcards, m, c) != Unmatchable
            && (MatchEmail(g.allowWildcards, m, c) == Matches <==> EmailHit(g.allowWildcards, m, c))
  {
    hide Parse, ReverseLabels, EmailBody, DotAtom, Hit, EqualFold, MatchDomain, TrimSpace, ToLower, Comparable;
    var c := NormalizeEmail(g.idna, raw).value;
    NormalizedEmailIsReadable(g.idna, raw, g.allowWildcards, m);
    if '@' in EmailBody(raw) {
      EmailConstraintReparses(g.idna, raw);
      PlainLocalIsDotAtom(EmailBody(raw));
      var w := Wanted(g.idna, raw).value;
      ConstraintSpells(g, raw);
      if EmailHit(g.allowWildcards, m, c) {
        var v :| Spelled(v, c) && m.local == v.local && EqualFold(m.domain, v.domain);
        SpelledOnce(w, v, c);
      }
    } else {
      NoAtAppears(g.idna, raw);
      HitMeansMatch(g.allowWildcards, m.domain, c);
    }
  }

  lemma NoAtAppears(idna: Idna, raw: string)
    requires KeepsAt(idna) && Unquoted(raw) && NormalizeEmail(idna, raw).Some? && '@' !in EmailBody(raw)
    ensures '@' !in NormalizeEmail(idna, raw).value
  {
    hide Parse, ReverseLabels, EmailBody, Count, TrimSpace, ToLower;
  }

  lemma ConstraintSpells(g: Foreign, raw: string)
    requires Unquoted(raw) && NormalizeEmail(g.idna, raw).Some? && '@' in EmailBody(raw)
    requires Wanted(g.idna, raw).Some? && DotAtom(Wanted(g.idna, raw).value.local)
    ensures Spelled(Wanted(g.idna, raw).value, NormalizeEmail(g.idna, raw).value)
  {
    hide Parse, Parts, DotAtom, Count, EmailBody, TrimSpace, ToLower;
    var w := Wanted(g.idna, raw).value;
    assert NormalizeEmail(g.idna, raw).value == w.local + "@" + w.domain;
    SuffixSplits(w.local + "@", w.domain);
  }

  /** A mailbox is decided on by normalized constraints without error and by their sets alone, and a match is what
      the constraint means letter by letter. */
  lemma EmailDecision(g: Foreign, m: Mailbox, permitted: seq<string>, excluded: seq<string>)
    requires KeepsAt(g.idna) && forall c :: c in permitted || c in excluded ==> ComparableMailbox(m, c)
    requires AllNormalizedEmails(g.idna, permitted) && AllNormalizedEmails(g.idna, excluded)
    ensures CheckName(CodeRules(g).Compare(Email, Address(m)), permitted, excluded) ==
            if Decided(c => EmailHit(g.allowWildcards, m, c), permitted, excluded) then Passed else Failed(NotAllowed)
  {
    hide CheckName, MatchEmail, ReverseLabels, NormalizeEmail, EmailHit, KeepsAt, EmailBody, TrimSpace, ToLower,
      Comparable;
    var compare := CodeRules(g).Compare(Email, Address(m));
    forall c | c in permitted || c in excluded
      ensures compare(c) != Unmatchable && (compare(c) == Matches <==> EmailHit(g.allowWildcards, m, c)) {
      var raw :| Unquoted(raw) && NormalizeEmail(g.idna, raw) == Some(c);
      EmailHitMeansMatch(g, m, raw);
    }
    CheckIsDecision(compare, permitted, excluded);
  }

  // ---------------------------------------------------------------------------------------------
  // URIs

  ghost predicate AllNormalizedUris(g: Foreign, list: seq<string>) {
    forall c :: c in list ==> exists raw :: NormalizeUri(g.idna, g.splitPort, g.isIp, raw) == Some(c)
  }

  /** The host splits into labels, or is turned away before it would have to. */
  predicate Legible(allowWildcards: bool, host: string) {
    host == "" || host == "*" || Blocked(allowWildcards, host) || ReverseLabels(host).Some?
  }

  /** The host with its port split off. */
  predicate Bare(g: Foreign, host: string, bare: string) {
    if ':' in host && host[|host| - 1] != ']' then g.splitPort(host) == Some(bare) else bare == host
  }

  /** The host of the URI that is compared: it is there, has no asterisk, and without its port neither stands in
      brackets nor is an IP address. */
  predicate HasHost(g: Foreign, uri: string, bare: string) {
    && |g.hostOf(uri)| > 0 && '*' !in g.hostOf(uri) && Bare(g, g.hostOf(uri), bare)
    && !(|bare| > 0 && bare[0] == '[' && bare[|bare| - 1] == ']') && !g.isIp(bare)
  }

  /** What keeps a URI from being compared: no host, an asterisk in it, a port that cannot be split off, brackets, or an
      IP address. */
  ghost predicate HostIsBad(g: Foreign, uri: string) {
    var host := g.hostOf(uri);
    || host == ""
    || '*' in host
    || (':' in host && host[|host| - 1] != ']' && g.splitPort(host) == None)
    || (exists bare :: Bare(g, host, bare) && bare != "" && bare[0] == '[' && bare[|bare| - 1] == ']')
    || (exists bare :: Bare(g, host, bare) && g.isIp(bare))
  }

  lemma HostIs(g: Foreign, uri: string)
    ensures UriHost(g, uri).None? <==> HostIsBad(g, uri)
    ensures forall bare :: HasHost(g, uri, bare) <==> UriHost(g, uri) == Some(bare)
  {
    var host := g.hostOf(uri);
    if host != "" {
      var bare := if ':' in host && host[|host| - 1] != ']' then g.splitPort(host) else Some(host);
      if bare.Some? { assert Bare(g, host, bare.value); }
      assert forall b :: Bare(g, host, b) <==> bare == Some(b);
    }
  }

  /** What the lists decide on a URI: by the sets of constraints for a host that can be compared; with a bad one there
      must be no constraint; and a host that does not split passes only the empty constraint, in front. */
  ghost predicate UriDecided(g: Foreign, uri: string, permitted: seq<string>, excluded: seq<string>) {
    if HostIsBad(g, uri) then permitted == [] && excluded == []
    else exists host :: HasHost(g, uri, host) && HostDecided(g, host, permitted, excluded)
  }

  ghost predicate HostDecided(g: Foreign, host: string, permitted: seq<string>, excluded: seq<string>) {
    if Legible(g.allowWildcards, host) then Decided(c => Hit(g.allowWildcards, host, c), permitted, excluded)
    else excluded == [] && (permitted == [] || permitted[0] == "")
  }

  lemma FirstOfList(compare: string -> Match, list: seq<string>)
    requires list != [] ==> compare(list[0]) != Differs
    ensures First(compare, list) == if list == [] then Differs else compare(list[0])
  {}

  lemma {:induction false} JoinHasNoEmptyLabel(labels: seq<string>)
    requires AllLabels(labels)
    ensures !HasEmptyLabel(Join(labels))
    ensures labels != [] ==> Join(labels) != "" && Join(labels)[|Join(labels)| - 1] != '.'
  {
    if labels != [] {
      var l := labels[0];
      assert Label(l) && forall k :: 0 <= k < |l| ==> l[k] != '.';
      if |labels| > 1 {
        var front := Join(labels[1..]);
        JoinHasNoEmptyLabel(labels[1..]);
        var s := front + "." + l;
        assert forall k :: |front| < k < |s| ==> s[k] == l[k - |front| - 1];
      }
    }
  }

  /** A constraint that splits into labels has no empty one. */
  lemma NoEmptyLabels(c: string)
    requires ReverseLabels(c).Some?
    ensures !HasEmptyLabel(c)
  {
    hide ReverseLabels, AllLabels, Join;
    var labels := ReverseLabels(c).value;
    ReverseLabelsAre(c, labels);
    JoinHasNoEmptyLabel(labels);
    if c != Join(labels) {
      var rest := Join(labels);
      JoinStart(labels);
      forall i | 0 <= i < |c| - 1 && c[i] == '.' ensures c[i + 1] != '.' {
        assert c[i + 1] == rest[i] && (i == 0 || c[i] == rest[i - 1]);
      }
    }
  }

  /** A URI is decided on by normalized constraints, and a match is what the constraint means letter by letter. */
  lemma UriDecision(g: Foreign, uri: string, permitted: seq<string>, excluded: seq<string>)
    requires AllNormalizedUris(g, permitted) && AllNormalizedUris(g, excluded)
    requires forall host :: HasHost(g, uri, host) ==> AllComparable(host, permitted, excluded)
    ensures
      var check := CheckName(CodeRules(g).Compare(Uri, Word(uri)), permitted, excluded);
      && (check.Passed? <==> UriDecided(g, uri, permitted, excluded))
      && (HostIsBad(g, uri) && (permitted != [] || excluded != []) ==> check == Failed(CannotMatchNameToConstraint))
      && (forall host :: HasHost(g, uri, host) && Legible(g.allowWildcards, host) && !check.Passed? ==>
            check == Failed(NotAllowed))
      && (forall host :: HasHost(g, uri, host) && !Legible(g.allowWildcards, host) && "" !in permitted + excluded
                         && !check.Passed? ==>
            check == Failed(CannotMatchNameToConstraint))
  {
    hide MatchDomain, ReverseLabels, NormalizeUri, Hit, Comparable, UriHost, First, Legible, HostIsBad, HasHost;
    HostIs(g, uri);
    var compare := CodeRules(g).Compare(Uri, Word(uri));
    match UriHost(g, uri)
    case None =>
      FirstOfList(compare, permitted);
      FirstOfList(compare, excluded);
    case Some(host) =>
      forall c | c in permitted || c in excluded
        ensures if Legible(g.allowWildcards, host)
          then compare(c) != Unmatchable && (compare(c) == Matches <==> Hit(g.allowWildcards, host, c))
          else compare(c) == if c == "" then Matches else Unmatchable {
        var raw :| NormalizeUri(g.idna, g.splitPort, g.isIp, raw) == Some(c);
        NormalizedUriSplits(g, raw);
        HostHit(g, host, c);
      }
      if Legible(g.allowWildcards, host) {
        CheckIsDecision(compare, permitted, excluded);
      } else {
        FirstOfList(compare, permitted);
        FirstOfList(compare, excluded);
      }
  }

  lemma NormalizedUriSplits(g: Foreign, raw: string)
    requires NormalizeUri(g.idna, g.splitPort, g.isIp, raw).Some?
    ensures ReverseLabels(NormalizeUri(g.idna, g.splitPort, g.isIp, raw).value).Some?
  {
    hide ReverseLabels;
  }

  lemma HostHit(g: Foreign, host: string, c: string)
    requires ReverseLabels(c).Some? && Comparable(host, c)
    ensures
      var m := MatchDomain(g.allowWildcards, host, c);
      if Legible(g.allowWildcards, host) then m != Unmatchable && (m == Matches <==> Hit(g.allowWildcards, host, c))
      else m == if c == "" then Matches else Unmatchable
  {
    hide ReverseLabels, LabelsMatch, Hit, HasEmptyLabel;
    HitMeansMatch(g.allowWildcards, host, c);
    BaseSplits(c);
    NoEmptyLabels(c);
  }

  // ---------------------------------------------------------------------------------------------
  // The verdict on all names

  /** All constraints are normalized, and conversion to ASCII brings in no `@` and leaves mail domains that split. */
  ghost predicate Configured(g: Foreign, p: Policy) {
    && KeepsAt(g.idna)
    && (forall d :: ReverseLabels(d).Some? && g.toAscii(d).Some? ==> ReverseLabels(g.toAscii(d).value).Some?)
    && AllNormalized(g.idna, p.permitted.dns) && AllNormalized(g.idna, p.excluded.dns)
    && AllNormalizedEmails(g.idna, p.permitted.email) && AllNormalizedEmails(g.idna, p.excluded.email)
    && AllNormalizedUris(g, p.permitted.uri) && AllNormalizedUris(g, p.excluded.uri)
  }

  /** The domain behind a name, if any, can be compared with the constraints that look at it. */
  ghost predicate InDomain(g: Foreign, p: Policy, kind: Kind, name: string) {
    match kind
    case Dns => forall text :: IsDnsName(g, name, text) ==> AllComparable(text, p.permitted.dns, p.excluded.dns)
    case Email => forall m, c :: IsAddress(g, name, m) && (c in p.permitted.email || c in p.excluded.email) && '@' !in c
                    ==> Comparable(m.domain, c)
    case Uri => forall host :: HasHost(g, name, host) ==> AllComparable(host, p.permitted.uri, p.excluded.uri)
    case _ => true
  }

  /** What the policy says about a name: it is of a kind that is open, can be read, hits no excluded constraint, and
      hits a permitted one if there is any. */
  ghost predicate NameAllowed(g: Foreign, p: Policy, kind: Kind, name: string) {
    && Open(p, kind)
    && match kind
       case Dns => DnsPasses(g, p, name)
       case Ip => Decided(c => g.inRange(name, c), p.permitted.ip, p.excluded.ip)
       case Email => EmailPasses(g, p, name)
       case Uri => UriDecided(g, name, p.permitted.uri, p.excluded.uri)
       case Principal => Decided(c => c == "*" || EqualFold(name, c), p.permitted.principal, p.excluded.principal)
       case CommonName => Decided(c => c != "*" && EqualFold(name, c), p.permitted.cn, p.excluded.cn)
  }

  /** The text that a DNS name is compared as: in ASCII, with a leading asterisk as it was, and made of labels. */
  ghost predicate IsDnsName(g: Foreign, dns: string, text: string) {
    && (if HasPrefix(dns, "*.") then exists ascii :: g.idna(dns[1..]) == Some(ascii) && text == "*" + ascii
        else g.idna(dns) == Some(text))
    && exists labels :: AllLabels(labels) && Spells(text, labels)
  }

  /** The mailbox that an email address is compared as: with its domain in ASCII. */
  ghost predicate IsAddress(g: Foreign, email: string, m: Mailbox) {
    exists domain :: IsMailbox(email, Mailbox(m.local, domain)) && g.toAscii(domain) == Some(m.domain)
  }

  ghost predicate DnsPasses(g: Foreign, p: Policy, dns: string) {
    exists name :: IsDnsName(g, dns, name)
      && Decided(c => Hit(g.allowWildcards, name, c), p.permitted.dns, p.excluded.dns)
  }

  ghost predicate EmailPasses(g: Foreign, p: Policy, email: string) {
    exists m :: IsAddress(g, email, m)
      && Decided(c => EmailHit(g.allowWildcards, m, c), p.permitted.email, p.excluded.email)
  }

  lemma DnsIsRead(g: Foreign, dns: string)
    ensures forall text :: IsDnsName(g, dns, text) <==> ReadDns(g.idna, dns) == Readable(Word(text))
  {
    hide ReverseLabels, AllLabels, Spells;
    forall text ensures IsDnsName(g, dns, text) <==> ReadDns(g.idna, dns) == Readable(Word(text)) {
      SplitsWhenSpelled(text);
    }
  }

  lemma EmailIsRead(g: Foreign, email: string)
    ensures forall m :: IsAddress(g, email, m) <==> ReadEmail(g.toAscii, email) == Readable(Address(m))
  {
    hide Parse, IsMailbox;
    forall m ensures IsAddress(g, email, m) <==> ReadEmail(g.toAscii, email) == Readable(Address(m)) {
      forall domain
        ensures IsMailbox(email, Mailbox(m.local, domain)) <==> Parse(email) == Some(Mailbox(m.local, domain)) {
        ParseIsGrammar(email, Mailbox(m.local, domain));
      }
    }
  }

  lemma DnsVerdict(g: Foreign, p: Policy, dns: string)
    requires Configured(g, p) && InDomain(g, p, Dns, dns)
    ensures ValidateName(CodeRules(g), p, Dns, dns).Allowed? <==> NameAllowed(g, p, Dns, dns)
  {
    hide CheckName, AllNormalized, AllNormalizedEmails, AllNormalizedUris, Decided, Hit, ReverseLabels, AllComparable,
      IsDnsName;
    DnsIsRead(g, dns);
    if ReadDns(g.idna, dns).Readable? {
      DnsDecision(g, ReadDns(g.idna, dns).name.text, p.permitted.dns, p.excluded.dns);
    }
  }

  lemma EmailVerdict(g: Foreign, p: Policy, email: string)
    requires Configured(g, p) && InDomain(g, p, Email, email)
    ensures ValidateName(CodeRules(g), p, Email, email).Allowed? <==> NameAllowed(g, p, Email, email)
  {
    hide CheckName, AllNormalized, AllNormalizedEmails, AllNormalizedUris, Decided, EmailHit, ReverseLabels, KeepsAt,
      Parse, Comparable, IsAddress;
    EmailIsRead(g, email);
    if ReadEmail(g.toAscii, email).Readable? {
      ParsedDomainSplits(email);
      EmailDecision(g, ReadEmail(g.toAscii, email).name.mailbox, p.permitted.email, p.excluded.email);
    }
  }

  lemma ParsedDomainSplits(email: string)
    requires Parse(email).Some?
    ensures ReverseLabels(Parse(email).value.domain).Some?
  {
    hide ReverseLabels;
  }

  lemma UriVerdict(g: Foreign, p: Policy, uri: string)
    requires Configured(g, p) && InDomain(g, p, Uri, uri)
    ensures ValidateName(CodeRules(g), p, Uri, uri).Allowed? <==> NameAllowed(g, p, Uri, uri)
  {
    hide CheckName, AllNormalized, AllNormalizedEmails, AllNormalizedUris, UriDecided, HasHost, KeepsAt, AllComparable,
      HostIsBad;
    UriDecision(g, uri, p.permitted.uri, p.excluded.uri);
  }

  lemma AddressVerdict(g: Foreign, p: Policy, ip: string)
    ensures ValidateName(CodeRules(g), p, Ip, ip).Allowed? <==> NameAllowed(g, p, Ip, ip)
  {
    hide CheckName;
    CheckIsDecision(CodeRules(g).Compare(Ip, Word(ip)), p.permitted.ip, p.excluded.ip);
  }

  lemma PrincipalVerdict(g: Foreign, p: Policy, principal: string)
    ensures ValidateName(CodeRules(g), p, Principal, principal).Allowed? <==> NameAllowed(g, p, Principal, principal)
  {
    hide CheckName, EqualFold;
    CheckIsDecision(CodeRules(g).Compare(Principal, Word(principal)), p.permitted.principal, p.excluded.principal);
  }

  lemma NameVerdict(g: Foreign, p: Policy, kind: Kind, name: string)
    requires SanKind(kind) && Configured(g, p) && InDomain(g, p, kind, name)
    ensures ValidateName(CodeRules(g), p, kind, name).Allowed? <==> NameAllowed(g, p, kind, name)
  {
    hide ValidateName, Configured, InDomain, NameAllowed;
    match kind
    case Dns => DnsVerdict(g, p, name);
    case Ip => AddressVerdict(g, p, name);
    case Email => EmailVerdict(g, p, name);
    case Uri => UriVerdict(g, p, name);
    case Principal => PrincipalVerdict(g, p, name);
  }

  /** Why a name is refused: it is of a kind that is not open, or cannot be read, or its URI has a bad host; or else it
      hits an excluded constraint or no permitted one. */
  ghost predicate Explains(g: Foreign, p: Policy, kind: Kind, name: string, reason: Reason) {
    if !Open(p, kind) then reason == NotAllowed
    else match kind
    case Dns => reason == if exists text :: IsDnsName(g, name, text) then NotAllowed else CannotParseDomain
    case Email => reason == if exists m :: IsAddress(g, name, m) then NotAllowed
                            else if exists m :: IsMailbox(name, m) then CannotParseDomain
                            else CannotParseRFC822Name
    case Uri =>
      && (HostIsBad(g, name) ==> reason == CannotMatchNameToConstraint)
      && forall host :: HasHost(g, name, host) && Legible(g.allowWildcards, host) ==> reason == NotAllowed
    case _ => reason == NotAllowed
  }

  /** The refusal of a name names it, with its kind and the reason. */
  lemma RefusalIs(g: Foreign, p: Policy, kind: Kind, name: string)
    requires SanKind(kind) && Configured(g, p) && InDomain(g, p, kind, name)
    ensures
      var v := ValidateName(CodeRules(g), p, kind, name);
      v.Refused? ==> v.kind == kind && v.name == name && Explains(g, p, kind, name, v.reason)
  {
    hide CheckName, KeepsAt, AllNormalized, AllNormalizedEmails, AllNormalizedUris, Decided, Hit, EmailHit, Legible,
      HostIsBad, HasHost, IsDnsName, IsAddress, AllComparable, Parse, IsMailbox, ReverseLabels, UriDecided, Comparable,
      EqualFold;
    var rules := CodeRules(g);
    match kind
    case Dns =>
      DnsIsRead(g, name);
      if ReadDns(g.idna, name).Readable? {
        DnsSplits(g, name);
        DnsDecision(g, ReadDns(g.idna, name).name.text, p.permitted.dns, p.excluded.dns);
        assert IsDnsName(g, name, ReadDns(g.idna, name).name.text);
      }
    case Email =>
      EmailIsRead(g, name);
      forall m ensures Parse(name) == Some(m) <==> IsMailbox(name, m) { ParseIsGrammar(name, m); }
      if ReadEmail(g.toAscii, name).Readable? {
        ParsedDomainSplits(name);
        assert IsAddress(g, name, ReadEmail(g.toAscii, name).name.mailbox);
        EmailDecision(g, ReadEmail(g.toAscii, name).name.mailbox, p.permitted.email, p.excluded.email);
      }
    case Ip => CheckIsDecision(rules.Compare(Ip, Word(name)), p.permitted.ip, p.excluded.ip);
    case Uri =>
      UriDecision(g, name, p.permitted.uri, p.excluded.uri);
      NoConstraints(rules.Compare(Uri, Word(name)));
    case Principal =>
      CheckIsDecision(rules.Compare(Principal, Word(name)), p.permitted.principal, p.excluded.principal);
  }

  lemma DnsSplits(g: Foreign, dns: string)
    requires ReadDns(g.idna, dns).Readable?
    ensures ReadDns(g.idna, dns).name.Word? && ReverseLabels(ReadDns(g.idna, dns).name.text).Some?
  {
    hide ReverseLabels;
  }

  lemma NoConstraints(compare: string -> Match)
    ensures CheckName(compare, [], []) == Passed
  {}

  ghost predicate AllInDomain(g: Foreign, p: Policy, names: Lists) {
    forall kind, i :: SanKind(kind) && 0 <= i < |names.Of(kind)| ==> InDomain(g, p, kind, names.Of(kind)[i])
  }

  ghost predicate NamesAllowed(g: Foreign, p: Policy, names: Lists) {
    forall kind, i :: SanKind(kind) && 0 <= i < |names.Of(kind)| ==> NameAllowed(g, p, kind, names.Of(kind)[i])
  }

  /** validateNames against normalized constraints: names are allowed if and only if there is no constraint, or each is
      readable, of a kind that is open, hits no excluded constraint, and hits a permitted one if there is any. */
  lemma NamesDecision(g: Foreign, p: Policy, names: Lists)
    requires Configured(g, p) && AllInDomain(g, p, names)
    ensures Validate(CodeRules(g), p, names).Allowed? <==> p.Total() == 0 || NamesAllowed(g, p, names)
  {
    hide Validate, ValidateName, Configured, InDomain, NameAllowed;
    AllowedMeans(CodeRules(g), p, names);
    forall kind, i | SanKind(kind) && 0 <= i < |names.Of(kind)|
      ensures ValidateName(CodeRules(g), p, kind, names.Of(kind)[i]).Allowed? <==>
              NameAllowed(g, p, kind, names.Of(kind)[i]) {
      NameVerdict(g, p, kind, names.Of(kind)[i]);
    }
  }

  /** The whole certificate: besides its names, a common name that is verified is empty, or passes constraints of its
      own, or is allowed as the names it spells. */
  lemma CertificateDecision(g: Foreign, p: Policy, split: string -> Lists, verify: bool, names: Lists, cn: string)
    requires Configured(g, p) && AllInDomain(g, p, names) && AllInDomain(g, p, split(cn))
    ensures ValidateCertificate(CodeRules(g), p, split, verify, names, cn).Allowed? <==>
            || p.Total() == 0
            || (&& NamesAllowed(g, p, names)
                && (verify ==>
                      || cn == "" || (p.NumberOf(CommonName) > 0 && NameAllowed(g, p, CommonName, cn))
                      || NamesAllowed(g, p, split(cn))))
  {
    hide Validate, ValidateCommonName, CheckName, Configured, AllInDomain, NamesAllowed, EqualFold;
    var compare := CodeRules(g).Compare(CommonName, Word(cn));
    NamesDecision(g, p, names);
    NamesDecision(g, p, split(cn));
    CommonNameMeans(CodeRules(g), p, cn, split);
    CheckIsDecision(compare, p.permitted.cn, p.excluded.cn);
  }

  // ---------------------------------------------------------------------------------------------
  // Monotonicity, by the matchers of the program

  lemma OneLabel(l: string)
    requires Label(l)
    ensures ReverseLabels(l) == Some([l])
  {
    PartsOne(l);
  }

  lemma LettersDiffer(g: Foreign, x: string, y: string)
    requires Label(x) && Label(y) && !EqualFold(y, x) && x != "*" && !Blocked(g.allowWildcards, x) && !HasEmptyLabel(y)
    requires g.idna(x) == Some(x) && !HasPrefix(x, "*.") && y != "" && y[0] != '.'
    ensures Read(g, Dns, x) == Readable(Word(x)) && Compare(g, Dns, Word(x), y) == Differs
  {
    hide ReverseLabels, EqualFold, Label, Blocked, HasEmptyLabel;
    OneLabel(x);
    OneLabel(y);
    assert Base(y) == y && [y][0] == y && [x][0] == x;
    assert !LabelsMatch([x], [y], false);
  }

  lemma ShortNames()
    ensures Label("x") && Label("y") && !EqualFold("y", "x") && !EqualFold("z", "x") && !HasPrefix("x", "*.")
    ensures !HasEmptyLabel("x") && !HasEmptyLabel("y") && LastIndex("x", '*') == -1
  {
    assert ToLower("x")[0] == 'x' && ToLower("y")[0] == 'y' && ToLower("z")[0] == 'z';
  }

  /** A policy that permits one email address refuses the DNS name x, and allows it once the name y is excluded. */
  lemma AnExclusionMayAllow(g: Foreign)
    requires g.idna("x") == Some("x")
    ensures
      var p := Policy(NOTHING.(email := ["a@b"]), NOTHING);
      && Validate(CodeRules(g), p, Only(Dns, "x")).Refused?
      && Validate(CodeRules(g), Excluding(p, Dns, [], "y", []), Only(Dns, "x")).Allowed?
  {
    hide Validate, Read, Compare, EqualFold, Label, HasEmptyLabel, LastIndex;
    var p := Policy(NOTHING.(email := ["a@b"]), NOTHING);
    var q := Excluding(p, Dns, [], "y", []);
    ShortNames();
    LettersDiffer(g, "x", "y");
    OnlyMeans(CodeRules(g), p, Dns, "x");
    OnlyMeans(CodeRules(g), q, Dns, "x");
    assert q.excluded.dns == ["y"];
    FirstOne(CodeRules(g).Compare(Dns, Word("x")), "y");
  }

  /** A policy without constraints allows the DNS name x, and refuses it once the name y is permitted. */
  lemma APermissionMayRefuse(g: Foreign)
    requires g.idna("x") == Some("x")
    ensures
      var p := Policy(NOTHING, NOTHING);
      && Validate(CodeRules(g), p, Only(Dns, "x")).Allowed?
      && Validate(CodeRules(g), Permitting(p, Dns, "y"), Only(Dns, "x")).Refused?
  {
    hide Validate, Read, Compare, EqualFold, Label, HasEmptyLabel, LastIndex;
    var p := Policy(NOTHING, NOTHING);
    var q := Permitting(p, Dns, "y");
    ShortNames();
    LettersDiffer(g, "x", "y");
    OnlyMeans(CodeRules(g), p, Dns, "x");
    OnlyMeans(CodeRules(g), q, Dns, "x");
    assert q.permitted.dns == ["y"];
    FirstOne(CodeRules(g).Compare(Dns, Word("x")), "y");
    FirstNone(CodeRules(g).Compare(Dns, Word("x")));
  }

  /** A policy that excludes the DNS name x refuses a certificate with the common name x, and allows it once the common
      name y is excluded. */
  lemma AnExcludedCommonNameMayAllow(g: Foreign, split: string -> Lists)
    requires g.idna("x") == Some("x") && split("x") == Only(Dns, "x")
    ensures
      var p := Policy(NOTHING, NOTHING.(dns := ["x"]));
      && ValidateCertificate(CodeRules(g), p, split, true, NOTHING, "x").Refused?
      && ValidateCertificate(CodeRules(g), Excluding(p, CommonName, [], "y", []), split, true, NOTHING, "x").Allowed?
  {
    hide Validate, ValidateCommonName, Read, Compare, EqualFold, Label, HasEmptyLabel, LastIndex, First;
    var p := Policy(NOTHING, NOTHING.(dns := ["x"]));
    var q := Excluding(p, CommonName, [], "y", []);
    ShortNames();
    LetterMatches(g, "x");
    OnlyMeans(CodeRules(g), p, Dns, "x");
    FirstOne(CodeRules(g).Compare(Dns, Word("x")), "x");
    CommonNameMeans(CodeRules(g), p, "x", split);
    CommonNameMeans(CodeRules(g), q, "x", split);
    assert q.excluded.cn == ["y"];
    OwnExclusion(CodeRules(g), p, [], "y", [], "x");
    CommonNameDiffers(g, "x", "y");
    NothingIsAllowed(CodeRules(g), p, split);
    NothingIsAllowed(CodeRules(g), q, split);
  }

  /** A policy that permits the DNS name y and excludes the common name z allows a certificate with the common name x,
      and refuses it once the common name y is permitted. */
  lemma APermittedCommonNameMayRefuse(g: Foreign, split: string -> Lists)
    requires g.idna("x") == Some("x") && split("x") == Only(Dns, "x")
    ensures
      var p := Policy(NOTHING.(dns := ["y"]), NOTHING.(cn := ["z"]));
      && ValidateCertificate(CodeRules(g), p, split, true, NOTHING, "x").Allowed?
      && ValidateCertificate(CodeRules(g), Permitting(p, CommonName, "y"), split, true, NOTHING, "x").Refused?
  {
    hide Validate, ValidateCommonName, Read, Compare, EqualFold, Label, HasEmptyLabel, LastIndex, First;
    var p := Policy(NOTHING.(dns := ["y"]), NOTHING.(cn := ["z"]));
    var q := Permitting(p, CommonName, "y");
    ShortNames();
    LettersDiffer(g, "x", "y");
    OnlyMeans(CodeRules(g), q, Dns, "x");
    FirstOne(CodeRules(g).Compare(Dns, Word("x")), "y");
    CommonNameMeans(CodeRules(g), p, "x", split);
    CommonNameMeans(CodeRules(g), q, "x", split);
    assert q.permitted.cn == ["y"] && q.permitted.dns == ["y"];
    OwnPermission(CodeRules(g), p, "y", "x");
    CommonNameDiffers(g, "x", "y");
    CommonNameDiffers(g, "x", "z");
    FirstOne(CodeRules(g).Compare(CommonName, Word("x")), "z");
    NothingIsAllowed(CodeRules(g), p, split);
    NothingIsAllowed(CodeRules(g), q, split);
  }

  lemma LetterMatches(g: Foreign, x: string)
    requires Label(x) && x != "*" && !Blocked(g.allowWildcards, x) && !HasEmptyLabel(x)
    requires g.idna(x) == Some(x) && !HasPrefix(x, "*.") && x[0] != '.'
    ensures Read(g, Dns, x) == Readable(Word(x)) && Compare(g, Dns, Word(x), x) == Matches
  {
    hide ReverseLabels, EqualFold, Label, Blocked, HasEmptyLabel;
    OneLabel(x);
    FoldsItself(x);
    assert Base(x) == x && LabelsMatch([x], [x], false);
  }

  lemma CommonNameDiffers(g: Foreign, cn: string, c: string)
    requires !EqualFold(c, cn)
    ensures Compare(g, CommonName, Word(cn), c) == Differs
  {}

  /** The principal constraint `*` matches everything: excluding it is safe in every policy, and permitting it in
      every policy that permits something. */
  lemma AsteriskIsSafe(g: Foreign, p: Policy, split: string -> Lists, verify: bool)
    ensures SafeExclusion(CodeRules(g), p, Principal, "*", split, verify)
    ensures p.permitted.Size() > 0 ==> SafePermission(CodeRules(g), p, Principal, "*", split, verify)
  {
    hide First, EqualFold;
    forall name: string ensures CodeRules(g).compare(Principal, Word(name), "*") == Matches {}
  }
}
