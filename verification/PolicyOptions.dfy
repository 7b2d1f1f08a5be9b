/** How configured DNS and email constraints are normalized (policy/options.go), and why the matchers
    can always read the result. Conversion to ASCII names (IDNA) is a parameter. */
module PolicyOptions {
  import opened Text
  import opened PolicyDomain
  import opened PolicyMailbox

  /** idna.Lookup.ToASCII: the ASCII form of a name, or none. */
  type Idna = string -> Option<string>

  predicate IsSpace(c: char) {
    c == ' ' || 9 <= c as int <= 13
  }

  function TrimSpace(s: string): string {
    if s != "" && IsSpace(s[0]) then TrimSpace(s[1..])
    else if s != "" && IsSpace(s[|s| - 1]) then TrimSpace(s[..|s| - 1])
    else s
  }

  /** The six bytes that count as space. */
  lemma SpacesAre(c: char)
    ensures IsSpace(c) <==> c in " \t\n\r" || c as int == 11 || c as int == 12
  {
    assert c in " \t\n\r" <==> c == ' ' || c == '\t' || c == '\n' || c == '\r';
  }

  predicate AllSpace(s: string) {
    forall i :: 0 <= i < |s| ==> IsSpace(s[i])
  }

  /** The string is this one with space on both sides. */
  predicate Padded(s: string, a: string, r: string, b: string) {
    s == a + r + b && AllSpace(a) && AllSpace(b)
  }

  /** Trimming takes all space off both ends, and nothing else. */
  lemma {:induction false} TrimSpaceIs(s: string)
    ensures var r := TrimSpace(s);
            && (r != "" ==> !IsSpace(r[0]) && !IsSpace(r[|r| - 1]))
            && exists a, b :: Padded(s, a, r, b)
    decreases |s|
  {
    hide IsSpace, Padded;
    var r := TrimSpace(s);
    if s != "" && IsSpace(s[0]) {
      TrimSpaceIs(s[1..]);
      var a, b :| Padded(s[1..], a, r, b);
      PaddedMore(s[1..], a, r, b, s[0]);
      assert s == [s[0]] + s[1..] && Padded(s, [s[0]] + a, r, b);
    } else if s != "" && IsSpace(s[|s| - 1]) {
      var l := s[|s| - 1];
      TrimSpaceIs(s[..|s| - 1]);
      var a, b :| Padded(s[..|s| - 1], a, r, b);
      PaddedMore(s[..|s| - 1], a, r, b, l);
      assert s == s[..|s| - 1] + [l] && Padded(s, a, r, b + [l]);
    } else {
      NotPadded(s);
    }
  }

  lemma PaddedMore(s: string, a: string, r: string, b: string, c: char)
    requires Padded(s, a, r, b) && IsSpace(c)
    ensures Padded([c] + s, [c] + a, r, b) && Padded(s + [c], a, r, b + [c])
  {
    hide IsSpace;
  }

  lemma NotPadded(s: string)
    ensures Padded(s, "", s, "")
  {}

  function Count(s: string, c: char): nat {
    if s == "" then 0 else (if s[0] == c then 1 else 0) + Count(s[1..], c)
  }

  /** The last check on every constraint: that it splits into labels. */
  function Checked(constraint: Option<string>): Option<string> {
    if constraint.Some? && ReverseLabels(constraint.value).Some? then constraint else None
  }

  /** normalizeAndValidateDNSDomainConstraint. */
  function NormalizeDns(idna: Idna, constraint: string): Option<string> {
    var n := ToLower(TrimSpace(constraint));
    if n == "" || HasEmptyLabel(n) || HasPrefix(n, ".") || LastIndex(n, '*') > 0 then None
    else if |n| >= 2 && n[0] == '*' && n[1] != '.' then None
    else Checked(idna(if HasPrefix(n, "*.") then n[1..] else n))
  }

  /** The email constraint without case, outer space and leading `@`. */
  function EmailBody(constraint: string): string {
    var n := ToLower(TrimSpace(constraint));
    if n != "" && n[0] == '@' then n[1..] else n
  }

  /** normalizeAndValidateEmailConstraint; a lone `@` is outside of its domain. */
  function NormalizeEmail(idna: Idna, constraint: string): Option<string>
    requires ToLower(TrimSpace(constraint)) != "@"
  {
    var n := ToLower(TrimSpace(constraint));
    if n == "" || '*' in n || Count(n, '@') > 1 then None
    else
      var body := EmailBody(constraint);
      if body[0] == '.' then None
      else if '@' in body then
        if Parse(body).None? then None
        else
          var d := idna(Parse(body).value.domain);
          if d.None? then None else Checked(Some(Parse(body).value.local + "@" + d.value))
      else Checked(idna(body))
  }

  predicate HasScheme(s: string) {
    exists i :: 0 <= i <= |s| - 3 && s[i] == ':' && s[i + 1] == '/' && s[i + 2] == '/'
  }

  /** normalizeAndValidateURIDomainConstraint; whether a host with a port is split off, and what is an IP address, are
      parameters. */
  function NormalizeUri(idna: Idna, splitPort: string -> Option<string>, isIp: string -> bool, constraint: string)
      : Option<string>
  {
    var n := ToLower(TrimSpace(constraint));
    if n == "" || HasScheme(n) || HasEmptyLabel(n) || HasPrefix(n, ".") || LastIndex(n, '*') > 0 then None
    else
      var host := Cut(n);
      if '[' in host || ']' in host || splitPort(host).Some? || isIp(host) then None
      else Checked(idna(host))
  }

  /** matchEmailConstraint. */
  function MatchEmail(allowWildcards: bool, m: Mailbox, constraint: string): Match
    requires '@' !in constraint ==> Comparable(m.domain, constraint)
  {
    if '@' in constraint then
      if Parse(constraint).None? then Unmatchable
      else
        var c := Parse(constraint).value;
        if m.local == c.local && EqualFold(m.domain, c.domain) then Matches else Differs
    else MatchDomain(allowWildcards, m.domain, constraint)
  }

  // ---------------------------------------------------------------------------------------------
  // DNS constraints

  lemma BaseSplits(c: string)
    requires ReverseLabels(c).Some?
    ensures ReverseLabels(Base(c)).Some?
  {
    hide Parts, AllLabels;
    var labels := ReverseLabels(c).value;
    ReverseLabelsAre(c, labels);
    if c == "." + Join(labels) {
      assert Base(c) == Join(labels);
      ReverseLabelsAre(Base(c), labels);
    } else if c != "" && c[0] == '.' {
      JoinStart(labels);
    }
  }

  lemma {:induction false} JoinStart(labels: seq<string>)
    requires AllLabels(labels) && labels != []
    ensures Join(labels) != "" && Join(labels)[0] != '.'
  {
    assert Label(labels[0]);
    if |labels| > 1 {
      JoinStart(labels[1..]);
    }
  }

  lemma ReadableConstraint(allowWildcards: bool, domain: string, c: string)
    requires Comparable(domain, c) && ReverseLabels(domain).Some? && ReverseLabels(c).Some?
    ensures MatchDomain(allowWildcards, domain, c) != Unmatchable
  {
    hide ReverseLabels, LabelsMatch;
    BaseSplits(c);
  }

  /** A normalized DNS constraint can be matched with every name that splits into labels. */
  lemma NormalizedDnsIsReadable(idna: Idna, constraint: string, allowWildcards: bool, domain: string)
    requires NormalizeDns(idna, constraint).Some?
    requires Comparable(domain, NormalizeDns(idna, constraint).value) && ReverseLabels(domain).Some?
    ensures MatchDomain(allowWildcards, domain, NormalizeDns(idna, constraint).value) != Unmatchable
  {
    hide ReverseLabels, MatchDomain;
    ReadableConstraint(allowWildcards, domain, NormalizeDns(idna, constraint).value);
  }

  /** A DNS constraint as it is configured, without outer space and case. */
  function DnsBody(constraint: string): string {
    ToLower(TrimSpace(constraint))
  }

  /** Without the asterisk of a leading `*.`. */
  function Cut(n: string): (cut: string)
    ensures n == (if HasPrefix(n, "*.") then "*" else "") + cut
  {
    if HasPrefix(n, "*.") then n[1..] else n
  }

  /** Not empty, without empty labels and leading period, an asterisk only as the leading label or alone, with an
      ASCII form that labels spell. */
  ghost predicate Acceptable(idna: Idna, n: string) {
    && n != "" && !HasEmptyLabel(n) && n[0] != '.' && '*' !in n[1..] && (n[0] == '*' ==> n == "*" || n[1] == '.')
    && idna(Cut(n)).Some? && exists labels :: AllLabels(labels) && Spells(idna(Cut(n)).value, labels)
  }

  /** Which DNS constraints are accepted: exactly the acceptable ones; and what they become. */
  lemma AcceptedDns(idna: Idna, constraint: string)
    ensures NormalizeDns(idna, constraint).Some? <==> Acceptable(idna, DnsBody(constraint))
    ensures NormalizeDns(idna, constraint).Some? ==> NormalizeDns(idna, constraint) == idna(Cut(DnsBody(constraint)))
  {
    hide LastIndex, ReverseLabels, Label, AllLabels, Spells, ToLower, TrimSpace, HasEmptyLabel;
    var n := DnsBody(constraint);
    if n != "" {
      AsteriskOnlyFirst(n);
      assert HasPrefix(n, ".") <==> n[0] == '.';
      assert |n| == 1 ==> n == [n[0]];
    }
    if idna(Cut(n)).Some? {
      SplitsWhenSpelled(idna(Cut(n)).value);
    }
  }

  /** What a URI domain constraint becomes: it has no scheme, no empty label, no leading period, an asterisk only in
      front, no brackets and no port, is no IP address, and its ASCII form is made of labels. */
  ghost predicate UriBecomes(idna: Idna, splitPort: string -> Option<string>, isIp: string -> bool, n: string,
                             r: string)
  {
    && n != "" && !HasEmptyLabel(n) && n[0] != '.' && '*' !in n[1..] && !(exists a, b :: n == a + "://" + b)
    && var host := Cut(n);
    && '[' !in host && ']' !in host && splitPort(host) == None && !isIp(host)
    && idna(host) == Some(r) && exists labels :: AllLabels(labels) && Spells(r, labels)
  }

  /** Which URI domain constraints are accepted, and what they become. */
  lemma AcceptedUri(idna: Idna, splitPort: string -> Option<string>, isIp: string -> bool, constraint: string,
                    r: string)
    ensures NormalizeUri(idna, splitPort, isIp, constraint) == Some(r) <==>
            UriBecomes(idna, splitPort, isIp, DnsBody(constraint), r)
  {
    hide LastIndex, ReverseLabels, Label, AllLabels, Spells, ToLower, TrimSpace, HasEmptyLabel, HasScheme;
    var n := DnsBody(constraint);
    HasSchemeIs(n);
    SplitsWhenSpelled(r);
    if n != "" {
      AsteriskOnlyFirst(n);
      assert HasPrefix(n, ".") <==> n[0] == '.';
    }
  }

  lemma HasSchemeIs(s: string)
    ensures HasScheme(s) <==> exists a, b :: s == a + "://" + b
  {
    if i :| 0 <= i <= |s| - 3 && s[i] == ':' && s[i + 1] == '/' && s[i + 2] == '/' {
      assert s == s[..i] + "://" + s[i + 3..];
    }
    if a, b :| s == a + "://" + b {
      assert s[|a|] == ':' && s[|a| + 1] == '/' && s[|a| + 2] == '/';
    }
  }

  lemma AsteriskOnlyFirst(n: string)
    requires n != ""
    ensures LastIndex(n, '*') > 0 <==> '*' in n[1..]
  {
    hide LastIndex;
    assert forall k :: 0 < k < |n| ==> n[k] == n[1..][k - 1];
    if '*' in n[1..] {
      var i :| 0 <= i < |n[1..]| && n[1..][i] == '*';
      assert n[i + 1] == '*';
    }
  }

  lemma SplitsWhenSpelled(s: string)
    ensures ReverseLabels(s).Some? <==> exists labels :: AllLabels(labels) && Spells(s, labels)
  {
    hide ReverseLabels, AllLabels, Spells;
    if ReverseLabels(s).Some? { ReverseLabelsAre(s, ReverseLabels(s).value); }
    if labels :| AllLabels(labels) && Spells(s, labels) { ReverseLabelsAre(s, labels); }
  }

  /** What an accepted ASCII constraint means for a name that is not blocked: after a leading `*.` exactly one more
      label, otherwise the same name up to case. */
  lemma ConfiguredDnsMeans(idna: Idna, constraint: string, allowWildcards: bool, domain: string)
    requires NormalizeDns(idna, constraint).Some? && idna(Cut(DnsBody(constraint))) == Some(Cut(DnsBody(constraint)))
    requires domain != "" && domain != "*" && Name(domain) && !Blocked(allowWildcards, domain)
    ensures var n := DnsBody(constraint);
            MatchDomain(allowWildcards, domain, NormalizeDns(idna, constraint).value) == Matches <==>
            if HasPrefix(n, "*.") then exists l :: Label(l) && EqualFold(domain, l + n[1..]) else EqualFold(domain, n)
  {
    hide LastIndex, ReverseLabels, MatchDomain, Blocked, Name, EqualFold, Label, Join, DnsBody, Spells, AllLabels;
    var n := DnsBody(constraint);
    var c := Cut(n);
    AcceptedDns(idna, constraint);
    SplitsWhenSpelled(c);
    NoEmptyLabelIn(n, c);
    BaseSplits(c);
    NamesSplit(Base(c));
    LonePeriod();
    DomainMatches(allowWildcards, domain, c);
  }

  lemma NoEmptyLabelIn(n: string, c: string)
    requires !HasEmptyLabel(n) && n != "" && (c == n || c == n[1..])
    ensures !HasEmptyLabel(c) && (Base(c) != "" ==> Base(c)[0] != '.')
  {
    if c != n && HasEmptyLabel(c) {
      EmptyLabelInside(n, c);
    }
  }

  lemma EmptyLabelInside(n: string, c: string)
    requires n != "" && c == n[1..] && HasEmptyLabel(c)
    ensures HasEmptyLabel(n)
  {
    var i :| 0 <= i < |c| - 1 && c[i] == '.' && c[i + 1] == '.';
    assert n[i + 1] == '.' && n[i + 2] == '.';
  }

  lemma LonePeriod()
    ensures ReverseLabels(".").None?
  {
    PartsCut("", "");
    assert "" + "." + "" == ".";
    assert Parts(".")[0] == "" && !Label("");
  }

  // ---------------------------------------------------------------------------------------------
  // Email constraints

  /** At most one position holds the byte. */
  ghost predicate AtMostOnce(s: string, c: char) {
    forall i, j :: 0 <= i < j < |s| ==> !(s[i] == c && s[j] == c)
  }

  lemma {:induction false} CountIs(s: string, c: char)
    ensures Count(s, c) == 0 <==> c !in s
    ensures Count(s, c) <= 1 <==> AtMostOnce(s, c)
  {
    if s != "" {
      var rest := s[1..];
      CountIs(rest, c);
      assert s == [s[0]] + rest;
      assert forall i :: 0 < i < |s| ==> s[i] == rest[i - 1];
      assert forall i :: 0 <= i < |rest| ==> rest[i] == s[i + 1];
    }
  }

  /** What an email constraint becomes: it has no asterisk and at most one `@`; without a leading `@` it does not start
      with a period, and is either a mailbox, which gets its domain in ASCII, or a domain, which becomes ASCII; and the
      whole is made of labels. */
  ghost predicate EmailBecomes(idna: Idna, n: string, r: string) {
    && n != "" && '*' !in n && AtMostOnce(n, '@')
    && var body := if n[0] == '@' then n[1..] else n;
    && !HasPrefix(body, ".")
    && (if '@' in body
        then exists m, d :: IsMailbox(body, m) && idna(m.domain) == Some(d) && r == m.local + "@" + d
        else idna(body) == Some(r))
    && exists labels :: AllLabels(labels) && Spells(r, labels)
  }

  /** Which email constraints are accepted, and what they become. */
  lemma AcceptedEmail(idna: Idna, constraint: string, r: string)
    requires ToLower(TrimSpace(constraint)) != "@"
    ensures NormalizeEmail(idna, constraint) == Some(r) <==> EmailBecomes(idna, ToLower(TrimSpace(constraint)), r)
  {
    hide Parse, ReverseLabels, Count, AllLabels, Spells, ToLower, TrimSpace, IsMailbox, AtMostOnce;
    var n := ToLower(TrimSpace(constraint));
    CountIs(n, '@');
    SplitsWhenSpelled(r);
    if n != "" {
      var body := EmailBody(constraint);
      assert body != "" && (HasPrefix(body, ".") <==> body[0] == '.');
      forall m ensures Parse(body) == Some(m) <==> IsMailbox(body, m) { ParseIsGrammar(body, m); }
    }
  }

  /** What follows a prefix of a string that splits into labels splits into labels. */
  lemma {:induction false} SuffixSplits(p: string, d: string)
    requires AllLabels(Parts(p + d))
    ensures AllLabels(Parts(d))
    decreases |d|
  {
    hide Parts;
    var i := LastIndex(d, '.');
    if d == "" {
      PartsNone();
    } else if i == -1 {
      PartsOne(d);
      LastPart(p, d);
    } else {
      var front, l := d[..i], d[i + 1..];
      assert d == front + "." + l && p + d == (p + front) + "." + l;
      PartsCut(p + front, l);
      PartsCut(front, l);
      var parts := Parts(p + d);
      assert parts[0] == l && forall k :: 0 <= k < |Parts(p + front)| ==> Parts(p + front)[k] == parts[k + 1];
      SuffixSplits(p, front);
    }
  }

  /** The last part of a string ends with its last bytes without a period. */
  lemma LastPart(p: string, d: string)
    requires d != "" && '.' !in d && AllLabels(Parts(p + d))
    ensures Label(d)
  {
    hide LastIndex, Parts, Label;
    var i := LastIndex(p, '.');
    var start := p[i + 1..];
    var l := start + d;
    if i == -1 {
      assert p + d == l;
      PartsOne(l);
    } else {
      assert p + d == p[..i] + "." + l;
      PartsCut(p[..i], l);
    }
    assert Label(Parts(p + d)[0]);
    LabelEnd(start, d);
  }

  lemma LabelEnd(start: string, d: string)
    requires Label(start + d) && d != ""
    ensures Label(d)
  {
    var l := start + d;
    assert forall k :: 0 <= k < |d| ==> d[k] == l[|start| + k];
  }

  /** The mailbox that a normalized constraint with an `@` stands for. */
  function Wanted(idna: Idna, constraint: string): Option<Mailbox> {
    var m := Parse(EmailBody(constraint));
    if m.Some? && idna(m.value.domain).Some? then Some(Mailbox(m.value.local, idna(m.value.domain).value)) else None
  }

  /** A normalized email constraint with an `@` is read back as the normalized mailbox exactly when
      its local part needs no quotes. */
  lemma EmailConstraintReparses(idna: Idna, constraint: string)
    requires ToLower(TrimSpace(constraint)) != "@" && NormalizeEmail(idna, constraint).Some?
    requires '@' in EmailBody(constraint)
    ensures Wanted(idna, constraint).Some?
    ensures '@' in NormalizeEmail(idna, constraint).value
    ensures Parse(NormalizeEmail(idna, constraint).value) == Wanted(idna, constraint) <==>
      DotAtom(Wanted(idna, constraint).value.local)
  {
    hide Parse, Parts, DotAtom, Count, EmailBody;
    var w := Wanted(idna, constraint).value;
    assert NormalizeEmail(idna, constraint).value == w.local + "@" + w.domain;
    SuffixSplits(w.local + "@", w.domain);
    PlainRoundTrip(w);
  }

  lemma {:induction false} UnescapedIsPlain(q: string, text: string)
    requires Written(Atoms, q, text) && '\\' !in q
    ensures q == text && forall i :: 0 <= i < |text| ==> IsAText(text[i])
    decreases |text|
  {
    if text != "" {
      UnescapedIsPlain(q[1..], text[1..]);
    }
  }

  lemma PlainLocalIsDotAtom(body: string)
    requires Parse(body).Some? && body[0] != '"' && '\\' !in body
    ensures DotAtom(Parse(body).value.local)
  {
    hide Written, DotsOk, Parse, ReverseLabels;
    var m := Parse(body).value;
    ParseIsGrammar(body, m);
    var q :| WrittenMailbox(body, q, m);
    assert '\\' !in q;
    UnescapedIsPlain(q, m.local);
  }

  /** ASCII conversion brings in no `@`. */
  ghost predicate KeepsAt(idna: Idna) {
    forall s: string :: idna(s).Some? && '@' in idna(s).value ==> '@' in s
  }

  /** An email constraint without quotes and backslashes can, once normalized, be matched with every mailbox. */
  lemma NormalizedEmailIsReadable(idna: Idna, constraint: string, allowWildcards: bool, m: Mailbox)
    requires KeepsAt(idna) && ToLower(TrimSpace(constraint)) != "@" && NormalizeEmail(idna, constraint).Some?
    requires EmailBody(constraint)[0] != '"' && '\\' !in EmailBody(constraint)
    requires
      var c := NormalizeEmail(idna, constraint).value;
      '@' !in c ==> Comparable(m.domain, c) && ReverseLabels(m.domain).Some?
    ensures MatchEmail(allowWildcards, m, NormalizeEmail(idna, constraint).value) != Unmatchable
    ensures '@' in EmailBody(constraint) && Wanted(idna, constraint).Some? ==>
      var w := Wanted(idna, constraint).value;
      MatchEmail(allowWildcards, m, NormalizeEmail(idna, constraint).value) == Matches <==>
      m.local == w.local && EqualFold(m.domain, w.domain)
  {
    hide Parse, ReverseLabels, MatchDomain, DotAtom, EmailBody, Count, EqualFold;
    if '@' in EmailBody(constraint) {
      EmailConstraintReparses(idna, constraint);
      PlainLocalIsDotAtom(EmailBody(constraint));
    } else {
      ReadableConstraint(allowWildcards, m.domain, NormalizeEmail(idna, constraint).value);
    }
  }

  /** With quotes that is lost: this constraint is accepted, and no mailbox can be matched with it. */
  lemma QuotedConstraintIsUnreadable(allowWildcards: bool, m: Mailbox)
    ensures NormalizeEmail(s => Some(s), "\"a,b\"@c") == Some("a,b@c")
    ensures MatchEmail(allowWildcards, m, "a,b@c") == Unmatchable
  {
    hide Parts, Parse, Count, TrimSpace, ToLower;
    var x, c := "\"a,b\"@c", "a,b@c";
    TrimmedAndLower(x);
    OneAt("\"a,b\"", "c");
    PartsOne("c");
    QuotedComma();
    PartsOne(c);
    assert '@' in c && '@' in x by { assert c[3] == '@' && x[5] == '@'; }
    assert "\"a,b\"" + "@" + "c" == x;
    assert EmailBody(x) == x;
    assert "a,b" + "@" + "c" == c;
    assert Label(c) && AllLabels([c]);
    StopsAtComma();
  }

  lemma TrimmedAndLower(x: string)
    requires x != "" && !IsSpace(x[0]) && !IsSpace(x[|x| - 1])
    ensures TrimSpace(x) == x
    ensures (forall i :: 0 <= i < |x| ==> LowerChar(x[i]) == x[i]) ==> ToLower(x) == x
  {}

  lemma {:induction false} OneAt(a: string, b: string)
    requires '@' !in a && '@' !in b
    ensures Count(a + "@" + b, '@') == 1 && Count(b, '@') == 0
  {
    var s := a + "@" + b;
    if b != "" { OneAtNone(b); }
    if a == "" {
      assert s[1..] == b;
    } else {
      assert s[1..] == a[1..] + "@" + b;
      OneAt(a[1..], b);
    }
  }

  lemma OneAtNone(b: string)
    requires '@' !in b
    ensures Count(b, '@') == 0
  {}

  lemma QuotedComma()
    ensures Parse("\"a,b\"@c") == Some(Mailbox("a,b", "c"))
  {
    hide Parse, Parts, Quote;
    PartsOne("c");
    QuoteOne("b", "");
    QuoteOne(",b", "b");
    QuoteOne("a,b", ",b");
    QuoteNone();
    assert ['b'] + "" == "b" && [','] + "b" == ",b" && ['a'] + ",b" == "a,b";
    QuotedRoundTrip(Mailbox("a,b", "c"));
    assert "\"" + "a,b" + "\"@" + "c" == "\"a,b\"@c";
  }

  lemma QuoteNone()
    ensures Quote("") == ""
  {}

  lemma QuoteOne(s: string, rest: string)
    requires s != "" && IsQText(s[0]) && s[1..] == rest
    ensures Quote(s) == [s[0]] + Quote(rest)
  {}

  lemma CommaIsNoAtom()
    ensures IsAText('a') && !IsAText(',')
  {}

  lemma StopsAtComma()
    ensures Parse("a,b@c") == None
  {
    hide IsAText, HasEmptyLabel, ReverseLabels;
    var s := "a,b@c";
    CommaIsNoAtom();
    assert s[1..][0] == ',';
    assert Scan(Atoms, s[1..]) == Some(Scanned("", s[1..]));
    assert Scan(Atoms, s) == Some(Scanned(['a'] + "", s[1..]));
  }
}
