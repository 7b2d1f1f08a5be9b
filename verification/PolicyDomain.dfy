/** Domain names and domain constraints of the name policy engine (policy/validate.go). */
module PolicyDomain {
  import opened Text

  // ---------------------------------------------------------------------------------------------
  // Strings

  /** strings.LastIndexByte: the last position of a byte, or -1. */
  function LastIndex(s: string, c: char): (i: int)
    ensures -1 <= i < |s| && (i >= 0 ==> s[i] == c)
    ensures forall k :: i < k < |s| ==> s[k] != c
  {
    if s == [] then -1
    else if s[|s| - 1] == c then |s| - 1
    else LastIndex(s[..|s| - 1], c)
  }

  /** Two periods in a row. */
  predicate HasEmptyLabel(s: string) {
    exists i :: 0 <= i < |s| - 1 && s[i] == '.' && s[i + 1] == '.'
  }

  lemma HasEmptyLabelIs(s: string)
    ensures HasEmptyLabel(s) <==> exists a, b :: s == a + ".." + b
  {
    if i :| 0 <= i < |s| - 1 && s[i] == '.' && s[i + 1] == '.' { assert s == s[..i] + ".." + s[i + 2..]; }
    if a, b :| s == a + ".." + b { assert s[|a|] == '.' && s[|a| + 1] == '.'; }
  }

  // ---------------------------------------------------------------------------------------------
  // Labels

  predicate Visible(s: string) {
    forall i :: 0 <= i < |s| ==> 33 <= s[i] as int <= 126
  }

  /** A label: non-empty, without a period, over bytes 33 to 126. */
  predicate Label(s: string) {
    s != "" && '.' !in s && Visible(s)
  }

  lemma LabelIs(s: string)
    ensures Label(s) <==> |s| > 0 && forall i :: 0 <= i < |s| ==> '!' <= s[i] <= '~' && s[i] != '.'
  {}

  predicate AllLabels(labels: seq<string>) {
    forall i :: 0 <= i < |labels| ==> Label(labels[i])
  }

  /** The domain name with these labels, the last label of the name first. */
  function Join(labels: seq<string>): string {
    if labels == [] then ""
    else if |labels| == 1 then labels[0]
    else Join(labels[1..]) + "." + labels[0]
  }

  /** The parts between periods from the end on; the empty part before a leading period is left out. */
  function Parts(domain: string): (parts: seq<string>)
    ensures domain == "" <==> parts == []
    ensures forall i :: 0 <= i < |parts| ==> '.' !in parts[i]
  {
    if domain == "" then []
    else
      var i := LastIndex(domain, '.');
      if i == -1 then [domain] else [domain[i + 1..]] + Parts(domain[..i])
  }

  function ReverseLabels(domain: string): Option<seq<string>> {
    if AllLabels(Parts(domain)) then Some(Parts(domain)) else None
  }

  /** A string that a list of labels is read from. */
  predicate Spells(domain: string, labels: seq<string>) {
    domain == Join(labels) || (labels != [] && domain == "." + Join(labels))
  }

  lemma LastIndexIs(s: string, c: char, i: nat)
    requires i < |s| && s[i] == c && forall k :: i < k < |s| ==> s[k] != c
    ensures LastIndex(s, c) == i
  {}

  lemma PartsOne(l: string)
    requires l != "" && '.' !in l
    ensures Parts(l) == [l]
  {
    hide LastIndex;
    assert LastIndex(l, '.') == -1;
  }

  lemma PartsCut(front: string, l: string)
    requires '.' !in l
    ensures Parts(front + "." + l) == [l] + Parts(front)
  {
    hide LastIndex;
    var s := front + "." + l;
    LastIndexIs(s, '.', |front|);
    assert s[..|front|] == front && s[|front| + 1..] == l;
  }

  lemma {:induction false} SpelledParts(domain: string, labels: seq<string>)
    requires AllLabels(labels) && Spells(domain, labels)
    ensures Parts(domain) == labels
    decreases |labels|
  {
    hide Parts, Visible;
    if labels == [] {
      PartsNone();
    } else {
      var l, rest := labels[0], labels[1..];
      assert labels == [l] + rest && Label(l);
      if domain == l {
        PartsOne(l);
      } else {
        var front := if domain == Join(labels) then Join(rest) else if rest == [] then "" else "." + Join(rest);
        assert domain == front + "." + l;
        SpelledParts(front, rest);
        PartsCut(front, l);
      }
    }
  }

  lemma PartsNone()
    ensures Parts("") == []
  {}

  lemma {:induction false} PartsSpell(domain: string)
    requires forall i :: 0 <= i < |Parts(domain)| ==> Parts(domain)[i] != ""
    ensures Spells(domain, Parts(domain))
    decreases |domain|
  {
    hide Parts;
    var i := LastIndex(domain, '.');
    if domain == "" {
      PartsNone();
    } else if i == -1 {
      PartsOne(domain);
    } else {
      var front, l := domain[..i], domain[i + 1..];
      assert domain == front + "." + l;
      PartsCut(front, l);
      var rest := Parts(front);
      assert forall k :: 0 <= k < |rest| ==> rest[k] == Parts(domain)[k + 1];
      PartsSpell(front);
      if rest == [] { PartsOfEmpty(front); }
      SpellsMore(front, rest, l);
    }
  }

  lemma SpellsMore(front: string, rest: seq<string>, l: string)
    requires Spells(front, rest) && (rest == [] ==> front == "")
    ensures Spells(front + "." + l, [l] + rest)
  {
    var parts := [l] + rest;
    assert parts[1..] == rest;
    if rest == [] {
      assert front + "." + l == "." + l;
    } else if front != Join(rest) {
      assert front + "." + l == "." + (Join(rest) + "." + l);
    }
  }

  lemma PartsOfEmpty(s: string)
    requires Parts(s) == []
    ensures s == ""
  {}

  /** domainToReverseLabels returns exactly the labels that spell its argument. */
  lemma ReverseLabelsAre(domain: string, labels: seq<string>)
    ensures ReverseLabels(domain) == Some(labels) <==> AllLabels(labels) && Spells(domain, labels)
  {
    if AllLabels(labels) && Spells(domain, labels) {
      SpelledParts(domain, labels);
    }
    if ReverseLabels(domain) == Some(labels) {
      PartsSpell(domain);
    }
  }

  /** domainToReverseLabels. */
  method DomainToReverseLabels(domain: string) returns (reverseLabels: seq<string>, ok: bool)
    ensures ok ==> ReverseLabels(domain) == Some(reverseLabels)
    ensures !ok ==> ReverseLabels(domain) == None && reverseLabels == []
  {
    hide Parts, AllLabels;
    reverseLabels := SplitFromTheEnd(domain);
    ok := CheckLabels(reverseLabels);
    if !ok {
      reverseLabels := [];
    }
  }

  /** The first loop: cuts the name at its last period until nothing is left. */
  method SplitFromTheEnd(domain: string) returns (parts: seq<string>)
    ensures parts == Parts(domain)
    ensures forall i :: 0 <= i < |parts| ==> '.' !in parts[i]
  {
    hide Parts, LastIndex;
    var rest := domain;
    parts := [];
    while |rest| > 0
      invariant Parts(domain) == parts + Parts(rest)
    {
      var i := LastIndex(rest, '.');
      if i == -1 {
        PartsOne(rest);
        PartsNone();
        parts := parts + [rest];
        rest := "";
      } else {
        PartsCut(rest[..i], rest[i + 1..]);
        assert rest == rest[..i] + "." + rest[i + 1..];
        assert parts + ([rest[i + 1..]] + Parts(rest[..i])) == (parts + [rest[i + 1..]]) + Parts(rest[..i]);
        parts := parts + [rest[i + 1..]];
        rest := rest[..i];
      }
    }
    PartsNone();
  }

  /** The second loop: every part is a label. */
  method CheckLabels(parts: seq<string>) returns (ok: bool)
    requires forall i :: 0 <= i < |parts| ==> '.' !in parts[i]
    ensures ok <==> AllLabels(parts)
  {
    if |parts| > 0 && parts[0] == "" {
      assert !Label(parts[0]);
      return false;
    }
    for j := 0 to |parts|
      invariant forall k :: 0 <= k < j ==> Label(parts[k])
    {
      var part := parts[j];
      assert Label(part) <==> part != "" && Visible(part);
      if part == "" {
        return false;
      }
      for k := 0 to |part|
        invariant forall m :: 0 <= m < k ==> 33 <= part[m] as int <= 126
      {
        if part[k] as int < 33 || part[k] as int > 126 {
          return false;
        }
      }
    }
    ok := true;
  }

  // ---------------------------------------------------------------------------------------------
  // Case

  lemma LowerConcat(a: string, b: string)
    ensures ToLower(a + b) == ToLower(a) + ToLower(b)
  {}

  lemma {:induction false} PartsLower(domain: string)
    ensures Parts(ToLower(domain)) == Lowered(Parts(domain))
    decreases |domain|
  {
    hide Parts, ToLower;
    var i := LastIndex(domain, '.');
    if domain == "" {
      PartsNone();
    } else if i == -1 {
      PartsOne(domain);
      LowerNoDot(domain);
      PartsOne(ToLower(domain));
    } else {
      var front, l := domain[..i], domain[i + 1..];
      assert domain == front + "." + l;
      LowerConcat(front + ".", l);
      LowerConcat(front, ".");
      LowerDot();
      LowerNoDot(l);
      PartsCut(ToLower(front), ToLower(l));
      PartsCut(front, l);
      PartsLower(front);
      assert Lowered([l] + Parts(front)) == [ToLower(l)] + Lowered(Parts(front));
    }
  }

  lemma LowerDot()
    ensures ToLower(".") == "."
  {}

  lemma LowerNoDot(s: string)
    ensures '.' in ToLower(s) <==> '.' in s
  {
    if '.' in s {
      var i :| 0 <= i < |s| && s[i] == '.';
      assert ToLower(s)[i] == '.';
    }
  }

  lemma {:induction false} JoinLower(labels: seq<string>)
    ensures Join(Lowered(labels)) == ToLower(Join(labels))
  {
    if |labels| > 1 {
      JoinLower(labels[1..]);
      assert Lowered(labels)[1..] == Lowered(labels[1..]);
      LowerConcat(Join(labels[1..]) + ".", labels[0]);
      LowerConcat(Join(labels[1..]), ".");
    }
  }

  /** Two domain names are equal up to case exactly when their labels are, one by one. */
  lemma FoldedLabels(a: seq<string>, b: seq<string>)
    requires AllLabels(a) && AllLabels(b)
    ensures EqualFold(Join(a), Join(b)) <==> Lowered(a) == Lowered(b)
  {
    JoinLower(a);
    JoinLower(b);
    SpelledParts(Join(a), a);
    SpelledParts(Join(b), b);
    PartsLower(Join(a));
    PartsLower(Join(b));
  }

  /** The label added at the end of the list comes first in the name. */
  lemma {:induction false} JoinFront(labels: seq<string>, l: string)
    requires labels != []
    ensures Join(labels + [l]) == l + "." + Join(labels)
  {
    var all := labels + [l];
    assert all[1..] == labels[1..] + [l];
    if |labels| > 1 {
      JoinFront(labels[1..], l);
    }
  }

  // ---------------------------------------------------------------------------------------------
  // Domain constraints

  datatype Match = Matches | Differs | Unmatchable

  /** The domain can be compared with the constraint: the program indexes into it unless the constraint is empty. */
  predicate Comparable(domain: string, constraint: string) {
    constraint == "" || (domain != "" && domain != "*")
  }

  /** Names that match no constraint but the empty one. */
  predicate Blocked(allowWildcards: bool, domain: string)
    requires domain != "" && domain != "*"
  {
    || domain == " "
    || domain[0] == '.'
    || (domain[0] == '*' && domain[1] != '.')
    || (HasPrefix(domain, "*.") && !allowWildcards)
    || LastIndex(domain, '*') > 0
  }

  /** A name is blocked that is a space, starts with a period, or has an asterisk, except for a leading `*.` where
      literal wildcards are allowed. */
  lemma BlockedIs(allowWildcards: bool, domain: string)
    requires domain != "" && domain != "*"
    ensures Blocked(allowWildcards, domain) <==>
            || domain == " " || HasPrefix(domain, ".")
            || ('*' in domain && !(allowWildcards && exists rest :: domain == "*." + rest && '*' !in rest))
  {
    hide LastIndex;
    assert LastIndex(domain, '*') > 0 <==> exists k :: 0 < k < |domain| && domain[k] == '*' by {
      if k :| 0 < k < |domain| && domain[k] == '*' { assert LastIndex(domain, '*') >= k; }
    }
    assert '*' in domain <==> domain[0] == '*' || exists k :: 0 < k < |domain| && domain[k] == '*';
    assert HasPrefix(domain, ".") <==> domain[0] == '.';
    if HasPrefix(domain, "*.") {
      var rest := domain[2..];
      assert domain == "*." + rest && forall k :: 2 <= k < |domain| ==> domain[k] == rest[k - 2];
      assert '*' in rest <==> exists k :: 0 < k < |domain| && domain[k] == '*' by {
        if k :| 0 < k < |domain| && domain[k] == '*' { assert rest[k - 2] == '*'; }
        if k :| 0 <= k < |rest| && rest[k] == '*' { assert domain[k + 2] == '*'; }
      }
      assert forall r :: domain == "*." + r ==> r == rest;
    }
  }

  /** The part of a constraint that is split into labels. */
  function Base(constraint: string): (base: string)
    ensures constraint == (if HasPrefix(constraint, ".") then "." else "") + base
  {
    if constraint != "" && constraint[0] == '.' then constraint[1..] else constraint
  }

  /** The labels of the constraint are, up to case, the first ones of the domain, and one label more
      is left after a leading period and none otherwise. */
  predicate LabelsMatch(domain: seq<string>, constraint: seq<string>, subdomain: bool) {
    && |domain| == |constraint| + (if subdomain then 1 else 0)
    && forall i :: 0 <= i < |constraint| ==> EqualFold(constraint[i], domain[i])
  }

  function MatchDomain(allowWildcards: bool, domain: string, constraint: string): Match
    requires Comparable(domain, constraint)
  {
    if constraint == "" then Matches
    else if Blocked(allowWildcards, domain) || HasEmptyLabel(constraint) then Differs
    else if ReverseLabels(domain).None? || ReverseLabels(Base(constraint)).None? then Unmatchable
    else
      var d, c := ReverseLabels(domain).value, ReverseLabels(Base(constraint)).value;
      if LabelsMatch(d, c, constraint[0] == '.') then Matches else Differs
  }

  /** matchDomainConstraint. */
  method MatchDomainConstraint(allowWildcards: bool, domain: string, constraint: string) returns (m: Match)
    requires Comparable(domain, constraint)
    ensures m == MatchDomain(allowWildcards, domain, constraint)
  {
    hide LastIndex, ReverseLabels, EqualFold, HasEmptyLabel;
    if constraint == "" {
      return Matches;
    }
    if domain == " " {
      return Differs;
    }
    if domain[0] == '.' {
      return Differs;
    }
    if domain[0] == '*' && domain[1] != '.' {
      return Differs;
    }
    if HasPrefix(domain, "*.") && !allowWildcards {
      return Differs;
    }
    if LastIndex(domain, '*') > 0 {
      return Differs;
    }
    if HasEmptyLabel(constraint) {
      return Differs;
    }
    var domainLabels, ok := DomainToReverseLabels(domain);
    if !ok {
      return Unmatchable;
    }
    var mustHaveSubdomains, base := false, constraint;
    if constraint[0] == '.' {
      mustHaveSubdomains := true;
      base := constraint[1..];
    }
    var constraintLabels;
    constraintLabels, ok := DomainToReverseLabels(base);
    if !ok {
      return Unmatchable;
    }
    var expected := |constraintLabels|;
    if mustHaveSubdomains {
      expected := expected + 1;
    }
    if |domainLabels| != expected {
      return Differs;
    }
    for i := 0 to |constraintLabels|
      invariant forall k :: 0 <= k < i ==> EqualFold(constraintLabels[k], domainLabels[k])
    {
      if !EqualFold(constraintLabels[i], domainLabels[i]) {
        return Differs;
      }
    }
    m := Matches;
  }

  /** A name made of labels, without a leading period. */
  ghost predicate Name(s: string) {
    exists labels :: AllLabels(labels) && s == Join(labels)
  }

  /** The meaning of a constraint on a name, letter by letter: the name itself up to case, or after a
      leading period the name with one more label in front; a lone period stands for no name at all. */
  ghost predicate Covers(constraint: string, domain: string)
    requires constraint != ""
  {
    if constraint[0] != '.' then EqualFold(domain, constraint)
    else exists l :: Label(l) && EqualFold(domain, l + if constraint == "." then "" else constraint)
  }

  /** Without a leading period, a string splits into labels exactly when it is a name. */
  lemma NamesSplit(s: string)
    requires s != "" ==> s[0] != '.'
    ensures Name(s) <==> ReverseLabels(s).Some?
    ensures Name(s) ==> AllLabels(ReverseLabels(s).value) && s == Join(ReverseLabels(s).value)
  {
    hide Parts, AllLabels;
    if Name(s) {
      var labels :| AllLabels(labels) && s == Join(labels);
      ReverseLabelsAre(s, labels);
    }
    if ReverseLabels(s).Some? {
      ReverseLabelsAre(s, ReverseLabels(s).value);
    }
  }

  lemma SameCount(a: seq<string>, b: seq<string>)
    ensures Lowered(a) == Lowered(b) <==> |a| == |b| && forall i :: 0 <= i < |a| ==> EqualFold(b[i], a[i])
  {
    hide ToLower;
    if Lowered(a) == Lowered(b) {
      assert |Lowered(a)| == |Lowered(b)|;
      forall i | 0 <= i < |a| ensures EqualFold(b[i], a[i]) {
        assert Lowered(a)[i] == Lowered(b)[i];
      }
    }
  }

  /** Matching label by label, without a leading period. */
  lemma SameLabels(d: seq<string>, c: seq<string>)
    requires AllLabels(d) && AllLabels(c)
    ensures LabelsMatch(d, c, false) <==> EqualFold(Join(d), Join(c))
  {
    FoldedLabels(d, c);
    SameCount(d, c);
  }

  /** Matching label by label, after a leading period. */
  lemma OneMoreLabel(d: seq<string>, c: seq<string>)
    requires AllLabels(d) && AllLabels(c)
    ensures LabelsMatch(d, c, true) <==> exists l :: Label(l) && EqualFold(Join(d), Join(c + [l]))
  {
    hide Label, EqualFold, Join;
    forall l | Label(l)
      ensures EqualFold(Join(d), Join(c + [l])) <==>
              |d| == |c| + 1 && (forall i :: 0 <= i < |c| ==> EqualFold(c[i], d[i])) && EqualFold(l, d[|c|]) {
      var e := c + [l];
      SameLabels(d, e);
      assert forall i :: 0 <= i < |c| ==> e[i] == c[i];
    }
    if LabelsMatch(d, c, true) {
      assert Label(d[|c|]);
      FoldsItself(d[|c|]);
    }
  }

  lemma FoldsItself(s: string)
    ensures EqualFold(s, s)
  {}

  /** matchDomainConstraint, letter by letter: which names match, and which pairs end in an error. */
  lemma DomainMatches(allowWildcards: bool, domain: string, constraint: string)
    requires Comparable(domain, constraint)
    ensures MatchDomain(allowWildcards, domain, constraint) == Matches <==>
            constraint == "" ||
            (!Blocked(allowWildcards, domain) && !HasEmptyLabel(constraint) && Name(domain)
              && Name(Base(constraint)) && Covers(constraint, domain))
    ensures MatchDomain(allowWildcards, domain, constraint) == Unmatchable <==>
            constraint != "" && !Blocked(allowWildcards, domain) && !HasEmptyLabel(constraint)
              && !(Name(domain) && Name(Base(constraint)))
  {
    hide Name, ReverseLabels, LabelsMatch, Covers, Join, EqualFold;
    if constraint != "" && !Blocked(allowWildcards, domain) && !HasEmptyLabel(constraint) {
      var base := Base(constraint);
      NamesSplit(domain);
      NamesSplit(base);
      if Name(domain) && Name(base) {
        CoversIsLabelsMatch(constraint, domain);
      }
    }
  }

  lemma CoversIsLabelsMatch(constraint: string, domain: string)
    requires constraint != "" && !HasEmptyLabel(constraint) && domain != "" && domain[0] != '.' && Name(domain)
    requires Name(Base(constraint))
    requires ReverseLabels(domain).Some? && ReverseLabels(Base(constraint)).Some?
    ensures LabelsMatch(ReverseLabels(domain).value, ReverseLabels(Base(constraint)).value, constraint[0] == '.') <==>
      Covers(constraint, domain)
  {
    hide Name, ReverseLabels, LabelsMatch, EqualFold, Label;
    var base := Base(constraint);
    NamesSplit(domain);
    NamesSplit(base);
    var d, c := ReverseLabels(domain).value, ReverseLabels(base).value;
    if constraint[0] != '.' {
      SameLabels(d, c);
    } else {
      OneMoreLabel(d, c);
      forall l | Label(l) ensures Join(c + [l]) == l + if constraint == "." then "" else constraint {
        ExtraLabel(c, l, constraint);
      }
    }
  }

  lemma ExtraLabel(c: seq<string>, l: string, constraint: string)
    requires constraint == "." + Join(c) && AllLabels(c)
    ensures Join(c + [l]) == l + if constraint == "." then "" else constraint
  {
    if c == [] {
      assert c + [l] == [l];
    } else {
      JoinFront(c, l);
      JoinNotEmpty(c);
    }
  }

  lemma JoinNotEmpty(c: seq<string>)
    requires AllLabels(c) && c != []
    ensures Join(c) != ""
  {
    assert Label(c[0]);
  }

  /** An asterisk is matched only as a leading label, and only where literal wildcards are allowed. */
  lemma MatchedWildcards(allowWildcards: bool, domain: string, constraint: string)
    requires domain != "" && domain != "*" && constraint != ""
    requires MatchDomain(allowWildcards, domain, constraint) == Matches && '*' in domain
    ensures allowWildcards && HasPrefix(domain, "*.") && '*' !in domain[1..]
  {
    hide LastIndex, ReverseLabels, LabelsMatch, HasEmptyLabel;
    var i :| 0 <= i < |domain| && domain[i] == '*';
    assert forall k :: 0 < k < |domain| ==> domain[k] != '*';
    assert forall k :: 0 <= k < |domain[1..]| ==> domain[1..][k] == domain[k + 1];
    assert domain[0] == '*' && domain[1] == '.';
    assert domain[..2] == "*.";
  }
}
