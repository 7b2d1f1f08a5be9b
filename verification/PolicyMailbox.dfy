/** Mailboxes: the grammar of section 4.1.2 of RFC 2821 as the policy engine reads it (policy/validate.go). */
module PolicyMailbox {
  import opened Text
  import opened PolicyDomain

  datatype Mailbox = Mailbox(local: string, domain: string)

  datatype Style = Quoted | Atoms

  // ---------------------------------------------------------------------------------------------
  // The grammar

  /** Bytes that may follow a backslash in a quoted string: 1 to 9, 11, 12 and 14 to 127. */
  predicate IsText(c: char) {
    var b := c as int;
    b == 11 || b == 12 || 1 <= b <= 9 || 14 <= b <= 127
  }

  predicate IsQText(c: char) {
    var b := c as int;
    || b == 11 || b == 12 || b == 32 || b == 33 || b == 127
    || 1 <= b <= 8 || 14 <= b <= 31 || 35 <= b <= 91 || 93 <= b <= 126
  }

  /** Bytes of an atom, and the period. */
  predicate IsAText(c: char) {
    || '0' <= c <= '9' || 'a' <= c <= 'z' || 'A' <= c <= 'Z'
    || c in "!#$%&'*+-/=?^_`{|}~."
  }

  /** The bytes of quoted strings: after a backslash any ASCII byte but zero and the line ends, and plain the same
      without tab, quote and backslash. */
  lemma QuotedBytes(c: char)
    ensures IsText(c) <==> 0 < c as int < 128 && c != '\n' && c != '\r'
    ensures IsQText(c) <==> 0 < c as int < 128 && c !in "\n\r\t\"\\"
  {
    assert c in "\n\r\t\"\\" <==> c == '\n' || c == '\r' || c == '\t' || c == '"' || c == '\\';
  }

  /** The bytes of atoms: the visible ones without the specials of RFC 822, and the period. */
  lemma AtomBytes(c: char)
    ensures IsAText(c) <==> ' ' < c <= '~' && c !in "()<>@,;:\\\"[]"
  {
    assert c in "()<>@,;:\\\"[]" <==>
      || c == '(' || c == ')' || c == '<' || c == '>' || c == '@' || c == ',' || c == ';' || c == ':' || c == '\\'
      || c == '"' || c == '[' || c == ']';
    var others := "!#$%&'*+-/=?^_`{|}~.";
    assert c in others <==> (c == '!' || '#' <= c <= '\'' || c == '*' || c == '+' || '-' <= c <= '/' || c == '='
      || c == '?' || '^' <= c <= '`' || '{' <= c <= '~');
  }

  /** Bytes that stand for themselves. */
  predicate Plain(style: Style, c: char) {
    if style == Quoted then IsQText(c) else IsAText(c)
  }

  /** Bytes that may stand after a backslash; outside of quotes, any. */
  predicate Escapable(style: Style, c: char) {
    style == Quoted ==> IsText(c)
  }

  /** `text` is written as `q`: every byte plain or after a backslash. */
  predicate Written(style: Style, q: string, text: string)
    decreases |text|
  {
    if text == "" then q == ""
    else if q == "" then false
    else if q[0] == '\\' then |q| > 1 && Escapable(style, q[1]) && q[1] == text[0] && Written(style, q[2..], text[1..])
    else Plain(style, q[0]) && q[0] == text[0] && Written(style, q[1..], text[1..])
  }

  /** Periods neither first nor last nor side by side. */
  predicate DotsOk(local: string) {
    local != "" && local[0] != '.' && local[|local| - 1] != '.' && !HasEmptyLabel(local)
  }

  /** The grammar of a mailbox: a quoted string, or atoms with periods between them; then `@` and a domain. */
  ghost predicate IsMailbox(s: string, m: Mailbox) {
    && ReverseLabels(m.domain).Some?
    && exists q :: WrittenMailbox(s, q, m)
  }

  predicate WrittenMailbox(s: string, q: string, m: Mailbox) {
    || (s == "\"" + q + "\"@" + m.domain && Written(Quoted, q, m.local))
    || (s == q + "@" + m.domain && Written(Atoms, q, m.local) && DotsOk(m.local))
  }

  // ---------------------------------------------------------------------------------------------
  // The parser

  datatype Scanned = Scanned(text: string, rest: string)

  function Prepend(text: string, s: Option<Scanned>): Option<Scanned> {
    if s.Some? then Some(Scanned(text + s.value.text, s.value.rest)) else None
  }

  /** The longest part of `s` made of plain bytes and escapes; None on an escape that is not allowed. */
  function Scan(style: Style, s: string): Option<Scanned> {
    if s == "" then Some(Scanned("", ""))
    else if s[0] == '\\' then
      if |s| > 1 && Escapable(style, s[1]) then Prepend([s[1]], Scan(style, s[2..])) else None
    else if Plain(style, s[0]) then Prepend([s[0]], Scan(style, s[1..]))
    else Some(Scanned("", s))
  }

  /** What follows the `@` of `s`, as the domain of a mailbox. */
  function Finish(local: string, s: string): Option<Mailbox> {
    if s != "" && s[0] == '@' && ReverseLabels(s[1..]).Some? then Some(Mailbox(local, s[1..])) else None
  }

  function Parse(s: string): Option<Mailbox> {
    if s == "" then None
    else if s[0] == '"' then
      var q := Scan(Quoted, s[1..]);
      if q.Some? && q.value.rest != "" && q.value.rest[0] == '"' then Finish(q.value.text, q.value.rest[1..]) else None
    else
      var q := Scan(Atoms, s);
      if q.Some? && DotsOk(q.value.text) then Finish(q.value.text, q.value.rest) else None
  }

  /** The first byte that ends a scan. */
  predicate Ends(style: Style, rest: string) {
    rest != "" ==> rest[0] != '\\' && !Plain(style, rest[0])
  }

  /** One plain byte, or one escape. */
  predicate Piece(style: Style, s: string) {
    || (|s| == 1 && s[0] != '\\' && Plain(style, s[0]))
    || (|s| == 2 && s[0] == '\\' && Escapable(style, s[1]))
  }

  lemma ScanPiece(style: Style, start: string, s: string)
    requires Piece(style, start)
    ensures Scan(style, start + s) == Prepend([start[|start| - 1]], Scan(style, s))
  {
    hide Plain, Escapable;
    assert (start + s)[|start|..] == s;
  }

  lemma WrittenPiece(style: Style, q: string, text: string) returns (n: nat)
    requires Written(style, q, text) && text != ""
    ensures 0 < n <= |q| && Piece(style, q[..n]) && q[n - 1] == text[0] && Written(style, q[n..], text[1..])
  {
    hide Plain, Escapable;
    n := if q[0] == '\\' then 2 else 1;
  }

  lemma {:induction false} ScanReads(style: Style, q: string, text: string, rest: string)
    requires Written(style, q, text) && Ends(style, rest)
    ensures Scan(style, q + rest) == Some(Scanned(text, rest))
    decreases |text|
  {
    hide Plain, Escapable, Scan, Written, Piece, Ends;
    if text == "" {
      ScanNothing(style, q, rest);
    } else {
      var n := WrittenPiece(style, q, text);
      var more := q[n..] + rest;
      ScanPiece(style, q[..n], more);
      Regroup(q, n, rest);
      ScanReads(style, q[n..], text[1..], rest);
      assert Prepend([text[0]], Some(Scanned(text[1..], rest))) == Some(Scanned([text[0]] + text[1..], rest));
      assert [text[0]] + text[1..] == text;
    }
  }

  lemma ScanNothing(style: Style, q: string, rest: string)
    requires Written(style, q, "") && Ends(style, rest)
    ensures Scan(style, q + rest) == Some(Scanned("", rest))
  {
    assert q + rest == rest;
  }

  lemma Regroup(q: string, n: nat, rest: string)
    requires n <= |q|
    ensures q + rest == q[..n] + (q[n..] + rest)
  {}

  /** How a scan goes on after its first byte or escape. */
  lemma ScanStep(style: Style, s: string, n: nat)
    requires s != "" && Scan(style, s).Some? && n == (if s[0] == '\\' then 2 else 1)
    requires s[0] == '\\' || Plain(style, s[0])
    ensures n <= |s| && Scan(style, s[n..]).Some?
    ensures var r, r' := Scan(style, s).value, Scan(style, s[n..]).value;
            r.rest == r'.rest && r.text == [s[n - 1]] + r'.text && (n == 2 ==> Escapable(style, s[1]))
  {
    hide Plain, Escapable;
  }

  lemma WrittenStep(style: Style, start: string, q: string, text: string)
    requires Written(style, q, text)
    requires Piece(style, start)
    ensures Written(style, start + q, [start[|start| - 1]] + text)
  {
    hide Plain, Escapable;
    assert (start + q)[|start|..] == q && ([start[|start| - 1]] + text)[1..] == text;
  }

  lemma {:induction false} ScanFinds(style: Style, s: string)
    returns (q: string)
    requires Scan(style, s).Some?
    ensures s == q + Scan(style, s).value.rest && Written(style, q, Scan(style, s).value.text)
    ensures Ends(style, Scan(style, s).value.rest)
    decreases |s|
  {
    hide Plain, Escapable;
    if s != "" && (s[0] == '\\' || Plain(style, s[0])) {
      hide Scan, Written;
      var n := if s[0] == '\\' then 2 else 1;
      ScanStep(style, s, n);
      var r := ScanFinds(style, s[n..]);
      q := s[..n] + r;
      WrittenStep(style, s[..n], r, Scan(style, s[n..]).value.text);
      assert s == s[..n] + s[n..];
    } else {
      q := "";
    }
  }

  /** The parser reads exactly the grammar. */
  lemma ParseIsGrammar(s: string, m: Mailbox)
    ensures Parse(s) == Some(m) <==> IsMailbox(s, m)
  {
    hide Written, Scan, DotsOk, ReverseLabels;
    if Parse(s) == Some(m) {
      if s[0] == '"' {
        var q := ScanFinds(Quoted, s[1..]);
        var rest := Scan(Quoted, s[1..]).value.rest;
        assert s == "\"" + q + "\"@" + m.domain;
        assert WrittenMailbox(s, q, m);
      } else {
        var q := ScanFinds(Atoms, s);
        assert s == q + "@" + m.domain;
        assert WrittenMailbox(s, q, m);
      }
    }
    if IsMailbox(s, m) {
      var q :| WrittenMailbox(s, q, m);
      GrammarParses(s, q, m);
    }
  }

  lemma GrammarParses(s: string, q: string, m: Mailbox)
    requires ReverseLabels(m.domain).Some? && WrittenMailbox(s, q, m)
    ensures Parse(s) == Some(m)
  {
    hide Written, Scan, DotsOk, ReverseLabels;
    if s == "\"" + q + "\"@" + m.domain && Written(Quoted, q, m.local) {
      var rest := "\"@" + m.domain;
      assert s[1..] == q + rest;
      ScanReads(Quoted, q, m.local, rest);
      assert rest[1..] == "@" + m.domain && rest[1..][1..] == m.domain;
    } else {
      var rest := "@" + m.domain;
      assert s == q + rest;
      ScanReads(Atoms, q, m.local, rest);
      AtomsAreNotQuoted(q, m.local);
      assert rest[1..] == m.domain;
    }
  }

  lemma AtomsAreNotQuoted(q: string, local: string)
    requires Written(Atoms, q, local) && DotsOk(local)
    ensures q != "" && q[0] != '"'
  {}

  // ---------------------------------------------------------------------------------------------
  // Printing

  /** The quoted form of a local part, with a backslash before the bytes that need one. */
  function Quote(local: string): string {
    if local == "" then ""
    else (if IsQText(local[0]) then [local[0]] else ['\\', local[0]]) + Quote(local[1..])
  }

  lemma {:induction false} QuoteWrites(local: string)
    requires forall i :: 0 <= i < |local| ==> IsText(local[i])
    ensures Written(Quoted, Quote(local), local)
  {
    if local != "" {
      QuoteWrites(local[1..]);
      var q := Quote(local);
      if IsQText(local[0]) { assert q[1..] == Quote(local[1..]); } else { assert q[2..] == Quote(local[1..]); }
    }
  }

  /** Any local part over the bytes of a quoted string is read back from its quoted form. */
  lemma QuotedRoundTrip(m: Mailbox)
    requires ReverseLabels(m.domain).Some? && forall i :: 0 <= i < |m.local| ==> IsText(m.local[i])
    ensures Parse("\"" + Quote(m.local) + "\"@" + m.domain) == Some(m)
  {
    hide Written, Parse, ReverseLabels;
    QuoteWrites(m.local);
    GrammarParses("\"" + Quote(m.local) + "\"@" + m.domain, Quote(m.local), m);
  }

  /** A local part that needs no quotes. */
  predicate DotAtom(local: string) {
    DotsOk(local) && forall i :: 0 <= i < |local| ==> IsAText(local[i])
  }

  lemma {:induction false} AtomsWrite(local: string)
    requires forall i :: 0 <= i < |local| ==> IsAText(local[i])
    ensures Written(Atoms, local, local)
  {
    if local != "" {
      AtomsWrite(local[1..]);
    }
  }

  lemma {:induction false} WrittenPlainly(local: string)
    requires Written(Atoms, local, local)
    ensures forall i :: 0 <= i < |local| ==> IsAText(local[i])
  {
    if local != "" {
      if local[0] != '\\' {
        WrittenPlainly(local[1..]);
      } else {
        WrittenIsLonger(Atoms, local[2..], local[1..]);
      }
    }
  }

  lemma {:induction false} WrittenIsLonger(style: Style, q: string, text: string)
    requires Written(style, q, text)
    ensures |q| >= |text|
    decreases |text|
  {
    if text != "" {
      if q[0] == '\\' { WrittenIsLonger(style, q[2..], text[1..]); } else { WrittenIsLonger(style, q[1..], text[1..]); }
    }
  }

  /** Written plainly, a mailbox is read back exactly when its local part is a dot-atom. */
  lemma PlainRoundTrip(m: Mailbox)
    requires ReverseLabels(m.domain).Some?
    ensures Parse(m.local + "@" + m.domain) == Some(m) <==> DotAtom(m.local)
  {
    hide Written, Parse, ReverseLabels, DotsOk;
    var s := m.local + "@" + m.domain;
    if DotAtom(m.local) {
      AtomsWrite(m.local);
      GrammarParses(s, m.local, m);
    }
    if Parse(s) == Some(m) {
      ParseIsGrammar(s, m);
      var q :| WrittenMailbox(s, q, m);
      if s == q + "@" + m.domain && Written(Atoms, q, m.local) && DotsOk(m.local) {
        assert |q| == |m.local| && q == s[..|q|] && m.local == s[..|m.local|];
        WrittenPlainly(m.local);
      } else {
        assert |s| == |q| + 3 + |m.domain|;
        WrittenIsLonger(Quoted, q, m.local);
        assert false;
      }
    }
  }

  // ---------------------------------------------------------------------------------------------
  // The parser as a loop

  /** parseRFC2821Mailbox. */
  method ParseRFC2821Mailbox(address: string) returns (mailbox: Mailbox, ok: bool)
    ensures ok == Parse(address).Some? && (ok ==> Parse(address) == Some(mailbox))
  {
    mailbox := Mailbox("", "");
    if address == "" {
      return mailbox, false;
    }
    var local, rest;
    if address[0] == '"' {
      local, rest, ok := ReadQuoted(address[1..]);
    } else {
      local, rest, ok := ReadAtoms(address);
      ok := ok && local != "" && local[0] != '.' && local[|local| - 1] != '.' && !HasEmptyLabel(local);
    }
    if !ok {
      return mailbox, false;
    }
    if rest == "" || rest[0] != '@' {
      return mailbox, false;
    }
    var labels;
    labels, ok := DomainToReverseLabels(rest[1..]);
    if ok {
      mailbox := Mailbox(local, rest[1..]);
    }
  }

  /** The loop over a quoted string, after its first quote. */
  method ReadQuoted(input: string) returns (local: string, rest: string, ok: bool)
    ensures var q := Scan(Quoted, input);
            && ok == (q.Some? && q.value.rest != "" && q.value.rest[0] == '"')
            && (ok ==> local == q.value.text && rest == q.value.rest[1..])
  {
    rest, local := input, "";
    PrependNothing(Scan(Quoted, input));
    while true
      invariant Scan(Quoted, input) == Prepend(local, Scan(Quoted, rest))
      decreases |rest|
    {
      if rest == "" {
        return local, rest, false;
      }
      var c := rest[0];
      ghost var at := rest;
      rest := rest[1..];
      if c == '"' {
        return local, rest, true;
      } else if c == '\\' {
        if rest == "" {
          return local, rest, false;
        }
        if !IsText(rest[0]) {
          return local, rest, false;
        }
        assert at[2..] == rest[1..];
        PrependMore(local, [rest[0]], Scan(Quoted, rest[1..]));
        local := local + [rest[0]];
        rest := rest[1..];
      } else if IsQText(c) {
        PrependMore(local, [c], Scan(Quoted, rest));
        local := local + [c];
      } else {
        return local, rest, false;
      }
    }
  }

  lemma PrependNothing(s: Option<Scanned>)
    ensures Prepend("", s) == s
  {
    if s.Some? { assert "" + s.value.text == s.value.text; }
  }

  lemma PrependMore(a: string, b: string, s: Option<Scanned>)
    ensures Prepend(a, Prepend(b, s)) == Prepend(a + b, s)
  {
    if s.Some? { assert a + (b + s.value.text) == a + b + s.value.text; }
  }

  /** The loop over atoms, periods and escapes. */
  method ReadAtoms(input: string) returns (local: string, rest: string, ok: bool)
    ensures var q := Scan(Atoms, input);
            ok == q.Some? && (ok ==> local == q.value.text && rest == q.value.rest)
  {
    rest, local := input, "";
    PrependNothing(Scan(Atoms, input));
    while |rest| > 0
      invariant Scan(Atoms, input) == Prepend(local, Scan(Atoms, rest))
      decreases |rest|
    {
      var c := rest[0];
      ghost var at := rest;
      if c == '\\' {
        rest := rest[1..];
        if rest == "" {
          return local, rest, false;
        }
        assert at[2..] == rest[1..];
        PrependMore(local, [rest[0]], Scan(Atoms, rest[1..]));
        local := local + [rest[0]];
        rest := rest[1..];
      } else if IsAText(c) {
        PrependMore(local, [c], Scan(Atoms, rest[1..]));
        local := local + [rest[0]];
        rest := rest[1..];
      } else {
        break;
      }
    }
    assert Scan(Atoms, rest) == Some(Scanned("", rest)) && local + "" == local;
    ok := true;
  }
}
