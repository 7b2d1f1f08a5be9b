/** Byte strings: case folding, prefixes and the byte order used by every sort of the program.
    Each character of a `string` stands for one byte. */
module Text {

  datatype Option<+T> = None | Some(value: T)

  function LowerChar(c: char): (r: char) {
    if 'A' <= c <= 'Z' then (c as int + 32) as char else c
  }

  const CAPITALS: string := "ABCDEFGHIJKLMNOPQRSTUVWXYZ"
  const SMALL: string := "abcdefghijklmnopqrstuvwxyz"

  /** Each of the 26 capitals goes to its small letter, and every other byte stays. */
  lemma LowerCharIs(c: char)
    ensures |CAPITALS| == |SMALL| == 26
    ensures forall i :: 0 <= i < 26 ==> LowerChar(CAPITALS[i]) == SMALL[i]
    ensures c !in CAPITALS ==> LowerChar(c) == c
  {
    assert forall i :: 0 <= i < 26 ==> CAPITALS[i] as int == 'A' as int + i && SMALL[i] as int == 'a' as int + i;
    if 'A' <= c <= 'Z' { assert CAPITALS[c as int - 'A' as int] == c; }
  }

  /** Lower-casing of ASCII letters; every other byte is kept. */
  function ToLower(s: string): (r: string)
    ensures |r| == |s|
    ensures forall i :: 0 <= i < |s| ==> r[i] == LowerChar(s[i])
  {
    if s == [] then [] else [LowerChar(s[0])] + ToLower(s[1..])
  }

  function Map<A, B>(f: A -> B, s: seq<A>): (r: seq<B>)
    ensures |r| == |s|
    ensures forall i :: 0 <= i < |s| ==> r[i] == f(s[i])
  {
    seq(|s|, i requires 0 <= i < |s| => f(s[i]))
  }

  function Lowered(names: seq<string>): seq<string> {
    Map(ToLower, names)
  }

  predicate EqualFold(a: string, b: string) {
    ToLower(a) == ToLower(b)
  }

  predicate HasPrefix(s: string, prefix: string) {
    prefix <= s
  }

  /** Lower-casing neither creates nor destroys a leading `*.`. */
  lemma LowerKeepsWildcard(s: string)
    ensures HasPrefix(ToLower(s), "*.") <==> HasPrefix(s, "*.")
  {
    var l := ToLower(s);
    if |s| >= 2 {
      assert l[0] == LowerChar(s[0]) && l[1] == LowerChar(s[1]);
      assert HasPrefix(l, "*.") <==> l[0] == '*' && l[1] == '.';
      assert HasPrefix(s, "*.") <==> s[0] == '*' && s[1] == '.';
    }
  }

  lemma LowerIsIdempotent(s: string)
    ensures ToLower(ToLower(s)) == ToLower(s)
  {}

  /** Strict byte-wise order. */
  predicate Less(a: string, b: string) {
    if b == [] then false
    else if a == [] then true
    else if a[0] != b[0] then a[0] < b[0]
    else Less(a[1..], b[1..])
  }

  /** The order of bytes: the first difference decides, and a proper prefix comes first. */
  lemma {:induction false} LessIs(a: string, b: string)
    ensures Less(a, b) <==>
            exists n :: 0 <= n <= |a| && n < |b| && a[..n] == b[..n] && (n == |a| || a[n] < b[n])
  {
    if a != [] && b != [] && a[0] == b[0] {
      LessIs(a[1..], b[1..]);
      if n :| 0 <= n <= |a[1..]| && n < |b[1..]| && a[1..][..n] == b[1..][..n]
              && (n == |a| - 1 || a[1..][n] < b[1..][n]) {
        assert a[..n + 1] == [a[0]] + a[1..][..n] && b[..n + 1] == [b[0]] + b[1..][..n];
      }
      if n :| 0 <= n <= |a| && n < |b| && a[..n] == b[..n] && (n == |a| || a[n] < b[n]) {
        assert n > 0 && a[1..][..n - 1] == a[..n][1..] && b[1..][..n - 1] == b[..n][1..];
      }
    } else if b != [] {
      assert a[..0] == b[..0];
      assert forall n :: 0 < n <= |a| && n < |b| ==> a[..n][0] == a[0] && b[..n][0] == b[0];
    }
  }

  lemma LessIrreflexive(a: string)
    ensures !Less(a, a)
  {}

  lemma {:induction false} LessTransitive(a: string, b: string, c: string)
    requires Less(a, b) && Less(b, c)
    ensures Less(a, c)
  {
    if a != [] && a[0] == b[0] == c[0] {
      LessTransitive(a[1..], b[1..], c[1..]);
    }
  }

  lemma {:induction false} LessTotal(a: string, b: string)
    ensures Less(a, b) || a == b || Less(b, a)
  {
    if a != [] && b != [] && a[0] == b[0] {
      LessTotal(a[1..], b[1..]);
      assert a == [a[0]] + a[1..] && b == [b[0]] + b[1..];
    }
  }

  lemma LessAsymmetric(a: string, b: string)
    requires Less(a, b)
    ensures !Less(b, a) && a != b
  {
    LessIrreflexive(a);
    if Less(b, a) { LessTransitive(a, b, a); }
  }

  /** Strictly increasing: sorted and free of repetitions. */
  ghost predicate StrictlySorted(s: seq<string>) {
    forall i, j :: 0 <= i < j < |s| ==> Less(s[i], s[j])
  }

  ghost function Elements(s: seq<string>): set<string> {
    set x | x in s
  }

  lemma EmptyElements(s: seq<string>)
    ensures Elements(s) == {} <==> s == []
  {
    if s != [] { assert s[0] in Elements(s); }
  }

  /** A strictly sorted sequence is determined by its elements. */
  lemma {:induction false} SortedUnique(a: seq<string>, b: seq<string>)
    requires StrictlySorted(a) && StrictlySorted(b)
    requires Elements(a) == Elements(b)
    ensures a == b
  {
    EmptyElements(a);
    EmptyElements(b);
    if a != [] {
      FirstOfSorted(a, b);
      FirstOfSorted(b, a);
      if Less(a[0], b[0]) { LessAsymmetric(a[0], b[0]); }
      assert a[0] == b[0];
      TailElements(a);
      TailElements(b);
      SortedUnique(a[1..], b[1..]);
      assert a == [a[0]] + a[1..] && b == [b[0]] + b[1..];
    }
  }

  lemma FirstOfSorted(a: seq<string>, b: seq<string>)
    requires a != [] && b != [] && StrictlySorted(b)
    requires Elements(a) == Elements(b)
    ensures b[0] == a[0] || Less(b[0], a[0])
  {
    assert a[0] in Elements(b);
  }

  lemma TailElements(a: seq<string>)
    requires a != [] && StrictlySorted(a)
    ensures StrictlySorted(a[1..]) && Elements(a[1..]) == Elements(a) - {a[0]}
  {
    LessIrreflexive(a[0]);
    forall x ensures x in Elements(a[1..]) <==> x in Elements(a) - {a[0]} {
      if x in a[1..] {
        var j :| 0 <= j < |a[1..]| && a[1..][j] == x;
        assert a[j + 1] == x && Less(a[0], a[j + 1]);
      }
      if x in a && x != a[0] {
        var j :| 0 <= j < |a| && a[j] == x;
        assert a[1..][j - 1] == x;
      }
    }
  }

  /** Insertion of `x` at its place; nothing changes when it is already there. */
  function InsertSorted(x: string, s: seq<string>): seq<string> {
    if s == [] then [x]
    else if x == s[0] then s
    else if Less(x, s[0]) then [x] + s
    else [s[0]] + InsertSorted(x, s[1..])
  }

  /** The elements of `s` in increasing order, each once. */
  function SortUnique(s: seq<string>): seq<string> {
    if s == [] then [] else InsertSorted(s[0], SortUnique(s[1..]))
  }

  lemma {:induction false} InsertSortedProperties(x: string, s: seq<string>)
    requires StrictlySorted(s)
    ensures StrictlySorted(InsertSorted(x, s))
    ensures Elements(InsertSorted(x, s)) == Elements(s) + {x}
  {
    var r := InsertSorted(x, s);
    if s == [] || x == s[0] {
    } else if Less(x, s[0]) {
      forall j | 0 <= j < |s| ensures Less(x, s[j]) {
        if j > 0 { LessTransitive(x, s[0], s[j]); }
      }
    } else {
      LessTotal(x, s[0]);
      var t := InsertSorted(x, s[1..]);
      InsertSortedProperties(x, s[1..]);
      TailElements(s);
      forall j | 0 <= j < |t| ensures Less(s[0], t[j]) {
        assert t[j] in Elements(t);
        if t[j] != x {
          var k :| 0 <= k < |s[1..]| && s[1..][k] == t[j];
          assert s[k + 1] == t[j];
        }
      }
      assert Elements(r) == Elements(t) + {s[0]};
    }
  }

  lemma {:induction false} SortUniqueProperties(s: seq<string>)
    ensures StrictlySorted(SortUnique(s))
    ensures Elements(SortUnique(s)) == Elements(s)
  {
    if s != [] {
      SortUniqueProperties(s[1..]);
      InsertSortedProperties(s[0], SortUnique(s[1..]));
      assert Elements(s) == Elements(s[1..]) + {s[0]};
    }
  }

  /** Two lists sort to the same result exactly when they hold the same elements. */
  lemma SortUniqueDecidesSetEquality(a: seq<string>, b: seq<string>)
    ensures SortUnique(a) == SortUnique(b) <==> Elements(a) == Elements(b)
  {
    SortUniqueProperties(a);
    SortUniqueProperties(b);
    if Elements(a) == Elements(b) {
      SortedUnique(SortUnique(a), SortUnique(b));
    }
  }

  /** Sorts a list of distinct strings (Go's sort.Strings). */
  method SortStrings(s: seq<string>) returns (r: seq<string>)
    requires forall i, j :: 0 <= i < j < |s| ==> s[i] != s[j]
    ensures StrictlySorted(r) && Elements(r) == Elements(s)
    ensures r == SortUnique(s)
  {
    r := [];
    var i := |s|;
    while i > 0
      invariant 0 <= i <= |s|
      invariant r == SortUnique(s[i..])
    {
      i := i - 1;
      assert s[i..][1..] == s[i + 1..];
      r := InsertSorted(s[i], r);
    }
    assert s[0..] == s;
    SortUniqueProperties(s);
  }
}
