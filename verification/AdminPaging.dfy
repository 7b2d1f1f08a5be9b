/** Listing by pages: each page starts at a cursor and names the id where the next one starts
    (authority/administrator/collection.go, ca/adminClient.go). */
module AdminPaging {
  import opened Text

  const DEFAULT_LIMIT: nat := 20
  const MAX_LIMIT: nat := 100

  /** The page size that Find uses for a requested limit. */
  function Clamp(limit: int): (l: nat)
    ensures 1 <= l <= MAX_LIMIT
    ensures l == if 1 <= limit <= 100 then limit else if limit < 1 then 20 else 100
  {
    if limit <= 0 then DEFAULT_LIMIT else if limit > MAX_LIMIT then MAX_LIMIT else limit
  }

  /** The number of ids below the cursor. */
  function Skip(ids: seq<string>, cursor: string): (p: nat)
    ensures p <= |ids|
    ensures forall k :: 0 <= k < p ==> Less(ids[k], cursor)
    ensures p < |ids| ==> !Less(ids[p], cursor)
  {
    if ids == [] || !Less(ids[0], cursor) then 0 else 1 + Skip(ids[1..], cursor)
  }

  function PageEnd(ids: seq<string>, cursor: string, limit: nat): (q: nat)
    ensures Skip(ids, cursor) <= q <= |ids|
  {
    if Skip(ids, cursor) + limit < |ids| then Skip(ids, cursor) + limit else |ids|
  }

  /** The ids of the page that starts at the cursor. */
  function Page(ids: seq<string>, cursor: string, limit: nat): seq<string> {
    ids[Skip(ids, cursor)..PageEnd(ids, cursor, limit)]
  }

  /** The cursor of the next page; empty at the end. */
  function Next(ids: seq<string>, cursor: string, limit: nat): string {
    if PageEnd(ids, cursor, limit) < |ids| then ids[PageEnd(ids, cursor, limit)] else ""
  }

  /** In a sorted list no id from the cursor on is below it. */
  lemma SkipSplits(ids: seq<string>, cursor: string, k: nat)
    requires StrictlySorted(ids) && k < |ids|
    ensures Less(ids[k], cursor) <==> k < Skip(ids, cursor)
  {
    var p := Skip(ids, cursor);
    if p < k && Less(ids[k], cursor) { LessTransitive(ids[p], ids[k], cursor); }
  }

  /** The empty next cursor means exactly that nothing is left, even if an id is the empty string. */
  lemma NextIsEmptyAtTheEnd(ids: seq<string>, cursor: string, limit: nat)
    requires StrictlySorted(ids) && limit > 0
    ensures Next(ids, cursor, limit) == "" <==> PageEnd(ids, cursor, limit) == |ids|
  {
    var q := PageEnd(ids, cursor, limit);
    if q < |ids| {
      assert Less(ids[Skip(ids, cursor)], ids[q]);
    }
  }

  // ---------------------------------------------------------------------------------------------
  // Traversals during which the collection may change

  /** The pages got from successive states of the collection, beginning at the cursor. */
  function Collect(views: seq<seq<string>>, cursor: string, limit: nat): seq<string> {
    if views == [] then []
    else Page(views[0], cursor, limit) + Collect(views[1..], Next(views[0], cursor, limit), limit)
  }

  /** The traversal makes one call per state and stops at the first empty cursor. */
  predicate Completes(views: seq<seq<string>>, cursor: string, limit: nat) {
    && views != []
    && var next := Next(views[0], cursor, limit);
    if |views| == 1 then next == "" else next != "" && Completes(views[1..], next, limit)
  }

  ghost predicate AllSorted(views: seq<seq<string>>) {
    forall j :: 0 <= j < |views| ==> StrictlySorted(views[j])
  }

  lemma PageAt(ids: seq<string>, cursor: string, limit: nat)
    requires StrictlySorted(ids) && limit > 0
    ensures StrictlySorted(Page(ids, cursor, limit))
    ensures forall k :: 0 <= k < |Page(ids, cursor, limit)| ==> !Less(Page(ids, cursor, limit)[k], cursor)
    ensures Next(ids, cursor, limit) != "" ==>
              && (forall k :: 0 <= k < |Page(ids, cursor, limit)| ==>
                    Less(Page(ids, cursor, limit)[k], Next(ids, cursor, limit)))
              && !Less(Next(ids, cursor, limit), cursor)
  {
    var p, q := Skip(ids, cursor), PageEnd(ids, cursor, limit);
    var page := Page(ids, cursor, limit);
    forall k | 0 <= k < |page| ensures !Less(page[k], cursor) {
      SkipSplits(ids, cursor, p + k);
    }
    if q < |ids| { SkipSplits(ids, cursor, q); }
  }

  /** An id of the view at or above the cursor is on the page, or at or above the next cursor. */
  lemma PageOrLater(ids: seq<string>, cursor: string, limit: nat, x: string)
    requires StrictlySorted(ids) && limit > 0 && x in ids && !Less(x, cursor)
    ensures x in Page(ids, cursor, limit) || (Next(ids, cursor, limit) != "" && !Less(x, Next(ids, cursor, limit)))
  {
    var k :| 0 <= k < |ids| && ids[k] == x;
    var p, q := Skip(ids, cursor), PageEnd(ids, cursor, limit);
    SkipSplits(ids, cursor, k);
    NextIsEmptyAtTheEnd(ids, cursor, limit);
    if k < q {
      assert Page(ids, cursor, limit)[k - p] == x;
    } else if k == q {
      LessIrreflexive(x);
    } else {
      LessAsymmetric(ids[q], ids[k]);
    }
  }

  lemma {:induction false} CollectIsAboveCursor(views: seq<seq<string>>, cursor: string, limit: nat, x: string)
    requires AllSorted(views) && limit > 0 && Completes(views, cursor, limit) && x in Collect(views, cursor, limit)
    ensures !Less(x, cursor) && exists j :: 0 <= j < |views| && x in views[j]
    decreases |views|
  {
    var next := Next(views[0], cursor, limit);
    PageAt(views[0], cursor, limit);
    if x in Page(views[0], cursor, limit) {
      assert x in views[0];
    } else {
      CollectIsAboveCursor(views[1..], next, limit, x);
      var j :| 0 <= j < |views[1..]| && x in views[1..][j];
      assert x in views[j + 1];
      NotBelow(x, next, cursor);
    }
  }

  lemma NotBelow(x: string, next: string, cursor: string)
    requires !Less(x, next) && !Less(next, cursor)
    ensures !Less(x, cursor)
  {
    LessTotal(x, next);
    LessTotal(next, cursor);
    if Less(x, cursor) {
      LessAsymmetric(x, cursor);
      if Less(next, x) { LessTransitive(next, x, cursor); }
    }
  }

  /** The ids are listed in increasing order, hence none twice. */
  lemma {:induction false} CollectIsSorted(views: seq<seq<string>>, cursor: string, limit: nat)
    requires AllSorted(views) && limit > 0 && Completes(views, cursor, limit)
    ensures StrictlySorted(Collect(views, cursor, limit))
    decreases |views|
  {
    var page, next := Page(views[0], cursor, limit), Next(views[0], cursor, limit);
    PageAt(views[0], cursor, limit);
    var rest := Collect(views[1..], next, limit);
    if |views| > 1 {
      CollectIsSorted(views[1..], next, limit);
      forall i, j | 0 <= i < |page| && 0 <= j < |rest| ensures Less(page[i], rest[j]) {
        assert rest[j] in rest;
        CollectIsAboveCursor(views[1..], next, limit, rest[j]);
        LessTotal(next, rest[j]);
        if Less(next, rest[j]) { LessTransitive(page[i], next, rest[j]); }
      }
      assert forall i :: 0 <= i < |page + rest| ==>
        (page + rest)[i] == if i < |page| then page[i] else rest[i - |page|];
    }
  }

  lemma {:induction false} CollectFindsAll(views: seq<seq<string>>, cursor: string, limit: nat, x: string)
    requires AllSorted(views) && limit > 0 && Completes(views, cursor, limit) && !Less(x, cursor)
    requires forall j :: 0 <= j < |views| ==> x in views[j]
    ensures x in Collect(views, cursor, limit)
    decreases |views|
  {
    assert x in views[0];
    PageOrLater(views[0], cursor, limit, x);
    if x !in Page(views[0], cursor, limit) {
      assert forall j :: 0 <= j < |views[1..]| ==> views[1..][j] == views[j + 1];
      CollectFindsAll(views[1..], Next(views[0], cursor, limit), limit, x);
    }
  }

  /** A traversal from the empty cursor to the empty cursor lists every admin present throughout it
      exactly once and in order, whatever is stored or removed between its pages, and lists nothing
      that was not there at some call. */
  lemma TraversalIsComplete(views: seq<seq<string>>, limit: nat)
    requires AllSorted(views) && limit > 0 && Completes(views, "", limit)
    ensures
      var found := Collect(views, "", limit);
      && StrictlySorted(found)
      && (forall x :: (forall j :: 0 <= j < |views| ==> x in views[j]) ==> x in found)
      && (forall x :: x in found ==> exists j :: 0 <= j < |views| && x in views[j])
  {
    CollectIsSorted(views, "", limit);
    forall x | forall j :: 0 <= j < |views| ==> x in views[j] ensures x in Collect(views, "", limit) {
      CollectFindsAll(views, "", limit, x);
    }
    forall x | x in Collect(views, "", limit) ensures exists j :: 0 <= j < |views| && x in views[j] {
      CollectIsAboveCursor(views, "", limit, x);
    }
  }

  // ---------------------------------------------------------------------------------------------
  // Traversals of an unchanging collection

  /** `n` equal views. */
  function Still(ids: seq<string>, n: nat): seq<seq<string>> {
    seq(n, _ => ids)
  }

  /** The number of calls for `left` ids: at least one, else the quotient rounded up. */
  function CallsFor(left: nat, limit: nat): nat
    requires limit > 0
  {
    if left <= limit then 1 else 1 + CallsFor(left - limit, limit)
  }

  lemma {:induction false} CallsForIsCeiling(left: nat, limit: nat)
    requires limit > 0
    ensures CallsFor(left, limit) == if left == 0 then 1 else (left + limit - 1) / limit
  {
    if left > limit {
      CallsForIsCeiling(left - limit, limit);
      AddOneQuotient(left - 1, limit);
    } else if left > 0 {
      AddOneQuotient(left - 1, limit);
      SmallQuotient(left - 1, limit);
    }
  }

  lemma AddOneQuotient(a: nat, l: nat)
    requires l > 0
    ensures (a + l) / l == a / l + 1
  {
    var q, r := a / l, a % l;
    assert a + l == (q + 1) * l + r;
    QuotientIs(a + l, l, q + 1, r);
  }

  lemma SmallQuotient(a: nat, l: nat)
    requires a < l
    ensures a / l == 0
  {
    QuotientIs(a, l, 0, a);
  }

  lemma QuotientIs(a: nat, l: nat, q: nat, r: nat)
    requires l > 0 && a == q * l + r && r < l
    ensures a / l == q
  {
    var q' := a / l;
    assert q' * l <= a < q' * l + l;
    if q < q' { Products(q + 1, q', l); }
    if q' < q { Products(q' + 1, q, l); }
  }

  lemma Products(x: nat, y: nat, l: nat)
    requires x <= y
    ensures x * l <= y * l
  {}

  lemma {:induction false} StillTraversalFrom(ids: seq<string>, cursor: string, limit: nat, n: nat)
    requires StrictlySorted(ids) && limit > 0 && n > 0
    ensures Completes(Still(ids, n), cursor, limit) <==> n == CallsFor(|ids| - Skip(ids, cursor), limit)
    decreases n
  {
    var views := Still(ids, n);
    var p, q, next := Skip(ids, cursor), PageEnd(ids, cursor, limit), Next(ids, cursor, limit);
    NextIsEmptyAtTheEnd(ids, cursor, limit);
    if n > 1 {
      assert views[1..] == Still(ids, n - 1);
      if next != "" {
        StillTraversalFrom(ids, next, limit, n - 1);
        SkipTo(ids, q);
      }
    }
  }

  lemma SkipTo(ids: seq<string>, q: nat)
    requires StrictlySorted(ids) && q < |ids|
    ensures Skip(ids, ids[q]) == q
  {
    SkipSplits(ids, ids[q], q);
    LessIrreflexive(ids[q]);
    if q > 0 { SkipSplits(ids, ids[q], q - 1); }
  }

  /** Listing an unchanging collection of n admins takes exactly max(1, n / limit rounded up) calls. */
  lemma CallsOnUnchangingCollection(ids: seq<string>, limit: nat, n: nat)
    requires StrictlySorted(ids) && limit > 0 && n > 0
    ensures Completes(Still(ids, n), "", limit) <==> n == if ids == [] then 1 else (|ids| + limit - 1) / limit
  {
    StillTraversalFrom(ids, "", limit, n);
    CallsForIsCeiling(|ids|, limit);
    assert Skip(ids, "") == 0;
  }
}
