/**
 * PHP arrays keyed by their own values (`$a[$x] = $x`), as used for the
 * selected fields and the FROM sources. Such an array is an ordered list
 * without duplicates: writing a key that is present keeps it where it is,
 * writing a new key appends it.
 */
module KeyedSet {

  predicate NoDup(s: seq<string>)
  {
    forall i, j :: 0 <= i < j < |s| ==> s[i] != s[j]
  }

  /** `$a[$x] = $x` on an array keyed by its values. */
  function Insert(s: seq<string>, x: string): (r: seq<string>)
    ensures NoDup(s) ==> NoDup(r)
    ensures forall y :: y in r <==> y in s || y == x
    ensures |s| <= |r| <= |s| + 1 && r[..|s|] == s
  {
    if x in s then s else s + [x]
  }

  /** The loop `foreach ($xs as $x) { $a[$x] = $x; }`, one write after another. */
  function InsertAll(s: seq<string>, xs: seq<string>): (r: seq<string>)
    ensures NoDup(s) ==> NoDup(r)
    ensures |s| <= |r| && r[..|s|] == s
  {
    if xs == [] then s
    else
      var r := Insert(InsertAll(s, xs[..|xs| - 1]), xs[|xs| - 1]);
      assert xs == xs[..|xs| - 1] + [xs[|xs| - 1]];
      r
  }

  /**
   * The names of `xs` that are not in `seen`, each at its first occurrence,
   * in the order of those first occurrences: an independent, left-to-right
   * reference definition of what `InsertAll` appends.
   */
  function Fresh(seen: seq<string>, xs: seq<string>): seq<string>
    decreases xs
  {
    if xs == [] then []
    else if xs[0] in seen then Fresh(seen, xs[1..])
    else [xs[0]] + Fresh(seen + [xs[0]], xs[1..])
  }

  /** A name is fresh exactly when it occurs in `xs` and was not seen before. */
  lemma {:induction false} FreshMembers(seen: seq<string>, xs: seq<string>)
    ensures forall y :: y in Fresh(seen, xs) <==> y in xs && y !in seen
    decreases xs
  {
    if xs != [] {
      if xs[0] in seen {
        FreshMembers(seen, xs[1..]);
      } else {
        FreshMembers(seen + [xs[0]], xs[1..]);
      }
      assert forall y :: y in xs <==> y == xs[0] || y in xs[1..];
    }
  }

  /** The fresh names are listed once each. */
  lemma {:induction false} FreshNoDup(seen: seq<string>, xs: seq<string>)
    ensures NoDup(Fresh(seen, xs))
    decreases xs
  {
    if xs != [] {
      if xs[0] in seen {
        FreshNoDup(seen, xs[1..]);
      } else {
        var rest := Fresh(seen + [xs[0]], xs[1..]);
        FreshNoDup(seen + [xs[0]], xs[1..]);
        FreshMembers(seen + [xs[0]], xs[1..]);
        assert Fresh(seen, xs) == [xs[0]] + rest;
        forall j | 0 <= j < |rest|
          ensures rest[j] != xs[0]
        {
          assert rest[j] in rest;
        }
      }
    }
  }

  /** Scanning one more name at the end appends it exactly when it was not seen before. */
  lemma {:induction false} FreshSnoc(seen: seq<string>, xs: seq<string>, x: string)
    ensures Fresh(seen, xs + [x]) == Fresh(seen, xs) + (if x in seen || x in xs then [] else [x])
    decreases xs
  {
    if xs == [] {
      assert xs + [x] == [x];
    } else {
      assert (xs + [x])[0] == xs[0];
      assert (xs + [x])[1..] == xs[1..] + [x];
      if xs[0] in seen {
        FreshSnoc(seen, xs[1..], x);
        assert x in xs <==> x == xs[0] || x in xs[1..];
      } else {
        FreshSnoc(seen + [xs[0]], xs[1..], x);
        assert x in seen + [xs[0]] || x in xs[1..] <==> x in seen || x in xs;
      }
    }
  }

  /**
   * Inserting names one by one keeps the old entries in place and appends the
   * new names at the end, in the order of their first occurrence.
   */
  lemma {:induction false} InsertAllAppendsFresh(s: seq<string>, xs: seq<string>)
    ensures InsertAll(s, xs) == s + Fresh(s, xs)
  {
    if xs != [] {
      var init, x := xs[..|xs| - 1], xs[|xs| - 1];
      assert xs == init + [x];
      InsertAllAppendsFresh(s, init);
      FreshSnoc(s, init, x);
      FreshMembers(s, init);
    }
  }

  /** After inserting, a name is present exactly when it was present before or was inserted. */
  lemma InsertAllMembers(s: seq<string>, xs: seq<string>)
    ensures forall y :: y in InsertAll(s, xs) <==> y in s || y in xs
  {
    InsertAllAppendsFresh(s, xs);
    FreshMembers(s, xs);
  }

  /** Nothing is fresh in a list of names that have all been seen. */
  lemma {:induction false} FreshOfSeen(seen: seq<string>, xs: seq<string>)
    requires forall y :: y in xs ==> y in seen
    ensures Fresh(seen, xs) == []
    decreases xs
  {
    if xs != [] {
      assert xs[0] in xs;
      FreshOfSeen(seen, xs[1..]);
    }
  }

  /** Every name of `xs` already present: inserting them changes nothing. */
  lemma InsertAllPresent(s: seq<string>, xs: seq<string>)
    requires forall y :: y in xs ==> y in s
    ensures InsertAll(s, xs) == s
  {
    InsertAllAppendsFresh(s, xs);
    FreshOfSeen(s, xs);
  }

  /** Inserting the same names twice is the same as inserting them once. */
  lemma InsertAllIdempotent(s: seq<string>, xs: seq<string>)
    ensures InsertAll(InsertAll(s, xs), xs) == InsertAll(s, xs)
  {
    InsertAllMembers(s, xs);
    InsertAllPresent(InsertAll(s, xs), xs);
  }

  /** Writing the same key twice is the same as writing it once. */
  lemma InsertIdempotent(s: seq<string>, x: string)
    ensures Insert(Insert(s, x), x) == Insert(s, x)
  {
  }
}
