/**
  The seen-state store: the set of keys already sent, saved as a JSON list of
  lists and loaded back as a set of tuples. Only the conversion between the
  list and the set is modelled, with the fallback to the empty set.
*/
module SeenState {
  import opened Records

  /** What reading the state file produced. */
  datatype StoredFile =
    | Missing                              // FileNotFoundError
    | Undecodable                          // json.JSONDecodeError
    | Decoded(items: seq<seq<string>>)     // a JSON list of lists of strings

  /** Load: every stored list becomes a tuple; a missing or undecodable file is the empty set. */
  function Load(file: StoredFile): (seen: set<Key>)
    ensures !file.Decoded? ==> seen == {}
    ensures file.Decoded? ==> |seen| <= |file.items|
  {
    match file
    case Decoded(items) =>
      DistinctItemsAtMost(items);
      set item | item in items
    case _ => {}
  }

  /** A list of n items holds at most n distinct items. */
  lemma {:induction false} DistinctItemsAtMost(items: seq<seq<string>>)
    ensures |set item | item in items| <= |items|
    decreases |items|
  {
    if items != [] {
      var init := items[..|items| - 1];
      DistinctItemsAtMost(init);
      assert (set item | item in items) == (set item | item in init) + {items[|items| - 1]};
    }
  }

  /** xs lists every element of s exactly once, in some order. */
  ghost predicate Enumerates(xs: seq<Key>, s: set<Key>)
  {
    && |xs| == |s|
    && (forall x :: x in xs <==> x in s)
    && (forall i, j :: 0 <= i < j < |xs| ==> xs[i] != xs[j])
  }

  /** Save: the whole set written as a list, in the set's (unspecified) iteration order. */
  method Save(seen: set<Key>) returns (items: seq<seq<string>>)
    ensures Enumerates(items, seen)
  {
    items := [];
    var rest := seen;
    while rest != {}
      invariant rest <= seen
      invariant Enumerates(items, seen - rest)
      decreases |rest|
    {
      var k :| k in rest;
      assert seen - (rest - {k}) == (seen - rest) + {k};
      EnumeratesSnoc(items, seen - rest, k);
      items := items + [k];
      rest := rest - {k};
    }
    assert seen - rest == seen;
  }

  /** Listing one more key keeps the listing exact. */
  lemma EnumeratesSnoc(xs: seq<Key>, s: set<Key>, k: Key)
    requires Enumerates(xs, s) && k !in s
    ensures Enumerates(xs + [k], s + {k})
  {
    var ys := xs + [k];
    assert |s + {k}| == |s| + 1;
    forall x ensures x in ys <==> x in s + {k} {
      assert x in ys <==> x in xs || x == k;
    }
    forall i, j | 0 <= i < j < |ys| ensures ys[i] != ys[j] {
      assert ys[i] == xs[i];
      if j == |xs| {
        assert xs[i] in s;
      }
    }
  }

  /** Loading what was saved gives back the saved set. */
  lemma LoadAfterSave(seen: set<Key>, items: seq<seq<string>>)
    requires Enumerates(items, seen)
    ensures Load(Decoded(items)) == seen
  {
  }

  /** Loading ignores the order of the stored list and any repeated entry in it. */
  lemma LoadIgnoresOrder(xs: seq<seq<string>>, ys: seq<seq<string>>)
    requires forall x :: x in xs <==> x in ys
    ensures Load(Decoded(xs)) == Load(Decoded(ys))
  {
  }
}
