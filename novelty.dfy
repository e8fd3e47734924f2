/**
  The novelty filter: walk the sources in their fixed order and each source's
  records in returned order, keep the records whose key is not yet in the
  seen-state, at most thirty per run, and add the kept keys to the state.
*/
module Novelty {
  import opened Records

  /** At most this many records are sent per run, across all sources. */
  const Cap: nat := 30

  /** All records of all sources, source by source, each in its returned order. */
  function Flatten(batches: seq<seq<Article>>): (rs: seq<Article>)
    ensures |rs| == Total(batches)
    decreases |batches|
  {
    if batches == [] then [] else Flatten(batches[..|batches| - 1]) + batches[|batches| - 1]
  }

  /** The number of records the sources returned together. */
  function Total(batches: seq<seq<Article>>): nat
    decreases |batches|
  {
    if batches == [] then 0 else Total(batches[..|batches| - 1]) + |batches[|batches| - 1]|
  }

  /**
    The records the filter appends after looking at rs in order: one is taken
    when its key is not in past and fewer than Cap have been taken.
  */
  function Taken(past: set<Key>, rs: seq<Article>): (sent: seq<Article>)
    ensures |sent| <= Cap && |sent| <= |rs|
    decreases |rs|
  {
    if rs == [] then []
    else
      var prev := Taken(past, rs[..|rs| - 1]);
      var a := rs[|rs| - 1];
      if KeyOf(a) !in past && |prev| < Cap then prev + [a] else prev
  }

  /** The state saved after the run: every past key and the keys of the records sent. */
  function Saved(past: set<Key>, rs: seq<Article>): (seen: set<Key>)
    ensures past <= seen && |seen| <= |past| + Cap
  {
    KeysAtMost(Taken(past, rs));
    past + KeysOf(Taken(past, rs))
  }

  /** A list of n records has at most n keys. */
  lemma {:induction false} KeysAtMost(xs: seq<Article>)
    ensures |KeysOf(xs)| <= |xs|
    decreases |xs|
  {
    if xs != [] {
      var init := xs[..|xs| - 1];
      KeysAtMost(init);
      assert xs == init + [xs[|xs| - 1]];
      KeysOfSnoc(init, xs[|xs| - 1]);
    }
  }

  /** Reference definition: all records of rs whose key is not in past, in order. */
  function Fresh(past: set<Key>, rs: seq<Article>): seq<Article>
    decreases |rs|
  {
    if rs == [] then []
    else Fresh(past, rs[..|rs| - 1]) + (if KeyOf(rs[|rs| - 1]) !in past then [rs[|rs| - 1]] else [])
  }

  /** The first n elements of xs, or all of them when there are fewer. */
  function Prefix(xs: seq<Article>, n: nat): (p: seq<Article>)
    ensures p <= xs && |p| == if |xs| <= n then |xs| else n
  {
    if |xs| <= n then xs else xs[..n]
  }

  /** No two records of xs share a key. */
  ghost predicate DistinctKeys(xs: seq<Article>)
  {
    forall i, j :: 0 <= i < j < |xs| ==> KeyOf(xs[i]) != KeyOf(xs[j])
  }

  /** The filter sends exactly the first (up to Cap) records whose key is not in past, in order. */
  lemma {:induction false} TakenIsFirstFresh(past: set<Key>, rs: seq<Article>)
    ensures Taken(past, rs) == Prefix(Fresh(past, rs), Cap)
    decreases |rs|
  {
    if rs != [] {
      var init, a := rs[..|rs| - 1], rs[|rs| - 1];
      TakenIsFirstFresh(past, init);
      var f := Fresh(past, init);
      if KeyOf(a) !in past && |f| >= Cap {
        assert (f + [a])[..Cap] == f[..Cap];
      }
    }
  }

  /** A record is fresh exactly when it is among rs and its key is not in past. */
  lemma {:induction false} FreshMembers(past: set<Key>, rs: seq<Article>, a: Article)
    ensures a in Fresh(past, rs) <==> a in rs && KeyOf(a) !in past
    decreases |rs|
  {
    if rs != [] {
      var init := rs[..|rs| - 1];
      FreshMembers(past, init, a);
      assert rs == init + [rs[|rs| - 1]];
    }
  }

  /** Every record sent came from the sources and its key was not seen before. */
  lemma TakenAvoidsPast(past: set<Key>, rs: seq<Article>)
    ensures forall a :: a in Taken(past, rs) ==> a in rs && KeyOf(a) !in past
  {
    TakenIsFirstFresh(past, rs);
    forall a | a in Taken(past, rs) ensures a in rs && KeyOf(a) !in past {
      FreshMembers(past, rs, a);
    }
  }

  /** A second run on the same records with the saved state sends no record of the first run, nor any older one. */
  lemma RerunNeverRepeats(past: set<Key>, rs: seq<Article>)
    ensures forall a :: a in Taken(Saved(past, rs), rs) ==> KeyOf(a) !in past && KeyOf(a) !in KeysOf(Taken(past, rs))
  {
    TakenAvoidsPast(Saved(past, rs), rs);
  }

  /** When the cap was not reached, a second run on the same records sends nothing. */
  lemma RerunEmptyUnderCap(past: set<Key>, rs: seq<Article>)
    requires |Fresh(past, rs)| <= Cap
    ensures Taken(Saved(past, rs), rs) == []
  {
    var f := Fresh(past, rs);
    TakenIsFirstFresh(past, rs);
    assert Taken(past, rs) == f;
    TakenIsFirstFresh(Saved(past, rs), rs);
    FreshCompose(past, KeysOf(f), rs);
    FreshDropsSeen(KeysOf(f), f);
  }

  /** Filtering in two steps is filtering by the union of the two key sets. */
  lemma {:induction false} FreshCompose(past: set<Key>, more: set<Key>, rs: seq<Article>)
    ensures Fresh(past + more, rs) == Fresh(more, Fresh(past, rs))
    decreases |rs|
  {
    if rs != [] {
      var init, a := rs[..|rs| - 1], rs[|rs| - 1];
      FreshCompose(past, more, init);
      var tail := if KeyOf(a) !in past then [a] else [];
      FreshAppend(more, Fresh(past, init), tail);
      if KeyOf(a) !in past {
        assert tail[..0] == [];
      }
    }
  }

  /** Filtering distributes over concatenation. */
  lemma {:induction false} FreshAppend(keys: set<Key>, xs: seq<Article>, ys: seq<Article>)
    ensures Fresh(keys, xs + ys) == Fresh(keys, xs) + Fresh(keys, ys)
    decreases |ys|
  {
    if ys == [] {
      assert xs + ys == xs;
    } else {
      var init := ys[..|ys| - 1];
      FreshAppend(keys, xs, init);
      assert (xs + ys)[..|xs + ys| - 1] == xs + init;
    }
  }

  /** Records none of whose keys are in keys all survive the filter. */
  lemma {:induction false} FreshKeepsUnseen(keys: set<Key>, xs: seq<Article>)
    requires forall i :: 0 <= i < |xs| ==> KeyOf(xs[i]) !in keys
    ensures Fresh(keys, xs) == xs
    decreases |xs|
  {
    if xs != [] {
      FreshKeepsUnseen(keys, xs[..|xs| - 1]);
    }
  }

  /** Records all of whose keys are in keys are all dropped. */
  lemma {:induction false} FreshDropsSeen(keys: set<Key>, xs: seq<Article>)
    requires KeysOf(xs) <= keys
    ensures Fresh(keys, xs) == []
    decreases |xs|
  {
    if xs != [] {
      var init, a := xs[..|xs| - 1], xs[|xs| - 1];
      assert KeysOf(init) <= KeysOf(xs) by {
        forall b | b in init ensures b in xs { }
      }
      assert KeyOf(a) in KeysOf(xs);
      FreshDropsSeen(keys, init);
    }
  }

  /**
    Records deferred by the cap are not marked seen: a second run on the same
    records with the saved state sends the first (up to Cap) of the deferred
    fresh records whose key was not sent by the first run.
  */
  lemma CapDefersRest(past: set<Key>, rs: seq<Article>)
    ensures |Taken(past, rs)| <= |Fresh(past, rs)|
    ensures Taken(Saved(past, rs), rs) ==
              Prefix(Fresh(KeysOf(Taken(past, rs)), Fresh(past, rs)[|Taken(past, rs)|..]), Cap)
  {
    var f := Fresh(past, rs);
    TakenIsFirstFresh(past, rs);
    var n := |Taken(past, rs)|;
    var sent, rest := f[..n], f[n..];
    assert Taken(past, rs) == sent;
    var k := KeysOf(sent);
    assert f == sent + rest;
    calc {
      Fresh(Saved(past, rs), rs);
      Fresh(past + k, rs);
      { FreshCompose(past, k, rs); }
      Fresh(k, sent + rest);
      { FreshAppend(k, sent, rest); }
      Fresh(k, sent) + Fresh(k, rest);
      { FreshDropsSeen(k, sent); }
      [] + Fresh(k, rest);
      Fresh(k, rest);
    }
    TakenIsFirstFresh(Saved(past, rs), rs);
  }

  /** When the fresh records have distinct keys, a second run sends the next (up to Cap) of them. */
  lemma CapDefersDistinct(past: set<Key>, rs: seq<Article>)
    requires DistinctKeys(Fresh(past, rs))
    ensures |Taken(past, rs)| <= |Fresh(past, rs)|
    ensures Taken(Saved(past, rs), rs) == Prefix(Fresh(past, rs)[|Taken(past, rs)|..], Cap)
  {
    CapDefersRest(past, rs);
    var f := Fresh(past, rs);
    var n := |Taken(past, rs)|;
    TakenIsFirstFresh(past, rs);
    assert Taken(past, rs) == f[..n];
    DeferredUnseen(f, n);
    FreshKeepsUnseen(KeysOf(f[..n]), f[n..]);
  }

  /** With distinct keys, no record after position n shares a key with the first n. */
  lemma DeferredUnseen(f: seq<Article>, n: nat)
    requires DistinctKeys(f) && n <= |f|
    ensures forall i :: 0 <= i < |f[n..]| ==> KeyOf(f[n..][i]) !in KeysOf(f[..n])
  {
  }

  /**
    The filter loop: sources in order, records in order; a record is appended
    (and its key remembered) when its key is not in past and fewer than Cap
    records were appended. The saved state is the remembered keys and past.
  */
  method SelectNovel(batches: seq<seq<Article>>, past: set<Key>) returns (sent: seq<Article>, saved: set<Key>)
    ensures sent == Taken(past, Flatten(batches))
    ensures saved == Saved(past, Flatten(batches))
    ensures |sent| <= Cap && |sent| <= Total(batches)
  {
    var unique: set<Key> := {};
    sent := [];
    ghost var walked: seq<Article> := [];
    var b := 0;
    while b < |batches|
      invariant 0 <= b <= |batches|
      invariant walked == Flatten(batches[..b])
      invariant sent == Taken(past, walked) && unique == KeysOf(sent)
    {
      var articles := batches[b];
      ghost var before := walked;
      var j := 0;
      while j < |articles|
        invariant 0 <= j <= |articles|
        invariant walked == before + articles[..j]
        invariant sent == Taken(past, walked) && unique == KeysOf(sent)
      {
        var article := articles[j];
        var key := KeyOf(article);
        if key !in past && |sent| < Cap {
          assert Taken(past, walked + [article]) == sent + [article] by {
            TakenSnoc(past, walked, article);
          }
          assert KeysOf(sent + [article]) == unique + {key} by {
            KeysOfSnoc(sent, article);
          }
          unique := unique + {key};
          sent := sent + [article];
        } else {
          assert Taken(past, walked + [article]) == sent by {
            TakenSnoc(past, walked, article);
          }
        }
        walked := walked + [article];
        assert articles[..j + 1] == articles[..j] + [article];
        j := j + 1;
      }
      assert walked == Flatten(batches[..b + 1]) by {
        assert articles[..j] == articles;
        FlattenSnoc(batches, b);
      }
      b := b + 1;
    }
    assert batches[..b] == batches;
    saved := unique + past;
  }

  lemma TakenSnoc(past: set<Key>, rs: seq<Article>, a: Article)
    ensures Taken(past, rs + [a]) ==
              if KeyOf(a) !in past && |Taken(past, rs)| < Cap then Taken(past, rs) + [a] else Taken(past, rs)
  {
    assert (rs + [a])[..|rs|] == rs;
  }

  lemma KeysOfSnoc(xs: seq<Article>, a: Article)
    ensures KeysOf(xs + [a]) == KeysOf(xs) + {KeyOf(a)}
  {
  }

  lemma FlattenSnoc(batches: seq<seq<Article>>, b: nat)
    requires b < |batches|
    ensures Flatten(batches[..b + 1]) == Flatten(batches[..b]) + batches[b]
  {
    assert batches[..b + 1][..b] == batches[..b];
  }

  /** Example: one known record and one new record from the same source. */
  lemma KnownAndNewExample()
    ensures var past := {["A", "u1", "s1"]};
            var rs := [Article(KathmanduPost, "A", "u1", "s1"), Article(KathmanduPost, "B", "u2", "s2")];
            Taken(past, rs) == [rs[1]] && Saved(past, rs) == {["A", "u1", "s1"], ["B", "u2", "s2"]}
  {
    var rs := [Article(KathmanduPost, "A", "u1", "s1"), Article(KathmanduPost, "B", "u2", "s2")];
    assert rs[..1] == [rs[0]];
    assert [rs[0]][..0] == [];
    assert KeysOf([rs[1]]) == {KeyOf(rs[1])};
  }

  /**
    The filter checks keys against past only: the same key coming from two
    sources in one run is sent twice.
  */
  lemma CrossSourceDuplicate()
    ensures var rs := [Article(KathmanduPost, "A", "u1", "s1"), Article(OnlineKhabar, "A", "u1", "s1")];
            KeyOf(rs[0]) == KeyOf(rs[1]) && Taken({}, rs) == rs
  {
    var rs := [Article(KathmanduPost, "A", "u1", "s1"), Article(OnlineKhabar, "A", "u1", "s1")];
    assert rs[..1] == [rs[0]];
    assert [rs[0]][..0] == [];
  }
}
