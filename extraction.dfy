/**
  Per-source extraction: the three scrapers of the script written as one
  extractor parameterised by a rule. The parsed page is abstracted as the
  sequence of listing entries the source's selector finds; every entry
  carries the parts the scraper looks at.
*/
module Extraction {
  import opened Wrappers
  import opened Records

  /** The summary used when an entry has no paragraph. */
  const NoSummary: string := "No summary available."

  /** Only the first ten listing entries of a page are looked at. */
  const ListingLimit: nat := 10

  /** A link tag: its stripped text and its href attribute, which may be absent. */
  datatype Anchor = Anchor(text: string, href: Option<string>)

  /** A headline tag (h3 or h2, depending on the source), holding an optional link tag. */
  datatype Heading = Heading(anchor: Option<Anchor>)

  /** One listing entry: an optional headline tag and the stripped text of its first paragraph, if any. */
  datatype Entry = Entry(heading: Option<Heading>, paragraph: Option<string>)

  /**
    How a source turns an href into a link. ResolveAgainst skips entries whose
    link tag has no href and prefixes path-relative hrefs with the base URL;
    Verbatim reads href unconditionally and keeps it as it is.
  */
  datatype LinkPolicy = ResolveAgainst(base: string) | Verbatim

  datatype Rule = Rule(source: Source, policy: LinkPolicy)

  /** The rule of each configured source. */
  function RuleFor(src: Source): (rule: Rule)
    ensures rule.source == src
    ensures rule.policy.Verbatim? <==> src == OnlineKhabar
  {
    match src
    case KathmanduPost => Rule(KathmanduPost, ResolveAgainst("https://kathmandupost.com"))
    case OnlineKhabar => Rule(OnlineKhabar, Verbatim)
    case MyRepublica => Rule(MyRepublica, ResolveAgainst("https://myrepublica.nagariknetwork.com"))
  }

  /** The KeyError raised by reading the href of a link tag that has none. */
  datatype Failure = MissingHref

  /** The (title, link, summary) tuple a scraper collects in its set. */
  datatype Triple = Triple(headline: string, link: string, summary: string)

  /** What one entry contributes: nothing, a tuple, or an uncaught KeyError. */
  datatype Outcome = Skip | Keep(item: Triple) | Raise

  /** The summary of an entry: its first paragraph's text, or the sentinel when there is none. */
  function Summary(paragraph: Option<string>): (s: string)
    ensures paragraph.Some? ==> s == paragraph.value
    ensures s == NoSummary <==> paragraph.None? || paragraph.value == NoSummary
  {
    if paragraph.Some? then paragraph.value else NoSummary
  }

  /** An href is path-relative when it starts with a slash. */
  predicate IsRelative(href: string)
  {
    |href| > 0 && href[0] == '/'
  }

  /** Link resolution of Kathmandu Post and MyRepublica. */
  function Resolve(base: string, href: string): (link: string)
    ensures |link| >= |href| && link[|link| - |href|..] == href
    ensures IsRelative(href) ==> |link| == |base| + |href| && link[..|base|] == base
    ensures link == href <==> !IsRelative(href) || base == []
  {
    if IsRelative(href) then base + href else href
  }

  /** The link tag inside the entry's headline tag, if both exist. */
  function LinkTag(e: Entry): Option<Anchor>
  {
    if e.heading.Some? then e.heading.value.anchor else None
  }

  /** What one entry yields under a rule. */
  function EntryOutcome(rule: Rule, e: Entry): (o: Outcome)
    ensures LinkTag(e).None? ==> o == Skip
    ensures o.Raise? ==> rule.policy.Verbatim?
  {
    match LinkTag(e)
    case None => Skip
    case Some(a) =>
      match rule.policy
      case ResolveAgainst(base) =>
        if a.href.None? then Skip
        else Keep(Triple(a.text, Resolve(base, a.href.value), Summary(e.paragraph)))
      case Verbatim =>
        if a.href.None? then Raise
        else Keep(Triple(a.text, a.href.value, Summary(e.paragraph)))
  }

  /**
    An entry without a link tag is skipped; one whose link tag lacks href is
    skipped by a checking rule and raises under Verbatim; every other entry is
    kept with the link tag's text, the resolved link and its summary.
  */
  lemma EntryOutcomeCases(rule: Rule, e: Entry)
    ensures LinkTag(e).None? ==> EntryOutcome(rule, e) == Skip
    ensures EntryOutcome(rule, e).Raise? <==> rule.policy.Verbatim? && LinkTag(e).Some? && LinkTag(e).value.href.None?
    ensures EntryOutcome(rule, e).Skip? <==> LinkTag(e).None? || (rule.policy.ResolveAgainst? && LinkTag(e).value.href.None?)
    ensures EntryOutcome(rule, e).Keep? ==>
              && LinkTag(e).Some? && LinkTag(e).value.href.Some?
              && EntryOutcome(rule, e).item.headline == LinkTag(e).value.text
              && EntryOutcome(rule, e).item.summary == Summary(e.paragraph)
              && EntryOutcome(rule, e).item.link ==
                   match rule.policy
                   case Verbatim => LinkTag(e).value.href.value
                   case ResolveAgainst(base) => Resolve(base, LinkTag(e).value.href.value)
  {
  }

  /** The entries a scraper iterates over: the first ten of the page. */
  function Listing(entries: seq<Entry>): (ls: seq<Entry>)
    ensures |ls| <= ListingLimit && ls <= entries
    ensures |entries| <= ListingLimit ==> ls == entries
    ensures |entries| > ListingLimit ==> |ls| == ListingLimit
  {
    if |entries| <= ListingLimit then entries else entries[..ListingLimit]
  }

  /**
    The set a scraper has collected after the given entries, or the KeyError
    that interrupted it.
  */
  function Harvest(rule: Rule, es: seq<Entry>): (r: Result<set<Triple>, Failure>)
    ensures r.Ok? ==> |r.value| <= |es|
    decreases |es|
  {
    if es == [] then Ok({})
    else
      match Harvest(rule, es[..|es| - 1])
      case Err(f) => Err(f)
      case Ok(items) =>
        match EntryOutcome(rule, es[|es| - 1])
        case Skip => Ok(items)
        case Keep(t) => Ok(items + {t})
        case Raise => Err(MissingHref)
  }

  /** A scraper fails exactly when one of its entries raises. */
  lemma {:induction false} HarvestFails(rule: Rule, es: seq<Entry>)
    ensures Harvest(rule, es).Err? <==> exists i :: 0 <= i < |es| && EntryOutcome(rule, es[i]).Raise?
    decreases |es|
  {
    if es != [] {
      var init := es[..|es| - 1];
      HarvestFails(rule, init);
      if exists i :: 0 <= i < |init| && EntryOutcome(rule, init[i]).Raise? {
        var i :| 0 <= i < |init| && EntryOutcome(rule, init[i]).Raise?;
        assert es[i] == init[i];
      }
      if exists i :: 0 <= i < |es| && EntryOutcome(rule, es[i]).Raise? {
        var i :| 0 <= i < |es| && EntryOutcome(rule, es[i]).Raise?;
        if i < |init| {
          assert init[i] == es[i];
        }
      }
    }
  }

  /** Some entry among es keeps tuple t. */
  ghost predicate Kept(rule: Rule, es: seq<Entry>, t: Triple)
  {
    exists i :: 0 <= i < |es| && EntryOutcome(rule, es[i]) == Keep(t)
  }

  lemma KeptSnoc(rule: Rule, es: seq<Entry>, t: Triple)
    requires es != []
    ensures Kept(rule, es, t) <==> Kept(rule, es[..|es| - 1], t) || EntryOutcome(rule, es[|es| - 1]) == Keep(t)
  {
    var init := es[..|es| - 1];
    if Kept(rule, init, t) {
      var i :| 0 <= i < |init| && EntryOutcome(rule, init[i]) == Keep(t);
      assert es[i] == init[i];
    }
    if Kept(rule, es, t) {
      var i :| 0 <= i < |es| && EntryOutcome(rule, es[i]) == Keep(t);
      if i < |init| {
        assert init[i] == es[i];
      }
    }
  }

  /** When it does not fail, the collected set holds exactly the tuples the entries keep. */
  lemma {:induction false} HarvestItems(rule: Rule, es: seq<Entry>, t: Triple)
    requires Harvest(rule, es).Ok?
    ensures t in Harvest(rule, es).value <==> Kept(rule, es, t)
    decreases |es|
  {
    if es != [] {
      HarvestItems(rule, es[..|es| - 1], t);
      KeptSnoc(rule, es, t);
    }
  }

  /** Sources that check href (Kathmandu Post, MyRepublica) never fail: entries without a usable link are skipped. */
  lemma CheckedRuleNeverFails(rule: Rule, es: seq<Entry>)
    requires rule.policy.ResolveAgainst?
    ensures Harvest(rule, es).Ok?
  {
    HarvestFails(rule, es);
    forall i | 0 <= i < |es| ensures !EntryOutcome(rule, es[i]).Raise? {
      EntryOutcomeCases(rule, es[i]);
    }
  }

  /** An entry without a link tag changes nothing, under every rule. */
  lemma EntryWithoutLinkSkipped(rule: Rule, es: seq<Entry>, e: Entry)
    requires LinkTag(e).None?
    ensures Harvest(rule, es + [e]) == Harvest(rule, es)
  {
    assert (es + [e])[..|es + [e]| - 1] == es;
    EntryOutcomeCases(rule, e);
  }

  /**
    What a scraper returns for a fetched page (Some) or a failed fetch (None):
    a failed fetch, a non-200 status or a transport error all yield no records.
  */
  function Extracted(rule: Rule, page: Option<seq<Entry>>): (r: Result<set<Triple>, Failure>)
    ensures r.Ok? ==> |r.value| <= ListingLimit
    ensures page.None? ==> r == Ok({})
  {
    if page.None? then Ok({}) else Harvest(rule, Listing(page.value))
  }

  /** The record of a collected tuple, as the final list comprehension builds it. */
  function TripleOf(a: Article): Triple
  {
    Triple(a.headline, a.link, a.summary)
  }

  /** xs lists the tuples of items, each once, in some order, as records of source src. */
  ghost predicate Lists(xs: seq<Article>, src: Source, items: set<Triple>)
  {
    && |xs| == |items|
    && (forall i :: 0 <= i < |xs| ==> xs[i].source == src && TripleOf(xs[i]) in items)
    && (forall t :: t in items ==> exists i :: 0 <= i < |xs| && TripleOf(xs[i]) == t)
    && (forall i, j :: 0 <= i < j < |xs| ==> TripleOf(xs[i]) != TripleOf(xs[j]))
  }

  /** Turns the collected set into a list of records, in the set's (unspecified) iteration order. */
  method ListItems(src: Source, items: set<Triple>) returns (xs: seq<Article>)
    ensures Lists(xs, src, items)
  {
    xs := [];
    var rest := items;
    while rest != {}
      invariant rest <= items
      invariant Lists(xs, src, items - rest)
      decreases |rest|
    {
      var t :| t in rest;
      ListsSnoc(xs, src, items - rest, t);
      assert items - (rest - {t}) == (items - rest) + {t};
      xs := xs + [Article(src, t.headline, t.link, t.summary)];
      rest := rest - {t};
    }
    assert items - rest == items;
  }

  /** Listing one more tuple keeps the listing exact. */
  lemma ListsSnoc(xs: seq<Article>, src: Source, done: set<Triple>, t: Triple)
    requires Lists(xs, src, done) && t !in done
    ensures Lists(xs + [Article(src, t.headline, t.link, t.summary)], src, done + {t})
  {
    var ys := xs + [Article(src, t.headline, t.link, t.summary)];
    var n := |xs|;
    assert TripleOf(ys[n]) == t;
    assert |done + {t}| == |done| + 1;
    forall i | 0 <= i < |ys| ensures ys[i].source == src && TripleOf(ys[i]) in done + {t} {
      if i < n {
        assert ys[i] == xs[i];
      }
    }
    forall u | u in done + {t} ensures exists i :: 0 <= i < |ys| && TripleOf(ys[i]) == u {
      if u != t {
        var i :| 0 <= i < n && TripleOf(xs[i]) == u;
        assert ys[i] == xs[i];
      }
    }
    forall i, j | 0 <= i < j < |ys| ensures TripleOf(ys[i]) != TripleOf(ys[j]) {
      assert ys[i] == xs[i];
      if j < n {
        assert ys[j] == xs[j];
      } else {
        assert TripleOf(xs[i]) in done;
      }
    }
  }

  /** One scraper run: iterate over the first ten entries, collect tuples in a set, list them. */
  method Scrape(rule: Rule, page: Option<seq<Entry>>) returns (r: Result<seq<Article>, Failure>)
    ensures r.Err? <==> Extracted(rule, page).Err?
    ensures r.Ok? ==> Lists(r.value, rule.source, Extracted(rule, page).value)
  {
    if page.None? {
      return Ok([]);
    }
    var entries := Listing(page.value);
    var items: set<Triple> := {};
    var i := 0;
    while i < |entries|
      invariant 0 <= i <= |entries|
      invariant Harvest(rule, entries[..i]) == Ok(items)
    {
      assert entries[..i + 1][..i] == entries[..i];
      match EntryOutcome(rule, entries[i]) {
        case Skip =>
        case Keep(t) =>
          items := items + {t};
        case Raise =>
          HarvestFails(rule, entries);
          return Err(MissingHref);
      }
      i := i + 1;
    }
    assert entries[..i] == entries;
    var xs := ListItems(rule.source, items);
    return Ok(xs);
  }

  /** Every scraper returns at most ten records, no two with the same tuple. */
  lemma ScrapedAtMostTen(rule: Rule, page: Option<seq<Entry>>, xs: seq<Article>)
    requires Extracted(rule, page).Ok? && Lists(xs, rule.source, Extracted(rule, page).value)
    ensures |xs| <= ListingLimit
    ensures forall i, j :: 0 <= i < j < |xs| ==> KeyOf(xs[i]) != KeyOf(xs[j])
  {
    forall i, j | 0 <= i < j < |xs| ensures KeyOf(xs[i]) != KeyOf(xs[j]) {
      KeyOfIdentity(xs[i], xs[j]);
    }
  }
}
