/**
  The article record that flows through one run of the scraper, and the
  identity key under which the seen-state remembers it.
*/
module Records {

  /** The configured news sites. */
  datatype Source = KathmanduPost | OnlineKhabar | MyRepublica

  /** The fixed order in which the run visits the sources (the dict literal of the script). */
  const SourceOrder: seq<Source> := [KathmanduPost, OnlineKhabar, MyRepublica]

  /** The display name stored in an article's "Source" field. */
  function SourceName(src: Source): string
  {
    match src
    case KathmanduPost => "Kathmandu Post"
    case OnlineKhabar => "OnlineKhabar"
    case MyRepublica => "MyRepublica"
  }

  /** One scraped article: the dictionary with keys Source, Headline, Link and Summary. */
  datatype Article = Article(source: Source, headline: string, link: string, summary: string)

  /**
    An identity key as the seen-state holds it. Loading turns every stored JSON
    list into a tuple, whatever its length, so a key is a sequence of strings;
    the keys of articles are the three-element ones.
  */
  type Key = seq<string>

  /** The deduplication key of an article: (Headline, Link, Summary); the source is not part of it. */
  function KeyOf(a: Article): (k: Key)
    ensures |k| == 3
  {
    [a.headline, a.link, a.summary]
  }

  /** The keys of a list of articles. */
  function KeysOf(xs: seq<Article>): set<Key>
  {
    set a | a in xs :: KeyOf(a)
  }

  /** Two articles share a key exactly when headline, link and summary agree, whatever their sources. */
  lemma KeyOfIdentity(a: Article, b: Article)
    ensures KeyOf(a) == KeyOf(b) <==> a.headline == b.headline && a.link == b.link && a.summary == b.summary
  {
    if KeyOf(a) == KeyOf(b) {
      assert KeyOf(a)[0] == KeyOf(b)[0] && KeyOf(a)[1] == KeyOf(b)[1] && KeyOf(a)[2] == KeyOf(b)[2];
    }
  }
}
