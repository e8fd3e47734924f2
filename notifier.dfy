/**
  The notifier: nothing is sent for an empty list; otherwise one message is
  built from a fixed header and one block per record, in list order.
*/
module Notifier {
  import opened Wrappers
  import opened Records

  const Header: string := "📰 **Nepali News Update**\n\n"

  /** The fixed pieces of a record's block. */
  const SourceOpen: string := "🔹 *"
  const SourceClose: string := "*\n"
  const LineBreak: string := "\n"
  const LinkMark: string := "\n🔗 "
  const BlockEnd: string := "\n\n"

  /** The block of one record: source, headline, summary and link. */
  function Block(a: Article): (b: string)
    ensures |b| == 11 + |SourceName(a.source)| + |a.headline| + |a.summary| + |a.link|
  {
    SourceOpen + SourceName(a.source) + SourceClose + a.headline + LineBreak + a.summary + LinkMark + a.link + BlockEnd
  }

  /** The blocks of the records, one after the other. */
  function Blocks(news: seq<Article>): (text: string)
    ensures |text| >= 11 * |news|
    decreases |news|
  {
    if news == [] then [] else Blocks(news[..|news| - 1]) + Block(news[|news| - 1])
  }

  /** Appending one record appends its block. */
  lemma BlocksSnoc(xs: seq<Article>, a: Article)
    ensures Blocks(xs + [a]) == Blocks(xs) + Block(a)
  {
    assert (xs + [a])[..|xs|] == xs;
  }

  /** The blocks of a concatenation are the concatenation of the blocks. */
  lemma {:induction false} BlocksAppend(xs: seq<Article>, ys: seq<Article>)
    ensures Blocks(xs + ys) == Blocks(xs) + Blocks(ys)
    decreases |ys|
  {
    if ys == [] {
      assert xs + ys == xs;
    } else {
      var init, last := ys[..|ys| - 1], ys[|ys| - 1];
      assert ys == init + [last];
      assert xs + ys == (xs + init) + [last];
      calc {
        Blocks(xs + ys);
        { BlocksSnoc(xs + init, last); }
        Blocks(xs + init) + Block(last);
        { BlocksAppend(xs, init); }
        (Blocks(xs) + Blocks(init)) + Block(last);
        { Associative(Blocks(xs), Blocks(init), Block(last)); }
        Blocks(xs) + (Blocks(init) + Block(last));
        { BlocksSnoc(init, last); }
        Blocks(xs) + Blocks(ys);
      }
    }
  }

  lemma Associative(a: string, b: string, c: string)
    ensures (a + b) + c == a + (b + c)
  {
  }

  lemma EmptyLeft(b: string)
    ensures [] + b == b
  {
  }

  /** A one-record list gives that record's block. */
  lemma BlocksSingle(x: Article)
    ensures Blocks([x]) == Block(x)
  {
    var b := Block(x);
    assert [x][..0] == [];
    assert Blocks([x]) == Blocks([]) + b;
    EmptyLeft(b);
  }

  /** A record's block stands after the blocks of the records before it and before those of the records after it. */
  lemma BlocksInOrder(before: seq<Article>, x: Article, after: seq<Article>)
    ensures Blocks(before + [x] + after) == Blocks(before) + Block(x) + Blocks(after)
  {
    BlocksAppend(before + [x], after);
    BlocksAppend(before, [x]);
    BlocksSingle(x);
  }

  /**
    The message that would be posted: None when the list is empty (no request
    is made), otherwise the header followed by one block per record.
  */
  method Notify(news: seq<Article>) returns (message: Option<string>)
    ensures message.None? <==> news == []
    ensures message.Some? ==> message.value == Header + Blocks(news)
  {
    if news == [] {
      return None;
    }
    var text := Header;
    var i := 0;
    while i < |news|
      invariant 0 <= i <= |news|
      invariant text == Header + Blocks(news[..i])
    {
      var b := Block(news[i]);
      assert Blocks(news[..i + 1]) == Blocks(news[..i]) + b by {
        assert news[..i + 1][..i] == news[..i];
      }
      Associative(Header, Blocks(news[..i]), b);
      text := text + b;
      i := i + 1;
    }
    assert news[..i] == news;
    return Some(text);
  }
}
