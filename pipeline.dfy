/**
  One run of the script: scrape the three sources in order, load the
  seen-state, filter, save the updated state, and build the notification.
*/
module Pipeline {
  import opened Wrappers
  import opened Records
  import opened Extraction
  import opened SeenState
  import opened Novelty
  import opened Notifier

  /** The listing entries of each source's page, or None when its fetch failed. */
  datatype Pages = Pages(kathmanduPost: Option<seq<Entry>>, onlineKhabar: Option<seq<Entry>>, myRepublica: Option<seq<Entry>>)

  function PageOf(pages: Pages, src: Source): Option<seq<Entry>>
  {
    match src
    case KathmanduPost => pages.kathmanduPost
    case OnlineKhabar => pages.onlineKhabar
    case MyRepublica => pages.myRepublica
  }

  /**
    What a completed run produced: each source's records in source order, the
    records sent, the list written to the state file, and the message posted
    (None when nothing was posted).
  */
  datatype Report = Report(batches: seq<seq<Article>>, sent: seq<Article>, saved: seq<seq<string>>, message: Option<string>)

  /** The run crashes when a scraper raises; the checking scrapers never do, so only OnlineKhabar can. */
  lemma OnlyOnlineKhabarCrashes(pages: Pages, src: Source)
    requires Extracted(RuleFor(src), PageOf(pages, src)).Err?
    ensures src == OnlineKhabar
  {
    if src != OnlineKhabar {
      CheckedRuleNeverFails(RuleFor(src), Listing(PageOf(pages, src).value));
    }
  }

  /** The page of src was extracted without error and batch lists its tuples as records of src. */
  ghost predicate ScrapedAs(pages: Pages, batch: seq<Article>, src: Source)
  {
    && Extracted(RuleFor(src), PageOf(pages, src)).Ok?
    && Lists(batch, src, Extracted(RuleFor(src), PageOf(pages, src)).value)
  }

  /** One batch per source, in the order of SourceOrder. */
  ghost predicate Scraped(pages: Pages, batches: seq<seq<Article>>)
  {
    && |batches| == |SourceOrder|
    && ScrapedAs(pages, batches[0], KathmanduPost)
    && ScrapedAs(pages, batches[1], OnlineKhabar)
    && ScrapedAs(pages, batches[2], MyRepublica)
  }

  /**
    The whole run. When a scraper raises, the run stops before the state is
    loaded, saved or the message sent.
  */
  method Run(pages: Pages, file: StoredFile) returns (r: Result<Report, Failure>)
    ensures r.Err? <==> exists src :: src in SourceOrder && Extracted(RuleFor(src), PageOf(pages, src)).Err?
    ensures r.Ok? ==> Scraped(pages, r.value.batches)
    ensures r.Ok? ==> r.value.sent == Taken(Load(file), Flatten(r.value.batches))
    ensures r.Ok? ==> Load(Decoded(r.value.saved)) == Load(file) + KeysOf(r.value.sent)
    ensures r.Ok? ==> (r.value.message.None? <==> r.value.sent == [])
    ensures r.Ok? && r.value.message.Some? ==> r.value.message.value == Header + Blocks(r.value.sent)
  {
    var kp := Scrape(RuleFor(KathmanduPost), pages.kathmanduPost);
    if kp.Err? {
      assert SourceOrder[0] == KathmanduPost;
      return Err(kp.error);
    }
    var ok := Scrape(RuleFor(OnlineKhabar), pages.onlineKhabar);
    if ok.Err? {
      assert SourceOrder[1] == OnlineKhabar;
      return Err(ok.error);
    }
    var mr := Scrape(RuleFor(MyRepublica), pages.myRepublica);
    if mr.Err? {
      assert SourceOrder[2] == MyRepublica;
      return Err(mr.error);
    }
    var batches := [kp.value, ok.value, mr.value];
    var past := Load(file);
    var sent, seen := SelectNovel(batches, past);
    var saved := Save(seen);
    LoadAfterSave(seen, saved);
    var message := Notify(sent);
    return Ok(Report(batches, sent, saved, message));
  }
}
