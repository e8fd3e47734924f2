# Nepali news scraper — ingestion and deduplication model

This project models the core of a small scheduled news scraper. One run scrapes the
listing pages of three news sites: Kathmandu Post, OnlineKhabar and MyRepublica.
It loads the keys of the articles it has already sent. It keeps at most thirty
articles it has not seen before, saves the enlarged seen-state, and posts one
notification that lists the new articles.

The model is written in Dafny. Each part of the script keeps its own form:

- `records.dfy` (module `Records`): the article record, its source, and the
  deduplication key `(Headline, Link, Summary)`.
- `extraction.dfy` (module `Extraction`): the three scrapers as one extractor.
  A `Rule` gives each source's link policy. `ResolveAgainst(base)` checks that
  `href` exists and prefixes path-relative links with the base URL.
  `Verbatim` (OnlineKhabar) reads `href` without checking it. A missing `href`
  is then the uncaught `KeyError`, modelled as `Err(MissingHref)`. A parsed page
  is the sequence of listing entries its selector finds. Each entry has an
  optional headline tag, an optional link tag inside it (text and optional
  `href`), and the optional text of its first paragraph. `Scrape` is the
  scraper loop over the first ten entries. It collects tuples in a set and
  lists that set in an unspecified order (`ListItems`). It is proved against
  the recursive specification `Harvest`.
- `novelty.dfy` (module `Novelty`): the filter loop. `SelectNovel` has the
  script's two nested loops and is proved against the recursive specification
  `Taken`. `Taken` is tied to an independent definition: the first thirty
  entries of `Fresh`, the plain filter by the seen-state.
- `seenstate.dfy` (module `SeenState`): `Load` turns the decoded JSON list into
  a set of tuples, and a missing or undecodable file gives the empty set.
  `Save` lists the set in an unspecified order.
- `notifier.dfy` (module `Notifier`): `Notify` returns the text that would be
  posted. It returns `None` for an empty list, so nothing is posted.
- `pipeline.dfy` (module `Pipeline`): `Run`, one whole run in the script's order.

A fetch that fails is modelled as a page of `None`. This covers a transport
error, a timeout and a status other than 200. Such a source contributes no
records.

Where one might expect otherwise, the model follows the code:

- Extraction does not keep the page's listing order. Each scraper collects its
  tuples in a set (scrap.py:48), so the returned order is unspecified.
- An empty headline text is not rejected.
- The filter tests a key only against the loaded state, not against keys taken
  earlier in the same run (scrap.py:181). So the same key from two sources is
  sent twice (`Novelty.CrossSourceDuplicate`).
- Records deferred by the cap are not marked seen. When at most thirty fresh
  records were found, a re-run on the same records sends nothing
  (`Novelty.RerunEmptyUnderCap`). Otherwise a re-run sends, within the cap, the
  deferred records whose keys were not among those sent
  (`Novelty.CapDefersRest`).
- OnlineKhabar does not check `href`. An entry whose link tag has no `href`
  raises a `KeyError` that nothing catches, so the run stops before the state is
  loaded, saved or the message is posted (`Pipeline.Run`).

## Model

| member | source | states |
|---|---|---|
| `Records.KeyOf` | scrap.py:180 | the key is a triple of strings |
| `Records.KeyOfIdentity` | scrap.py:180 | two articles share a key exactly when headline, link and summary agree; the source is not part of the key |
| `Extraction.RuleFor` | scrap.py:85-87 | each source gets a rule for that source; only OnlineKhabar takes `href` verbatim, without checking it |
| `Extraction.Summary` | scrap.py:30-33 | the summary is the first paragraph's text when there is one; it is the sentinel "No summary available." exactly when there is no paragraph or the paragraph says exactly that |
| `Extraction.Resolve` | scrap.py:57 | the href is always a suffix of the link; a path-relative href gets the base as prefix; the link equals the href exactly when the href is not path-relative (or the base is empty) |
| `Extraction.EntryOutcome` | scrap.py:51-58 | an entry without a link tag is always skipped; only a Verbatim rule can raise |
| `Extraction.EntryOutcomeCases` | scrap.py:51-58 | an entry without a link tag is skipped; a link tag without href is skipped by a checking rule and raises under Verbatim; otherwise the tuple is (link text, resolved or verbatim href, summary) |
| `Extraction.Listing` | scrap.py:50 | only the first ten entries are considered: a prefix of the page of length min(10, n) |
| `Extraction.Harvest` | scrap.py:48-58 | a scraper that does not fail collects at most as many tuples as entries it looked at |
| `Extraction.HarvestFails` | scrap.py:85-88 | a scraper fails exactly when one of its entries raises |
| `Extraction.HarvestItems` | scrap.py:117-125 | a scraper that does not fail collects exactly the tuples its entries keep |
| `Extraction.CheckedRuleNeverFails` | scrap.py:55-58 | Kathmandu Post and MyRepublica never fail: entries lacking a link or an href are skipped without error |
| `Extraction.EntryWithoutLinkSkipped` | scrap.py:81-85 | an entry without a link tag leaves the collected set unchanged, under every rule |
| `Extraction.Extracted` | scrap.py:41-46 | a failed fetch yields no records; a scraper yields at most ten tuples |
| `Extraction.ListItems` | scrap.py:60 | the returned records list each collected tuple exactly once, under the scraper's source |
| `Extraction.Scrape` | scrap.py:36-64 | the scraper fails exactly when its specification fails, and otherwise returns a listing of exactly the specified set of tuples |
| `Extraction.ScrapedAtMostTen` | scrap.py:48-60 | a scraper returns at most ten records, no two with the same key |
| `Novelty.Flatten` | scrap.py:178-179 | the records the filter walks, in source order, number the sum of the per-source counts |
| `Novelty.Taken` | scrap.py:177-183 | at most thirty records are sent, and no more than the sources returned |
| `Novelty.Saved` | scrap.py:186 | the saved state keeps every key of the old state and grows by at most thirty keys |
| `Novelty.TakenIsFirstFresh` | scrap.py:178-183 | the records sent are exactly the first (up to thirty) records whose key is not in the state, in source order and in each source's order |
| `Novelty.FreshMembers` | scrap.py:181 | a record is fresh exactly when it was returned and its key is not in the state |
| `Novelty.TakenAvoidsPast` | scrap.py:181 | every record sent was returned by a source and its key was not in the state |
| `Novelty.RerunNeverRepeats` | scrap.py:181-186 | a second run with the saved state and the same records sends no record whose key was in the old state or was sent by the first run |
| `Novelty.RerunEmptyUnderCap` | scrap.py:181-186 | when the cap was not reached, a second run with the saved state and the same records sends nothing |
| `Novelty.CapDefersRest` | scrap.py:181-186 | no more records are sent than were fresh; a second run with the saved state sends the first (up to thirty) records deferred by the cap whose keys were not sent by the first run |
| `Novelty.CapDefersDistinct` | scrap.py:181-186 | when the fresh records have distinct keys, a second run sends exactly the next (up to thirty) fresh records after those sent |
| `Novelty.SelectNovel` | scrap.py:173-186 | the filter loop sends exactly `Taken` of the records in source order; the saved state is the old state plus the keys sent (nothing lost, capped-out records not added) |
| `Novelty.KnownAndNewExample` | scrap.py:178-186 | with state {(A,u1,s1)} and records (A,u1,s1), (B,u2,s2), only the second is sent and both keys are saved |
| `Novelty.CrossSourceDuplicate` | scrap.py:181-183 | the same key from two sources in one run is sent twice |
| `SeenState.Load` | scrap.py:149-156 | a missing or undecodable file loads as the empty set; a decoded list loads as at most as many keys as it has items |
| `SeenState.Save` | scrap.py:159-162 | the saved list holds every key of the set exactly once |
| `SeenState.LoadAfterSave` | scrap.py:149-162 | loading what was saved gives back the same set |
| `SeenState.LoadIgnoresOrder` | scrap.py:154 | lists with the same items load as the same set, whatever their order or repetitions |
| `Notifier.Block` | scrap.py:141 | a record's block is its source name, headline, summary and link plus exactly eleven characters of decoration |
| `Notifier.Blocks` | scrap.py:139-141 | the blocks of n records are at least 11·n characters long |
| `Notifier.BlocksAppend` | scrap.py:140-141 | the blocks of two lists one after the other are the blocks of the first followed by those of the second |
| `Notifier.BlocksSingle` | scrap.py:141 | a one-record list gives exactly that record's block |
| `Notifier.BlocksInOrder` | scrap.py:139-141 | each record's block stands after the blocks of the records before it and before those of the records after it |
| `Notifier.Notify` | scrap.py:134-146 | nothing is posted exactly when the list is empty; otherwise the one message is the header followed by one block per record, in list order |
| `Pipeline.OnlyOnlineKhabarCrashes` | scrap.py:166-170 | of the three scrapers only OnlineKhabar can stop the run |
| `Pipeline.Run` | scrap.py:166-189 | a run fails exactly when a scraper raises; otherwise each source's records list its extracted tuples, the records sent are `Taken` of the loaded state over the three sources in order, the saved list loads back as the old state plus the sent keys, and the message is posted exactly when something was sent |

## Left out

- HTTP requests, the browser headers, status codes and timeouts: a fetch that fails is the page `None`.
- The Telegram request: `Notify` returns the message text instead of posting it. The bot token, chat id, `parse_mode` and Markdown rendering are not modelled.
- HTML parsing and selectors: a page is the sequence of entries its selector finds. `get_text(strip=True)` whitespace handling is taken as already applied to the text fields.
- File I/O and JSON encoding (`indent`, `ensure_ascii`). Only the list-to-set and set-to-list conversions and the fallback to the empty set are modelled.
- A state file that decodes to something other than a list of lists of strings is not modelled. This includes a JSON object, a list holding numbers, and a file that is not valid UTF-8, which raises an error that the script does not catch.
- Python's set iteration order: per-source records and the saved list are in an unspecified order, chosen with `:|`.
- Exceptions other than the `KeyError` on a missing `href` (for example, errors raised inside the HTML parser).
- MyRepublica's early return for a page without entries: it gives the same empty result as the loop over no entries, so it is not modelled separately.
- Logging, the credential check with `exit(1)`, and the final count printed to standard output.
