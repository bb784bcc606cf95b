/**
 * The Discord notifier (`send_to_discord`): the message text built for one
 * result, and the outcome of one delivery. The HTTP POST itself is a
 * parameter `post` (true when the webhook answers with a success status);
 * a missing webhook URL fails before anything is sent.
 */
module Discord {
  import opened Text
  import opened Fingerprints
  import Cycle

  /** Python's `s or fallback` on strings: the empty string is falsy. */
  function OrElse(s: string, fallback: string): (r: string)
    ensures s != [] ==> r == s
    ensures s == [] ==> r == fallback
  {
    if s != [] then s else fallback
  }

  /** The four lines of the message: header, title with year, authors, url. */
  function Lines(keyword: string, paper: Candidate): seq<string> {
    [ "**New paper found** for **" + keyword + "**",
      "**" + OrElse(paper.title, "Untitled") + "** (" + OrElse(paper.year, "Year n/a") + ")",
      "*" + OrElse(paper.authors, "Unknown authors") + "*",
      paper.url ]
  }

  /** The `content` field of the payload. */
  function Message(keyword: string, paper: Candidate): string {
    "**New paper found** for **" + keyword + "**\n"
    + "**" + OrElse(paper.title, "Untitled") + "** (" + OrElse(paper.year, "Year n/a") + ")\n"
    + "*" + OrElse(paper.authors, "Unknown authors") + "*\n"
    + paper.url
  }

  /** No field of the message carries a line break of its own. */
  predicate SingleLine(keyword: string, paper: Candidate) {
    '\n' !in keyword && '\n' !in paper.title && '\n' !in paper.year
    && '\n' !in paper.authors && '\n' !in paper.url
  }

  /**
   * When no field holds a line break, the message is exactly four lines:
   * the header naming the keyword, the title (or "Untitled") with the year
   * (or "Year n/a"), the authors (or "Unknown authors") and the url.
   */
  lemma MessageLines(keyword: string, paper: Candidate)
    requires SingleLine(keyword, paper)
    ensures Split(Message(keyword, paper), '\n') == Lines(keyword, paper)
  {
    var l := Lines(keyword, paper);
    assert Join(l[3..], '\n') == l[3];
    assert l[2..][1..] == l[3..];
    assert Join(l[2..], '\n') == l[2] + "\n" + l[3];
    assert l[1..][1..] == l[2..];
    assert Join(l[1..], '\n') == l[1] + "\n" + (l[2] + "\n" + l[3]);
    assert Join(l, '\n') == l[0] + "\n" + (l[1] + "\n" + (l[2] + "\n" + l[3]));
    assert Message(keyword, paper) == Join(l, '\n');
    SplitJoin(l, '\n');
  }

  /**
   * A result with no title, year or authors is announced as "Untitled", with
   * "Year n/a" and "Unknown authors" in their places.
   */
  lemma MessageDefaults(keyword: string, paper: Candidate)
    requires SingleLine(keyword, paper)
    requires paper.title == [] && paper.year == [] && paper.authors == []
    ensures Split(Message(keyword, paper), '\n')
         == ["**New paper found** for **" + keyword + "**", "**Untitled** (Year n/a)", "*Unknown authors*", paper.url]
  {
    MessageLines(keyword, paper);
    assert "**" + "Untitled" + "** (" + "Year n/a" + ")" == "**Untitled** (Year n/a)";
    assert "*" + "Unknown authors" + "*" == "*Unknown authors*";
  }

  /** A result whose title, year and authors are all present is announced with them as given. */
  lemma MessageKeepsFields(keyword: string, paper: Candidate)
    requires SingleLine(keyword, paper)
    requires paper.title != [] && paper.year != [] && paper.authors != []
    ensures Split(Message(keyword, paper), '\n')
         == ["**New paper found** for **" + keyword + "**",
             "**" + paper.title + "** (" + paper.year + ")",
             "*" + paper.authors + "*",
             paper.url]
  {
    MessageLines(keyword, paper);
  }

  /**
   * One notification: fails when the webhook URL is unset, otherwise
   * succeeds exactly when the POST of the message does.
   */
  function Notify(webhook: string, post: (string, string) -> bool, keyword: string, paper: Candidate): bool {
    webhook != [] && post(webhook, Message(keyword, paper))
  }

  /** The notifier a cycle runs with, for a given webhook and transport. */
  function Notifier(webhook: string, post: (string, string) -> bool): (string, Candidate) -> bool {
    (keyword: string, paper: Candidate) => Notify(webhook, post, keyword, paper)
  }

  /**
   * With no webhook configured a cycle changes nothing: every insert is
   * rolled back and `total_new` is 0, whatever the search returns.
   */
  lemma MissingWebhookChangesNothing(seen: Cycle.SeenTable, terms: seq<string>, fingerprint: Candidate -> string,
                                     fetch: string -> Cycle.FetchOutcome, post: (string, string) -> bool)
    ensures var env := Cycle.Env(fingerprint, fetch, Notifier([], post));
      Cycle.CycleOver(seen, terms, env).seen == seen && Cycle.CycleOver(seen, terms, env).total == 0
  {
    var env := Cycle.Env(fingerprint, fetch, Notifier([], post));
    Cycle.NoDeliveryNoChange(seen, terms, env);
  }
}
