/**
 * Fingerprinting of one search result (`_fingerprint`): the four descriptive
 * fields are trimmed, joined with `|` in the order title, authors, year, url,
 * and the joined string is hashed. The hash (SHA-256 rendered as hex in the
 * source) is a parameter `digest` about which nothing is assumed.
 */
module Fingerprints {
  import opened Text

  /** One result as the search provider hands it over; a missing field is the empty string. */
  datatype Candidate = Candidate(title: string, authors: string, year: string, url: string)

  /** The string that is hashed. */
  function Base(c: Candidate): string {
    Strip(c.title) + "|" + Strip(c.authors) + "|" + Strip(c.year) + "|" + Strip(c.url)
  }

  function Fingerprint(digest: string -> string, c: Candidate): string {
    digest(Base(c))
  }

  /** A candidate made only of whitespace, used to pad every field of another one. */
  predicate Blank(c: Candidate) {
    AllSpace(c.title) && AllSpace(c.authors) && AllSpace(c.year) && AllSpace(c.url)
  }

  function Surround(before: Candidate, c: Candidate, after: Candidate): Candidate {
    Candidate(before.title + c.title + after.title, before.authors + c.authors + after.authors,
              before.year + c.year + after.year, before.url + c.url + after.url)
  }

  /** Candidates that agree once their fields are trimmed get the same fingerprint, whatever the hash. */
  lemma SameTrimmedFieldsSameFingerprint(digest: string -> string, c: Candidate, d: Candidate)
    requires Strip(c.title) == Strip(d.title) && Strip(c.authors) == Strip(d.authors)
    requires Strip(c.year) == Strip(d.year) && Strip(c.url) == Strip(d.url)
    ensures Fingerprint(digest, c) == Fingerprint(digest, d)
  {
  }

  /** Leading and trailing whitespace in any field does not change the fingerprint. */
  lemma FingerprintIgnoresPadding(digest: string -> string, before: Candidate, c: Candidate, after: Candidate)
    requires Blank(before) && Blank(after)
    ensures Fingerprint(digest, Surround(before, c, after)) == Fingerprint(digest, c)
  {
    StripPadding(before.title, c.title, after.title);
    StripPadding(before.authors, c.authors, after.authors);
    StripPadding(before.year, c.year, after.year);
    StripPadding(before.url, c.url, after.url);
  }

  /** Fingerprinting the trimmed candidate gives the same result as fingerprinting the raw one. */
  lemma FingerprintOfTrimmed(digest: string -> string, c: Candidate)
    ensures Fingerprint(digest, Candidate(Strip(c.title), Strip(c.authors), Strip(c.year), Strip(c.url)))
         == Fingerprint(digest, c)
  {
    StripIdempotent(c.title);
    StripIdempotent(c.authors);
    StripIdempotent(c.year);
    StripIdempotent(c.url);
  }

  lemma FirstBarAt(a: string, b: string)
    requires '|' !in a
    ensures (a + "|" + b)[|a|] == '|'
    ensures forall k :: 0 <= k < |a| ==> (a + "|" + b)[k] != '|'
  {
    forall k | 0 <= k < |a| ensures (a + "|" + b)[k] != '|' {
      assert (a + "|" + b)[k] == a[k];
    }
  }

  lemma SplitAtFirstBar(a: string, b: string, x: string, y: string)
    requires '|' !in a && '|' !in x
    requires a + "|" + b == x + "|" + y
    ensures a == x && b == y
  {
    var l := a + "|" + b;
    FirstBarAt(a, b);
    FirstBarAt(x, y);
    assert |a| == |x|;
    assert a == l[..|a|] == x;
    assert b == l[|a| + 1..] == y;
  }

  lemma JoinedFieldsInjective(t: string, a: string, y: string, u: string,
                              t': string, a': string, y': string, u': string)
    requires '|' !in t && '|' !in a && '|' !in y && '|' !in t' && '|' !in a' && '|' !in y'
    requires t + "|" + a + "|" + y + "|" + u == t' + "|" + a' + "|" + y' + "|" + u'
    ensures t == t' && a == a' && y == y' && u == u'
  {
    assert t + "|" + a + "|" + y + "|" + u == t + "|" + (a + "|" + y + "|" + u);
    assert t' + "|" + a' + "|" + y' + "|" + u' == t' + "|" + (a' + "|" + y' + "|" + u');
    SplitAtFirstBar(t, a + "|" + y + "|" + u, t', a' + "|" + y' + "|" + u');
    assert a + "|" + y + "|" + u == a + "|" + (y + "|" + u);
    assert a' + "|" + y' + "|" + u' == a' + "|" + (y' + "|" + u');
    SplitAtFirstBar(a, y + "|" + u, a', y' + "|" + u');
    SplitAtFirstBar(y, u, y', u');
  }

  /**
   * When the trimmed title, authors and year contain no `|`, the joined string
   * determines the trimmed fields: only the hash can then make two different
   * results collide.
   */
  lemma BaseInjectiveWithoutBars(c: Candidate, d: Candidate)
    requires '|' !in Strip(c.title) && '|' !in Strip(c.authors) && '|' !in Strip(c.year)
    requires '|' !in Strip(d.title) && '|' !in Strip(d.authors) && '|' !in Strip(d.year)
    requires Base(c) == Base(d)
    ensures Strip(c.title) == Strip(d.title) && Strip(c.authors) == Strip(d.authors)
    ensures Strip(c.year) == Strip(d.year) && Strip(c.url) == Strip(d.url)
  {
    JoinedFieldsInjective(Strip(c.title), Strip(c.authors), Strip(c.year), Strip(c.url),
                          Strip(d.title), Strip(d.authors), Strip(d.year), Strip(d.url));
  }

  /**
   * A `|` inside a field makes two different results share the joined string,
   * hence the fingerprint under every hash: moving the text between two bars from
   * the title to the authors (`"p|q", "r"` against `"p", "q|r"`) is not noticed,
   * and the second result is treated as already seen.
   */
  lemma BarInFieldCollides(digest: string -> string, p: string, q: string, r: string, year: string, url: string)
    requires Trimmed(p) && Trimmed(q) && Trimmed(r)
    ensures Candidate(p + "|" + q, r, year, url) != Candidate(p, q + "|" + r, year, url)
    ensures Fingerprint(digest, Candidate(p + "|" + q, r, year, url))
         == Fingerprint(digest, Candidate(p, q + "|" + r, year, url))
  {
    var pq, qr := p + "|" + q, q + "|" + r;
    BarJoinTrimmed(p, q);
    BarJoinTrimmed(q, r);
    StripFixed(p);
    StripFixed(r);
    StripFixed(pq);
    StripFixed(qr);
    BarRegroup(p, q, r);
    SameTrimmedFieldsSameJoin(Candidate(pq, r, year, url), Candidate(p, qr, year, url));
  }

  lemma BarJoinTrimmed(a: string, b: string)
    requires Trimmed(a) && Trimmed(b)
    ensures Trimmed(a + "|" + b)
  {
    var ab := a + "|" + b;
    assert ab[0] == a[0];
    assert ab[|ab| - 1] == b[|b| - 1];
  }

  lemma BarRegroup(p: string, q: string, r: string)
    ensures (p + "|" + q) + "|" + r == p + "|" + (q + "|" + r)
  {
  }

  lemma SameTrimmedFieldsSameJoin(c: Candidate, d: Candidate)
    requires Strip(c.title) + "|" + Strip(c.authors) == Strip(d.title) + "|" + Strip(d.authors)
    requires c.year == d.year && c.url == d.url
    ensures Base(c) == Base(d)
  {
  }
}
