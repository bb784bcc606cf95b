/**
 * The deduplicate-then-notify cycle (`process_keyword` and `run_cycle`) as
 * functions on values. The `Database` class in module Store runs the same
 * steps in place and is proved equal to these functions; the lemmas here state
 * what the cycle promises.
 *
 * The seen-papers table is a map from its unique key (keyword term,
 * fingerprint) to the stored result. The search provider, the hash and the
 * notifier are given by an `Env`, as they behave during one cycle.
 * Within one cycle the notifier is asked at most once per (term, candidate)
 * (lemma CycleEffect), so a function of those two loses nothing.
 */
module Cycle {
  import opened Fingerprints

  type SeenKey = (string, string)
  type SeenTable = map<SeenKey, Candidate>

  /** What `fetch_scholar_results` delivers for one keyword: the capped result list, or an exception. */
  datatype FetchOutcome = Fetched(rows: seq<Candidate>) | FetchFailed

  /**
   * What one cycle works with: the fingerprint function (`_fingerprint`, that is
   * `Fingerprints.Fingerprint` with the hash fixed; the lemmas here hold for any
   * function), the search provider, and the Discord notifier (true when the
   * webhook call succeeds).
   */
  datatype Env = Env(fingerprint: Candidate -> string, fetch: string -> FetchOutcome, notify: (string, Candidate) -> bool)

  datatype Cause = FetchError | NotifyError

  /** How one call of `process_keyword` ends: it returns `new_count`, or it raises. */
  datatype KeywordOutcome = Completed(newCount: nat) | Raised(cause: Cause)

  /** One call of the notifier. */
  datatype Attempt = Attempt(term: string, paper: Candidate)

  /** The store after one keyword, the notifier calls made, in order, and how it ended. */
  datatype KeywordRun = KeywordRun(seen: SeenTable, attempts: seq<Attempt>, outcome: KeywordOutcome)

  /** The store after a cycle, `total_new`, all notifier calls, and each keyword's outcome in order. */
  datatype CycleRun = CycleRun(seen: SeenTable, total: nat, attempts: seq<Attempt>, outcomes: seq<KeywordOutcome>)

  function KeyOf(env: Env, a: Attempt): SeenKey {
    (a.term, env.fingerprint(a.paper))
  }

  predicate Delivered(env: Env, a: Attempt) {
    env.notify(a.term, a.paper)
  }

  /** The keys of the results whose notification went through. */
  function DeliveredKeys(env: Env, attempts: seq<Attempt>): set<SeenKey> {
    set a | a in attempts && Delivered(env, a) :: KeyOf(env, a)
  }

  /** What a keyword adds to `total_new`: its `new_count`, or nothing when it raised. */
  function Contribution(o: KeywordOutcome): nat {
    if o.Completed? then o.newCount else 0
  }

  function AddCount(o: KeywordOutcome, k: nat): KeywordOutcome {
    if o.Completed? then Completed(o.newCount + k) else o
  }

  /**
   * The candidate loop of `process_keyword`. The INSERT fails on a key already
   * present (skip); otherwise the notifier is called; when it fails, the row
   * just inserted is deleted again (so the table is as before) and the
   * exception ends the loop, discarding the count.
   */
  function ProcessRows(seen: SeenTable, kw: string, rows: seq<Candidate>, env: Env): KeywordRun
    decreases |rows|
  {
    if rows == [] then KeywordRun(seen, [], Completed(0))
    else
      var p := rows[0];
      var key := (kw, env.fingerprint(p));
      if key in seen then ProcessRows(seen, kw, rows[1..], env)
      else if !env.notify(kw, p) then KeywordRun(seen, [Attempt(kw, p)], Raised(NotifyError))
      else
        var rest := ProcessRows(seen[key := p], kw, rows[1..], env);
        KeywordRun(rest.seen, [Attempt(kw, p)] + rest.attempts, AddCount(rest.outcome, 1))
  }

  /** `process_keyword(kw)`: fetch, then the candidate loop; a fetch error raises before the store is touched. */
  function KeywordStep(seen: SeenTable, kw: string, env: Env): KeywordRun {
    match env.fetch(kw)
    case FetchFailed => KeywordRun(seen, [], Raised(FetchError))
    case Fetched(rows) => ProcessRows(seen, kw, rows, env)
  }

  /** The keyword loop of `run_cycle`: every exception is caught and the next keyword runs. */
  function CycleOver(seen: SeenTable, terms: seq<string>, env: Env): CycleRun
    decreases |terms|
  {
    if terms == [] then CycleRun(seen, 0, [], [])
    else
      var step := KeywordStep(seen, terms[0], env);
      var rest := CycleOver(step.seen, terms[1..], env);
      CycleRun(rest.seen, Contribution(step.outcome) + rest.total,
               step.attempts + rest.attempts, [step.outcome] + rest.outcomes)
  }

  // ---------------------------------------------------------------------------
  // Vocabulary for the properties

  /** Every row of `before` is still in `after`, unchanged. */
  predicate Extends(before: SeenTable, after: SeenTable) {
    forall k :: k in before ==> k in after && after[k] == before[k]
  }

  /** The two tables hold the same keys for keyword `kw`. */
  ghost predicate SameFor(s1: SeenTable, s2: SeenTable, kw: string) {
    forall k: SeenKey :: k.0 == kw ==> (k in s1 <==> k in s2)
  }

  /** No two notifier calls are for the same key, and none is for a key already stored. */
  predicate FreshAndDistinct(env: Env, attempts: seq<Attempt>, seen: SeenTable) {
    && (forall i :: 0 <= i < |attempts| ==> KeyOf(env, attempts[i]) !in seen)
    && (forall i, j :: 0 <= i < j < |attempts| ==> KeyOf(env, attempts[i]) != KeyOf(env, attempts[j]))
  }

  predicate DistinctTerms(terms: seq<string>) {
    forall i, j :: 0 <= i < j < |terms| ==> terms[i] != terms[j]
  }

  function CompletedSum(outcomes: seq<KeywordOutcome>): nat {
    if outcomes == [] then 0 else Contribution(outcomes[0]) + CompletedSum(outcomes[1..])
  }

  /** `total_new` if every keyword ran alone against the starting table. */
  function IsolatedTotal(seen: SeenTable, terms: seq<string>, env: Env): nat {
    if terms == [] then 0
    else Contribution(KeywordStep(seen, terms[0], env).outcome) + IsolatedTotal(seen, terms[1..], env)
  }

  lemma SameForTransitive(s1: SeenTable, s2: SeenTable, s3: SeenTable, kw: string)
    requires SameFor(s1, s2, kw) && SameFor(s2, s3, kw)
    ensures SameFor(s1, s3, kw)
  {
  }

  lemma DeliveredKeysConcat(env: Env, xs: seq<Attempt>, ys: seq<Attempt>)
    ensures DeliveredKeys(env, xs + ys) == DeliveredKeys(env, xs) + DeliveredKeys(env, ys)
  {
    forall a ensures a in xs + ys <==> a in xs || a in ys {
    }
  }

  // ---------------------------------------------------------------------------
  // One keyword

  /**
   * The calls one keyword's candidate loop makes to the notifier: only for
   * fetched results (their order is `ProcessCallsInOrder`). When the loop completes, `new_count` is the
   * number of calls and every call succeeded. When it raises, it is a notify
   * error on the last call, and every earlier call succeeded.
   */
  lemma {:induction false} ProcessCalls(seen: SeenTable, kw: string, rows: seq<Candidate>, env: Env)
    ensures var r := ProcessRows(seen, kw, rows, env);
      && r.outcome != Raised(FetchError)
      && (forall i :: 0 <= i < |r.attempts| ==> r.attempts[i].term == kw && r.attempts[i].paper in rows)
      && (r.outcome.Completed? ==>
            && r.outcome.newCount == |r.attempts|
            && (forall i :: 0 <= i < |r.attempts| ==> Delivered(env, r.attempts[i])))
      && (r.outcome.Raised? ==>
            && |r.attempts| > 0
            && !Delivered(env, r.attempts[|r.attempts| - 1])
            && (forall i :: 0 <= i < |r.attempts| - 1 ==> Delivered(env, r.attempts[i])))
    decreases |rows|
  {
    if rows != [] {
      var p := rows[0];
      var key := (kw, env.fingerprint(p));
      var r := ProcessRows(seen, kw, rows, env);
      if key in seen {
        ProcessCalls(seen, kw, rows[1..], env);
        forall i | 0 <= i < |r.attempts| ensures r.attempts[i].paper in rows {
          assert r.attempts[i].paper in rows[1..];
        }
      } else if env.notify(kw, p) {
        var rest := ProcessRows(seen[key := p], kw, rows[1..], env);
        ProcessCalls(seen[key := p], kw, rows[1..], env);
        assert r.attempts == [Attempt(kw, p)] + rest.attempts;
        assert forall i :: 1 <= i < |r.attempts| ==> r.attempts[i] == rest.attempts[i - 1];
        forall i | 0 <= i < |r.attempts| ensures r.attempts[i].paper in rows {
          if i > 0 { assert r.attempts[i].paper in rows[1..]; }
        }
      }
    }
  }

  /**
   * `idx` gives, for each notifier call, the position in the fetch of the result
   * it was made for; the positions strictly increase, so the calls follow the
   * fetch order.
   */
  predicate InFetchOrder(idx: seq<nat>, attempts: seq<Attempt>, rows: seq<Candidate>) {
    && |idx| == |attempts|
    && (forall i :: 0 <= i < |idx| ==> idx[i] < |rows| && attempts[i].paper == rows[idx[i]])
    && (forall i, j :: 0 <= i < j < |idx| ==> idx[i] < idx[j])
  }

  function Shift(idx: seq<nat>): (r: seq<nat>)
    ensures |r| == |idx| && forall i :: 0 <= i < |idx| ==> r[i] == idx[i] + 1
  {
    seq(|idx|, i requires 0 <= i < |idx| => idx[i] + 1)
  }

  lemma ShiftInFetchOrder(idx: seq<nat>, attempts: seq<Attempt>, rows: seq<Candidate>)
    requires rows != [] && InFetchOrder(idx, attempts, rows[1..])
    ensures InFetchOrder(Shift(idx), attempts, rows)
  {
    forall i | 0 <= i < |idx| ensures attempts[i].paper == rows[Shift(idx)[i]] {
      assert rows[1..][idx[i]] == rows[idx[i] + 1];
    }
  }

  lemma ConsInFetchOrder(idx: seq<nat>, a: Attempt, attempts: seq<Attempt>, rows: seq<Candidate>)
    requires rows != [] && a.paper == rows[0] && InFetchOrder(idx, attempts, rows[1..])
    ensures InFetchOrder([0] + Shift(idx), [a] + attempts, rows)
  {
    ShiftInFetchOrder(idx, attempts, rows);
    var idx', attempts' := [0] + Shift(idx), [a] + attempts;
    forall i | 1 <= i < |idx'| ensures idx'[i] == Shift(idx)[i - 1] && attempts'[i] == attempts[i - 1] {
    }
  }

  /** The notifier calls of one keyword follow the order of the fetched results. */
  lemma {:induction false} ProcessCallsInOrder(seen: SeenTable, kw: string, rows: seq<Candidate>, env: Env)
    ensures exists idx :: InFetchOrder(idx, ProcessRows(seen, kw, rows, env).attempts, rows)
    decreases |rows|
  {
    var r := ProcessRows(seen, kw, rows, env);
    if rows == [] {
      assert InFetchOrder([], r.attempts, rows);
    } else {
      var p := rows[0];
      var key := (kw, env.fingerprint(p));
      if key in seen {
        ProcessCallsInOrder(seen, kw, rows[1..], env);
        var idx :| InFetchOrder(idx, r.attempts, rows[1..]);
        ShiftInFetchOrder(idx, r.attempts, rows);
      } else if !env.notify(kw, p) {
        assert InFetchOrder([0], r.attempts, rows);
      } else {
        var rest := ProcessRows(seen[key := p], kw, rows[1..], env);
        ProcessCallsInOrder(seen[key := p], kw, rows[1..], env);
        var idx :| InFetchOrder(idx, rest.attempts, rows[1..]);
        ConsInFetchOrder(idx, Attempt(kw, p), rest.attempts, rows);
        assert r.attempts == [Attempt(kw, p)] + rest.attempts;
      }
    }
  }

  /**
   * What one keyword's candidate loop does to the store: it only grows; the
   * rows added are exactly those whose notification went through, each holding
   * the result that was notified.
   */
  lemma {:induction false} ProcessStore(seen: SeenTable, kw: string, rows: seq<Candidate>, env: Env)
    ensures var r := ProcessRows(seen, kw, rows, env);
      && Extends(seen, r.seen)
      && r.seen.Keys == seen.Keys + DeliveredKeys(env, r.attempts)
      && (forall i :: 0 <= i < |r.attempts| && Delivered(env, r.attempts[i]) ==>
            KeyOf(env, r.attempts[i]) in r.seen && r.seen[KeyOf(env, r.attempts[i])] == r.attempts[i].paper)
    decreases |rows|
  {
    if rows != [] {
      var p := rows[0];
      var key := (kw, env.fingerprint(p));
      var r := ProcessRows(seen, kw, rows, env);
      if key in seen {
        ProcessStore(seen, kw, rows[1..], env);
      } else if !env.notify(kw, p) {
        assert r == KeywordRun(seen, [Attempt(kw, p)], Raised(NotifyError));
        assert DeliveredKeys(env, r.attempts) == {};
      } else {
        var seen' := seen[key := p];
        var rest := ProcessRows(seen', kw, rows[1..], env);
        ProcessStore(seen', kw, rows[1..], env);
        var a := Attempt(kw, p);
        assert r.seen == rest.seen && r.attempts == [a] + rest.attempts;
        DeliveredKeysConcat(env, [a], rest.attempts);
        assert KeyOf(env, a) == key;
        assert DeliveredKeys(env, [a]) == {key};
        assert forall i :: 1 <= i < |r.attempts| ==> r.attempts[i] == rest.attempts[i - 1];
      }
    }
  }

  /**
   * No key is notified twice by one keyword's candidate loop, nor one already
   * stored: a fingerprint fetched twice is notified at most once.
   */
  lemma {:induction false} ProcessFresh(seen: SeenTable, kw: string, rows: seq<Candidate>, env: Env)
    ensures FreshAndDistinct(env, ProcessRows(seen, kw, rows, env).attempts, seen)
    decreases |rows|
  {
    if rows != [] {
      var p := rows[0];
      var key := (kw, env.fingerprint(p));
      var r := ProcessRows(seen, kw, rows, env);
      if key in seen {
        ProcessFresh(seen, kw, rows[1..], env);
      } else if env.notify(kw, p) {
        var seen' := seen[key := p];
        var rest := ProcessRows(seen', kw, rows[1..], env);
        ProcessFresh(seen', kw, rows[1..], env);
        assert r.attempts == [Attempt(kw, p)] + rest.attempts;
        assert KeyOf(env, r.attempts[0]) == key;
        assert forall i :: 1 <= i < |r.attempts| ==> r.attempts[i] == rest.attempts[i - 1];
        forall i, j | 0 <= i < j < |r.attempts| ensures KeyOf(env, r.attempts[i]) != KeyOf(env, r.attempts[j]) {
          assert KeyOf(env, r.attempts[j]) !in seen';
        }
      }
    }
  }

  /**
   * With the watcher's own fingerprint, a result and a copy of it whose fields
   * carry extra leading or trailing whitespace share a key: however often
   * either appears in the fetch, at most one of them is notified.
   */
  lemma PaddedCopyNotifiedOnce(digest: string -> string, seen: SeenTable, kw: string, rows: seq<Candidate>,
                               env: Env, before: Candidate, c: Candidate, after: Candidate)
    requires forall x :: env.fingerprint(x) == Fingerprint(digest, x)
    requires Blank(before) && Blank(after)
    ensures var r := ProcessRows(seen, kw, rows, env);
      forall i, j :: 0 <= i < j < |r.attempts| && r.attempts[i].paper in {c, Surround(before, c, after)} ==>
        r.attempts[j].paper !in {c, Surround(before, c, after)}
  {
    var r := ProcessRows(seen, kw, rows, env);
    var copies := {c, Surround(before, c, after)};
    ProcessCalls(seen, kw, rows, env);
    ProcessFresh(seen, kw, rows, env);
    FingerprintIgnoresPadding(digest, before, c, after);
    forall i, j | 0 <= i < j < |r.attempts| && r.attempts[i].paper in copies
      ensures r.attempts[j].paper !in copies
    {
      assert KeyOf(env, r.attempts[i]) == (kw, Fingerprint(digest, c)) != KeyOf(env, r.attempts[j]);
    }
  }

  /**
   * The count and the rollback: a completed loop adds exactly `new_count` rows,
   * and after a notify error the result that failed has no row.
   */
  lemma {:induction false} ProcessCount(seen: SeenTable, kw: string, rows: seq<Candidate>, env: Env)
    ensures var r := ProcessRows(seen, kw, rows, env);
      && (r.outcome.Completed? ==> |r.seen| == |seen| + r.outcome.newCount)
      && (r.outcome.Raised? ==> |r.attempts| > 0 && KeyOf(env, r.attempts[|r.attempts| - 1]) !in r.seen)
    decreases |rows|
  {
    if rows != [] {
      var p := rows[0];
      var key := (kw, env.fingerprint(p));
      var r := ProcessRows(seen, kw, rows, env);
      if key in seen {
        ProcessCount(seen, kw, rows[1..], env);
      } else if !env.notify(kw, p) {
        assert r == KeywordRun(seen, [Attempt(kw, p)], Raised(NotifyError));
      } else {
        var seen' := seen[key := p];
        var rest := ProcessRows(seen', kw, rows[1..], env);
        ProcessCount(seen', kw, rows[1..], env);
        assert r.seen == rest.seen && r.attempts == [Attempt(kw, p)] + rest.attempts;
        if r.outcome.Raised? {
          assert r.attempts[|r.attempts| - 1] == rest.attempts[|rest.attempts| - 1];
        }
      }
    }
  }

  /**
   * A candidate whose (keyword, fingerprint) is already stored, wherever it
   * stands in the fetch, leaves the store, the notifier calls and the count
   * exactly as if it had not been fetched.
   */
  lemma {:induction false} SeenCandidateIgnored(seen: SeenTable, kw: string, pre: seq<Candidate>, c: Candidate,
                                                post: seq<Candidate>, env: Env)
    requires (kw, env.fingerprint(c)) in seen
    ensures ProcessRows(seen, kw, pre + [c] + post, env) == ProcessRows(seen, kw, pre + post, env)
    decreases |pre|
  {
    if pre == [] {
      assert pre + [c] + post == [c] + post && ([c] + post)[1..] == post;
      assert pre + post == post;
    } else {
      var p := pre[0];
      var key := (kw, env.fingerprint(p));
      assert (pre + [c] + post)[0] == p && (pre + post)[0] == p;
      assert (pre + [c] + post)[1..] == pre[1..] + [c] + post;
      assert (pre + post)[1..] == pre[1..] + post;
      if key in seen {
        SeenCandidateIgnored(seen, kw, pre[1..], c, post, env);
      } else if env.notify(kw, p) {
        SeenCandidateIgnored(seen[key := p], kw, pre[1..], c, post, env);
      }
    }
  }

  /** Once a notify error is raised, the candidates after it are never looked at. */
  lemma {:induction false} FailureAbortsRest(seen: SeenTable, kw: string, rows: seq<Candidate>,
                                             more: seq<Candidate>, env: Env)
    requires ProcessRows(seen, kw, rows, env).outcome.Raised?
    ensures ProcessRows(seen, kw, rows + more, env) == ProcessRows(seen, kw, rows, env)
    decreases |rows|
  {
    var p := rows[0];
    var key := (kw, env.fingerprint(p));
    assert (rows + more)[0] == p;
    assert (rows + more)[1..] == rows[1..] + more;
    if key in seen {
      FailureAbortsRest(seen, kw, rows[1..], more, env);
    } else if env.notify(kw, p) {
      FailureAbortsRest(seen[key := p], kw, rows[1..], more, env);
    }
  }

  /**
   * Deduplication is scoped per keyword: a keyword's run depends only on the
   * stored keys of that keyword.
   */
  lemma {:induction false} ProcessScoped(s1: SeenTable, s2: SeenTable, kw: string, rows: seq<Candidate>, env: Env)
    requires SameFor(s1, s2, kw)
    ensures ProcessRows(s1, kw, rows, env).attempts == ProcessRows(s2, kw, rows, env).attempts
    ensures ProcessRows(s1, kw, rows, env).outcome == ProcessRows(s2, kw, rows, env).outcome
    ensures SameFor(ProcessRows(s1, kw, rows, env).seen, ProcessRows(s2, kw, rows, env).seen, kw)
    decreases |rows|
  {
    if rows != [] {
      var p := rows[0];
      var key := (kw, env.fingerprint(p));
      assert key in s1 <==> key in s2;
      if key in s1 {
        ProcessScoped(s1, s2, kw, rows[1..], env);
      } else if env.notify(kw, p) {
        ProcessScoped(s1[key := p], s2[key := p], kw, rows[1..], env);
      }
    }
  }

  /** When every fetched candidate is already stored, nothing is notified, stored or counted. */
  lemma {:induction false} AllSeenIsQuiet(seen: SeenTable, kw: string, rows: seq<Candidate>, env: Env)
    requires forall i :: 0 <= i < |rows| ==> (kw, env.fingerprint(rows[i])) in seen
    ensures ProcessRows(seen, kw, rows, env) == KeywordRun(seen, [], Completed(0))
    decreases |rows|
  {
    if rows != [] {
      assert (kw, env.fingerprint(rows[0])) in seen;
      AllSeenIsQuiet(seen, kw, rows[1..], env);
    }
  }

  /** After a completed run, every fetched candidate is stored for the keyword. */
  lemma {:induction false} CompletedCoversRows(seen: SeenTable, kw: string, rows: seq<Candidate>, env: Env)
    requires ProcessRows(seen, kw, rows, env).outcome.Completed?
    ensures forall i :: 0 <= i < |rows| ==>
      (kw, env.fingerprint(rows[i])) in ProcessRows(seen, kw, rows, env).seen
    decreases |rows|
  {
    if rows != [] {
      var p := rows[0];
      var key := (kw, env.fingerprint(p));
      var r := ProcessRows(seen, kw, rows, env);
      if key in seen {
        CompletedCoversRows(seen, kw, rows[1..], env);
        ProcessStore(seen, kw, rows[1..], env);
      } else {
        CompletedCoversRows(seen[key := p], kw, rows[1..], env);
        ProcessStore(seen[key := p], kw, rows[1..], env);
      }
      forall i | 0 <= i < |rows| ensures (kw, env.fingerprint(rows[i])) in r.seen {
        if i > 0 { assert rows[i] == rows[1..][i - 1]; }
      }
    }
  }

  /** Fetching the same results again after a completed run finds nothing new. */
  lemma ReplayFindsNothing(seen: SeenTable, kw: string, rows: seq<Candidate>, env: Env)
    requires ProcessRows(seen, kw, rows, env).outcome.Completed?
    ensures var after := ProcessRows(seen, kw, rows, env).seen;
      ProcessRows(after, kw, rows, env) == KeywordRun(after, [], Completed(0))
  {
    CompletedCoversRows(seen, kw, rows, env);
    AllSeenIsQuiet(ProcessRows(seen, kw, rows, env).seen, kw, rows, env);
  }

  /** The properties of the candidate loop, lifted to `process_keyword` with its fetch. */
  lemma KeywordStepEffect(seen: SeenTable, kw: string, env: Env)
    ensures var r := KeywordStep(seen, kw, env);
      && (forall i :: 0 <= i < |r.attempts| ==> r.attempts[i].term == kw)
      && Extends(seen, r.seen)
      && r.seen.Keys == seen.Keys + DeliveredKeys(env, r.attempts)
      && FreshAndDistinct(env, r.attempts, seen)
      && (forall k :: k in r.seen && k !in seen ==> k.0 == kw)
      && (r.outcome.Completed? ==>
            r.outcome.newCount == |r.attempts| && (forall i :: 0 <= i < |r.attempts| ==> Delivered(env, r.attempts[i])))
  {
    var r := KeywordStep(seen, kw, env);
    if env.fetch(kw).Fetched? {
      ProcessCalls(seen, kw, env.fetch(kw).rows, env);
      ProcessStore(seen, kw, env.fetch(kw).rows, env);
      ProcessFresh(seen, kw, env.fetch(kw).rows, env);
    } else {
      assert DeliveredKeys(env, r.attempts) == {};
    }
  }

  /** A keyword's step leaves every other keyword's rows where they were. */
  lemma KeywordStepOthersUntouched(seen: SeenTable, kw: string, env: Env, t: string)
    requires t != kw
    ensures SameFor(KeywordStep(seen, kw, env).seen, seen, t)
  {
    KeywordStepEffect(seen, kw, env);
  }

  lemma KeywordStepScoped(s1: SeenTable, s2: SeenTable, kw: string, env: Env)
    requires SameFor(s1, s2, kw)
    ensures KeywordStep(s1, kw, env).outcome == KeywordStep(s2, kw, env).outcome
  {
    if env.fetch(kw).Fetched? {
      ProcessScoped(s1, s2, kw, env.fetch(kw).rows, env);
    }
  }

  // ---------------------------------------------------------------------------
  // The cycle

  /**
   * What a cycle reports: one outcome per keyword of the snapshot, and
   * `total_new` is the sum of the `new_count` of the keywords that completed
   * (one that raised adds nothing).
   */
  lemma {:induction false} CycleCounts(seen: SeenTable, terms: seq<string>, env: Env)
    ensures var r := CycleOver(seen, terms, env);
      |r.outcomes| == |terms| && r.total == CompletedSum(r.outcomes)
    decreases |terms|
  {
    if terms != [] {
      var step := KeywordStep(seen, terms[0], env);
      CycleCounts(step.seen, terms[1..], env);
      assert CycleOver(seen, terms, env).outcomes[1..] == CycleOver(step.seen, terms[1..], env).outcomes;
    }
  }

  /**
   * What a cycle does to the store: it only grows, the rows it adds are exactly
   * those of the results whose notification went through, and every notifier
   * call and every new row is for a keyword of the snapshot.
   */
  lemma {:induction false} CycleStore(seen: SeenTable, terms: seq<string>, env: Env)
    ensures var r := CycleOver(seen, terms, env);
      && Extends(seen, r.seen)
      && r.seen.Keys == seen.Keys + DeliveredKeys(env, r.attempts)
      && (forall i :: 0 <= i < |r.attempts| ==> r.attempts[i].term in terms)
      && (forall k :: k in r.seen && k !in seen ==> k.0 in terms)
    decreases |terms|
  {
    if terms != [] {
      var step := KeywordStep(seen, terms[0], env);
      var rest := CycleOver(step.seen, terms[1..], env);
      var r := CycleOver(seen, terms, env);
      KeywordStepEffect(seen, terms[0], env);
      CycleStore(step.seen, terms[1..], env);
      DeliveredKeysConcat(env, step.attempts, rest.attempts);
      forall i | 0 <= i < |r.attempts| ensures r.attempts[i].term in terms {
        if i >= |step.attempts| {
          assert r.attempts[i] == rest.attempts[i - |step.attempts|];
        }
      }
    }
  }

  /**
   * When the keywords are distinct, no key is notified twice in a cycle, nor
   * one already stored before it.
   */
  lemma {:induction false} CycleFresh(seen: SeenTable, terms: seq<string>, env: Env)
    requires DistinctTerms(terms)
    ensures FreshAndDistinct(env, CycleOver(seen, terms, env).attempts, seen)
    decreases |terms|
  {
    if terms != [] {
      var step := KeywordStep(seen, terms[0], env);
      var rest := CycleOver(step.seen, terms[1..], env);
      var r := CycleOver(seen, terms, env);
      KeywordStepEffect(seen, terms[0], env);
      assert DistinctTerms(terms[1..]);
      CycleFresh(step.seen, terms[1..], env);
      CycleStore(step.seen, terms[1..], env);
      assert r.attempts == step.attempts + rest.attempts;
      forall i | 0 <= i < |r.attempts| ensures KeyOf(env, r.attempts[i]) !in seen {
        if i >= |step.attempts| {
          assert r.attempts[i] == rest.attempts[i - |step.attempts|];
        }
      }
      forall i, j | 0 <= i < j < |r.attempts| ensures KeyOf(env, r.attempts[i]) != KeyOf(env, r.attempts[j]) {
        if j < |step.attempts| {
          assert r.attempts[i] == step.attempts[i] && r.attempts[j] == step.attempts[j];
        } else if i >= |step.attempts| {
          assert r.attempts[i] == rest.attempts[i - |step.attempts|];
          assert r.attempts[j] == rest.attempts[j - |step.attempts|];
        } else {
          assert r.attempts[i] == step.attempts[i];
          assert r.attempts[j] == rest.attempts[j - |step.attempts|];
          assert r.attempts[j].term in terms[1..];
          assert r.attempts[i].term == terms[0];
        }
      }
    }
  }

  /** The three facts about a cycle together. */
  lemma CycleEffect(seen: SeenTable, terms: seq<string>, env: Env)
    ensures var r := CycleOver(seen, terms, env);
      && |r.outcomes| == |terms|
      && r.total == CompletedSum(r.outcomes)
      && Extends(seen, r.seen)
      && r.seen.Keys == seen.Keys + DeliveredKeys(env, r.attempts)
      && (forall i :: 0 <= i < |r.attempts| ==> r.attempts[i].term in terms)
      && (forall k :: k in r.seen && k !in seen ==> k.0 in terms)
      && (DistinctTerms(terms) ==> FreshAndDistinct(env, r.attempts, seen))
  {
    CycleCounts(seen, terms, env);
    CycleStore(seen, terms, env);
    if DistinctTerms(terms) {
      CycleFresh(seen, terms, env);
    }
  }

  /** A result whose notification failed has no row after the cycle: it is retried next cycle. */
  lemma FailedDeliveryNotRecorded(seen: SeenTable, terms: seq<string>, env: Env, i: nat)
    requires DistinctTerms(terms)
    requires i < |CycleOver(seen, terms, env).attempts|
    requires !Delivered(env, CycleOver(seen, terms, env).attempts[i])
    ensures KeyOf(env, CycleOver(seen, terms, env).attempts[i]) !in CycleOver(seen, terms, env).seen
  {
    var r := CycleOver(seen, terms, env);
    CycleEffect(seen, terms, env);
    forall a | a in r.attempts && Delivered(env, a) ensures KeyOf(env, a) != KeyOf(env, r.attempts[i]) {
      var j :| 0 <= j < |r.attempts| && r.attempts[j] == a;
    }
  }

  /**
   * Failure isolation: with distinct keywords, each keyword ends exactly as it
   * would have ended alone against the starting store, whatever the others did.
   */
  lemma {:induction false} CycleIsolation(seen: SeenTable, start: SeenTable, terms: seq<string>, env: Env, i: nat)
    requires DistinctTerms(terms)
    requires forall t :: t in terms ==> SameFor(seen, start, t)
    requires i < |terms|
    ensures |CycleOver(seen, terms, env).outcomes| == |terms|
    ensures CycleOver(seen, terms, env).outcomes[i] == KeywordStep(start, terms[i], env).outcome
    decreases |terms|
  {
    CycleEffect(seen, terms, env);
    var step := KeywordStep(seen, terms[0], env);
    if i == 0 {
      KeywordStepScoped(seen, start, terms[0], env);
    } else {
      assert DistinctTerms(terms[1..]);
      forall t | t in terms[1..] ensures SameFor(step.seen, start, t) {
        KeywordStepOthersUntouched(seen, terms[0], env, t);
        SameForTransitive(step.seen, seen, start, t);
      }
      CycleIsolation(step.seen, start, terms[1..], env, i - 1);
    }
  }

  /** With distinct keywords, `total_new` is what the keywords would have found each on its own. */
  lemma {:induction false} CycleTotalIsolated(seen: SeenTable, start: SeenTable, terms: seq<string>, env: Env)
    requires DistinctTerms(terms)
    requires forall t :: t in terms ==> SameFor(seen, start, t)
    ensures CycleOver(seen, terms, env).total == IsolatedTotal(start, terms, env)
    decreases |terms|
  {
    if terms != [] {
      var step := KeywordStep(seen, terms[0], env);
      KeywordStepScoped(seen, start, terms[0], env);
      assert DistinctTerms(terms[1..]);
      forall t | t in terms[1..] ensures SameFor(step.seen, start, t) {
        KeywordStepOthersUntouched(seen, terms[0], env, t);
        SameForTransitive(step.seen, seen, start, t);
      }
      CycleTotalIsolated(step.seen, start, terms[1..], env);
    }
  }

  /**
   * With the webhook missing every notification fails: a cycle then leaves the
   * store as it was and reports no new results.
   */
  lemma {:induction false} NoDeliveryNoChange(seen: SeenTable, terms: seq<string>, env: Env)
    requires forall t, c :: !env.notify(t, c)
    ensures CycleOver(seen, terms, env).seen == seen
    ensures CycleOver(seen, terms, env).total == 0
    decreases |terms|
  {
    if terms != [] {
      var step := KeywordStep(seen, terms[0], env);
      KeywordStepEffect(seen, terms[0], env);
      if step.attempts != [] {
        assert !Delivered(env, step.attempts[0]);
      }
      assert DeliveredKeys(env, step.attempts) == {};
      assert step.seen == seen;
      NoDeliveryNoChange(seen, terms[1..], env);
    }
  }
}
