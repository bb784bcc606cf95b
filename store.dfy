/**
 * The watcher's SQLite database: the `keywords` table (AUTOINCREMENT id to
 * term, terms unique) and the `seen_papers` table, whose unique key is
 * (kw_term, fingerprint). `Tables` is its state as a value and the functions
 * on it say what each statement does; class `Database` holds the same state
 * in fields and runs `add_keyword`, `delete_keyword`, the start-up preload,
 * `process_keyword` and `run_cycle` in place, each method proved equal to
 * the function that specifies it.
 */
module Store {
  import opened Text
  import opened Fingerprints
  import opened Cycle
  import Config

  /** Both tables, and the next id AUTOINCREMENT hands out. */
  datatype Tables = Tables(keywords: map<int, string>, nextId: int, seen: SeenTable)

  /** The registered terms. */
  function Terms(keywords: map<int, string>): set<string> {
    set id | id in keywords :: keywords[id]
  }

  /**
   * What every path that writes the keywords table keeps: ids were handed out
   * below `nextId`, terms are unique (the UNIQUE constraint), and every term is
   * trimmed and non-empty (both insert paths strip and skip empties).
   */
  predicate KeywordsConsistent(keywords: map<int, string>, nextId: int) {
    && 1 <= nextId
    && (forall id :: id in keywords ==> 1 <= id < nextId)
    && (forall i, j :: i in keywords && j in keywords && keywords[i] == keywords[j] ==> i == j)
    && (forall id :: id in keywords ==> Trimmed(keywords[id]))
  }

  /** The database invariant; it constrains the keywords table only. */
  predicate Consistent(t: Tables) {
    KeywordsConsistent(t.keywords, t.nextId)
  }

  lemma TermsInsert(keywords: map<int, string>, id: int, term: string)
    requires id !in keywords
    ensures Terms(keywords[id := term]) == Terms(keywords) + {term}
  {
    var m := keywords[id := term];
    forall x | x in Terms(m) ensures x in Terms(keywords) + {term} {
      var j :| j in m && m[j] == x;
      if j != id { assert keywords[j] == x; }
    }
    forall x | x in Terms(keywords) + {term} ensures x in Terms(m) {
      if x == term { assert m[id] == x; } else { var j :| j in keywords && keywords[j] == x; assert m[j] == x; }
    }
  }

  lemma TermsRemove(keywords: map<int, string>, id: int)
    requires id in keywords
    requires forall i, j :: i in keywords && j in keywords && keywords[i] == keywords[j] ==> i == j
    ensures Terms(keywords - {id}) == Terms(keywords) - {keywords[id]}
  {
    var m := keywords - {id};
    forall x | x in Terms(m) ensures x in Terms(keywords) - {keywords[id]} {
      var j :| j in m && m[j] == x;
      assert keywords[j] == x;
    }
    forall x | x in Terms(keywords) - {keywords[id]} ensures x in Terms(m) {
      var j :| j in keywords && keywords[j] == x;
      assert m[j] == x;
    }
  }

  /** The empty database `init_db` creates. */
  function Empty(): (r: Tables)
    ensures Consistent(r) && Terms(r.keywords) == {} && r.seen == map[]
  {
    Tables(map[], 1, map[])
  }

  /**
   * `INSERT INTO keywords`, with the IntegrityError of a duplicate term
   * swallowed: the term is registered afterwards, under a fresh id if it was new.
   */
  function Inserted(t: Tables, term: string): (r: Tables)
    ensures r.seen == t.seen
    ensures term in Terms(t.keywords) ==> r == t
    ensures Consistent(t) ==> Terms(r.keywords) == Terms(t.keywords) + {term}
    ensures Consistent(t) ==> forall id :: id in t.keywords ==> id in r.keywords && r.keywords[id] == t.keywords[id]
    ensures Consistent(t) && Trimmed(term) ==> Consistent(r)
  {
    if term in Terms(t.keywords) then t
    else
      var r := Tables(t.keywords[t.nextId := term], t.nextId + 1, t.seen);
      assert Consistent(t) ==> Terms(r.keywords) == Terms(t.keywords) + {term} by {
        if Consistent(t) { TermsInsert(t.keywords, t.nextId, term); }
      }
      r
  }

  /**
   * `add_keyword(term)`: the stripped term is registered; a term that is empty
   * once stripped, or already registered, changes nothing.
   */
  function Added(t: Tables, term: string): (r: Tables)
    ensures r.seen == t.seen
    ensures Strip(term) == [] || Strip(term) in Terms(t.keywords) ==> r == t
    ensures Consistent(t) ==> Consistent(r)
    ensures Consistent(t) ==>
      Terms(r.keywords) == if Strip(term) == [] then Terms(t.keywords) else Terms(t.keywords) + {Strip(term)}
  {
    var s := Strip(term);
    StripIdempotent(term);
    if s == [] then t else Inserted(t, s)
  }

  /** `DELETE FROM seen_papers WHERE kw_term = term`: the rows of every other term stay as they were. */
  function Forget(seen: SeenTable, term: string): (r: SeenTable)
    ensures forall k :: k in r <==> k in seen && k.0 != term
    ensures forall k :: k in r ==> r[k] == seen[k]
  {
    map k | k in seen && k.0 != term :: seen[k]
  }

  /**
   * `delete_keyword(id)`: an unknown id changes nothing; otherwise the keyword
   * row goes, and with it every seen row of its term.
   */
  function Deleted(t: Tables, id: int): (r: Tables)
    ensures id !in t.keywords ==> r == t
    ensures id in t.keywords ==>
      r.keywords == t.keywords - {id} && r.nextId == t.nextId && r.seen == Forget(t.seen, t.keywords[id])
    ensures Consistent(t) ==> Consistent(r)
    ensures Consistent(t) && id in t.keywords ==> Terms(r.keywords) == Terms(t.keywords) - {t.keywords[id]}
  {
    if id in t.keywords then
      var r := Tables(t.keywords - {id}, t.nextId, Forget(t.seen, t.keywords[id]));
      assert Consistent(t) ==> Terms(r.keywords) == Terms(t.keywords) - {t.keywords[id]} by {
        if Consistent(t) { TermsRemove(t.keywords, id); }
      }
      r
    else t
  }

  /** The start-up preload: each entry of `DEFAULT_KEYWORDS` inserted in order, duplicates skipped. */
  function Preloaded(t: Tables, terms: seq<string>): (r: Tables)
    ensures r.seen == t.seen
    decreases |terms|
  {
    if terms == [] then t else Preloaded(Inserted(t, terms[0]), terms[1..])
  }

  /**
   * After the preload the table holds the terms it held before and every
   * preloaded term, and stays consistent.
   */
  lemma {:induction false} PreloadedTerms(t: Tables, terms: seq<string>)
    requires Consistent(t)
    requires forall i :: 0 <= i < |terms| ==> Trimmed(terms[i])
    ensures Consistent(Preloaded(t, terms))
    ensures Terms(Preloaded(t, terms).keywords) == Terms(t.keywords) + (set x | x in terms)
    decreases |terms|
  {
    if terms != [] {
      var t1 := Inserted(t, terms[0]);
      assert Consistent(t1) by { assert Trimmed(terms[0]); }
      assert forall i :: 0 <= i < |terms[1..]| ==> Trimmed(terms[1..][i]) by {
        forall i | 0 <= i < |terms[1..]| ensures Trimmed(terms[1..][i]) { assert terms[1..][i] == terms[i + 1]; }
      }
      PreloadedTerms(t1, terms[1..]);
      ElementsCons(terms);
    }
  }

  lemma ElementsCons(terms: seq<string>)
    requires terms != []
    ensures (set x | x in terms) == {terms[0]} + (set x | x in terms[1..])
  {
    assert terms == [terms[0]] + terms[1..];
  }

  lemma PreloadUnfold(t: Tables, terms: seq<string>, i: nat)
    requires i < |terms|
    ensures Preloaded(t, terms[i..]) == Preloaded(Inserted(t, terms[i]), terms[i + 1..])
  {
    assert terms[i..][0] == terms[i] && terms[i..][1..] == terms[i + 1..];
  }

  /** Preloading keywords that are all registered already changes nothing. */
  lemma {:induction false} PreloadRegisteredNoop(t: Tables, terms: seq<string>)
    requires forall i :: 0 <= i < |terms| ==> terms[i] in Terms(t.keywords)
    ensures Preloaded(t, terms) == t
    decreases |terms|
  {
    if terms != [] {
      PreloadRegisteredNoop(t, terms[1..]);
    }
  }

  /**
   * Preloading runs at every start-up; running it a second time with the same
   * setting changes nothing, so each keyword is inserted once.
   */
  lemma PreloadOnce(t: Tables, raw: string)
    requires Consistent(t)
    ensures var once := Preloaded(t, Config.ParseKeywords(raw));
      Preloaded(once, Config.ParseKeywords(raw)) == once
  {
    var terms := Config.ParseKeywords(raw);
    var once := Preloaded(t, terms);
    PreloadedTerms(t, terms);
    forall i | 0 <= i < |terms| ensures terms[i] in Terms(once.keywords) {
      assert terms[i] in (set x | x in terms);
    }
    PreloadRegisteredNoop(once, terms);
  }

  /** Adding a keyword twice is the same as adding it once. */
  lemma AddIdempotent(t: Tables, term: string)
    requires Consistent(t)
    ensures Added(Added(t, term), term) == Added(t, term)
  {
  }

  /** A strictly ascending listing has no repetition: the snapshot lists every keyword once. */
  lemma AscendingDistinct(s: set<string>)
    ensures DistinctTerms(Ascending(s))
  {
  }

  /**
   * What one `run_cycle` does to the database: the snapshot lists each
   * registered keyword once in ascending order; the seen table only grows; the
   * rows it gains are exactly those whose notification went through, each for a
   * registered keyword; no (keyword, fingerprint) is notified twice, nor one
   * seen before; and `total_new` is the sum of the counts of the keywords that
   * completed.
   */
  lemma CycleOnDatabase(t: Tables, env: Env)
    ensures var terms := Ascending(Terms(t.keywords));
      var r := CycleOver(t.seen, terms, env);
      && StrictlyAscending(terms)
      && (forall x :: x in terms <==> x in Terms(t.keywords))
      && |r.outcomes| == |terms|
      && r.total == CompletedSum(r.outcomes)
      && Extends(t.seen, r.seen)
      && r.seen.Keys == t.seen.Keys + DeliveredKeys(env, r.attempts)
      && (forall k :: k in r.seen && k !in t.seen ==> k.0 in Terms(t.keywords))
      && FreshAndDistinct(env, r.attempts, t.seen)
  {
    var terms := Ascending(Terms(t.keywords));
    AscendingDistinct(Terms(t.keywords));
    CycleEffect(t.seen, terms, env);
  }

  /**
   * Deleting a keyword and adding its term again starts it with a clean
   * history: its next run notifies and counts exactly what it would on an
   * empty seen table, so results seen before are new again.
   */
  lemma DeleteThenAddForgets(t: Tables, id: int, rows: seq<Candidate>, env: Env)
    requires Consistent(t) && id in t.keywords
    ensures var term := t.keywords[id];
      var t2 := Added(Deleted(t, id), term);
      && term in Terms(t2.keywords)
      && ProcessRows(t2.seen, term, rows, env).outcome == ProcessRows(map[], term, rows, env).outcome
      && ProcessRows(t2.seen, term, rows, env).attempts == ProcessRows(map[], term, rows, env).attempts
  {
    var term := t.keywords[id];
    var t1 := Deleted(t, id);
    var t2 := Added(t1, term);
    assert term !in Terms(t1.keywords) by {
      forall j | j in t1.keywords ensures t1.keywords[j] != term {
        assert j != id;
      }
    }
    assert SameFor(t2.seen, map[], term);
    ProcessScoped(t2.seen, map[], term, rows, env);
  }

  lemma AscendingSingleton(x: string)
    ensures Ascending({x}) == [x]
  {
    var r := Ascending({x});
    assert r[0] in {x};
  }

  /** A cycle over one keyword whose search returns one result the webhook accepts. */
  lemma SingleResultCycle(seen: SeenTable, term: string, paper: Candidate, env: Env)
    requires env.fetch(term) == Fetched([paper]) && env.notify(term, paper)
    ensures var key := (term, env.fingerprint(paper));
      CycleOver(seen, [term], env).total == (if key in seen then 0 else 1)
      && CycleOver(seen, [term], env).seen == (if key in seen then seen else seen[key := paper])
  {
    var key := (term, env.fingerprint(paper));
    if key in seen {
      assert ProcessRows(seen, term, [paper][1..], env) == KeywordRun(seen, [], Completed(0));
    } else {
      assert ProcessRows(seen[key := paper], term, [paper][1..], env) == KeywordRun(seen[key := paper], [], Completed(0));
    }
  }

  /**
   * One keyword and one result that the webhook accepts, from an empty
   * database: the first cycle reports the result, the second finds nothing
   * new, and after the keyword is deleted and added again the third reports
   * it once more.
   */
  lemma DeleteReAddScenario(term: string, paper: Candidate, env: Env)
    requires Trimmed(term)
    requires env.fetch(term) == Fetched([paper]) && env.notify(term, paper)
    ensures var t0 := Added(Empty(), term);
      var c1 := CycleOver(t0.seen, Ascending(Terms(t0.keywords)), env);
      var t1 := Tables(t0.keywords, t0.nextId, c1.seen);
      var c2 := CycleOver(t1.seen, Ascending(Terms(t1.keywords)), env);
      var t2 := Tables(t1.keywords, t1.nextId, c2.seen);
      var t3 := Added(Deleted(t2, 1), term);
      var c3 := CycleOver(t3.seen, Ascending(Terms(t3.keywords)), env);
      && c1.total == 1 && c2.total == 0 && c3.total == 1
      && c2.seen.Keys == {(term, env.fingerprint(paper))}
      && t3.keywords == map[2 := term]
  {
    StripFixed(term);
    var t0 := Added(Empty(), term);
    assert t0 == Tables(map[1 := term], 2, map[]);
    assert Terms(t0.keywords) == {term};
    AscendingSingleton(term);
    SingleResultCycle(map[], term, paper, env);
    var c1 := CycleOver(map[], [term], env);
    SingleResultCycle(c1.seen, term, paper, env);
    var c2 := CycleOver(c1.seen, [term], env);
    var t2 := Tables(t0.keywords, t0.nextId, c2.seen);
    var t1' := Deleted(t2, 1);
    assert t1'.seen == map[] && t1'.keywords == map[];
    var t3 := Added(t1', term);
    assert t3 == Tables(map[2 := term], 3, map[]);
    assert Terms(t3.keywords) == {term};
  }

  /** Taking the least remaining term off the front of the ascending listing. */
  lemma SnapshotStep(terms: seq<string>, remaining: set<string>, m: string)
    requires IsLeast(m, remaining)
    ensures terms + Ascending(remaining) == (terms + [m]) + Ascending(remaining - {m})
  {
    AscendingUnfold(remaining, m);
    ConcatAssoc(terms, [m], Ascending(remaining - {m}));
  }

  lemma ConcatAssoc<T>(a: seq<T>, b: seq<T>, c: seq<T>)
    ensures a + (b + c) == (a + b) + c
  {
  }

  /**
   * A cycle stopped part-way: the accumulators so far, followed by a run of the
   * remaining keywords from the current table, give the whole cycle `whole`.
   */
  predicate Resumes(whole: CycleRun, seen: SeenTable, terms: seq<string>, total: nat,
                    sent: seq<Attempt>, outcomes: seq<KeywordOutcome>, env: Env)
  {
    var rest := CycleOver(seen, terms, env);
    && whole.seen == rest.seen
    && whole.total == total + rest.total
    && whole.attempts == sent + rest.attempts
    && whole.outcomes == outcomes + rest.outcomes
  }

  /** Running the next keyword and adding its results to the accumulators keeps `Resumes`. */
  lemma ResumesStep(whole: CycleRun, seen: SeenTable, terms: seq<string>, total: nat,
                    sent: seq<Attempt>, outcomes: seq<KeywordOutcome>, env: Env)
    requires terms != [] && Resumes(whole, seen, terms, total, sent, outcomes, env)
    ensures var step := KeywordStep(seen, terms[0], env);
      Resumes(whole, step.seen, terms[1..], total + Contribution(step.outcome),
              sent + step.attempts, outcomes + [step.outcome], env)
  {
    var step := KeywordStep(seen, terms[0], env);
    var rest := CycleOver(step.seen, terms[1..], env);
    ConcatAssoc(sent, step.attempts, rest.attempts);
    ConcatAssoc(outcomes, [step.outcome], rest.outcomes);
  }

  /** With no keyword left, the accumulators are the whole cycle. */
  lemma ResumesDone(whole: CycleRun, seen: SeenTable, total: nat,
                    sent: seq<Attempt>, outcomes: seq<KeywordOutcome>, env: Env)
    requires Resumes(whole, seen, [], total, sent, outcomes, env)
    ensures whole == CycleRun(seen, total, sent, outcomes)
  {
    assert sent + [] == sent && outcomes + [] == outcomes;
  }

  class Database {
    var keywords: map<int, string>
    var nextId: int
    var seen: SeenTable

    function State(): Tables
      reads this
    {
      Tables(keywords, nextId, seen)
    }

    ghost predicate Valid()
      reads this`keywords, this`nextId
    {
      KeywordsConsistent(keywords, nextId)
    }

    /** A fresh database: both tables empty. */
    constructor ()
      ensures Valid() && State() == Empty()
    {
      keywords, nextId, seen := map[], 1, map[];
    }

    /** One `INSERT INTO keywords`; a duplicate term is skipped. */
    method InsertKeyword(term: string)
      requires Valid() && Trimmed(term)
      modifies this`keywords, this`nextId
      ensures Valid()
      ensures State() == Inserted(old(State()), term)
    {
      if term !in Terms(keywords) {
        keywords := keywords[nextId := term];
        nextId := nextId + 1;
      }
    }

    /** `add_keyword(term)`. */
    method AddKeyword(term: string)
      requires Valid()
      modifies this`keywords, this`nextId
      ensures Valid()
      ensures State() == Added(old(State()), term)
    {
      var stripped := Strip(term);
      StripIdempotent(term);
      if stripped != [] {
        InsertKeyword(stripped);
      }
    }

    /** `delete_keyword(id)`, cascading to the term's seen rows. */
    method DeleteKeyword(id: int)
      requires Valid()
      modifies this
      ensures Valid()
      ensures State() == Deleted(old(State()), id)
    {
      if id in keywords {
        var term := keywords[id];
        keywords := keywords - {id};
        seen := Forget(seen, term);
      }
    }

    /** The start-up preload of the `KEYWORDS` setting. */
    method Preload(raw: string)
      requires Valid()
      modifies this`keywords, this`nextId
      ensures Valid()
      ensures State() == Preloaded(old(State()), Config.ParseKeywords(raw))
    {
      var defaults := Config.ParseKeywords(raw);
      var i := 0;
      while i < |defaults|
        invariant 0 <= i <= |defaults|
        invariant Valid()
        invariant Preloaded(old(State()), defaults) == Preloaded(State(), defaults[i..])
      {
        PreloadUnfold(State(), defaults, i);
        InsertKeyword(defaults[i]);
        i := i + 1;
      }
    }

    /** `SELECT term FROM keywords ORDER BY term ASC`: the registered terms in ascending order. */
    method Snapshot() returns (terms: seq<string>)
      ensures terms == Ascending(Terms(keywords))
      ensures StrictlyAscending(terms) && forall x :: x in terms <==> x in Terms(keywords)
    {
      var remaining := Terms(keywords);
      terms := [];
      while remaining != {}
        invariant terms + Ascending(remaining) == Ascending(Terms(keywords))
        decreases |remaining|
      {
        LeastExists(remaining);
        var m :| IsLeast(m, remaining);
        SnapshotStep(terms, remaining, m);
        terms := terms + [m];
        remaining := remaining - {m};
      }
      assert Ascending(remaining) == [];
    }

    /**
     * `process_keyword(kw)`: fetch, then for each result insert its
     * (keyword, fingerprint) row; a duplicate is skipped, a new row is followed
     * by a notification, and a failed notification deletes the row again and
     * ends the keyword with the error. Returns how the keyword ended and the
     * notifications made, in order.
     */
    method ProcessKeyword(kw: string, env: Env) returns (outcome: KeywordOutcome, sent: seq<Attempt>)
      modifies this`seen
      ensures seen == KeywordStep(old(seen), kw, env).seen
      ensures outcome == KeywordStep(old(seen), kw, env).outcome
      ensures sent == KeywordStep(old(seen), kw, env).attempts
    {
      match env.fetch(kw)
      case FetchFailed =>
        outcome, sent := Raised(FetchError), [];
      case Fetched(rows) =>
        var newCount := 0;
        sent := [];
        var i := 0;
        while i < |rows|
          invariant 0 <= i <= |rows|
          invariant var whole := ProcessRows(old(seen), kw, rows, env);
            var rest := ProcessRows(seen, kw, rows[i..], env);
            && whole.seen == rest.seen
            && whole.attempts == sent + rest.attempts
            && whole.outcome == AddCount(rest.outcome, newCount)
        {
          var paper := rows[i];
          var key := (kw, env.fingerprint(paper));
          assert rows[i..][0] == paper && rows[i..][1..] == rows[i + 1..];
          if key !in seen {
            ghost var before := seen;
            seen := seen[key := paper];
            var ok := env.notify(kw, paper);
            sent := sent + [Attempt(kw, paper)];
            if !ok {
              seen := seen - {key};
              assert seen == before;
              outcome := Raised(NotifyError);
              return;
            }
            newCount := newCount + 1;
          }
          i := i + 1;
        }
        outcome := Completed(newCount);
    }

    /**
     * `run_cycle()`: snapshot the keywords, run each in ascending order with
     * its errors caught, and add up the counts of those that completed. The
     * keywords table is not written.
     */
    method RunCycle(env: Env) returns (total: nat, outcomes: seq<KeywordOutcome>, sent: seq<Attempt>)
      requires Valid()
      modifies this`seen
      ensures Valid() && keywords == old(keywords) && nextId == old(nextId)
      ensures var r := CycleOver(old(seen), Ascending(Terms(keywords)), env);
        seen == r.seen && total == r.total && outcomes == r.outcomes && sent == r.attempts
    {
      var terms := Snapshot();
      total, outcomes, sent := RunTerms(terms, env);
    }

    /** The keyword loop of `run_cycle`: each keyword in turn, an exception caught and the next one run. */
    method RunTerms(terms: seq<string>, env: Env) returns (total: nat, outcomes: seq<KeywordOutcome>, sent: seq<Attempt>)
      modifies this`seen
      ensures var r := CycleOver(old(seen), terms, env);
        seen == r.seen && total == r.total && outcomes == r.outcomes && sent == r.attempts
    {
      ghost var whole := CycleOver(seen, terms, env);
      total, outcomes, sent := 0, [], [];
      var i := 0;
      while i < |terms|
        invariant 0 <= i <= |terms|
        invariant Resumes(whole, seen, terms[i..], total, sent, outcomes, env)
      {
        ResumesStep(whole, seen, terms[i..], total, sent, outcomes, env);
        assert terms[i..][0] == terms[i] && terms[i..][1..] == terms[i + 1..];
        var outcome, delivered := ProcessKeyword(terms[i], env);
        total := total + Contribution(outcome);
        outcomes := outcomes + [outcome];
        sent := sent + delivered;
        i := i + 1;
      }
      assert terms[i..] == [];
      ResumesDone(whole, seen, total, sent, outcomes, env);
    }
  }
}
