/**
 * String primitives the watcher relies on: Python's `str.strip()` and
 * `str.split(sep)`, and the order in which SQLite returns `ORDER BY term ASC`
 * (the BINARY collation, which for UTF-8 text is code-point lexicographic order).
 */
module Text {

  /** Python's `str.isspace` for one character: the Unicode whitespace set. */
  predicate IsSpace(c: char) {
    var n := c as int;
    (9 <= n <= 13) || (28 <= n <= 32) || n == 0x85 || n == 0xA0 || n == 0x1680
    || (0x2000 <= n <= 0x200A) || n == 0x2028 || n == 0x2029 || n == 0x202F
    || n == 0x205F || n == 0x3000
  }

  predicate AllSpace(s: string) {
    forall i :: 0 <= i < |s| ==> IsSpace(s[i])
  }

  /** Drops the leading whitespace: what remains is empty or starts with a non-space. */
  function StripLeft(s: string): (r: string)
    ensures |r| <= |s|
    ensures r == [] || !IsSpace(r[0])
  {
    if |s| > 0 && IsSpace(s[0]) then StripLeft(s[1..]) else s
  }

  /** What `StripLeft` drops is whitespace, and what it keeps is the rest of the string. */
  lemma {:induction false} StripLeftSuffix(s: string)
    ensures var r := StripLeft(s); r == s[|s| - |r|..] && AllSpace(s[..|s| - |r|])
  {
    if |s| > 0 && IsSpace(s[0]) {
      var r := StripLeft(s);
      StripLeftSuffix(s[1..]);
      assert s[1..][|s| - 1 - |r|..] == s[|s| - |r|..];
      var dropped, rest := s[..|s| - |r|], s[1..][..|s| - 1 - |r|];
      forall i | 0 <= i < |dropped| ensures IsSpace(dropped[i]) {
        if i > 0 {
          assert dropped[i] == rest[i - 1];
        }
      }
    }
  }

  /** Drops the trailing whitespace: what remains is empty or ends with a non-space. */
  function StripRight(s: string): (r: string)
    ensures |r| <= |s|
    ensures r == [] || !IsSpace(r[|r| - 1])
  {
    if |s| > 0 && IsSpace(s[|s| - 1]) then StripRight(s[..|s| - 1]) else s
  }

  /** What `StripRight` drops is whitespace, and what it keeps is the start of the string. */
  lemma {:induction false} StripRightPrefix(s: string)
    ensures var r := StripRight(s); r == s[..|r|] && AllSpace(s[|r|..])
  {
    if |s| > 0 && IsSpace(s[|s| - 1]) {
      var r := StripRight(s);
      var init := s[..|s| - 1];
      StripRightPrefix(init);
      assert init[..|r|] == s[..|r|];
      var dropped, rest := s[|r|..], init[|r|..];
      forall i | 0 <= i < |dropped| ensures IsSpace(dropped[i]) {
        if i < |rest| {
          assert dropped[i] == rest[i];
        }
      }
    }
  }

  /** Python's `s.strip()` with no argument. */
  function Strip(s: string): (r: string)
    ensures |r| <= |s|
    ensures r == [] || (!IsSpace(r[0]) && !IsSpace(r[|r| - 1]))
  {
    var left := StripLeft(s);
    StripRightPrefix(left);
    StripRight(left)
  }

  /** `Strip` only removes characters: what it returns is a piece of its input. */
  lemma StripKeepsCharacters(s: string, c: char)
    requires c in Strip(s)
    ensures c in s
  {
    var left := StripLeft(s);
    var r := StripRight(left);
    StripLeftSuffix(s);
    StripRightPrefix(left);
    var i :| 0 <= i < |r| && r[i] == c;
    assert r[i] == left[i] == s[|s| - |left| + i];
  }

  /** Non-empty, and neither end is whitespace: `Strip` leaves such a string alone. */
  predicate Trimmed(s: string) {
    s != [] && !IsSpace(s[0]) && !IsSpace(s[|s| - 1])
  }

  /** A string whose ends are not whitespace is left alone by `Strip`. */
  lemma StripFixed(s: string)
    requires s == [] || (!IsSpace(s[0]) && !IsSpace(s[|s| - 1]))
    ensures Strip(s) == s
  {
  }

  /** `Strip` is idempotent. */
  lemma StripIdempotent(s: string)
    ensures Strip(Strip(s)) == Strip(s)
  {
    StripFixed(Strip(s));
  }

  lemma {:induction false} StripLeftPadding(p: string, s: string)
    requires AllSpace(p)
    ensures StripLeft(p + s) == StripLeft(s)
  {
    if p != [] {
      var ps := p + s;
      assert ps[0] == p[0] && IsSpace(p[0]);
      assert ps[1..] == p[1..] + s;
      assert StripLeft(ps) == StripLeft(ps[1..]);
      assert AllSpace(p[1..]) by {
        forall i | 0 <= i < |p[1..]| ensures IsSpace(p[1..][i]) { assert p[1..][i] == p[i + 1]; }
      }
      StripLeftPadding(p[1..], s);
    } else {
      assert p + s == s;
    }
  }

  lemma {:induction false} StripLeftAppend(s: string, q: string)
    ensures !AllSpace(s) ==> StripLeft(s + q) == StripLeft(s) + q
    ensures AllSpace(s) ==> StripLeft(s + q) == StripLeft(q)
  {
    if s == [] {
      assert s + q == q;
    } else {
      assert (s + q)[1..] == s[1..] + q;
      StripLeftAppend(s[1..], q);
      if !IsSpace(s[0]) {
        assert !AllSpace(s);
      } else {
        assert AllSpace(s) <==> AllSpace(s[1..]);
      }
    }
  }

  lemma {:induction false} StripRightPadding(s: string, q: string)
    requires AllSpace(q)
    ensures StripRight(s + q) == StripRight(s)
  {
    if q != [] {
      var q' := q[..|q| - 1];
      var sq := s + q;
      assert sq[|sq| - 1] == q[|q| - 1] && IsSpace(q[|q| - 1]);
      assert sq[..|sq| - 1] == s + q';
      assert StripRight(sq) == StripRight(sq[..|sq| - 1]);
      assert AllSpace(q') by {
        forall i | 0 <= i < |q'| ensures IsSpace(q'[i]) { assert q'[i] == q[i]; }
      }
      StripRightPadding(s, q');
    } else {
      assert s + q == s;
    }
  }

  /** Whitespace added on either side does not change what `Strip` returns. */
  lemma StripPadding(p: string, s: string, q: string)
    requires AllSpace(p) && AllSpace(q)
    ensures Strip(p + s + q) == Strip(s)
  {
    assert p + s + q == p + (s + q);
    StripLeftPadding(p, s + q);
    StripLeftAppend(s, q);
    if AllSpace(s) {
      StripLeftSuffix(q);
      StripLeftSuffix(s);
      assert StripLeft(q) == [];
      assert StripLeft(s) == [];
    } else {
      StripRightPadding(StripLeft(s), q);
    }
  }

  /**
   * `Strip` removes exactly the leading and the trailing whitespace: for any cut
   * of `s` into whitespace, a middle with non-space ends, and whitespace, the
   * middle is the result.
   */
  lemma StripCharacterization(s: string, i: nat, j: nat)
    requires i <= j <= |s|
    requires AllSpace(s[..i]) && AllSpace(s[j..])
    requires i == j || (!IsSpace(s[i]) && !IsSpace(s[j - 1]))
    ensures Strip(s) == s[i..j]
  {
    assert s == s[..i] + s[i..j] + s[j..];
    StripPadding(s[..i], s[i..j], s[j..]);
    StripFixed(s[i..j]);
  }

  // ---------------------------------------------------------------------------
  // str.split(sep) and its inverse, sep.join(pieces)

  /** Python's `s.split(sep)` for a one-character separator: always at least one piece. */
  function Split(s: string, sep: char): (r: seq<string>)
    ensures |r| >= 1
    ensures forall i :: 0 <= i < |r| ==> sep !in r[i]
  {
    if s == [] then [[]]
    else
      var rest := Split(s[1..], sep);
      if s[0] == sep then [[]] + rest
      else [[s[0]] + rest[0]] + rest[1..]
  }

  /** Python's `sep.join(pieces)`. */
  function Join(pieces: seq<string>, sep: char): string
  {
    if |pieces| == 0 then []
    else if |pieces| == 1 then pieces[0]
    else pieces[0] + [sep] + Join(pieces[1..], sep)
  }

  lemma {:induction false} SplitFreePrefix(a: string, t: string, sep: char)
    requires sep !in a
    ensures Split(a + t, sep) == [a + Split(t, sep)[0]] + Split(t, sep)[1..]
  {
    if a != [] {
      assert (a + t)[1..] == a[1..] + t;
      assert (a + t)[0] == a[0];
      SplitFreePrefix(a[1..], t, sep);
      assert [a[0]] + (a[1..] + Split(t, sep)[0]) == a + Split(t, sep)[0];
    } else {
      var r := Split(t, sep);
      assert a + t == t && a + r[0] == r[0];
      assert r == [r[0]] + r[1..];
    }
  }

  /** Splitting a join of separator-free pieces gives back the pieces. */
  lemma {:induction false} SplitJoin(pieces: seq<string>, sep: char)
    requires |pieces| >= 1
    requires forall i :: 0 <= i < |pieces| ==> sep !in pieces[i]
    ensures Split(Join(pieces, sep), sep) == pieces
  {
    if |pieces| == 1 {
      SplitFreePrefix(pieces[0], [], sep);
      assert pieces[0] + [] == pieces[0];
    } else {
      var j := Join(pieces[1..], sep);
      SplitJoin(pieces[1..], sep);
      assert pieces[0] + [sep] + j == pieces[0] + ([sep] + j);
      SplitFreePrefix(pieces[0], [sep] + j, sep);
      assert ([sep] + j)[1..] == j;
      assert Split([sep] + j, sep) == [[]] + Split(j, sep);
      assert pieces[0] + [] == pieces[0];
      assert pieces == [pieces[0]] + pieces[1..];
    }
  }

  // ---------------------------------------------------------------------------
  // Lexicographic order on code points (SQLite BINARY collation on UTF-8 text)

  /** `a <= b` in code-point lexicographic order; a proper prefix comes first. */
  predicate Below(a: string, b: string) {
    |a| == 0 || (|b| > 0 && (a[0] < b[0] || (a[0] == b[0] && Below(a[1..], b[1..]))))
  }

  lemma {:induction false} BelowReflexive(a: string)
    ensures Below(a, a)
  {
    if |a| > 0 { BelowReflexive(a[1..]); }
  }

  lemma {:induction false} BelowAntisymmetric(a: string, b: string)
    requires Below(a, b) && Below(b, a)
    ensures a == b
  {
    if |a| > 0 && |b| > 0 {
      BelowAntisymmetric(a[1..], b[1..]);
      assert a == [a[0]] + a[1..] && b == [b[0]] + b[1..];
    }
  }

  lemma {:induction false} BelowTransitive(a: string, b: string, c: string)
    requires Below(a, b) && Below(b, c)
    ensures Below(a, c)
  {
    if |a| > 0 && |b| > 0 && |c| > 0 && a[0] == b[0] && b[0] == c[0] {
      BelowTransitive(a[1..], b[1..], c[1..]);
    }
  }

  lemma {:induction false} BelowTotal(a: string, b: string)
    ensures Below(a, b) || Below(b, a)
  {
    if |a| > 0 && |b| > 0 && a[0] == b[0] {
      BelowTotal(a[1..], b[1..]);
    }
  }

  predicate IsLeast(m: string, s: set<string>) {
    m in s && forall y :: y in s ==> Below(m, y)
  }

  /** Every non-empty finite set of strings has a least element. */
  lemma LeastExists(s: set<string>)
    requires s != {}
    ensures exists m :: IsLeast(m, s)
    decreases s
  {
    var x :| x in s;
    if s == {x} {
      BelowReflexive(x);
      assert IsLeast(x, s);
    } else {
      LeastExists(s - {x});
      var m :| IsLeast(m, s - {x});
      BelowTotal(m, x);
      if Below(m, x) {
        assert IsLeast(m, s);
      } else {
        forall y | y in s ensures Below(x, y) {
          if y == x { BelowReflexive(x); } else { BelowTransitive(x, m, y); }
        }
        assert IsLeast(x, s);
      }
    }
  }

  lemma LeastUnique(s: set<string>, a: string, b: string)
    requires IsLeast(a, s) && IsLeast(b, s)
    ensures a == b
  {
    BelowAntisymmetric(a, b);
  }

  /** Strictly increasing: sorted and without repetition. */
  predicate StrictlyAscending(r: seq<string>) {
    forall i, j :: 0 <= i < j < |r| ==> Below(r[i], r[j]) && r[i] != r[j]
  }

  /** The elements of `s` in ascending order: what `ORDER BY term ASC` returns. */
  ghost function Ascending(s: set<string>): (r: seq<string>)
    ensures |r| == |s|
    ensures forall t :: t in r <==> t in s
    ensures StrictlyAscending(r)
    decreases s
  {
    if s == {} then []
    else
      LeastExists(s);
      var m :| IsLeast(m, s);
      [m] + Ascending(s - {m})
  }

  /** The ascending listing starts with the least element, whichever way it is found. */
  lemma AscendingUnfold(s: set<string>, m: string)
    requires IsLeast(m, s)
    ensures Ascending(s) == [m] + Ascending(s - {m})
  {
    forall a, b | IsLeast(a, s) && IsLeast(b, s) ensures a == b {
      LeastUnique(s, a, b);
    }
  }

  /** The first element of a strictly ascending listing of a set is its least element. */
  lemma ListingHead(s: set<string>, r: seq<string>)
    requires r != [] && StrictlyAscending(r)
    requires forall t :: t in r <==> t in s
    ensures IsLeast(r[0], s)
  {
    forall y | y in s ensures Below(r[0], y) {
      var j :| 0 <= j < |r| && r[j] == y;
      if j == 0 { BelowReflexive(y); }
    }
  }

  /** Without its first element, a strictly ascending listing lists the rest of the set. */
  lemma ListingTail(s: set<string>, r: seq<string>)
    requires r != [] && StrictlyAscending(r)
    requires forall t :: t in r <==> t in s
    ensures StrictlyAscending(r[1..])
    ensures forall t :: t in r[1..] <==> t in s - {r[0]}
  {
    var tail := r[1..];
    forall i, j | 0 <= i < j < |tail| ensures Below(tail[i], tail[j]) && tail[i] != tail[j] {
      assert tail[i] == r[i + 1] && tail[j] == r[j + 1];
    }
    forall t ensures t in tail <==> t in s - {r[0]} {
      if t in tail {
        var j :| 0 <= j < |tail| && tail[j] == t;
        assert r[j + 1] == t;
      }
      if t in s - {r[0]} {
        var j :| 0 <= j < |r| && r[j] == t;
        assert tail[j - 1] == t;
      }
    }
  }

  /**
   * `Ascending` is the only strictly ascending listing of a set: any sequence
   * holding exactly the set's elements in strictly ascending order equals it,
   * so it is what `ORDER BY term ASC` returns.
   */
  lemma {:induction false} AscendingUnique(s: set<string>, r: seq<string>)
    requires StrictlyAscending(r)
    requires forall t :: t in r <==> t in s
    ensures r == Ascending(s)
    decreases |r|
  {
    if r == [] {
      assert s == {};
    } else {
      ListingHead(s, r);
      AscendingUnfold(s, r[0]);
      ListingTail(s, r);
      AscendingUnique(s - {r[0]}, r[1..]);
      HeadTail(r);
    }
  }

  lemma HeadTail<T>(r: seq<T>)
    requires r != []
    ensures r == [r[0]] + r[1..]
  {
  }
}
