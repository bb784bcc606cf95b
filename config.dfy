/**
 * Settings read once at start-up: the `KEYWORDS` list preloaded into the
 * keyword table, and the clamp applied to the `limit` of the RSS endpoint.
 */
module Config {
  import opened Text

  /**
   * The trimmed, non-empty pieces, in order: what the comprehension keeps of
   * the comma-separated pieces.
   */
  function KeepTrimmed(pieces: seq<string>): (r: seq<string>)
    ensures |r| <= |pieces|
    ensures forall t :: t in r ==> Trimmed(t)
  {
    if pieces == [] then []
    else
      var s := Strip(pieces[0]);
      var rest := KeepTrimmed(pieces[1..]);
      if s != [] then [s] + rest else rest
  }

  /** A term is kept exactly when it is non-empty and is some piece, stripped. */
  lemma {:induction false} KeepTrimmedMembers(pieces: seq<string>, t: string)
    ensures t in KeepTrimmed(pieces) <==> t != [] && exists piece :: piece in pieces && Strip(piece) == t
  {
    if pieces != [] {
      var head, tail := pieces[0], pieces[1..];
      var rest := KeepTrimmed(tail);
      KeepTrimmedMembers(tail, t);
      assert KeepTrimmed(pieces) == if Strip(head) != [] then [Strip(head)] + rest else rest;
      if t in KeepTrimmed(pieces) {
        if t !in rest {
          assert head in pieces && Strip(head) == t;
        } else {
          var piece :| piece in tail && Strip(piece) == t;
          assert piece in pieces;
        }
      }
      if t != [] && exists piece :: piece in pieces && Strip(piece) == t {
        var piece :| piece in pieces && Strip(piece) == t;
        if piece != head {
          assert piece in tail;
        }
      }
    }
  }

  /**
   * `DEFAULT_KEYWORDS`: the `KEYWORDS` setting split on commas, each piece
   * stripped, empty pieces dropped; nothing when the setting is unset or empty.
   */
  function ParseKeywords(raw: string): (r: seq<string>)
    ensures forall t :: t in r ==> Trimmed(t) && ',' !in t
    ensures forall t :: t in r <==> t != [] && exists piece :: piece in Split(raw, ',') && Strip(piece) == t
  {
    if raw == [] then []
    else
      KeepTrimmedAvoids(Split(raw, ','), ',');
      var r := KeepTrimmed(Split(raw, ','));
      assert forall t :: t in r <==> t != [] && exists piece :: piece in Split(raw, ',') && Strip(piece) == t by {
        forall t ensures t in r <==> t != [] && exists piece :: piece in Split(raw, ',') && Strip(piece) == t {
          KeepTrimmedMembers(Split(raw, ','), t);
        }
      }
      r
  }

  /** A character found in none of the pieces is found in none of the kept ones. */
  lemma {:induction false} KeepTrimmedAvoids(pieces: seq<string>, c: char)
    requires forall i :: 0 <= i < |pieces| ==> c !in pieces[i]
    ensures forall t :: t in KeepTrimmed(pieces) ==> c !in t
  {
    if pieces != [] {
      KeepTrimmedAvoids(pieces[1..], c);
      if c in Strip(pieces[0]) {
        StripKeepsCharacters(pieces[0], c);
      }
    }
  }

  /** Pieces that are all already trimmed survive `KeepTrimmed` unchanged. */
  lemma {:induction false} KeepTrimmedOfTrimmed(pieces: seq<string>)
    requires forall i :: 0 <= i < |pieces| ==> Trimmed(pieces[i])
    ensures KeepTrimmed(pieces) == pieces
  {
    if pieces != [] {
      StripFixed(pieces[0]);
      KeepTrimmedOfTrimmed(pieces[1..]);
      assert pieces == [pieces[0]] + pieces[1..];
    }
  }

  /**
   * Writing a list of trimmed, comma-free keywords into `KEYWORDS` joined by
   * commas gives back exactly that list, in order.
   */
  lemma ParseJoinedKeywords(terms: seq<string>)
    requires forall i :: 0 <= i < |terms| ==> Trimmed(terms[i]) && ',' !in terms[i]
    ensures ParseKeywords(Join(terms, ',')) == terms
  {
    if terms != [] {
      SplitJoin(terms, ',');
      KeepTrimmedOfTrimmed(terms);
      assert Join(terms, ',') != [] by {
        JoinStartsWithFirst(terms, ',');
      }
    }
  }

  lemma JoinStartsWithFirst(pieces: seq<string>, sep: char)
    requires |pieces| >= 1
    ensures |Join(pieces, sep)| >= |pieces[0]|
    ensures Join(pieces, sep)[..|pieces[0]|] == pieces[0]
  {
  }

  /**
   * An example: two keywords with the same blank padding after the first and
   * before the second, and an empty entry between them, parse to just the two.
   */
  lemma ParseIgnoresPaddingAndBlanks(a: string, b: string, pad: string)
    requires AllSpace(pad)
    requires a != [] && Strip(a) == a && ',' !in a
    requires b != [] && Strip(b) == b && ',' !in b
    ensures ParseKeywords(a + pad + "," + "," + pad + b) == [a, b]
  {
    var pieces := [a + pad, [], pad + b];
    var raw := a + pad + "," + "," + pad + b;
    assert Join(pieces[2..], ',') == pad + b;
    assert Join(pieces[1..], ',') == [] + "," + (pad + b);
    assert raw == (a + pad) + "," + ([] + "," + (pad + b));
    assert raw == Join(pieces, ',');
    SpaceHasNoComma(pad);
    assert ',' !in a + pad && ',' !in pad + b;
    SplitJoin(pieces, ',');
    assert raw != [];
    StripPadding([], a, pad);
    StripPadding(pad, b, []);
    assert [] + a + pad == a + pad && pad + b + [] == pad + b;
    KeepTrimmedOfThree(a + pad, pad + b, a, b);
  }

  lemma SpaceHasNoComma(pad: string)
    requires AllSpace(pad)
    ensures ',' !in pad
  {
  }

  lemma KeepTrimmedCons(head: string, tail: seq<string>)
    ensures KeepTrimmed([head] + tail)
         == if Strip(head) != [] then [Strip(head)] + KeepTrimmed(tail) else KeepTrimmed(tail)
  {
    assert ([head] + tail)[0] == head && ([head] + tail)[1..] == tail;
  }

  /** Each piece with whitespace added before and after it. */
  function Padded(pre: seq<string>, pieces: seq<string>, post: seq<string>): (r: seq<string>)
    requires |pre| == |pieces| == |post|
    ensures |r| == |pieces|
  {
    seq(|pieces|, i requires 0 <= i < |pieces| => pre[i] + pieces[i] + post[i])
  }

  /** Whitespace around any of the comma-separated pieces makes no difference to the keywords. */
  lemma {:induction false} KeepTrimmedIgnoresPadding(pre: seq<string>, pieces: seq<string>, post: seq<string>)
    requires |pre| == |pieces| == |post|
    requires forall i :: 0 <= i < |pieces| ==> AllSpace(pre[i]) && AllSpace(post[i])
    ensures KeepTrimmed(Padded(pre, pieces, post)) == KeepTrimmed(pieces)
    decreases |pieces|
  {
    if pieces != [] {
      var padded := Padded(pre, pieces, post);
      assert padded[1..] == Padded(pre[1..], pieces[1..], post[1..]);
      KeepTrimmedIgnoresPadding(pre[1..], pieces[1..], post[1..]);
      StripPadding(pre[0], pieces[0], post[0]);
      KeepTrimmedCons(padded[0], padded[1..]);
      KeepTrimmedCons(pieces[0], pieces[1..]);
      HeadTail(padded);
      HeadTail(pieces);
    }
  }

  /** An entry that is empty or only whitespace, wherever it stands, yields no keyword. */
  lemma {:induction false} KeepTrimmedSkipsBlank(front: seq<string>, blank: string, back: seq<string>)
    requires AllSpace(blank)
    ensures KeepTrimmed(front + [blank] + back) == KeepTrimmed(front + back)
    decreases |front|
  {
    if front == [] {
      StripPadding(blank, [], []);
      assert blank + [] + [] == blank;
      KeepTrimmedCons(blank, back);
    } else {
      KeepTrimmedSkipsBlank(front[1..], blank, back);
      KeepTrimmedCons(front[0], front[1..] + [blank] + back);
      KeepTrimmedCons(front[0], front[1..] + back);
    }
    Regroup(front, blank, back);
  }

  /** The empty setting goes through the same filter: its single empty piece yields nothing. */
  lemma ParseIsKeepTrimmed(raw: string)
    ensures ParseKeywords(raw) == KeepTrimmed(Split(raw, ','))
  {
    if raw == [] {
      StripNothing();
      assert Split(raw, ',') == [[]];
      var none: seq<string> := [];
      KeepTrimmedCons([], none);
      assert [[]] + none == Split(raw, ',');
    }
  }

  /**
   * Written as a `KEYWORDS` setting, a list of entries parses to the same
   * keywords whatever whitespace surrounds each entry.
   */
  lemma ParseIgnoresPadding(pre: seq<string>, pieces: seq<string>, post: seq<string>)
    requires |pieces| >= 1 && |pre| == |pieces| == |post|
    requires forall i :: 0 <= i < |pieces| ==> ',' !in pieces[i] && AllSpace(pre[i]) && AllSpace(post[i])
    ensures ParseKeywords(Join(Padded(pre, pieces, post), ',')) == ParseKeywords(Join(pieces, ','))
  {
    var padded := Padded(pre, pieces, post);
    forall i | 0 <= i < |padded| ensures ',' !in padded[i] {
      SpaceHasNoComma(pre[i]);
      SpaceHasNoComma(post[i]);
    }
    SplitJoin(padded, ',');
    SplitJoin(pieces, ',');
    ParseIsKeepTrimmed(Join(padded, ','));
    ParseIsKeepTrimmed(Join(pieces, ','));
    KeepTrimmedIgnoresPadding(pre, pieces, post);
  }

  /**
   * Written as a `KEYWORDS` setting, an entry that is empty or only whitespace,
   * wherever it stands, adds no keyword.
   */
  lemma ParseSkipsBlank(front: seq<string>, blank: string, back: seq<string>)
    requires |front + back| >= 1 && AllSpace(blank)
    requires forall i :: 0 <= i < |front + back| ==> ',' !in (front + back)[i]
    ensures ParseKeywords(Join(front + [blank] + back, ',')) == ParseKeywords(Join(front + back, ','))
  {
    var with := front + [blank] + back;
    SpaceHasNoComma(blank);
    InsertedAvoids(front, blank, back, ',');
    SplitJoin(with, ',');
    SplitJoin(front + back, ',');
    ParseIsKeepTrimmed(Join(with, ','));
    ParseIsKeepTrimmed(Join(front + back, ','));
    KeepTrimmedSkipsBlank(front, blank, back);
  }

  lemma InsertedAvoids(front: seq<string>, x: string, back: seq<string>, c: char)
    requires c !in x
    requires forall i :: 0 <= i < |front + back| ==> c !in (front + back)[i]
    ensures forall i :: 0 <= i < |front + [x] + back| ==> c !in (front + [x] + back)[i]
  {
    var with := front + [x] + back;
    forall i | 0 <= i < |with| ensures c !in with[i] {
      if i < |front| {
        assert with[i] == (front + back)[i];
      } else if i > |front| {
        assert with[i] == (front + back)[i - 1];
      }
    }
  }

  lemma Regroup<T>(front: seq<T>, x: T, back: seq<T>)
    ensures front == [] ==> front + [x] + back == [x] + back && front + back == back
    ensures front != [] ==> front + [x] + back == [front[0]] + (front[1..] + [x] + back)
    ensures front != [] ==> front + back == [front[0]] + (front[1..] + back)
  {
    if front != [] {
      HeadTail(front);
    }
  }

  lemma KeepTrimmedOfThree(x: string, z: string, a: string, b: string)
    requires Strip(x) == a != [] && Strip(z) == b != []
    ensures KeepTrimmed([x, [], z]) == [a, b]
  {
    var empty: seq<string> := [];
    KeepTrimmedCons(z, empty);
    assert [z] + empty == [z];
    StripNothing();
    KeepTrimmedCons([], [z]);
    assert [[]] + [z] == [[], z];
    KeepTrimmedCons(x, [[], z]);
    assert [x] + [[], z] == [x, [], z];
  }

  lemma StripNothing()
    ensures Strip([]) == []
  {
  }

  /** The RSS `limit` after `max(1, min(1000, limit))`. */
  function ClampFeedLimit(requested: int): (r: int)
    ensures 1 <= r <= 1000
    ensures 1 <= requested <= 1000 ==> r == requested
    ensures requested < 1 ==> r == 1
    ensures requested > 1000 ==> r == 1000
  {
    var capped := if requested < 1000 then requested else 1000;
    if capped > 1 then capped else 1
  }
}
