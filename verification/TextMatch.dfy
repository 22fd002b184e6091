/** The database's case-insensitive pattern match, and when the log query's text filter is a substring search. */
module TextMatch {
  import opened Common
  import opened LogQuery

  /** Pattern match: `%` stands for any text, `_` for any character, a backslash takes the next character literally. */
  predicate Like(text: string, pattern: string)
    decreases |pattern|, |text|
  {
    if pattern == "" then text == ""
    else if pattern[0] == '%' then Like(text, pattern[1..]) || (text != "" && Like(text[1..], pattern))
    else if pattern[0] == '_' then text != "" && Like(text[1..], pattern[1..])
    else if pattern[0] == '\\' && |pattern| > 1 then
      text != "" && text[0] == pattern[1] && Like(text[1..], pattern[2..])
    else text != "" && text[0] == pattern[0] && Like(text[1..], pattern[1..])
  }

  predicate Special(c: char) {
    c == '%' || c == '_' || c == '\\'
  }

  predicate Plain(s: string) {
    forall i :: 0 <= i < |s| ==> !Special(s[i])
  }

  predicate PrefixAt(text: string, q: string, i: nat) {
    i + |q| <= |text| && text[i..i + |q|] == q
  }

  predicate Contains(text: string, q: string) {
    exists i: nat :: i <= |text| && PrefixAt(text, q, i)
  }

  // ----- plain patterns -----

  /** A leading `%` skips any number of characters. */
  lemma {:induction false} AnyPrefix(text: string, rest: string)
    ensures Like(text, "%" + rest) <==> exists i: nat :: i <= |text| && Like(text[i..], rest)
    decreases |text|
  {
    assert ("%" + rest)[1..] == rest;
    assert text[0..] == text;
    if text != "" {
      AnyPrefix(text[1..], rest);
      if Like(text[1..], "%" + rest) {
        var i: nat :| i <= |text[1..]| && Like(text[1..][i..], rest);
        assert text[1..][i..] == text[i + 1..];
      }
      if i: nat :| i <= |text| && Like(text[i..], rest) {
        if i > 0 {
          assert text[1..][i - 1..] == text[i..];
        }
      }
    }
  }

  lemma {:induction false} PlainThenAny(text: string, q: string)
    requires Plain(q)
    ensures Like(text, q + "%") <==> PrefixAt(text, q, 0)
    decreases |q|
  {
    if q == "" {
      assert q + "%" == "%" + "";
      AnyPrefix(text, "");
      assert Like(text[|text|..], "");
    } else {
      assert (q + "%")[1..] == q[1..] + "%";
      assert !Special(q[0]);
      if text != "" {
        PlainThenAny(text[1..], q[1..]);
        PrefixStep(text, q);
      }
    }
  }

  lemma PrefixStep(text: string, q: string)
    requires text != "" && q != ""
    ensures PrefixAt(text, q, 0) <==> text[0] == q[0] && PrefixAt(text[1..], q[1..], 0)
  {
  }

  /** Between two `%`, a text without special characters is searched for as a substring. */
  lemma PlainIsSubstring(text: string, q: string)
    requires Plain(q)
    ensures Like(text, "%" + q + "%") <==> Contains(text, q)
  {
    assert "%" + q + "%" == "%" + (q + "%");
    AnyPrefix(text, q + "%");
    forall i: nat | i <= |text|
      ensures Like(text[i..], q + "%") <==> PrefixAt(text, q, i)
    {
      PlainThenAny(text[i..], q);
      if i + |q| <= |text| {
        assert text[i..][0..|q|] == text[i..i + |q|];
      }
    }
  }

  // ----- patterns with special characters -----

  /** A shortest text that the pattern between two `%` matches. */
  function Shortest(q: string): (w: string)
    ensures |w| <= |q|
    ensures !Plain(q) ==> w != q
    decreases |q|
  {
    if q == "" then ""
    else if q[0] == '%' then Shortest(q[1..])
    else if q[0] == '_' then "a" + Shortest(q[1..])
    else if q[0] == '\\' then (if |q| == 1 then "%" else [q[1]] + Shortest(q[2..]))
    else
      assert q == [q[0]] + q[1..];
      [q[0]] + Shortest(q[1..])
  }

  lemma {:induction false} ShortestMatches(q: string)
    ensures Like(Shortest(q), q + "%")
    decreases |q|
  {
    var w := Shortest(q);
    assert q != "" ==> (q + "%")[1..] == q[1..] + "%";
    if q == "" {
      assert Like("", "%");
    } else if q[0] == '\\' && |q| == 1 {
      assert (q + "%")[2..] == "";
      assert Like(w[1..], "");
    } else if q[0] == '\\' {
      assert (q + "%")[2..] == q[2..] + "%";
      ShortestMatches(q[2..]);
      assert w[1..] == Shortest(q[2..]);
    } else {
      ShortestMatches(q[1..]);
      assert q[0] != '%' ==> w[1..] == Shortest(q[1..]);
    }
  }

  lemma ShorterContainsNot(text: string, q: string)
    requires |text| <= |q| && text != q
    ensures !Contains(text, q)
  {
  }

  /** A special character makes the pattern match a text that does not contain it literally. */
  lemma SpecialIsNotSubstring(q: string)
    requires !Plain(q)
    ensures Like(Shortest(q), "%" + q + "%") && !Contains(Shortest(q), q)
  {
    ShortestMatches(q);
    assert "%" + q + "%" == "%" + (q + "%");
    AnyPrefix(Shortest(q), q + "%");
    assert Shortest(q)[0..] == Shortest(q);
    ShorterContainsNot(Shortest(q), q);
  }

  // ----- the query's text filter -----

  /** Case folding, one character at a time, that leaves the special characters alone. */
  ghost predicate Folding(fold: char -> char) {
    && (forall c :: fold(fold(c)) == fold(c))
    && (forall c :: Special(c) ==> fold(c) == c)
    && (forall c :: Special(fold(c)) ==> Special(c))
    && fold('a') == 'a'
  }

  function Folded(fold: char -> char, s: string): (r: string)
    ensures |r| == |s| && forall i :: 0 <= i < |s| ==> r[i] == fold(s[i])
  {
    seq(|s|, i requires 0 <= i < |s| => fold(s[i]))
  }

  function ILikeBy(fold: char -> char): Matcher {
    (text: string, pattern: string) => Like(Folded(fold, text), Folded(fold, pattern))
  }

  lemma FoldedPattern(fold: char -> char, q: string)
    requires Folding(fold)
    ensures Folded(fold, "%" + q + "%") == "%" + Folded(fold, q) + "%"
    ensures Plain(Folded(fold, q)) <==> Plain(q)
  {
  }

  lemma {:induction false} ShortestIsFolded(fold: char -> char, q: string)
    requires Folding(fold) && forall i :: 0 <= i < |q| ==> fold(q[i]) == q[i]
    ensures Folded(fold, Shortest(q)) == Shortest(q)
    decreases |q|
  {
    if q == "" {
    } else if q[0] == '\\' && |q| == 1 {
      assert Special('%');
    } else if q[0] == '\\' {
      ShortestIsFolded(fold, q[2..]);
      FoldedCons(fold, q[1], Shortest(q[2..]));
    } else {
      ShortestIsFolded(fold, q[1..]);
      FoldedCons(fold, if q[0] == '_' then 'a' else q[0], Shortest(q[1..]));
    }
  }

  lemma FoldedCons(fold: char -> char, c: char, s: string)
    requires fold(c) == c && Folded(fold, s) == s
    ensures Folded(fold, [c] + s) == [c] + s
  {
  }

  /**
   The text filter finds the messages that contain the search text, up to case, exactly when the
   search text has no `%`, no `_` and no backslash. They are passed on to the pattern unescaped.
   */
  lemma TextFilterIsSubstringIff(fold: char -> char, q: string)
    requires Folding(fold)
    ensures (forall message: string ::
               ILikeBy(fold)(message, "%" + q + "%") <==> Contains(Folded(fold, message), Folded(fold, q))) <==>
            Plain(q)
  {
    var f := Folded(fold, q);
    FoldedPattern(fold, q);
    if Plain(q) {
      forall message: string
        ensures ILikeBy(fold)(message, "%" + q + "%") <==> Contains(Folded(fold, message), f)
      {
        PlainIsSubstring(Folded(fold, message), f);
      }
    } else {
      SpecialIsNotSubstring(f);
      ShortestIsFolded(fold, f);
      var message := Shortest(f);
      assert ILikeBy(fold)(message, "%" + q + "%") && !Contains(Folded(fold, message), f);
    }
  }

  /** So a query for a plain text alone selects the rows whose message contains it, up to case. */
  lemma PlainQuerySelects(fold: char -> char, p: Params, sql: Sql, args: seq<Value>, row: Row)
    requires Folding(fold) && Plain(p.q) && CompiledFor(p, sql, args)
    requires p.host == "" && p.level == "" && p.from == None && p.to == None && p.cursor <= 0 && p.q != ""
    ensures AllHold(sql.conds, args, row, ILikeBy(fold)) <==> Contains(Folded(fold, row.message), Folded(fold, p.q))
  {
    CompiledSelects(p, sql, args, row, ILikeBy(fold));
    TextFilterIsSubstringIff(fold, p.q);
  }
}
