/** PostgreSQL `LIKE` pattern matching, used by the listing's `ILIKE`
    filters: `%` matches any run of characters, `_` any one character,
    and a backslash makes the next character literal. Case folding is
    not modelled, so this is `LIKE` on text that is already in one case. */
module Like {
  import opened Text

  predicate Matches(p: string, s: string)
    decreases |p| + |s|
  {
    if p == [] then s == []
    else if p[0] == '%' then Matches(p[1..], s) || (s != [] && Matches(p, s[1..]))
    else if p[0] == '_' then s != [] && Matches(p[1..], s[1..])
    else if p[0] == '\\' then |p| >= 2 && s != [] && s[0] == p[1] && Matches(p[2..], s[1..])
    else s != [] && s[0] == p[0] && Matches(p[1..], s[1..])
  }

  /** Text with no character that `LIKE` treats specially. */
  predicate Plain(t: string) {
    '%' !in t && '_' !in t && '\\' !in t
  }

  /** `q` matches the part of `s` from position `k` on. */
  predicate MatchesFrom(q: string, s: string, k: int) {
    0 <= k <= |s| && Matches(q, s[k..])
  }

  lemma {:induction false} PercentMatchesAnything(s: string)
    ensures Matches("%", s)
    decreases |s|
  {
    if s != [] {
      PercentMatchesAnything(s[1..]);
    }
  }

  /** A leading `%` lets the rest of the pattern match any suffix. */
  lemma {:induction false} LeadingPercent(q: string, s: string)
    ensures Matches("%" + q, s) <==> exists k :: MatchesFrom(q, s, k)
    decreases |s|
  {
    var p := "%" + q;
    assert p[1..] == q;
    if Matches(p, s) {
      if Matches(q, s) {
        assert MatchesFrom(q, s, 0);
      } else {
        LeadingPercent(q, s[1..]);
        var k :| MatchesFrom(q, s[1..], k);
        assert s[1..][k..] == s[k + 1..];
        assert MatchesFrom(q, s, k + 1);
      }
    }
    if exists k :: MatchesFrom(q, s, k) {
      var k :| MatchesFrom(q, s, k);
      if k > 0 {
        assert s[1..][k - 1..] == s[k..];
        assert MatchesFrom(q, s[1..], k - 1);
        LeadingPercent(q, s[1..]);
      }
    }
  }

  /** A plain word followed by `%` matches exactly the strings that start
      with that word. */
  lemma {:induction false} TrailingPercent(t: string, s: string)
    requires Plain(t)
    ensures Matches(t + "%", s) <==> (|t| <= |s| && s[..|t|] == t)
    decreases |t|
  {
    if t == [] {
      assert t + "%" == "%";
      PercentMatchesAnything(s);
    } else {
      var p := t + "%";
      assert p[1..] == t[1..] + "%";
      if s != [] {
        TrailingPercent(t[1..], s[1..]);
        if |t| <= |s| && s[..|t|] == t {
          assert s[1..][..|t| - 1] == t[1..];
        }
        if Matches(p, s) {
          assert s[..|t|] == [s[0]] + s[1..][..|t| - 1];
        }
      }
    }
  }

  /** The listing's `%word%` pattern, for a word without wildcards, is a
      substring test: it matches exactly the strings containing the word. */
  lemma SubstringPattern(t: string, s: string)
    requires Plain(t)
    ensures Matches("%" + t + "%", s) <==> Contains(s, t)
  {
    assert "%" + t + "%" == "%" + (t + "%");
    LeadingPercent(t + "%", s);
    if Contains(s, t) {
      var k :| 0 <= k <= |s| && OccursAt(s, t, k);
      assert s[k..][..|t|] == t;
      TrailingPercent(t, s[k..]);
      assert MatchesFrom(t + "%", s, k);
    }
    if exists k :: MatchesFrom(t + "%", s, k) {
      var k :| MatchesFrom(t + "%", s, k);
      TrailingPercent(t, s[k..]);
      assert s[k..][..|t|] == s[k..k + |t|];
      assert OccursAt(s, t, k);
    }
  }
}
