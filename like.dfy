/** SQL `LIKE` pattern matching, as the criteria builder's `like` predicate
    evaluates it: `%` matches any run of characters (possibly empty), `_`
    matches exactly one character, and every other character matches itself.
    Matching is exact-case: whether a database collation folds case is not
    decided by the repository, and this model compares characters as they are.
    The pattern is built without an ESCAPE clause, so the escape character is
    whatever the database defaults to (a backslash for the common ones); this
    model uses none, and its containment results are stated only for filters
    free of `%`, `_` and backslash, on which both readings agree. */
module LikePatterns {

  /** True when `s` matches the LIKE pattern `p` (no escape character). A
      pattern without `%` matches only strings of its own length, and one
      with neither `%` nor `_` matches exactly itself. */
  predicate Like(s: string, p: string): (r: bool)
    ensures r && '%' !in p ==> |s| == |p|
    ensures '%' !in p && '_' !in p ==> (r <==> s == p)
    decreases |s| + |p|
  {
    if p == [] then s == []
    else if p[0] == '%' then Like(s, p[1..]) || (s != [] && Like(s[1..], p))
    else s != [] && (p[0] == '_' || p[0] == s[0]) && Like(s[1..], p[1..])
  }

  /** A string in which neither LIKE wildcard occurs, nor the backslash that
      databases commonly take as the default escape character. */
  predicate NoWildcards(f: string) {
    '%' !in f && '_' !in f && '\\' !in f
  }

  /** Reference definition of substring containment: `f` occurs in `s` at some position. */
  ghost predicate Contains(s: string, f: string) {
    exists i :: 0 <= i <= |s| && f <= s[i..]
  }

  /** The pattern `%` accepts every string. */
  lemma {:induction false} PercentAcceptsAll(s: string)
    ensures Like(s, "%")
    decreases |s|
  {
    if s != [] {
      PercentAcceptsAll(s[1..]);
    }
  }

  /** For a wildcard-free `f`, the pattern `f%` accepts exactly the strings that start with `f`. */
  lemma {:induction false} LikePrefix(s: string, f: string)
    requires NoWildcards(f)
    ensures Like(s, f + "%") <==> f <= s
    decreases |f|
  {
    if f == [] {
      assert f + "%" == "%";
      PercentAcceptsAll(s);
    } else {
      var p := f + "%";
      assert p[0] == f[0] && p[1..] == f[1..] + "%";
      assert f[0] in f;
      if s != [] {
        LikePrefix(s[1..], f[1..]);
        assert f <= s <==> f[0] == s[0] && f[1..] <= s[1..];
      }
    }
  }

  /** Containment unfolds position by position: at the front, or somewhere in the tail. */
  lemma ContainsStep(s: string, f: string)
    ensures Contains(s, f) <==> f <= s || (s != [] && Contains(s[1..], f))
  {
    if Contains(s, f) && !(f <= s) {
      var i :| 0 <= i <= |s| && f <= s[i..];
      assert i > 0;
      assert s[1..][i - 1..] == s[i..];
    }
    if s != [] && Contains(s[1..], f) {
      var j :| 0 <= j <= |s| - 1 && f <= s[1..][j..];
      assert s[1..][j..] == s[j + 1..];
    }
    if f <= s {
      assert s[0..] == s;
    }
  }

  /** The pattern `%f%` built from a wildcard-free `f` is plain substring containment. */
  lemma {:induction false} LikeContains(s: string, f: string)
    requires NoWildcards(f)
    ensures Like(s, "%" + f + "%") <==> Contains(s, f)
    decreases |s|
  {
    var p := "%" + f + "%";
    assert p[0] == '%' && p[1..] == f + "%";
    LikePrefix(s, f);
    ContainsStep(s, f);
    if s != [] {
      LikeContains(s[1..], f);
    }
  }

  /** The empty filter gives the pattern `%%`, which accepts every string. */
  lemma EmptyFilterAcceptsAll(s: string)
    ensures Like(s, "%" + "" + "%")
  {
  }

  /** A filter that is itself `%` gives `%%%`, which accepts every string, although
      only strings containing a literal `%` contain the filter. */
  lemma PercentFilterAcceptsAll(s: string)
    ensures Like(s, "%" + "%" + "%")
  {
  }

  /** A filter containing `_` accepts a string that does not contain the filter:
      the filter `a_c` matches "abc". */
  lemma UnderscoreFilterIsNotContainment()
    ensures Like("abc", "%" + "a_c" + "%")
    ensures !Contains("abc", "a_c")
  {
    var s, p := "abc", "%" + "a_c" + "%";
    assert p == ['%', 'a', '_', 'c', '%'];
    assert Like(s[3..], p[4..]) by { PercentAcceptsAll(s[3..]); }
    assert Like(s, p[1..]);
    forall i | 0 <= i <= |s|
      ensures !("a_c" <= s[i..])
    {
      if i < |s| && s[i] == 'a' {
        assert i == 0 && s[1] != '_';
      }
    }
  }
}
