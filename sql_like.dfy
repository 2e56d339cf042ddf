/**
 * SQLite's `LIKE` operator without an ESCAPE clause: `%` matches any run of
 * characters, `_` exactly one, and letters compare with ASCII case folded.
 * A NULL operand makes the test NULL, which a WHERE clause treats as false.
 */
module SqlLike {
  import opened Wrappers
  import opened Text

  function Like(s: string, p: string): bool
    decreases |s| + |p|
  {
    if p == [] then s == []
    else if p[0] == '%' then Like(s, p[1..]) || (s != [] && Like(s[1..], p))
    else if s == [] then false
    else (p[0] == '_' || Fold(p[0]) == Fold(s[0])) && Like(s[1..], p[1..])
  }

  /** `column LIKE pattern` where the column may hold NULL. */
  predicate LikeColumn(s: Option<string>, p: string) {
    s.Some? && Like(s.value, p)
  }

  /** The pattern `'%' || q || '%'` the store builds around a search term. */
  function Surround(q: string): string {
    ['%'] + q + ['%']
  }

  predicate NoWildcards(q: string) {
    '%' !in q && '_' !in q
  }

  /** A case-insensitive substring test, as the browser-side filter performs it. */
  predicate ContainsIgnoringCase(s: string, q: string) {
    Contains(Lower(s), Lower(q))
  }

  lemma {:induction false} LikeAnyRest(s: string)
    ensures Like(s, ['%'])
    decreases |s|
  {
    assert ['%'][1..] == [];
    if s != [] { LikeAnyRest(s[1..]); }
  }

  /** `q%` matches exactly the strings that start with `q`, ignoring ASCII case. */
  lemma {:induction false} LikePrefixPattern(s: string, q: string)
    requires NoWildcards(q)
    ensures Like(s, q + ['%']) <==> IsPrefix(Lower(q), Lower(s))
    decreases |q|
  {
    if q == [] {
      assert q + ['%'] == ['%'];
      LikeAnyRest(s);
    } else {
      var p := q + ['%'];
      assert p[0] == q[0] && p[1..] == q[1..] + ['%'];
      assert q[0] in q;
      assert NoWildcards(q[1..]) by {
        assert forall i :: 0 <= i < |q| - 1 ==> q[1..][i] == q[i + 1];
      }
      if s != [] {
        LikePrefixPattern(s[1..], q[1..]);
        assert Lower(q) == [Fold(q[0])] + Lower(q[1..]);
        assert Lower(s) == [Fold(s[0])] + Lower(s[1..]);
        PrefixCons(Fold(q[0]), Lower(q[1..]), Fold(s[0]), Lower(s[1..]));
      }
    }
  }

  lemma PrefixCons(a: char, x: string, b: char, y: string)
    ensures IsPrefix([a] + x, [b] + y) <==> a == b && IsPrefix(x, y)
  {
    if a == b && IsPrefix(x, y) {
      assert ([b] + y)[..|x| + 1] == [b] + y[..|x|];
    }
    if IsPrefix([a] + x, [b] + y) {
      assert ([b] + y)[..|x| + 1][0] == b;
      assert ([b] + y)[..|x| + 1][1..] == y[..|x|];
    }
  }

  /** For a term without wildcards, `LIKE '%q%'` is a case-insensitive substring test. */
  lemma {:induction false} LikeSurroundedIsContains(s: string, q: string)
    requires NoWildcards(q)
    ensures Like(s, Surround(q)) <==> ContainsIgnoringCase(s, q)
    decreases |s|
  {
    var p := Surround(q);
    assert p[0] == '%' && p[1..] == q + ['%'];
    LikePrefixPattern(s, q);
    if s != [] {
      LikeSurroundedIsContains(s[1..], q);
      assert Lower(s)[1..] == Lower(s[1..]);
    }
  }

  /** The `_` wildcard lets a term match text that does not contain it literally. */
  lemma UnderscoreIsAWildcard()
    ensures Like("a-c", Surround("a_c"))
    ensures !Contains("a-c", "a_c")
  {
    assert Surround("a_c") == "%a_c%";
    assert Like("a-c", "%");
    assert Like("a-c", "a_c%");
    assert !IsPrefix("a_c", "a-c");
    assert !IsPrefix("a_c", "-c") && !IsPrefix("a_c", "c") && !IsPrefix("a_c", "");
    assert "a-c"[1..] == "-c" && "-c"[1..] == "c" && "c"[1..] == "";
  }
}
