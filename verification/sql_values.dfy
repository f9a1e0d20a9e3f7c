/** Values stored in and bound to the SQLite database, and the two SQL
    comparisons the skill queries use: `=` against an integer parameter and
    `LIKE` against a text pattern. */
module SqlValues {

  /** One SQLite value: NULL, an INTEGER or a TEXT. Floating-point and BLOB
      values do not occur in this model. */
  datatype DbValue = Null | Integer(i: int) | Text(s: string)

  /** SQL `a = b`: NULL on either side never compares equal, and values of
      different storage classes are different. */
  predicate SqlEquals(a: DbValue, b: DbValue) {
    !a.Null? && !b.Null? && a == b
  }

  /** ASCII case folding, the only folding SQLite's built-in LIKE performs. */
  function Fold(c: char): (d: char)
  {
    if 'A' <= c <= 'Z' then (c as int + 32) as char else c
  }

  /** SQLite `text LIKE pattern` without an ESCAPE clause: `%` matches any run
      of characters, `_` matches exactly one, and every other pattern character
      matches itself up to ASCII case. */
  predicate Like(pattern: string, text: string)
    decreases |pattern| + |text|
  {
    if |pattern| == 0 then
      |text| == 0
    else if pattern[0] == '%' then
      Like(pattern[1..], text) || (|text| > 0 && Like(pattern, text[1..]))
    else if |text| == 0 then
      false
    else if pattern[0] == '_' then
      Like(pattern[1..], text[1..])
    else
      Fold(pattern[0]) == Fold(text[0]) && Like(pattern[1..], text[1..])
  }

  /** True when `s` holds neither LIKE wildcard, so it matches only itself. */
  predicate NoWildcards(s: string) {
    forall i :: 0 <= i < |s| ==> s[i] != '%' && s[i] != '_'
  }

  /** `v` is a prefix of `s` up to ASCII case. */
  predicate PrefixCI(v: string, s: string) {
    |v| <= |s| && forall i :: 0 <= i < |v| ==> Fold(v[i]) == Fold(s[i])
  }

  /** `v` occurs somewhere in `s` up to ASCII case: the meaning the
      repository's `LIKE '%v%'` filters are meant to have. */
  predicate ContainsCI(s: string, v: string) {
    exists k :: 0 <= k <= |s| && PrefixCI(v, s[k..])
  }

  /** The contents of a `%...%` pattern wrapped around `v`. */
  function Wrapped(v: string): (p: string)
    ensures |p| == |v| + 2 && p[0] == '%' && p[|p| - 1] == '%'
    ensures p[1..|p| - 1] == v
  {
    "%" + v + "%"
  }

  /** A lone `%` matches every text. */
  lemma {:induction false} LikePercentMatchesAll(text: string)
    ensures Like("%", text)
    decreases |text|
  {
    if |text| > 0 {
      LikePercentMatchesAll(text[1..]);
    }
  }

  /** A literal pattern followed by `%` matches exactly the texts that start
      with it up to case. */
  lemma {:induction false} LikeLiteralThenPercent(v: string, text: string)
    requires NoWildcards(v)
    ensures Like(v + "%", text) <==> PrefixCI(v, text)
    decreases |v|
  {
    if |v| == 0 {
      assert v + "%" == "%";
      LikePercentMatchesAll(text);
    } else {
      var p := v + "%";
      assert p[0] == v[0] && p[1..] == v[1..] + "%";
      assert v[0] != '%' && v[0] != '_';
      assert NoWildcards(v[1..]) by {
        forall i | 0 <= i < |v[1..]| ensures v[1..][i] != '%' && v[1..][i] != '_' {
          assert v[1..][i] == v[i + 1];
        }
      }
      if |text| == 0 {
        assert !PrefixCI(v, text);
      } else {
        LikeLiteralThenPercent(v[1..], text[1..]);
        if PrefixCI(v, text) {
          forall i | 0 <= i < |v[1..]| ensures Fold(v[1..][i]) == Fold(text[1..][i]) {
            assert Fold(v[i + 1]) == Fold(text[i + 1]);
          }
        }
        if Fold(v[0]) == Fold(text[0]) && PrefixCI(v[1..], text[1..]) {
          forall i | 0 <= i < |v| ensures Fold(v[i]) == Fold(text[i]) {
            if i > 0 {
              assert v[1..][i - 1] == v[i] && text[1..][i - 1] == text[i];
            }
          }
        }
      }
    }
  }

  /** A pattern without wildcards matches exactly the texts equal to it up to
      ASCII case. */
  lemma {:induction false} LikeLiteral(v: string, text: string)
    requires NoWildcards(v)
    ensures Like(v, text) <==> |v| == |text| && PrefixCI(v, text)
    decreases |v|
  {
    if |v| > 0 && |text| > 0 {
      assert v[0] != '%' && v[0] != '_';
      assert NoWildcards(v[1..]) by {
        forall i | 0 <= i < |v[1..]| ensures v[1..][i] != '%' && v[1..][i] != '_' {
          assert v[1..][i] == v[i + 1];
        }
      }
      LikeLiteral(v[1..], text[1..]);
      if PrefixCI(v, text) {
        forall i | 0 <= i < |v[1..]| ensures Fold(v[1..][i]) == Fold(text[1..][i]) {
          assert Fold(v[i + 1]) == Fold(text[i + 1]);
        }
      }
      if Fold(v[0]) == Fold(text[0]) && PrefixCI(v[1..], text[1..]) {
        forall i | 0 <= i < |v| ensures Fold(v[i]) == Fold(text[i]) {
          if i > 0 {
            assert v[1..][i - 1] == v[i] && text[1..][i - 1] == text[i];
          }
        }
      }
    } else if |v| > 0 {
      assert v[0] != '%';
    }
  }

  /** SQL `=` is an equality on non-NULL values only: NULL is not even equal
      to itself, and on two non-NULL values it is plain equality. */
  lemma SqlEqualsIsPartialEquality(a: DbValue, b: DbValue, c: DbValue)
    ensures SqlEquals(a, a) <==> !a.Null?
    ensures SqlEquals(a, b) <==> SqlEquals(b, a)
    ensures SqlEquals(a, b) && SqlEquals(b, c) ==> SqlEquals(a, c)
    ensures !a.Null? && !b.Null? ==> (SqlEquals(a, b) <==> a == b)
  {
  }

  /** A leading `%` matches when the rest of the pattern matches some suffix. */
  lemma {:induction false} LikeLeadingPercent(q: string, text: string)
    ensures Like("%" + q, text) <==> exists k :: 0 <= k <= |text| && Like(q, text[k..])
    decreases |text|
  {
    var p := "%" + q;
    assert p[1..] == q;
    assert text[0..] == text;
    if |text| == 0 {
    } else {
      LikeLeadingPercent(q, text[1..]);
      if Like(p, text[1..]) {
        var k :| 0 <= k <= |text[1..]| && Like(q, text[1..][k..]);
        assert text[1..][k..] == text[k + 1..];
      }
      if exists k :: 0 <= k <= |text| && Like(q, text[k..]) {
        var k :| 0 <= k <= |text| && Like(q, text[k..]);
        if k > 0 {
          assert text[1..][k - 1..] == text[k..];
        }
      }
    }
  }

  /** The repository's wrapped pattern `%v%` is a case-insensitive substring
      test, provided `v` itself carries no wildcard. */
  lemma LikeWrappedIsContains(v: string, text: string)
    requires NoWildcards(v)
    ensures Like(Wrapped(v), text) <==> ContainsCI(text, v)
  {
    assert Wrapped(v) == "%" + (v + "%");
    LikeLeadingPercent(v + "%", text);
    forall k | 0 <= k <= |text|
      ensures Like(v + "%", text[k..]) <==> PrefixCI(v, text[k..])
    {
      LikeLiteralThenPercent(v, text[k..]);
    }
  }
}
