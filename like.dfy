/**
 * SQLite's `LIKE` operator as the employee search uses it: `%` matches any
 * run of characters, `_` any one character, every other character itself
 * with ASCII letters compared case-insensitively (SQLite's default).
 */
module SqlLike {
  import opened Text

  function LikeMatch(text: string, pattern: string): bool
    decreases |pattern|, |text|
  {
    if pattern == [] then text == []
    else if pattern[0] == '%' then
      LikeMatch(text, pattern[1..]) || (text != [] && LikeMatch(text[1..], pattern))
    else if text == [] then false
    else if pattern[0] == '_' then LikeMatch(text[1..], pattern[1..])
    else LowerChar(text[0]) == LowerChar(pattern[0]) && LikeMatch(text[1..], pattern[1..])
  }

  /** A pattern character that is not a wildcard matches only itself (up to ASCII case). */
  predicate Literal(s: string) {
    '%' !in s && '_' !in s
  }

  /** The search pattern `%term%` of `getAllEmployees`. */
  function Contains(term: string): string {
    "%" + term + "%"
  }

  /** `%` alone matches everything. */
  lemma {:induction false} PercentMatchesAll(text: string)
    ensures LikeMatch(text, "%")
    decreases |text|
  {
    if text != [] {
      PercentMatchesAll(text[1..]);
    }
  }

  /** A literal followed by `%` matches exactly the texts that start with it, ignoring ASCII case. */
  lemma {:induction false} LiteralPrefix(text: string, lit: string)
    requires Literal(lit)
    ensures LikeMatch(text, lit + "%") <==> |lit| <= |text| && Lower(text[..|lit|]) == Lower(lit)
    decreases |lit|
  {
    if lit == [] {
      assert lit + "%" == "%";
      PercentMatchesAll(text);
    } else {
      var p := lit + "%";
      assert p[0] == lit[0] && p[1..] == lit[1..] + "%";
      assert lit[0] in lit;
      assert Literal(lit[1..]) by {
        assert forall c :: c in lit[1..] ==> c in lit;
      }
      if text != [] {
        LiteralPrefix(text[1..], lit[1..]);
        if |lit| <= |text| {
          assert text[..|lit|] == [text[0]] + text[1..][..|lit| - 1];
          assert lit == [lit[0]] + lit[1..];
          LowerCons(text[0], text[1..][..|lit| - 1]);
          LowerCons(lit[0], lit[1..]);
        }
      }
    }
  }

  lemma LowerCons(c: char, s: string)
    ensures Lower([c] + s) == [LowerChar(c)] + Lower(s)
  {
  }

  /** A leading `%` matches when the rest of the pattern matches some suffix. */
  lemma {:induction false} PercentSkips(text: string, rest: string)
    ensures LikeMatch(text, "%" + rest) <==> exists i :: 0 <= i <= |text| && LikeMatch(text[i..], rest)
    decreases |text|
  {
    var p := "%" + rest;
    assert p[0] == '%' && p[1..] == rest;
    if text == [] {
      assert text[0..] == text;
    } else {
      PercentSkips(text[1..], rest);
      if exists i :: 0 <= i <= |text| && LikeMatch(text[i..], rest) {
        var i :| 0 <= i <= |text| && LikeMatch(text[i..], rest);
        if i > 0 {
          assert text[1..][i - 1..] == text[i..];
        } else {
          assert text[0..] == text;
        }
      }
      if LikeMatch(text[1..], p) {
        var i :| 0 <= i <= |text[1..]| && LikeMatch(text[1..][i..], rest);
        assert text[1..][i..] == text[i + 1..];
      }
      if LikeMatch(text, rest) {
        assert text[0..] == text;
      }
    }
  }

  lemma LowerSlice(s: string, i: int, j: int)
    requires 0 <= i <= j <= |s|
    ensures Lower(s[i..j]) == Lower(s)[i..j]
  {
  }

  /**
   * Without wildcards in the term, `text LIKE '%term%'` holds exactly when
   * the lower-cased term occurs in the lower-cased text.
   */
  lemma ContainsMeansIncludes(text: string, term: string)
    requires Literal(term)
    ensures LikeMatch(text, Contains(term)) <==> Includes(Lower(text), Lower(term))
  {
    assert Contains(term) == "%" + (term + "%");
    PercentSkips(text, term + "%");
    var lt := Lower(text);
    var lterm := Lower(term);
    if LikeMatch(text, Contains(term)) {
      var i :| 0 <= i <= |text| && LikeMatch(text[i..], term + "%");
      LiteralPrefix(text[i..], term);
      assert text[i..][..|term|] == text[i..i + |term|];
      LowerSlice(text, i, i + |term|);
      assert OccursAt(lt, lterm, i);
    }
    if Includes(lt, lterm) {
      var i :| OccursAt(lt, lterm, i);
      LowerSlice(text, i, i + |term|);
      LiteralPrefix(text[i..], term);
      assert text[i..][..|term|] == text[i..i + |term|];
    }
  }
}
