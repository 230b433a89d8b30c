/**
 * The search behind a plain text message (`handle_code_or_name`): the text
 * is trimmed and lower-cased, tried as a code first, and otherwise matched
 * against the lower-cased movie names.
 */
module Lookup {
  import opened Maybe
  import opened Strings
  import opened Sorting
  import opened MovieStore

  /** The movie has a name and the query occurs in it, lower-cased. */
  predicate HasName(m: Movie, query: string) {
    m.name.Some? && IsSubstring(query, Lower(m.name.value))
  }

  /** The codes of all the movies the name search finds. */
  ghost function NameMatches(movies: Movies, query: string): set<string> {
    set c | c in movies && HasName(movies[c], query)
  }

  datatype Match = Match(code: string, movie: Movie)

  datatype LookupResult =
    | ExactCode(code: string, movie: Movie)
    | SingleName(code: string, movie: Movie)
    | Several(matches: seq<Match>)
    | NoMatch

  /** The display order of several matches: `x['data'].get('name', '').lower()`. */
  predicate NameLe(a: Match, b: Match) {
    StrLe(Lower(NameOr(a.movie, "")), Lower(NameOr(b.movie, "")))
  }

  lemma NameLeTotalPreorder()
    ensures IsTotalPreorder(NameLe)
  {
    forall a: Match, b: Match ensures NameLe(a, b) || NameLe(b, a) {
      StrLeTotal(Lower(NameOr(a.movie, "")), Lower(NameOr(b.movie, "")));
    }
    forall a: Match, b: Match, c: Match | NameLe(a, b) && NameLe(b, c) ensures NameLe(a, c) {
      StrLeTransitive(Lower(NameOr(a.movie, "")), Lower(NameOr(b.movie, "")), Lower(NameOr(c.movie, "")));
    }
  }

  ghost function CodesOf(ms: seq<Match>): set<string> {
    set i | 0 <= i < |ms| :: ms[i].code
  }

  lemma CodesOfSnoc(ms: seq<Match>, x: Match)
    ensures CodesOf(ms + [x]) == CodesOf(ms) + {x.code}
  {
    var t := ms + [x];
    forall c | c in CodesOf(ms) ensures c in CodesOf(t) {
      var i :| 0 <= i < |ms| && ms[i].code == c;
      assert t[i] == ms[i];
    }
    assert t[|ms|] == x;
  }

  predicate DistinctCodes(ms: seq<Match>) {
    forall i, j :: 0 <= i < j < |ms| ==> ms[i].code != ms[j].code
  }

  /** Matches with pairwise different codes: there are as many codes as matches. */
  lemma {:induction false} DistinctCodesCount(ms: seq<Match>)
    requires DistinctCodes(ms)
    ensures |CodesOf(ms)| == |ms|
    decreases |ms|
  {
    if |ms| > 0 {
      var init := ms[..|ms| - 1];
      DistinctCodesCount(init);
      assert ms == init + [ms[|ms| - 1]];
      CodesOfSnoc(init, ms[|ms| - 1]);
      assert ms[|ms| - 1].code !in CodesOf(init);
    }
  }

  /** As many codes as matches: no code occurs twice. */
  lemma CountImpliesDistinct(ms: seq<Match>)
    requires |CodesOf(ms)| == |ms|
    ensures DistinctCodes(ms)
  {
    if !DistinctCodes(ms) {
      var i, j :| 0 <= i < j < |ms| && ms[i].code == ms[j].code;
      var rest := ms[..j] + ms[j + 1..];
      forall c | c in CodesOf(ms) ensures c in CodesOf(rest) {
        var k :| 0 <= k < |ms| && ms[k].code == c;
        if k < j {
          assert rest[k] == ms[k];
        } else if k == j {
          assert rest[i] == ms[i];
        } else {
          assert rest[k - 1] == ms[k];
        }
      }
      assert CodesOf(ms) <= CodesOf(rest);
      assert |rest| == |ms| - 1;
      CodesBound(rest);
      SubsetCard(CodesOf(ms), CodesOf(rest));
      assert false;
    }
  }

  /** The permutation a sort performs keeps the set of codes and their distinctness. */
  lemma PermutationKeepsCodes(a: seq<Match>, b: seq<Match>)
    requires multiset(a) == multiset(b)
    requires DistinctCodes(a)
    ensures CodesOf(a) == CodesOf(b)
    ensures DistinctCodes(b)
  {
    SameElements(a, b);
    forall c ensures c in CodesOf(a) <==> c in CodesOf(b) {
      if c in CodesOf(a) {
        var i :| 0 <= i < |a| && a[i].code == c;
        assert a[i] in b;
      }
      if c in CodesOf(b) {
        var i :| 0 <= i < |b| && b[i].code == c;
        assert b[i] in a;
      }
    }
    assert CodesOf(a) == CodesOf(b);
    assert |a| == |b| by {
      assert |multiset(a)| == |a| && |multiset(b)| == |b|;
    }
    DistinctCodesCount(a);
    CountImpliesDistinct(b);
  }

  lemma SubsetCard(a: set<string>, b: set<string>)
    requires a <= b
    ensures |a| <= |b|
  {
    if a != b {
      assert |b| == |a| + |b - a|;
    }
  }

  /** There are never more codes than matches. */
  lemma {:induction false} CodesBound(ms: seq<Match>)
    ensures |CodesOf(ms)| <= |ms|
    decreases |ms|
  {
    if |ms| > 0 {
      var init := ms[..|ms| - 1];
      CodesBound(init);
      assert ms == init + [ms[|ms| - 1]];
      CodesOfSnoc(init, ms[|ms| - 1]);
    }
  }

  ghost function NamedAmong(movies: Movies, query: string, seen: set<string>): set<string> {
    set c | c in seen && c in movies && HasName(movies[c], query)
  }

  lemma NamedAmongStep(movies: Movies, query: string, seen: set<string>, code: string)
    requires code in movies
    ensures NamedAmong(movies, query, seen + {code})
      == NamedAmong(movies, query, seen) + (if HasName(movies[code], query) then {code} else {})
  {
  }

  /** Every match carries the movie stored under its code. */
  predicate FromCatalog(ms: seq<Match>, movies: Movies) {
    forall i :: 0 <= i < |ms| ==> ms[i].code in movies && ms[i].movie == movies[ms[i].code]
  }

  lemma FromCatalogSnoc(ms: seq<Match>, movies: Movies, code: string)
    requires FromCatalog(ms, movies) && code in movies
    ensures FromCatalog(ms + [Match(code, movies[code])], movies)
  {
    var t := ms + [Match(code, movies[code])];
    forall i | 0 <= i < |t| ensures t[i].code in movies && t[i].movie == movies[t[i].code] {
      if i < |ms| { assert t[i] == ms[i]; }
    }
  }

  /** The `for code, data in all_movies.items()` loop: every movie whose name contains the query, once each. */
  method CollectNameMatches(movies: Movies, query: string) returns (matched: seq<Match>)
    ensures CodesOf(matched) == NameMatches(movies, query)
    ensures DistinctCodes(matched)
    ensures |matched| == |NameMatches(movies, query)|
    ensures FromCatalog(matched, movies)
  {
    matched := [];
    var rest := movies.Keys;
    while rest != {}
      invariant rest <= movies.Keys
      invariant CodesOf(matched) == NamedAmong(movies, query, movies.Keys - rest)
      invariant |CodesOf(matched)| == |matched|
      invariant CodesOf(matched) !! rest
      invariant FromCatalog(matched, movies)
      decreases |rest|
    {
      var code :| code in rest;
      var m := movies[code];
      assert movies.Keys - (rest - {code}) == (movies.Keys - rest) + {code};
      NamedAmongStep(movies, query, movies.Keys - rest, code);
      if HasName(m, query) {
        CodesOfSnoc(matched, Match(code, m));
        FromCatalogSnoc(matched, movies, code);
        matched := matched + [Match(code, m)];
      }
      rest := rest - {code};
    }
    assert NamedAmong(movies, query, movies.Keys) == NameMatches(movies, query);
    CountImpliesDistinct(matched);
  }

  /**
   * The lookup of `handle_code_or_name`, for text that reached it (no
   * workflow open, not starting with `/`): an exact code wins; otherwise
   * the name search decides between one movie, a choice sorted by name,
   * and nothing.
   */
  method Resolve(text: string, movies: Movies) returns (r: LookupResult)
    ensures var q := Normalize(text);
      && (q in movies ==> r == ExactCode(q, movies[q]))
      && (q !in movies ==> !r.ExactCode?)
      && (q !in movies ==> (r.NoMatch? <==> NameMatches(movies, q) == {}))
      && (q !in movies ==> (r.SingleName? <==> |NameMatches(movies, q)| == 1))
      && (q !in movies ==> (r.Several? <==> |NameMatches(movies, q)| >= 2))
      && (r.SingleName? ==> NameMatches(movies, q) == {r.code} && r.movie == movies[r.code])
      && (r.Several? ==>
            && CodesOf(r.matches) == NameMatches(movies, q)
            && |r.matches| == |NameMatches(movies, q)|
            && DistinctCodes(r.matches)
            && SortedBy(r.matches, NameLe)
            && FromCatalog(r.matches, movies))
  {
    var query := Normalize(text);
    if query in movies {
      return ExactCode(query, movies[query]);
    }
    var matched := CollectNameMatches(movies, query);
    if |matched| == 1 {
      assert CodesOf(matched) == {matched[0].code};
      return SingleName(matched[0].code, matched[0].movie);
    } else if |matched| > 1 {
      var sorted := SortBy(matched, NameLe);
      NameLeTotalPreorder();
      SortBySorted(matched, NameLe);
      PermutationKeepsCodes(matched, sorted);
      SameElements(matched, sorted);
      assert FromCatalog(matched, movies);
      forall i | 0 <= i < |sorted| ensures sorted[i].code in movies && sorted[i].movie == movies[sorted[i].code] {
        assert sorted[i] in matched;
      }
      return Several(sorted);
    }
    assert CodesOf(matched) == {};
    return NoMatch;
  }

  /**
   * A code typed with whitespace around it, or with some ASCII letters in
   * capitals, normalises to the stored lower-case code; Resolve's first
   * ensures then answers with that code's movie.
   */
  lemma ExactCodeIgnoresCaseAndSpace(pre: string, typed: string, post: string, code: string)
    requires forall i :: 0 <= i < |pre| ==> IsSpace(pre[i])
    requires forall i :: 0 <= i < |post| ==> IsSpace(post[i])
    requires Normalize(code) == code
    requires Lower(typed) == code
    ensures Normalize(pre + typed + post) == code
  {
    LowerKeepsSpace(typed);
    NormalizePadding(pre, typed, post);
    LowerIdempotent(Strip(code));
    NormalizeIgnoresCase(typed, code);
  }

  /** The empty query occurs in every name: when it is not a code, the name search finds every movie that has a name. */
  lemma EmptyQueryMatchesAllNamed(movies: Movies)
    ensures NameMatches(movies, "") == set c | c in movies && movies[c].name.Some?
  {
    forall c | c in movies && movies[c].name.Some? ensures HasName(movies[c], "") {
      assert StartsWith(Lower(movies[c].name.value), "");
    }
  }
}
