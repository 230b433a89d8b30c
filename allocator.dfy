/**
 * `get_next_available_code`: the code suggested to an admin who starts
 * `/addmovie`. The digit-only codes are read as integers and sorted; the
 * answer is the first position `i + 1` whose value is not `i + 1`, or the
 * largest value plus one when there is no such position.
 */
module CodeAllocator {
  import opened Strings
  import opened Sorting
  import opened MovieStore

  /** How many codes in `keys` are digit strings of value `v`. */
  ghost function Count(keys: set<string>, v: nat): nat {
    |set k | k in keys && IsDigits(k) && DigitsValue(k) == v|
  }

  /** The values of the digit-only codes. */
  ghost function Used(keys: set<string>): set<nat> {
    set k | k in keys && IsDigits(k) :: DigitsValue(k)
  }

  /**
   * The sorted values of the digit-only codes begin with 1, 2, ..., j: no
   * code has value 0, each of 1 .. j - 1 is the value of exactly one code,
   * and j is the value of at least one.
   */
  ghost predicate Filled(keys: set<string>, j: nat) {
    && Count(keys, 0) == 0
    && (forall i :: 1 <= i < j ==> Count(keys, i) == 1)
    && Count(keys, j) >= 1
  }

  /** `r` is what `get_next_available_code` answers for a catalog whose codes are `keys`. */
  ghost predicate IsNextCode(keys: set<string>, r: nat) {
    && r >= 1
    && (forall j :: 1 <= j < r ==> Filled(keys, j))
    && !Filled(keys, r)
  }

  /** The values of the digit-only codes are positive and pairwise different. */
  ghost predicate DistinctPositive(keys: set<string>) {
    && (forall k :: k in keys && IsDigits(k) ==> DigitsValue(k) > 0)
    && (forall k1, k2 ::
          k1 in keys && k2 in keys && IsDigits(k1) && IsDigits(k2) && DigitsValue(k1) == DigitsValue(k2)
          ==> k1 == k2)
  }

  /** The promise of the docstring: the smallest positive integer not in use. */
  ghost predicate IsSmallestUnused(used: set<nat>, r: nat) {
    r >= 1 && r !in used && forall j :: 1 <= j < r ==> j in used
  }

  /** The first loop of the allocator: the values of the digit-only codes, with their multiplicities. */
  method CollectCodes(movies: Movies) returns (codes: seq<nat>)
    ensures forall v: nat :: multiset(codes)[v] == Count(movies.Keys, v)
  {
    codes := [];
    ghost var seen: set<string> := {};
    var rest := movies.Keys;
    while rest != {}
      invariant seen + rest == movies.Keys && seen !! rest
      invariant forall v: nat :: multiset(codes)[v] == Count(seen, v)
      decreases |rest|
    {
      var k :| k in rest;
      CountAdd(seen, k);
      if IsDigits(k) {
        codes := codes + [DigitsValue(k)];
      }
      seen := seen + {k};
      rest := rest - {k};
    }
  }

  /**
   * `get_next_available_code`: collect the values of the digit-only
   * codes, sort them, scan for the first gap.
   */
  method NextAvailableCode(movies: Movies) returns (r: nat)
    ensures IsNextCode(movies.Keys, r)
  {
    var codes := CollectCodes(movies);
    var sorted := SortBy(codes, NatLe);
    NatLeTotalPreorder();
    SortBySorted(codes, NatLe);
    r := ScanSorted(movies.Keys, sorted);
  }

  /**
   * The answer read off the sorted values: 1 when there are none, the first
   * position `i + 1` holding another value, or the last value plus one.
   */
  method ScanSorted(ghost keys: set<string>, sorted: seq<nat>) returns (r: nat)
    requires forall v: nat :: multiset(sorted)[v] == Count(keys, v)
    requires SortedBy(sorted, NatLe)
    ensures IsNextCode(keys, r)
  {
    if |sorted| == 0 {
      SortedPrefixIsNextCode(keys, [], 0);
      return 1;
    }
    var k := FirstGap(sorted);
    SortedPrefixIsNextCode(keys, sorted, k);
    if k < |sorted| {
      return k + 1;
    }
    assert sorted[|sorted| - 1] == k;
    r := sorted[|sorted| - 1] + 1;
  }

  /** The scan `for i, code in enumerate(numerical_codes)`: the first position whose value is not its index plus one. */
  method FirstGap(s: seq<nat>) returns (k: nat)
    ensures k <= |s|
    ensures forall j :: 0 <= j < k ==> s[j] == j + 1
    ensures k == |s| || s[k] != k + 1
  {
    k := 0;
    while k < |s|
      invariant 0 <= k <= |s|
      invariant forall j :: 0 <= j < k ==> s[j] == j + 1
    {
      if s[k] != k + 1 {
        return;
      }
      k := k + 1;
    }
  }

  /** Adding one more code to the scanned set adds at most one to one count. */
  lemma CountAdd(seen: set<string>, k: string)
    requires k !in seen
    ensures forall v: nat ::
      (Count(seen + {k}, v) == Count(seen, v) + (if IsDigits(k) && DigitsValue(k) == v then 1 else 0))
  {
    forall v: nat ensures Count(seen + {k}, v) ==
      Count(seen, v) + (if IsDigits(k) && DigitsValue(k) == v then 1 else 0)
    {
      var before := set x | x in seen && IsDigits(x) && DigitsValue(x) == v;
      var after := set x | x in seen + {k} && IsDigits(x) && DigitsValue(x) == v;
      if IsDigits(k) && DigitsValue(k) == v {
        assert after == before + {k};
      } else {
        assert after == before;
      }
    }
  }

  lemma OccursOnce(s: seq<nat>, idx: nat)
    requires idx < |s|
    requires forall m :: 0 <= m < |s| && m != idx ==> s[m] != s[idx]
    ensures multiset(s)[s[idx]] == 1
  {
    var v := s[idx];
    assert s == s[..idx] + [v] + s[idx + 1..];
    assert v !in s[..idx];
    assert v !in s[idx + 1..];
  }

  lemma OccursTwice(s: seq<nat>, idx: nat)
    requires idx + 1 < |s|
    requires s[idx] == s[idx + 1]
    ensures multiset(s)[s[idx]] >= 2
  {
    assert s == s[..idx] + [s[idx], s[idx + 1]] + s[idx + 2..];
  }

  /**
   * The scan's result read off the sorted values: if the first `k` sorted
   * values are 1 .. k and the next one (if any) is not k + 1, the answer is
   * k + 1.
   */
  lemma SortedPrefixIsNextCode(keys: set<string>, s: seq<nat>, k: nat)
    requires forall v: nat :: multiset(s)[v] == Count(keys, v)
    requires SortedBy(s, NatLe)
    requires k <= |s|
    requires forall j :: 0 <= j < k ==> s[j] == j + 1
    requires k == |s| || s[k] != k + 1
    ensures IsNextCode(keys, k + 1)
  {
    if k >= 1 {
      assert forall m :: 0 <= m < |s| ==> s[m] != 0 by {
        forall m | 0 <= m < |s| ensures s[m] != 0 {
          if m > 0 { assert NatLe(s[0], s[m]); }
        }
      }
      assert 0 !in multiset(s);
      assert Count(keys, 0) == 0;
    }
    forall i | 1 <= i < k ensures Count(keys, i) == 1 {
      forall m | 0 <= m < |s| && m != i - 1 ensures s[m] != s[i - 1] {
        if m > i - 1 { assert NatLe(s[i], s[m]); }
      }
      OccursOnce(s, i - 1);
    }
    forall j | 1 <= j <= k ensures Filled(keys, j) {
      assert s[j - 1] in multiset(s);
    }
    if k == |s| {
      assert k + 1 !in multiset(s);
    } else if k == 0 {
      if s[0] == 0 {
        assert 0 in multiset(s);
      } else {
        forall m | 0 <= m < |s| ensures s[m] != 1 {
          if m > 0 { assert NatLe(s[0], s[m]); }
        }
        assert 1 !in multiset(s);
      }
    } else {
      assert NatLe(s[k - 1], s[k]);
      if s[k] == k {
        OccursTwice(s, k - 1);
      } else {
        forall m | 0 <= m < |s| ensures s[m] != k + 1 {
          if m > k { assert NatLe(s[k], s[m]); }
        }
        assert k + 1 !in multiset(s);
      }
    }
  }

  /** The answer is a function of the codes: two answers for the same codes agree. */
  lemma NextCodeUnique(keys: set<string>, r1: nat, r2: nat)
    requires IsNextCode(keys, r1) && IsNextCode(keys, r2)
    ensures r1 == r2
  {
  }

  /** Without a digit-only code the answer is 1. */
  lemma NoDigitCodesGiveOne(keys: set<string>, r: nat)
    requires forall k :: k in keys ==> !IsDigits(k)
    ensures IsNextCode(keys, r) <==> r == 1
  {
    assert Used(keys) == {};
    CountPositiveIsUsed(keys, 1);
    assert !Filled(keys, 1);
  }

  /** Codes that are not digit strings never change the answer. */
  lemma NonDigitCodesIgnored(keys: set<string>, extra: set<string>, r: nat)
    requires forall k :: k in extra ==> !IsDigits(k)
    ensures IsNextCode(keys + extra, r) <==> IsNextCode(keys, r)
  {
    forall v: nat ensures Count(keys + extra, v) == Count(keys, v) {
      assert (set k | k in keys + extra && IsDigits(k) && DigitsValue(k) == v)
          == (set k | k in keys && IsDigits(k) && DigitsValue(k) == v);
    }
    forall j: nat ensures Filled(keys + extra, j) == Filled(keys, j) {
    }
  }

  /** A value has a code exactly when some digit-only code denotes it. */
  lemma CountPositiveIsUsed(keys: set<string>, v: nat)
    ensures Count(keys, v) > 0 <==> v in Used(keys)
  {
    var s := set k | k in keys && IsDigits(k) && DigitsValue(k) == v;
    if v in Used(keys) {
      var k :| k in keys && IsDigits(k) && DigitsValue(k) == v;
      assert k in s;
    }
    if |s| > 0 {
      assert s != {};
      var k :| k in s;
      assert v in Used(keys);
    }
  }

  /** Under distinct positive values, each value is taken by at most one code, and 0 by none. */
  lemma CountWhenDistinct(keys: set<string>, v: nat)
    requires DistinctPositive(keys)
    ensures Count(keys, v) <= 1
    ensures Count(keys, v) == 1 <==> v in Used(keys)
    ensures Count(keys, 0) == 0
  {
    var s := set k | k in keys && IsDigits(k) && DigitsValue(k) == v;
    if v in Used(keys) {
      var k0 :| k0 in keys && IsDigits(k0) && DigitsValue(k0) == v;
      assert s == {k0};
    } else {
      assert s == {};
    }
    assert (set k | k in keys && IsDigits(k) && DigitsValue(k) == 0) == {};
  }

  /**
   * When the digit-only codes denote distinct positive integers, the
   * allocator keeps its docstring's promise: its answer is exactly the
   * smallest positive integer no code denotes.
   */
  lemma NextCodeIsSmallestUnused(keys: set<string>, r: nat)
    requires DistinctPositive(keys)
    ensures IsNextCode(keys, r) <==> IsSmallestUnused(Used(keys), r)
  {
    forall v: nat ensures Count(keys, v) <= 1 && (Count(keys, v) == 1 <==> v in Used(keys)) {
      CountWhenDistinct(keys, v);
    }
    CountWhenDistinct(keys, 0);
    if IsNextCode(keys, r) {
      forall j | 1 <= j < r ensures j in Used(keys) {
        assert Filled(keys, j);
      }
    }
    if IsSmallestUnused(Used(keys), r) {
      forall j | 1 <= j < r ensures Filled(keys, j) {
        assert forall i :: 1 <= i < j ==> i in Used(keys);
      }
      assert !Filled(keys, r);
    }
  }

  /** With codes 1 .. m all present (and distinct), the answer is m + 1. */
  lemma FullSequenceGivesMaxPlusOne(keys: set<string>, m: nat, r: nat)
    requires DistinctPositive(keys)
    requires forall i :: 1 <= i <= m ==> i in Used(keys)
    requires forall u :: u in Used(keys) ==> u <= m
    requires IsNextCode(keys, r)
    ensures r == m + 1
  {
    NextCodeIsSmallestUnused(keys, r);
    assert m + 1 !in Used(keys);
  }

  /** Codes "0" and "1": the answer is 1, a value code "1" already has. */
  lemma ZeroCodeCounterexample()
    ensures IsNextCode({"0", "1"}, 1)
    ensures 1 in Used({"0", "1"})
  {
    var keys: set<string> := {"0", "1"};
    assert IsDigits("0") && DigitsValue("0") == 0;
    assert IsDigits("1") && DigitsValue("1") == 1;
    var zeros := set k | k in keys && IsDigits(k) && DigitsValue(k) == 0;
    assert "0" in zeros;
    assert Count(keys, 0) >= 1;
    assert "1" in keys;
  }

  /** Codes "1", "01" and "2": the answer is 2, which code "2" already has. */
  lemma LeadingZeroCounterexample()
    ensures IsNextCode({"1", "01", "2"}, 2)
    ensures 2 in Used({"1", "01", "2"})
  {
    var keys: set<string> := {"1", "01", "2"};
    assert DigitsValue("1") == 1 && DigitsValue("01") == 1 && DigitsValue("2") == 2;
    var ones := set k | k in keys && IsDigits(k) && DigitsValue(k) == 1;
    assert ones == {"1", "01"};
    assert Count(keys, 1) == 2;
    assert (set k | k in keys && IsDigits(k) && DigitsValue(k) == 0) == {};
    assert Filled(keys, 1);
  }
}
