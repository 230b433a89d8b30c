/**
 * The `movies` collection as the bot sees it: a map from code to document,
 * how a raw listing is turned into that map, and how `/listallmovies`
 * orders and splits its answer.
 */
module MovieStore {
  import opened Maybe
  import opened Strings
  import opened Sorting

  /**
   * One movie document. A field the document lacks is `None`; the write
   * `timestamp` is not modelled. Every document the bot writes carries a
   * timestamp, so a document that is present is a non-empty (truthy) dict.
   */
  datatype Movie = Movie(fileId: Option<string>, name: Option<string>)

  /** The collection, keyed by movie code (the document id). */
  type Movies = map<string, Movie>

  /** `movie.get('name', fallback)`. */
  function NameOr(m: Movie, fallback: string): (r: string)
    ensures m.name.Some? ==> r == m.name.value
    ensures m.name.None? ==> r == fallback
  {
    match m.name
    case Some(n) => n
    case None => fallback
  }

  /** What a listing of the store may come back as before it is normalised. */
  datatype StoreResult =
    | NoResult
    | AsDict(entries: Movies)
    | AsList(items: seq<Option<Movie>>)

  /**
   * The normalisation repeated in `get_next_available_code`,
   * `list_all_movies` and `handle_code_or_name`: a dict is taken as it is,
   * a list becomes a dict keyed by `str(index)` with the `None` items skipped.
   */
  method Normalise(raw: StoreResult) returns (m: Movies)
    ensures raw.NoResult? ==> m == map[]
    ensures raw.AsDict? ==> m == raw.entries
    ensures raw.AsList? ==>
      forall i :: 0 <= i < |raw.items| && raw.items[i].Some? ==>
        NatToString(i) in m && m[NatToString(i)] == raw.items[i].value
    ensures raw.AsList? ==>
      forall k :: k in m ==>
        && IsDigits(k)
        && DigitsValue(k) < |raw.items|
        && k == NatToString(DigitsValue(k))
        && raw.items[DigitsValue(k)] == Some(m[k])
  {
    m := map[];
    match raw {
      case NoResult =>
      case AsDict(entries) =>
        m := entries;
      case AsList(items) =>
        var i := 0;
        while i < |items|
          invariant 0 <= i <= |items|
          invariant forall j :: 0 <= j < i && items[j].Some? ==>
            NatToString(j) in m && m[NatToString(j)] == items[j].value
          invariant forall k :: k in m ==>
            && IsDigits(k)
            && DigitsValue(k) < i
            && k == NatToString(DigitsValue(k))
            && items[DigitsValue(k)] == Some(m[k])
        {
          if items[i].Some? {
            var key := NatToString(i);
            NatToStringRoundTrip(i);
            forall j | 0 <= j < i ensures NatToString(j) != key {
              if NatToString(j) == key {
                NatToStringInjective(j, i);
              }
            }
            m := m[key := items[i].value];
          }
          i := i + 1;
        }
    }
  }

  /**
   * The listing's sort key `(int(x) if x.isdigit() else float('inf'), x)`
   * as a comparison: codes made of digits first by value, then the others;
   * ties broken by the code string.
   */
  predicate CodeLe(a: string, b: string) {
    if IsDigits(a) && IsDigits(b) then
      DigitsValue(a) < DigitsValue(b) || (DigitsValue(a) == DigitsValue(b) && StrLe(a, b))
    else if IsDigits(a) then true
    else if IsDigits(b) then false
    else StrLe(a, b)
  }

  lemma CodeLeTotalPreorder()
    ensures IsTotalPreorder(CodeLe)
  {
    forall a, b ensures CodeLe(a, b) || CodeLe(b, a) {
      StrLeTotal(a, b);
    }
    forall a, b, c | CodeLe(a, b) && CodeLe(b, c) ensures CodeLe(a, c) {
      if StrLe(a, b) && StrLe(b, c) {
        StrLeTransitive(a, b, c);
      }
    }
  }

  /** Distinct codes never tie, so the listing order is fully determined. */
  lemma CodeLeAntisymmetric(a: string, b: string)
    requires CodeLe(a, b) && CodeLe(b, a)
    ensures a == b
  {
    StrLeAntisymmetric(a, b);
  }

  /** The order of a code listing sorted by `CodeLe`, as the docstring of `list_all_movies` states it. */
  lemma ListingOrder(codes: seq<string>, i: int, j: int)
    requires SortedBy(codes, CodeLe)
    requires 0 <= i < j < |codes|
    ensures !IsDigits(codes[i]) ==> !IsDigits(codes[j])
    ensures IsDigits(codes[i]) && IsDigits(codes[j]) ==> DigitsValue(codes[i]) <= DigitsValue(codes[j])
    ensures !IsDigits(codes[i]) && !IsDigits(codes[j]) ==> StrLe(codes[i], codes[j])
  {
    assert CodeLe(codes[i], codes[j]);
  }

  /** Telegram's limit on the length of one message. */
  const MessageLimit: nat := 4096

  function Concat(parts: seq<string>): string {
    if |parts| == 0 then "" else parts[0] + Concat(parts[1..])
  }

  /**
   * The message split of `list_all_movies`: the whole text when it fits,
   * otherwise consecutive 4096-character slices.
   */
  function Chunks(t: string): (r: seq<string>)
    ensures |r| >= 1
    ensures Concat(r) == t
    ensures forall i :: 0 <= i < |r| ==> |r[i]| <= MessageLimit
    ensures forall i :: 0 <= i < |r| - 1 ==> |r[i]| == MessageLimit
    ensures |t| > 0 ==> forall i :: 0 <= i < |r| ==> |r[i]| > 0
    decreases |t|
  {
    if |t| <= MessageLimit then [t]
    else
      var rest := Chunks(t[MessageLimit..]);
      assert t == t[..MessageLimit] + t[MessageLimit..];
      [t[..MessageLimit]] + rest
  }

  /**
   * Agreement with the comprehension
   * `[t[i:i + 4096] for i in range(0, len(t), 4096)]` that `list_all_movies`
   * uses when the text is too long: chunk `k` is the slice starting at
   * `4096 * k`.
   */
  lemma {:induction false} ChunkAt(t: string, k: nat)
    requires |t| > MessageLimit
    requires MessageLimit * k < |t|
    ensures k < |Chunks(t)|
    ensures Chunks(t)[k] == t[MessageLimit * k..Min(MessageLimit * (k + 1), |t|)]
    decreases |t|
  {
    var rest := t[MessageLimit..];
    assert Chunks(t) == [t[..MessageLimit]] + Chunks(rest);
    if k == 0 {
      assert Min(MessageLimit, |t|) == MessageLimit;
      assert t[..MessageLimit] == t[0..MessageLimit];
    } else if |rest| > MessageLimit {
      ChunkAt(rest, k - 1);
      assert Chunks(t)[k] == Chunks(rest)[k - 1];
      var lo, hi := MessageLimit * (k - 1), Min(MessageLimit * k, |rest|);
      var a, b := MessageLimit * k, Min(MessageLimit * (k + 1), |t|);
      assert MessageLimit + lo == a && MessageLimit + hi == b;
      SliceOfSlice(t, MessageLimit, lo, hi);
      assert rest[lo..hi] == t[a..b];
    } else {
      assert k == 1;
      assert Chunks(rest) == [rest];
      assert Min(MessageLimit * 2, |t|) == |t|;
      assert rest == t[MessageLimit..|t|];
    }
  }

  lemma SliceOfSlice(t: string, m: nat, lo: nat, hi: nat)
    requires m <= |t| && lo <= hi <= |t| - m
    ensures t[m..][lo..hi] == t[m + lo..m + hi]
  {
  }

  /** The number of chunks is the number of starting offsets `range(0, len(t), 4096)` yields. */
  lemma {:induction false} ChunkCount(t: string)
    requires |t| > MessageLimit
    ensures |Chunks(t)| == (|t| + MessageLimit - 1) / MessageLimit
    decreases |t|
  {
    var rest := t[MessageLimit..];
    if |rest| > MessageLimit {
      ChunkCount(rest);
    }
  }

  function Min(a: int, b: int): int {
    if a <= b then a else b
  }

  const ListingHeader: string := "<b>Barcha Filmlar Ro'yxati:</b>\n\n"

  /** One line of the listing: `Kod: <b>{code}</b> - {name}`. */
  function ListingLine(code: string, m: Movie): string {
    "Kod: <b>" + code + "</b> - " + NameOr(m, "Nomsiz Film") + "\n"
  }

  /** The lines for `codes`, in that order. */
  function ListingBody(codes: seq<string>, movies: Movies): string
    requires forall i :: 0 <= i < |codes| ==> codes[i] in movies
  {
    if |codes| == 0 then ""
    else ListingBody(codes[..|codes| - 1], movies) + ListingLine(codes[|codes| - 1], movies[codes[|codes| - 1]])
  }

  /** The keys of a map in some order, each exactly once: the iteration `sorted` performs over `dict.keys()`. */
  method KeysOf(movies: Movies) returns (keys: seq<string>)
    ensures |keys| == |movies|
    ensures forall k :: k in movies <==> k in keys
    ensures forall i, j :: 0 <= i < j < |keys| ==> keys[i] != keys[j]
  {
    keys := [];
    var rest := movies.Keys;
    while rest != {}
      invariant rest <= movies.Keys
      invariant forall k :: k in movies <==> k in keys || k in rest
      invariant forall k :: k in keys ==> k !in rest
      invariant forall i, j :: 0 <= i < j < |keys| ==> keys[i] != keys[j]
      invariant |keys| + |rest| == |movies|
      decreases |rest|
    {
      var k :| k in rest;
      keys := keys + [k];
      rest := rest - {k};
    }
  }

  /** The `response_text += ...` loop of `list_all_movies`. */
  method BuildListing(codes: seq<string>, movies: Movies) returns (text: string)
    requires forall i :: 0 <= i < |codes| ==> codes[i] in movies
    ensures text == ListingHeader + ListingBody(codes, movies)
  {
    text := ListingHeader;
    var i := 0;
    while i < |codes|
      invariant 0 <= i <= |codes|
      invariant text == ListingHeader + ListingBody(codes[..i], movies)
    {
      assert codes[..i + 1][..i] == codes[..i];
      text := text + ListingLine(codes[i], movies[codes[i]]);
      i := i + 1;
    }
    assert codes[..|codes|] == codes;
  }

  /** The codes of the catalog in listing order. */
  method SortedCodes(movies: Movies) returns (codes: seq<string>)
    ensures |codes| == |movies|
    ensures forall k :: k in movies <==> k in codes
    ensures SortedBy(codes, CodeLe)
  {
    var keys := KeysOf(movies);
    codes := SortBy(keys, CodeLe);
    CodeLeTotalPreorder();
    SortBySorted(keys, CodeLe);
    SameElements(keys, codes);
  }

  /**
   * `list_all_movies`: every code once, in listing order, one line each
   * after the header, split into messages Telegram accepts; an empty
   * catalog yields no listing messages (the caller then says so).
   */
  method ListAllMovies(movies: Movies) returns (codes: seq<string>, chunks: seq<string>)
    ensures |movies| == 0 ==> codes == [] && chunks == []
    ensures |codes| == |movies|
    ensures forall k :: k in movies <==> k in codes
    ensures SortedBy(codes, CodeLe)
    ensures |movies| > 0 ==> chunks == Chunks(ListingHeader + ListingBody(codes, movies))
  {
    if |movies| == 0 {
      return [], [];
    }
    codes := SortedCodes(movies);
    var text := BuildListing(codes, movies);
    chunks := Chunks(text);
  }
}
