/**
 * Reading a suggested code and a suggested name out of the caption of a
 * movie file, as `process_movie_file` does with two case-insensitive
 * regular expressions applied to every line:
 *
 *   code: `(?:kod|code)\s*[:=]?\s*(\S+)`
 *   name: `(?:nomi|sarlavha|title)\s*[:=]?\s*(.+)`
 *
 * The searches follow `re.search` on ASCII text: the leftmost position
 * where the whole pattern matches wins, and at one position the greedy
 * quantifiers back off in the order the engine tries them. Case folding
 * is ASCII only, so the two non-ASCII letters that `re.IGNORECASE` also
 * folds onto `k` and `s` (KELVIN SIGN and LATIN SMALL LETTER LONG S) do
 * not match here.
 */
module Caption {
  import opened Maybe
  import opened Strings

  datatype Pattern = CodePattern | NamePattern

  /** The alternatives of the leading group, in the order the engine tries them. */
  function Keywords(pat: Pattern): seq<string> {
    match pat
    case CodePattern => ["kod", "code"]
    case NamePattern => ["nomi", "sarlavha", "title"]
  }

  /**
   * Where the first alternative that occurs at offset `p` of the lower-cased
   * line ends. The alternatives of each pattern begin with different letters,
   * so at most one of them can match at a given offset and the engine has no
   * second alternative to back off into.
   */
  function KeywordEnd(low: string, p: nat, kws: seq<string>): (r: Option<nat>)
    requires p <= |low|
    ensures r.Some? ==> p <= r.value <= |low|
    decreases |kws|
  {
    if |kws| == 0 then None
    else if StartsWith(low[p..], kws[0]) then Some(p + |kws[0]|)
    else KeywordEnd(low, p, kws[1..])
  }

  /**
   * What `\s*[:=]?\s*(\S+)` captures at the start of `rest`, or `None` when it
   * cannot match there. The first `\s*` takes all the leading whitespace; an
   * optional `:` or `=` is taken when a non-space follows it after more
   * whitespace, and otherwise given back so that `\S+` starts at it.
   */
  function CodeGroup(rest: string): (r: Option<string>)
    ensures r.Some? ==> |r.value| > 0 && forall i :: 0 <= i < |r.value| ==> !IsSpace(r.value[i])
    ensures r.None? <==> LStrip(rest) == ""
  {
    var r1 := LStrip(rest);
    LStripShape(rest);
    if r1 == "" then None
    else if (r1[0] == ':' || r1[0] == '=') && LStrip(r1[1..]) != "" then
      LStripShape(r1[1..]);
      NonSpaceRunShape(LStrip(r1[1..]));
      Some(NonSpaceRun(LStrip(r1[1..])))
    else
      NonSpaceRunShape(r1);
      Some(NonSpaceRun(r1))
  }

  /**
   * What `\s*[:=]?\s*(.+)` captures at the start of `rest` (a line holds no
   * newline, so `.` matches every character of it), or `None` when `rest` is
   * empty. When only whitespace is left after the keyword or after the
   * separator, the engine backs the last `\s*` off by one character so that
   * `.+` takes that single whitespace character; a lone separator at the end
   * of the line is captured itself.
   */
  function NameGroup(rest: string): (r: Option<string>)
    ensures r.Some? ==> |r.value| > 0
    ensures r.None? <==> rest == ""
  {
    if rest == "" then None
    else
      var r1 := LStrip(rest);
      if r1 == "" then Some([rest[|rest| - 1]])
      else if r1[0] == ':' || r1[0] == '=' then
        var t := r1[1..];
        if LStrip(t) != "" then Some(LStrip(t))
        else if t != "" then Some([t[|t| - 1]])
        else Some([r1[0]])
      else Some(r1)
  }

  function Group(pat: Pattern, rest: string): Option<string> {
    match pat
    case CodePattern => CodeGroup(rest)
    case NamePattern => NameGroup(rest)
  }

  /** The capture of the whole pattern when it matches at offset `p` of `line`. */
  function MatchAt(pat: Pattern, line: string, p: nat): Option<string>
    requires p <= |line|
  {
    var e := KeywordEnd(Lower(line), p, Keywords(pat));
    if e.Some? then Group(pat, line[e.value..]) else None
  }

  /** The first present value, scanning from the front. */
  function FirstSome<T>(s: seq<Option<T>>): Option<T>
    decreases |s|
  {
    if |s| == 0 then None else if s[0].Some? then s[0] else FirstSome(s[1..])
  }

  /** The first present value is the one at the least index holding a value, and there is none only when no index holds one. */
  lemma {:induction false} FirstSomeIsFirst<T>(s: seq<Option<T>>)
    ensures FirstSome(s).None? <==> forall i :: 0 <= i < |s| ==> s[i].None?
    ensures FirstSome(s).Some? ==>
      exists i :: 0 <= i < |s| && FirstSome(s) == s[i] && forall j :: 0 <= j < i ==> s[j].None?
    decreases |s|
  {
    if |s| > 0 && s[0].None? {
      var t := s[1..];
      FirstSomeIsFirst(t);
      assert forall i :: 0 <= i < |t| ==> t[i] == s[i + 1];
      if FirstSome(t).Some? {
        var i :| 0 <= i < |t| && FirstSome(t) == t[i] && forall j :: 0 <= j < i ==> t[j].None?;
        assert FirstSome(s) == s[i + 1];
        assert forall j :: 0 <= j < i + 1 ==> s[j].None? by {
          forall j | 0 <= j < i + 1 ensures s[j].None? {
            if j > 0 { assert s[j] == t[j - 1]; }
          }
        }
      } else {
        forall i | 0 <= i < |s| ensures s[i].None? {
          if i > 0 { assert s[i] == t[i - 1]; }
        }
      }
    }
  }

  /** The last present value, scanning from the front and letting a later value replace an earlier one. */
  function LastSome<T>(s: seq<Option<T>>): Option<T>
    decreases |s|
  {
    if |s| == 0 then None else if s[|s| - 1].Some? then s[|s| - 1] else LastSome(s[..|s| - 1])
  }

  /** The last present value is the one at the greatest index holding a value, and there is none only when no index holds one. */
  lemma {:induction false} LastSomeIsLast<T>(s: seq<Option<T>>)
    ensures LastSome(s).None? <==> forall i :: 0 <= i < |s| ==> s[i].None?
    ensures LastSome(s).Some? ==>
      exists i :: 0 <= i < |s| && LastSome(s) == s[i] && forall j :: i < j < |s| ==> s[j].None?
    decreases |s|
  {
    if |s| > 0 && s[|s| - 1].None? {
      var t := s[..|s| - 1];
      LastSomeIsLast(t);
      assert forall i :: 0 <= i < |t| ==> t[i] == s[i];
      if LastSome(t).Some? {
        var i :| 0 <= i < |t| && LastSome(t) == t[i] && forall j :: i < j < |t| ==> t[j].None?;
        assert LastSome(s) == s[i];
      }
    }
  }

  /** Scanning one more value: it replaces the last one when it is present. */
  lemma LastSomeStep<T>(s: seq<Option<T>>, i: nat)
    requires i < |s|
    ensures LastSome(s[..i + 1]) == if s[i].Some? then s[i] else LastSome(s[..i])
  {
    assert s[..i + 1][..i] == s[..i];
  }

  /** The capture at each offset `0 .. |line|` of the line. */
  function Matches(pat: Pattern, line: string): (r: seq<Option<string>>)
    ensures |r| == |line| + 1
    ensures forall q :: 0 <= q <= |line| ==> r[q] == MatchAt(pat, line, q)
  {
    seq(|line| + 1, q requires 0 <= q <= |line| => MatchAt(pat, line, q))
  }

  /** `re.search`: the capture at the leftmost offset where the pattern matches. */
  function Search(pat: Pattern, line: string): Option<string> {
    FirstSome(Matches(pat, line))
  }

  /** The search finds the capture of the leftmost offset at which the pattern matches, and nothing when there is none. */
  lemma SearchLeftmost(pat: Pattern, line: string)
    ensures Search(pat, line).None? <==> forall q :: 0 <= q <= |line| ==> MatchAt(pat, line, q).None?
    ensures Search(pat, line).Some? ==>
      exists q :: 0 <= q <= |line| && Search(pat, line) == MatchAt(pat, line, q)
        && forall q' :: 0 <= q' < q ==> MatchAt(pat, line, q').None?
  {
    var ms := Matches(pat, line);
    FirstSomeIsFirst(ms);
    if Search(pat, line).Some? {
      var q :| 0 <= q < |ms| && FirstSome(ms) == ms[q] && forall j :: 0 <= j < q ==> ms[j].None?;
      assert Search(pat, line) == MatchAt(pat, line, q);
    }
  }

  /** `code_match.group(1).strip().lower()` for one line, when the code pattern matches it. */
  function CodeInLine(line: string): Option<string> {
    match Search(CodePattern, line)
    case Some(g) => Some(Lower(Strip(g)))
    case None => None
  }

  /** `name_match.group(1).strip()` for one line, when the name pattern matches it. */
  function NameInLine(line: string): Option<string> {
    match Search(NamePattern, line)
    case Some(g) => Some(Strip(g))
    case None => None
  }

  /** What the code pattern captures is one non-empty run of non-space characters. */
  lemma SearchCodeShape(line: string)
    requires Search(CodePattern, line).Some?
    ensures var g := Search(CodePattern, line).value;
      |g| > 0 && forall i :: 0 <= i < |g| ==> !IsSpace(g[i])
  {
    SearchLeftmost(CodePattern, line);
    var q :| 0 <= q <= |line| && Search(CodePattern, line) == MatchAt(CodePattern, line, q)
      && forall q' :: 0 <= q' < q ==> MatchAt(CodePattern, line, q').None?;
    var e := KeywordEnd(Lower(line), q, Keywords(CodePattern));
    assert MatchAt(CodePattern, line, q) == CodeGroup(line[e.value..]);
  }

  /** A suggested code is one non-empty lower-case word: no whitespace and no upper-case ASCII letter. */
  lemma CodeInLineShape(line: string)
    requires CodeInLine(line).Some?
    ensures var c := CodeInLine(line).value;
      && |c| > 0
      && (forall i :: 0 <= i < |c| ==> !IsSpace(c[i]) && !('A' <= c[i] <= 'Z'))
  {
    var g := Search(CodePattern, line).value;
    SearchCodeShape(line);
    StrippedFixed(g);
    LowerKeepsSpace(g);
  }

  /** A suggested name never begins or ends with whitespace. */
  lemma NameInLineStripped(line: string)
    requires NameInLine(line).Some?
    ensures IsStripped(NameInLine(line).value)
  {
    StripShape(Search(NamePattern, line).value);
  }

  function LineValue(pat: Pattern, line: string): Option<string> {
    match pat
    case CodePattern => CodeInLine(line)
    case NamePattern => NameInLine(line)
  }

  /** What each line gives, in order. */
  function LineValues(lines: seq<string>, pat: Pattern): (r: seq<Option<string>>)
    ensures |r| == |lines|
    ensures forall i :: 0 <= i < |lines| ==> r[i] == LineValue(pat, lines[i])
  {
    seq(|lines|, i requires 0 <= i < |lines| => LineValue(pat, lines[i]))
  }

  /** What the scan keeps, as a value of the last line that matched. */
  function LastFound(lines: seq<string>, pat: Pattern): Option<string> {
    LastSome(LineValues(lines, pat))
  }

  /** A later matching line overrides every earlier one: the result is the value of the last line that matches. */
  lemma LastFoundIsLast(lines: seq<string>, pat: Pattern)
    ensures LastFound(lines, pat).None? <==> forall i :: 0 <= i < |lines| ==> LineValue(pat, lines[i]).None?
    ensures LastFound(lines, pat).Some? ==>
      exists i :: 0 <= i < |lines| && LastFound(lines, pat) == LineValue(pat, lines[i])
        && forall j :: i < j < |lines| ==> LineValue(pat, lines[j]).None?
  {
    var vs := LineValues(lines, pat);
    LastSomeIsLast(vs);
    if LastFound(lines, pat).Some? {
      var i :| 0 <= i < |vs| && LastSome(vs) == vs[i] && forall j :: i < j < |vs| ==> vs[j].None?;
      assert LastFound(lines, pat) == LineValue(pat, lines[i]);
    }
  }

  /** The lines `process_movie_file` scans: the stripped caption (empty when there is none) split at newlines. */
  function CaptionLines(caption: Option<string>): seq<string> {
    SplitOn(if caption.Some? then Strip(caption.value) else "", '\n')
  }

  /** A found value, or `""` for nothing found: the initial value of the scan's variables. */
  function OrEmpty(o: Option<string>): string {
    if o.Some? then o.value else ""
  }

  /**
   * The scan of the caption: every line is tried against both patterns and
   * a match overwrites what an earlier line gave; `""` stands for no match.
   */
  method ParseCaption(caption: Option<string>) returns (code: string, name: string)
    ensures code == OrEmpty(LastFound(CaptionLines(caption), CodePattern))
    ensures name == OrEmpty(LastFound(CaptionLines(caption), NamePattern))
  {
    var lines := CaptionLines(caption);
    ghost var codes := LineValues(lines, CodePattern);
    ghost var names := LineValues(lines, NamePattern);
    code, name := "", "";
    var i := 0;
    while i < |lines|
      invariant 0 <= i <= |lines|
      invariant code == OrEmpty(LastSome(codes[..i]))
      invariant name == OrEmpty(LastSome(names[..i]))
    {
      LastSomeStep(codes, i);
      LastSomeStep(names, i);
      var c := CodeInLine(lines[i]);
      if c.Some? {
        code := c.value;
      }
      var n := NameInLine(lines[i]);
      if n.Some? {
        name := n.value;
      }
      i := i + 1;
    }
    assert codes[..|lines|] == codes;
    assert names[..|lines|] == names;
  }

  /**
   * The code buttons offered after a file arrives: the code the allocator
   * suggested, when there is one, then the caption's code when it is
   * non-empty and different from it.
   */
  function CodeSuggestions(sequenceCode: Option<string>, captionCode: string): seq<string> {
    (if Truthy(sequenceCode) then [sequenceCode.value] else [])
    + (if captionCode != "" && Some(captionCode) != sequenceCode then [captionCode] else [])
  }

  /**
   * The buttons are exactly the allocator's code, when there is one, and the
   * caption's code, when it is non-empty and not the same; no code is offered
   * twice, none is empty, and the allocator's code comes first.
   */
  lemma CodeSuggestionsSpec(sequenceCode: Option<string>, captionCode: string)
    ensures var r := CodeSuggestions(sequenceCode, captionCode);
      && (forall c :: c in r <==>
            (Truthy(sequenceCode) && c == sequenceCode.value) || (c == captionCode && c != "" && Some(c) != sequenceCode))
      && (forall i, j :: 0 <= i < j < |r| ==> r[i] != r[j])
      && (Truthy(sequenceCode) ==> |r| >= 1 && r[0] == sequenceCode.value)
      && (forall i :: 0 <= i < |r| ==> r[i] != "")
  {
  }

  /**
   * Every code offered on a button, the allocator's number as well as the
   * caption's code, is already in the form `strip().lower()` gives: typing
   * it back, or looking it up later, reaches the same catalog key.
   */
  lemma OfferedCodesNormalized(n: nat, caption: Option<string>)
    ensures var offered := CodeSuggestions(Some(NatToString(n)), OrEmpty(LastFound(CaptionLines(caption), CodePattern)));
      forall c :: c in offered ==> Normalize(c) == c
  {
    var digits := NatToString(n);
    NormalizeFixed(digits);
    FoundCodeNormalized(CaptionLines(caption));
    SuggestionsNormalized(digits, OrEmpty(LastFound(CaptionLines(caption), CodePattern)));
  }

  /** The code the caption scan keeps is normalised. */
  lemma FoundCodeNormalized(lines: seq<string>)
    ensures Normalize(OrEmpty(LastFound(lines, CodePattern))) == OrEmpty(LastFound(lines, CodePattern))
  {
    var found := LastFound(lines, CodePattern);
    if found.Some? {
      LastFoundIsLast(lines, CodePattern);
      var i :| 0 <= i < |lines| && found == LineValue(CodePattern, lines[i])
        && forall j :: i < j < |lines| ==> LineValue(CodePattern, lines[j]).None?;
      CodeInLineShape(lines[i]);
      NormalizeFixed(found.value);
    }
  }

  lemma SuggestionsNormalized(sequenceCode: string, captionCode: string)
    requires Normalize(sequenceCode) == sequenceCode && Normalize(captionCode) == captionCode
    ensures forall c :: c in CodeSuggestions(Some(sequenceCode), captionCode) ==> Normalize(c) == c
  {
    CodeSuggestionsSpec(Some(sequenceCode), captionCode);
  }

  const ConfirmCodePrefix: string := "confirm_code:"
  const ConfirmNamePrefix: string := "confirm_name:"

  /** The payload behind a button: `f"{prefix}{value}"`. */
  function ButtonData(prefix: string, value: string): string {
    prefix + value
  }

  /** What the callback handlers take back out of a payload: `data.split(":")[1]`. */
  function ButtonValue(data: string): (r: string)
    ensures ':' !in r
  {
    var parts := SplitOn(data, ':');
    if |parts| >= 2 then parts[1] else ""
  }

  /** A value without `:` survives the round trip through a button. */
  lemma ButtonRoundTrip(prefix: string, value: string)
    requires |prefix| > 0 && prefix[|prefix| - 1] == ':' && ':' !in prefix[..|prefix| - 1]
    requires ':' !in value
    ensures ButtonValue(ButtonData(prefix, value)) == value
  {
    var p := prefix[..|prefix| - 1];
    assert prefix + value == p + [':'] + value;
    SplitAfterPrefix(p, value, ':');
    SplitNone(value, ':');
  }

  /** A value with a `:` only comes back as far as its first `:`. */
  lemma ButtonTruncates(prefix: string, before: string, after: string)
    requires |prefix| > 0 && prefix[|prefix| - 1] == ':' && ':' !in prefix[..|prefix| - 1]
    requires ':' !in before
    ensures ButtonValue(ButtonData(prefix, before + ":" + after)) == before
  {
    var p := prefix[..|prefix| - 1];
    assert prefix + (before + ":" + after) == p + [':'] + (before + [':'] + after);
    SplitAfterPrefix(p, before + [':'] + after, ':');
    SplitAfterPrefix(before, after, ':');
  }

  /**
   * What a handler reads back from a payload that starts with its prefix:
   * everything after the prefix when that has no `:`, otherwise the part
   * up to the first `:` after the prefix.
   */
  lemma ButtonFields(prefix: string, payload: string)
    requires |prefix| > 0 && prefix[|prefix| - 1] == ':' && ':' !in prefix[..|prefix| - 1]
    requires StartsWith(payload, prefix)
    ensures ':' !in payload[|prefix|..] ==> ButtonValue(payload) == payload[|prefix|..]
    ensures forall i :: |prefix| <= i < |payload| && payload[i] == ':' && ':' !in payload[|prefix|..i] ==>
      ButtonValue(payload) == payload[|prefix|..i]
  {
    var v := payload[|prefix|..];
    assert payload == ButtonData(prefix, v);
    if ':' !in v {
      ButtonRoundTrip(prefix, v);
    }
    forall i | |prefix| <= i < |payload| && payload[i] == ':' && ':' !in payload[|prefix|..i]
      ensures ButtonValue(payload) == payload[|prefix|..i]
    {
      var before, after := payload[|prefix|..i], payload[i + 1..];
      assert payload == ButtonData(prefix, before + ":" + after);
      ButtonTruncates(prefix, before, after);
    }
  }

  /** The name "Avatar: Suv Yo'li" offered on a button is confirmed as "Avatar". */
  lemma NameButtonExample()
    ensures ButtonValue(ButtonData(ConfirmNamePrefix, "Avatar: Suv Yo'li")) == "Avatar"
  {
    assert ConfirmNamePrefix[..|ConfirmNamePrefix| - 1] == "confirm_name";
    assert "Avatar: Suv Yo'li" == "Avatar" + ":" + " Suv Yo'li";
    ButtonTruncates(ConfirmNamePrefix, "Avatar", " Suv Yo'li");
  }
}
