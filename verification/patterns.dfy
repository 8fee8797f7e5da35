/** Name filtering: `matches_any` (rosgui_rosgraph/lib/dotcode.py:50-59) and
    the parsing of the comma-separated namespace and topic filters
    (dotcode.py:179-197). */
module Patterns {
  import opened Results
  import opened Seqs
  import opened Text

  /** What the generator needs of Python's `re` module: whether a pattern
      compiles (`re.match` raises `re.error` otherwise) and `re.match(p, s)`,
      a match anchored at the start of `s` but not at its end. */
  datatype Regex = Regex(compiles: string -> bool, matchesAtStart: (string, string) -> bool)

  predicate IsWordChar(c: char) {
    ('a' <= c <= 'z') || ('A' <= c <= 'Z') || ('0' <= c <= '9') || c == '_'
  }

  predicate AllWordChars(s: string) {
    forall i :: 0 <= i < |s| ==> IsWordChar(s[i])
  }

  /** Whether `re.match("^[a-zA-Z0-9_]+$", p)` succeeds: one or more word
      characters, where `$` also accepts one newline at the very end. Such a
      pattern is only ever compared literally. */
  predicate IsLiteral(p: string) {
    || (|p| > 0 && AllWordChars(p))
    || (|p| > 1 && p[|p| - 1] == '\n' && AllWordChars(p[..|p| - 1]))
  }

  /** A pattern that `re.match` accepts or never reaches. */
  predicate WellFormed(p: string, rx: Regex) {
    IsLiteral(p) || rx.compiles(p)
  }

  /** What one pattern says about a name: equal to the stripped name, or a
      non-literal pattern whose regular expression matches it. */
  predicate Hits(name: string, p: string, rx: Regex) {
    Strip(name) == p || (!IsLiteral(p) && rx.compiles(p) && rx.matchesAtStart(p, Strip(name)))
  }

  predicate HitsAny(name: string, patterns: seq<string>, rx: Regex) {
    exists i :: 0 <= i < |patterns| && Hits(name, patterns[i], rx)
  }

  /** The loop of `matches_any` reaches `patterns[i]` without an earlier hit,
      and that pattern raises: it is not the stripped name, not a literal and
      does not compile. */
  predicate RaisesAt(name: string, patterns: seq<string>, i: int, rx: Regex)
    requires 0 <= i < |patterns|
  {
    !WellFormed(patterns[i], rx) && Strip(name) != patterns[i] && !HitsAny(name, patterns[..i], rx)
  }

  /** Some pattern of `[p] + ps` hits when `p` or one of `ps` does. */
  lemma HitsAnyCons(name: string, p: string, ps: seq<string>, rx: Regex)
    ensures HitsAny(name, [p] + ps, rx) <==> Hits(name, p, rx) || HitsAny(name, ps, rx)
  {
    var s := [p] + ps;
    if HitsAny(name, s, rx) {
      var i :| 0 <= i < |s| && Hits(name, s[i], rx);
      if i > 0 { assert s[i] == ps[i - 1]; }
    }
    if HitsAny(name, ps, rx) {
      var i :| 0 <= i < |ps| && Hits(name, ps[i], rx);
      assert s[i + 1] == ps[i];
    }
    if Hits(name, p, rx) { assert s[0] == p; }
  }

  /** One round of the loop in `matches_any`: equality first, then the regular
      expression unless the pattern is a literal. */
  function TryPattern(name: string, p: string, rx: Regex): (r: Result<bool>)
    ensures r.Err? <==> !WellFormed(p, rx) && Strip(name) != p
    ensures r.Err? ==> r.error == BadPattern(p)
    ensures r.Ok? ==> (r.value <==> Hits(name, p, rx))
  {
    if Strip(name) == p then Ok(true)
    else if IsLiteral(p) then Ok(false)
    else if !rx.compiles(p) then Err(BadPattern(p))
    else Ok(rx.matchesAtStart(p, Strip(name)))
  }

  /** `matches_any(name, patterns)`: false for no patterns; otherwise whether
      some pattern hits the name, unless a malformed pattern is reached before
      a hit, in which case its `re.error` propagates. */
  function MatchesAny(name: string, patterns: seq<string>, rx: Regex): (r: Result<bool>)
    ensures patterns == [] ==> r == Ok(false)
    ensures r.Ok? ==> r.value == HitsAny(name, patterns, rx)
    ensures r.Err? <==> exists i :: 0 <= i < |patterns| && RaisesAt(name, patterns, i, rx)
    ensures r.Err? ==> exists i :: 0 <= i < |patterns| && RaisesAt(name, patterns, i, rx)
                                   && r.error == BadPattern(patterns[i])
    ensures (forall i :: 0 <= i < |patterns| ==> WellFormed(patterns[i], rx)) ==> r.Ok?
    decreases |patterns|
  {
    if patterns == [] then Ok(false)
    else
      var t := TryPattern(name, patterns[0], rx);
      if t.Err? then
        assert RaisesAt(name, patterns, 0, rx);
        Err(t.error)
      else if t.value then
        HitStops(name, patterns, rx);
        Ok(true)
      else
        PassOver(name, patterns, rx);
        MatchesAny(name, patterns[1..], rx)
  }

  /** A hit on the first pattern ends the loop: no later pattern raises. */
  lemma HitStops(name: string, patterns: seq<string>, rx: Regex)
    requires patterns != [] && TryPattern(name, patterns[0], rx) == Ok(true)
    ensures HitsAny(name, patterns, rx)
    ensures forall i :: 0 <= i < |patterns| ==> !RaisesAt(name, patterns, i, rx)
  {
    assert Hits(name, patterns[0], rx);
    forall i | 0 < i < |patterns| ensures HitsAny(name, patterns[..i], rx) {
      assert patterns[..i][0] == patterns[0];
    }
  }

  /** Past a first pattern that neither hits nor raises, the loop behaves as
      on the rest: it hits, and raises at `patterns[i + 1]`, exactly when it
      does so on the rest at `i`. */
  lemma PassOver(name: string, patterns: seq<string>, rx: Regex)
    requires patterns != [] && TryPattern(name, patterns[0], rx) == Ok(false)
    ensures HitsAny(name, patterns, rx) <==> HitsAny(name, patterns[1..], rx)
    ensures (exists i :: 0 <= i < |patterns| && RaisesAt(name, patterns, i, rx))
            <==> (exists i :: 0 <= i < |patterns[1..]| && RaisesAt(name, patterns[1..], i, rx))
    ensures forall i :: 0 <= i < |patterns[1..]| && RaisesAt(name, patterns[1..], i, rx) ==>
              RaisesAt(name, patterns, i + 1, rx) && patterns[1..][i] == patterns[i + 1]
  {
    var rest := patterns[1..];
    forall i | 0 <= i < |rest|
      ensures RaisesAt(name, patterns, i + 1, rx) <==> RaisesAt(name, rest, i, rx)
    {
      RaisesStep(name, patterns, rx, i);
    }
    if exists i :: 0 <= i < |patterns| && RaisesAt(name, patterns, i, rx) {
      var i :| 0 <= i < |patterns| && RaisesAt(name, patterns, i, rx);
      assert i > 0;
      assert RaisesAt(name, rest, i - 1, rx);
    }
    PassOverHits(name, patterns, rx);
  }

  lemma RaisesStep(name: string, patterns: seq<string>, rx: Regex, i: int)
    requires patterns != [] && TryPattern(name, patterns[0], rx) == Ok(false)
    requires 0 <= i < |patterns| - 1
    ensures RaisesAt(name, patterns, i + 1, rx) <==> RaisesAt(name, patterns[1..], i, rx)
  {
    var rest := patterns[1..];
    assert rest[i] == patterns[i + 1];
    assert patterns[..i + 1] == [patterns[0]] + rest[..i];
    HitsAnyCons(name, patterns[0], rest[..i], rx);
  }

  lemma PassOverHits(name: string, patterns: seq<string>, rx: Regex)
    requires patterns != [] && TryPattern(name, patterns[0], rx) == Ok(false)
    ensures HitsAny(name, patterns, rx) <==> HitsAny(name, patterns[1..], rx)
  {
    assert patterns == [patterns[0]] + patterns[1..];
    HitsAnyCons(name, patterns[0], patterns[1..], rx);
  }

  /** A pattern made only of letters, digits and underscores matches exactly
      the names that strip to it, whatever the regular expression engine says,
      and never raises. */
  lemma LiteralMatchesOnlyItself(name: string, p: string, rx: Regex)
    requires IsLiteral(p)
    ensures MatchesAny(name, [p], rx) == Ok(Strip(name) == p)
  {
  }

  /** `foo` does not select `foobar`, although `re.match("foo", "foobar")`
      would succeed. */
  lemma LiteralIsNotAPrefixMatch(rx: Regex)
    ensures MatchesAny("foobar", ["foo"], rx) == Ok(false)
  {
    assert AllWordChars("foo");
    assert Strip("foobar") == "foobar" by {
      StripPadded("", "foobar", "");
      assert "" + "foobar" + "" == "foobar";
    }
    LiteralMatchesOnlyItself("foobar", "foo", rx);
  }

  /** `matches_any(name, includes) and not matches_any(name, excludes)`,
      evaluated left to right: the excludes are consulted only for a name the
      includes select. */
  function Selects(includes: seq<string>, excludes: seq<string>, name: string, rx: Regex): (r: Result<bool>)
    ensures r.Ok? ==> (r.value <==> HitsAny(name, includes, rx) && !HitsAny(name, excludes, rx))
    ensures r.Err? <==> (exists i :: 0 <= i < |includes| && RaisesAt(name, includes, i, rx))
                        || (HitsAny(name, includes, rx) && exists i :: 0 <= i < |excludes| && RaisesAt(name, excludes, i, rx))
    ensures r.Err? ==> MatchesAny(name, includes, rx).Err?
                       || (HitsAny(name, includes, rx) && MatchesAny(name, excludes, rx).Err?)
    ensures ((forall i :: 0 <= i < |includes| ==> WellFormed(includes[i], rx))
             && (forall i :: 0 <= i < |excludes| ==> WellFormed(excludes[i], rx))) ==> r.Ok?
  {
    var included :- MatchesAny(name, includes, rx);
    if !included then Ok(false)
    else
      var excluded :- MatchesAny(name, excludes, rx);
      Ok(!excluded)
  }

  /** The include and exclude pattern lists parsed from one filter string. */
  datatype FilterLists = FilterLists(includes: seq<string>, excludes: seq<string>)

  /** One more stripped token in front of lists already classified. */
  function ClassifyToken(t: string, rest: FilterLists): FilterLists {
    if StartsWith(t, "-") then FilterLists(rest.includes, [t[1..]] + rest.excludes)
    else FilterLists([t] + rest.includes, rest.excludes)
  }

  /** A token not starting with `-` is an include pattern. */
  predicate IsIncludeToken(t: string) {
    !StartsWith(t, "-")
  }

  /** The exclude pattern a token contributes: its text after the `-`. */
  function ExcludeOf(t: string): seq<string> {
    if StartsWith(t, "-") then [t[1..]] else []
  }

  /** The loop over the comma-separated tokens, already stripped: a token
      starting with `-` is an exclude (without its `-`), any other token an
      include; both lists keep token order. */
  function ClassifyTokens(tokens: seq<string>): (r: FilterLists)
    ensures r.includes == Filter(tokens, IsIncludeToken)
    ensures r.excludes == FlatMap(ExcludeOf, tokens)
    ensures |r.includes| + |r.excludes| == |tokens|
    ensures forall p :: p in r.includes <==> p in tokens && !StartsWith(p, "-")
    ensures forall p :: p in r.excludes <==> "-" + p in tokens
    decreases |tokens|
  {
    if tokens == [] then FilterLists([], [])
    else
      var rest := ClassifyTokens(tokens[1..]);
      HeadOrTail(tokens);
      forall p ensures p in ClassifyToken(tokens[0], rest).excludes <==> "-" + p in tokens {
        ExcludeStep(tokens[0], p);
      }
      ClassifyToken(tokens[0], rest)
  }

  /** `t` is `-` followed by `p` exactly when it starts with `-` and `p` is
      the rest. */
  lemma ExcludeStep(t: string, p: string)
    ensures StartsWith(t, "-") && t[1..] == p <==> t == "-" + p
  {
    if t == "-" + p {
      assert t[..1] == "-";
    }
    if StartsWith(t, "-") && t[1..] == p {
      assert t == t[..1] + t[1..];
    }
  }

  /** Parses one filter string (`ns_filter` or `topic_filter`): the
      comma-separated tokens are stripped and classified, and an include
      list that comes out empty or exactly `["/"]` becomes `[".*"]`. */
  function ParseFilter(filter: string): (r: FilterLists)
    ensures var inc := Filter(StripAll(Split(filter, ',')), IsIncludeToken);
            r.includes == if inc == [] || inc == ["/"] then [".*"] else inc
    ensures r.excludes == FlatMap(ExcludeOf, StripAll(Split(filter, ',')))
    ensures r.includes != [] && r.includes != ["/"]
    ensures forall p :: p in r.excludes <==> "-" + p in StripAll(Split(filter, ','))
    ensures r.includes == [".*"] || forall p :: p in r.includes ==> p in StripAll(Split(filter, ',')) && !StartsWith(p, "-")
    ensures |r.excludes| <= CountChar(filter, ',') + 1
  {
    var lists := ClassifyTokens(StripAll(Split(filter, ',')));
    var includes := if lists.includes == [] || lists.includes == ["/"] then [".*"] else lists.includes;
    FilterLists(includes, lists.excludes)
  }

  /** The namespace filter that names the root, and the pattern that
      matches every name. */
  const RootFilter: string := "/"
  const MatchAll: string := ".*"

  /** A filter string without a comma is one token: stripped, it is an
      exclude when it starts with `-` and otherwise the only include. */
  lemma ParseOne(w: string)
    requires ',' !in w
    ensures var t := Strip(w);
            ParseFilter(w) == if StartsWith(t, "-") then FilterLists([".*"], [t[1..]])
                              else FilterLists(if t == "/" then [".*"] else [t], [])
  {
    SplitPiece(w, ',');
    var t := Strip(w);
    assert StripAll([w]) == [t];
    assert [t][1..] == [];
    assert ClassifyTokens([t]) == ClassifyToken(t, FilterLists([], []));
  }

  /** The usual namespace filter `/` selects like `.*`. */
  lemma SlashFilterMeansAll()
    ensures ParseFilter(RootFilter) == ParseFilter(MatchAll) == FilterLists([".*"], [])
  {
    RootFilterParse();
    MatchAllParse();
  }

  lemma RootFilterParse()
    ensures ParseFilter(RootFilter) == FilterLists([MatchAll], [])
  {
    PlainInclude(RootFilter);
  }

  lemma MatchAllParse()
    ensures ParseFilter(MatchAll) == FilterLists([MatchAll], [])
  {
    PlainInclude(MatchAll);
  }

  /** A filter that is one clean pattern not starting with `-` includes just
      that pattern (with `/` read as `.*`). */
  lemma PlainInclude(w: string)
    requires ',' !in w && w != []
    requires !IsSpace(w[0]) && !IsSpace(w[|w| - 1]) && w[0] != '-'
    ensures ParseFilter(w) == FilterLists(if w == "/" then [".*"] else [w], [])
  {
    ParseOne(w);
    StripClean(w);
    assert !StartsWith(w, "-");
  }

  /** A filter of excludes only still includes everything. */
  lemma ExcludesOnlyIncludeAll(p: string)
    requires ',' !in p
    requires p != [] ==> !IsSpace(p[0]) && !IsSpace(p[|p| - 1])
    ensures ParseFilter("-" + p) == FilterLists([".*"], [p])
  {
    var f := "-" + p;
    assert ',' !in f;
    SplitPiece(f, ',');
    assert f[0] == '-' && f[|f| - 1] == (if p == [] then '-' else p[|p| - 1]);
    StripClean(f);
    assert StripAll([f]) == [f];
    assert f[..1] == "-" && f[1..] == p;
    assert ClassifyTokens([f]) == ClassifyToken(f, ClassifyTokens([])) == FilterLists([], [p]);
  }

  /** An empty filter string is one empty token, not an empty list: the
      include list is `[""]`, left to the regular expression `""`. */
  lemma EmptyFilterIsOneEmptyPattern()
    ensures ParseFilter("") == FilterLists([""], [])
  {
    ParseOne("");
    assert Strip("") == "";
  }
}
