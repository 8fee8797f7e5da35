/** The string operations the generator uses on names: `str.strip()`,
    `startswith`/`endswith`, substring containment (`a in b`), `str.count`
    and `str.split` with a one-character separator. */
module Text {

  /** The characters Python 2's `str.strip()` removes. */
  predicate IsSpace(c: char) {
    c == ' ' || c == '\t' || c == '\n' || c == '\r' || c == '\U{000B}' || c == '\U{000C}'
  }

  /** Drops leading whitespace: the result is the suffix of `s` that starts at
      its first non-space character. */
  function StripLeft(s: string): (r: string)
    ensures |r| <= |s| && r == s[|s| - |r|..]
    ensures forall k :: 0 <= k < |s| - |r| ==> IsSpace(s[k])
    ensures r != [] ==> !IsSpace(r[0])
    decreases |s|
  {
    if s != [] && IsSpace(s[0]) then StripLeft(s[1..]) else s
  }

  /** Drops trailing whitespace: the result is the prefix of `s` that ends at
      its last non-space character. */
  function StripRight(s: string): (r: string)
    ensures |r| <= |s| && r == s[..|r|]
    ensures forall k :: |r| <= k < |s| ==> IsSpace(s[k])
    ensures r != [] ==> !IsSpace(r[|r| - 1])
    decreases |s|
  {
    if s != [] && IsSpace(s[|s| - 1]) then StripRight(s[..|s| - 1]) else s
  }

  /** `r` sits in `s` at offset `i`. */
  predicate SliceAt(s: string, r: string, i: int) {
    0 <= i <= |s| - |r| && r == s[i..i + |r|]
  }

  /** Python's `s.strip()`: the slice of `s` between the whitespace margins. */
  function Strip(s: string): (r: string)
    ensures r != [] ==> !IsSpace(r[0]) && !IsSpace(r[|r| - 1])
    ensures exists i :: SliceAt(s, r, i)
  {
    var t := StripLeft(s);
    var r := StripRight(t);
    assert SliceAt(s, r, |s| - |t|) by {
      assert r == s[|s| - |t|..][..|r|];
    }
    r
  }

  /** `[str(n).strip() for n in names]`. */
  function StripAll(names: seq<string>): (r: seq<string>)
    ensures |r| == |names|
    ensures forall i :: 0 <= i < |names| ==> r[i] == Strip(names[i])
    decreases |names|
  {
    if names == [] then [] else [Strip(names[0])] + StripAll(names[1..])
  }

  /** `x` is the stripped name of some element of `names`. */
  lemma StripAllMembers(names: seq<string>, x: string)
    ensures x in StripAll(names) <==> exists n :: n in names && Strip(n) == x
  {
    var r := StripAll(names);
    if x in r {
      var i :| 0 <= i < |r| && r[i] == x;
      assert names[i] in names;
    }
    if exists n :: n in names && Strip(n) == x {
      var n :| n in names && Strip(n) == x;
      var i :| 0 <= i < |names| && names[i] == n;
      assert r[i] == x;
    }
  }

  /** Stripping a name that is already stripped changes nothing. */
  lemma StripIdempotent(s: string)
    ensures Strip(Strip(s)) == Strip(s)
  {
    var r := Strip(s);
    assert StripLeft(r) == r;
    assert StripRight(r) == r;
  }

  /** A string that neither starts nor ends with whitespace strips to itself. */
  lemma StripClean(s: string)
    requires s != [] ==> !IsSpace(s[0]) && !IsSpace(s[|s| - 1])
    ensures Strip(s) == s
  {
    assert StripLeft(s) == s;
    assert StripRight(s) == s;
  }

  /** Whitespace padding around a core that neither starts nor ends with
      whitespace is exactly what `Strip` removes. */
  lemma StripPadded(pre: string, core: string, post: string)
    requires forall c :: c in pre ==> IsSpace(c)
    requires forall c :: c in post ==> IsSpace(c)
    requires core != [] ==> !IsSpace(core[0]) && !IsSpace(core[|core| - 1])
    ensures Strip(pre + core + post) == core
  {
    assert pre + core + post == pre + (core + post);
    StripLeftPadding(pre, core + post);
    if core == [] {
      assert core + post == post;
      StripLeftAllSpace(post);
    } else {
      assert (core + post)[0] == core[0];
      assert StripLeft(core + post) == core + post;
      StripRightPadding(core, post);
    }
  }

  lemma {:induction false} StripLeftPadding(pre: string, rest: string)
    requires forall c :: c in pre ==> IsSpace(c)
    ensures StripLeft(pre + rest) == StripLeft(rest)
    decreases |pre|
  {
    if pre != [] {
      assert pre[0] in pre;
      assert (pre + rest)[0] == pre[0];
      assert (pre + rest)[1..] == pre[1..] + rest;
      StripLeftPadding(pre[1..], rest);
    } else {
      assert pre + rest == rest;
    }
  }

  lemma {:induction false} StripLeftAllSpace(s: string)
    requires forall c :: c in s ==> IsSpace(c)
    ensures StripLeft(s) == []
    decreases |s|
  {
    if s != [] {
      assert s[0] in s;
      StripLeftAllSpace(s[1..]);
    }
  }

  lemma {:induction false} StripRightPadding(core: string, post: string)
    requires forall c :: c in post ==> IsSpace(c)
    requires core != [] && !IsSpace(core[|core| - 1])
    ensures StripRight(core + post) == core
    decreases |post|
  {
    if post == [] {
      assert core + post == core;
    } else {
      var s := core + post;
      assert s[|s| - 1] == post[|post| - 1] && post[|post| - 1] in post;
      assert s[..|s| - 1] == core + post[..|post| - 1];
      StripRightPadding(core, post[..|post| - 1]);
    }
  }

  predicate StartsWith(s: string, prefix: string) {
    |prefix| <= |s| && s[..|prefix|] == prefix
  }

  predicate EndsWith(s: string, suffix: string) {
    |suffix| <= |s| && s[|s| - |suffix|..] == suffix
  }

  /** Python's `needle in hay` on strings. */
  predicate Contains(hay: string, needle: string)
    decreases |hay|
  {
    StartsWith(hay, needle) || (hay != [] && Contains(hay[1..], needle))
  }

  /** `Contains` holds exactly when `needle` occurs in `hay` at some offset. */
  lemma {:induction false} ContainsAt(hay: string, needle: string)
    ensures Contains(hay, needle) <==> exists i :: SliceAt(hay, needle, i)
    decreases |hay|
  {
    if hay != [] {
      ContainsAt(hay[1..], needle);
      if exists i :: SliceAt(hay, needle, i) {
        var i :| SliceAt(hay, needle, i);
        if i > 0 {
          assert SliceAt(hay[1..], needle, i - 1);
        }
      }
      if Contains(hay[1..], needle) {
        var i :| SliceAt(hay[1..], needle, i);
        assert SliceAt(hay, needle, i + 1);
      }
      if StartsWith(hay, needle) {
        assert SliceAt(hay, needle, 0);
      }
    } else if needle == [] {
      assert SliceAt(hay, needle, 0);
    }
  }

  /** Python's `s.count(c)` for a single character. */
  function CountChar(s: string, c: char): nat
    decreases |s|
  {
    if s == [] then 0 else (if s[0] == c then 1 else 0) + CountChar(s[1..], c)
  }

  /** Puts `sep` between consecutive parts; the inverse of `Split`. */
  function Join(parts: seq<string>, sep: char): string
    requires |parts| >= 1
    decreases |parts|
  {
    if |parts| == 1 then parts[0] else parts[0] + [sep] + Join(parts[1..], sep)
  }

  /** Python's `s.split(sep)`: the pieces between separators, empty pieces
      included, so there is always one more piece than separators. */
  function Split(s: string, sep: char): (r: seq<string>)
    ensures |r| == CountChar(s, sep) + 1
    ensures forall i :: 0 <= i < |r| ==> sep !in r[i]
    ensures Join(r, sep) == s
    decreases |s|
  {
    if s == [] then [[]]
    else
      var rest := Split(s[1..], sep);
      assert s == [s[0]] + s[1..];
      if s[0] == sep then
        assert Join([[]] + rest, sep) == [sep] + Join(rest, sep);
        [[]] + rest
      else
        var r := [[s[0]] + rest[0]] + rest[1..];
        assert r[1..] == rest[1..];
        assert |rest| > 1 ==> Join(rest, sep) == rest[0] + [sep] + Join(rest[1..], sep);
        r
  }

  /** A piece without separators followed by a separator contributes exactly
      one piece. */
  lemma {:induction false} SplitAfterPiece(w: string, sep: char, rest: string)
    requires sep !in w
    ensures Split(w + [sep] + rest, sep) == [w] + Split(rest, sep)
    decreases |w|
  {
    var s := w + [sep] + rest;
    if w == [] {
      assert s == [sep] + rest;
      assert s[1..] == rest;
    } else {
      assert s[0] == w[0] && s[1..] == w[1..] + [sep] + rest;
      SplitAfterPiece(w[1..], sep, rest);
      assert [w[0]] + w[1..] == w;
    }
  }

  lemma {:induction false} SplitPiece(w: string, sep: char)
    requires sep !in w
    ensures Split(w, sep) == [w]
    decreases |w|
  {
    if w != [] {
      SplitPiece(w[1..], sep);
      assert [w[0]] + w[1..] == w;
    }
  }

  /** Splitting what `Join` built gives back the parts. */
  lemma {:induction false} SplitJoin(parts: seq<string>, sep: char)
    requires |parts| >= 1
    requires forall i :: 0 <= i < |parts| ==> sep !in parts[i]
    ensures Split(Join(parts, sep), sep) == parts
    decreases |parts|
  {
    if |parts| == 1 {
      SplitPiece(parts[0], sep);
    } else {
      SplitJoin(parts[1..], sep);
      SplitAfterPiece(parts[0], sep, Join(parts[1..], sep));
      assert [parts[0]] + parts[1..] == parts;
    }
  }

  /** In `lead/ns/rest` with no `/` in `lead` or `ns`, the second
      `/`-separated piece is `ns` and the name has at least two `/`. */
  lemma SecondSegment(lead: string, ns: string, rest: string)
    requires '/' !in lead && '/' !in ns
    ensures CountChar(lead + "/" + ns + "/" + rest, '/') > 1
    ensures Split(lead + "/" + ns + "/" + rest, '/')[1] == ns
  {
    var s := lead + "/" + ns + "/" + rest;
    assert s == lead + ['/'] + (ns + ['/'] + rest);
    SplitAfterPiece(lead, '/', ns + ['/'] + rest);
    SplitAfterPiece(ns, '/', rest);
  }
}
