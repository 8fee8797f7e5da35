/** Sequence operations the generator performs on Python lists: list
    comprehensions (`Filter`, `FilterR`), `list.remove` (`Delete`, `Remove`,
    `RemoveEach`), the "remove if present" idiom (`RemovePresent`) and
    `set.update` kept in first-seen order (`AddNew`). */
module Seqs {
  import opened Results

  /** No element occurs twice. */
  ghost predicate Distinct<T(!new)>(s: seq<T>) {
    forall x :: multiset(s)[x] <= 1
  }

  /** `a` is `b` with some elements left out and the rest kept in order. */
  predicate IsSubsequence<T(==,!new)>(a: seq<T>, b: seq<T>)
    decreases |b|
  {
    if b == [] then a == []
    else IsSubsequence(a, b[1..]) || (a != [] && a[0] == b[0] && IsSubsequence(a[1..], b[1..]))
  }

  lemma {:induction false} SubsequenceReflexive<T(!new)>(s: seq<T>)
    ensures IsSubsequence(s, s)
    decreases |s|
  {
    if s != [] {
      SubsequenceReflexive(s[1..]);
    }
  }

  lemma {:induction false} SubsequenceMembers<T(!new)>(a: seq<T>, b: seq<T>)
    requires IsSubsequence(a, b)
    ensures |a| <= |b|
    ensures forall x :: x in a ==> x in b
    decreases |b|
  {
    if b != [] {
      if IsSubsequence(a, b[1..]) {
        SubsequenceMembers(a, b[1..]);
      } else {
        SubsequenceMembers(a[1..], b[1..]);
        assert a == [a[0]] + a[1..];
      }
    }
  }

  lemma {:induction false} SubsequenceTransitive<T(!new)>(a: seq<T>, b: seq<T>, c: seq<T>)
    requires IsSubsequence(a, b) && IsSubsequence(b, c)
    ensures IsSubsequence(a, c)
    decreases |c|
  {
    if c == [] {
      assert b == [];
    } else if IsSubsequence(b, c[1..]) {
      SubsequenceTransitive(a, b, c[1..]);
    } else {
      assert b != [] && b[0] == c[0] && IsSubsequence(b[1..], c[1..]);
      if IsSubsequence(a, b[1..]) {
        SubsequenceTransitive(a, b[1..], c[1..]);
      } else {
        SubsequenceTransitive(a[1..], b[1..], c[1..]);
      }
    }
  }

  /** A list comprehension `[x for x in s if keep(x)]`. */
  function Filter<T(==,!new)>(s: seq<T>, keep: T -> bool): (r: seq<T>)
    ensures forall x :: x in r <==> x in s && keep(x)
    ensures IsSubsequence(r, s)
    decreases |s|
  {
    if s == [] then []
    else if keep(s[0]) then [s[0]] + Filter(s[1..], keep)
    else Filter(s[1..], keep)
  }

  lemma {:induction false} FilterCount<T(!new)>(s: seq<T>, keep: T -> bool, y: T)
    ensures multiset(Filter(s, keep))[y] == if keep(y) then multiset(s)[y] else 0
    decreases |s|
  {
    if s != [] {
      FilterCount(s[1..], keep, y);
      assert s == [s[0]] + s[1..];
    }
  }

  lemma FilterDistinct<T(!new)>(s: seq<T>, keep: T -> bool)
    requires Distinct(s)
    ensures Distinct(Filter(s, keep))
  {
    forall y {
      FilterCount(s, keep, y);
    }
  }

  lemma {:induction false} FilterSnoc<T(!new)>(s: seq<T>, x: T, keep: T -> bool)
    ensures Filter(s + [x], keep) == Filter(s, keep) + (if keep(x) then [x] else [])
    decreases |s|
  {
    if s == [] {
      assert s + [x] == [x];
    } else {
      assert (s + [x])[0] == s[0];
      assert (s + [x])[1..] == s[1..] + [x];
      FilterSnoc(s[1..], x, keep);
    }
  }

  /** Filtering with a predicate no element meets leaves nothing. */
  lemma FilterNone<T(!new)>(s: seq<T>, keep: T -> bool)
    requires forall x :: x in s ==> !keep(x)
    ensures Filter(s, keep) == []
  {
  }

  /** Filtering with a predicate every element meets changes nothing. */
  lemma {:induction false} FilterAll<T(!new)>(s: seq<T>, keep: T -> bool)
    requires forall x :: x in s ==> keep(x)
    ensures Filter(s, keep) == s
    decreases |s|
  {
    if s != [] {
      FilterAll(s[1..], keep);
    }
  }

  /** A list comprehension whose condition can raise: the first element whose
      condition raises propagates its error. */
  function FilterR<T(==,!new)>(s: seq<T>, keep: T -> Result<bool>): (r: Result<seq<T>>)
    ensures r.Ok? <==> forall x :: x in s ==> keep(x).Ok?
    ensures r.Ok? ==> forall x :: x in r.value <==> x in s && keep(x) == Ok(true)
    ensures r.Ok? ==> IsSubsequence(r.value, s)
    ensures r.Err? ==> exists x :: x in s && keep(x) == Err(r.error)
    decreases |s|
  {
    if s == [] then Ok([])
    else
      var k :- keep(s[0]);
      var rest :- FilterR(s[1..], keep);
      Ok(if k then [s[0]] + rest else rest)
  }

  /** `s[i]` is the first occurrence of `x`, and `r` is `s` without it. */
  predicate GoneAt<T(==)>(s: seq<T>, x: T, r: seq<T>, i: int)
    requires 0 <= i < |s|
  {
    s[i] == x && x !in s[..i] && r == s[..i] + s[i + 1..]
  }

  /** `r` is `s` without its first occurrence of `x`. */
  ghost predicate FirstGone<T(!new)>(s: seq<T>, x: T, r: seq<T>) {
    exists i :: 0 <= i < |s| && GoneAt(s, x, r, i)
  }

  /** Drops the first occurrence of `x`, if there is one. */
  function Delete<T(==,!new)>(s: seq<T>, x: T): (r: seq<T>)
    ensures multiset(r) == multiset(s) - multiset{x}
    ensures IsSubsequence(r, s)
    ensures x !in s ==> r == s
    ensures x in s ==> FirstGone(s, x, r)
    decreases |s|
  {
    if s == [] then []
    else if s[0] == x then
      DeleteHead(s);
      s[1..]
    else
      var rest := Delete(s[1..], x);
      CountBehind(s, x, rest);
      OrderBehind(s, rest);
      if x in s then FirstGoneCons(s, x, rest); [s[0]] + rest
      else [s[0]] + rest
  }

  /** Dropping the head is dropping its first occurrence. */
  lemma DeleteHead<T(!new)>(s: seq<T>)
    requires s != []
    ensures multiset(s[1..]) == multiset(s) - multiset{s[0]}
    ensures IsSubsequence(s[1..], s)
    ensures FirstGone(s, s[0], s[1..])
  {
    assert s == [s[0]] + s[1..];
    SubsequenceReflexive(s[1..]);
    assert s[..0] == [] && s[..0] + s[1..] == s[1..];
    assert GoneAt(s, s[0], s[1..], 0);
  }

  /** Behind a head other than `x`, dropping one `x` from the tail drops one
      from the list. */
  lemma CountBehind<T(!new)>(s: seq<T>, x: T, rest: seq<T>)
    requires s != [] && s[0] != x
    requires multiset(rest) == multiset(s[1..]) - multiset{x}
    ensures multiset([s[0]] + rest) == multiset(s) - multiset{x}
  {
    assert s == [s[0]] + s[1..];
    assert multiset([s[0]] + rest) == multiset{s[0]} + multiset(rest);
  }

  /** Keeping the head in front of a subsequence of the tail keeps a
      subsequence, and the whole list when the tail was kept whole. */
  lemma OrderBehind<T(!new)>(s: seq<T>, rest: seq<T>)
    requires s != [] && IsSubsequence(rest, s[1..])
    ensures IsSubsequence([s[0]] + rest, s)
    ensures rest == s[1..] ==> [s[0]] + rest == s
  {
    var r := [s[0]] + rest;
    assert r[0] == s[0] && r[1..] == rest;
  }

  /** Behind a head other than `x`, the first occurrence of `x` is the first
      one of the tail. */
  lemma FirstGoneCons<T(!new)>(s: seq<T>, x: T, rest: seq<T>)
    requires s != [] && s[0] != x && FirstGone(s[1..], x, rest)
    ensures FirstGone(s, x, [s[0]] + rest)
  {
    var t := s[1..];
    var j :| 0 <= j < |t| && GoneAt(t, x, rest, j);
    assert s[j + 1] == x;
    assert s[..j + 1] == [s[0]] + t[..j];
    assert s[j + 2..] == t[j + 1..];
    assert [s[0]] + rest == s[..j + 1] + s[j + 2..];
    assert GoneAt(s, x, [s[0]] + rest, j + 1);
  }

  /** Python's `s.remove(x)`: the first occurrence goes, and a missing element
      raises. */
  function Remove<T(==,!new)>(s: seq<T>, x: T): (r: Result<seq<T>>)
    ensures r.Ok? <==> x in s
    ensures r.Ok? ==> multiset(r.value) + multiset{x} == multiset(s)
    ensures r.Ok? ==> FirstGone(s, x, r.value)
  {
    if x in s then Ok(Delete(s, x)) else Err(NotInList)
  }

  /** `for x in xs: s.remove(x)`. */
  function RemoveEach<T(==,!new)>(s: seq<T>, xs: seq<T>): (r: Result<seq<T>>)
    ensures r.Ok? <==> multiset(xs) <= multiset(s)
    ensures r.Err? ==> r.error == NotInList
    ensures r.Ok? ==> multiset(r.value) == multiset(s) - multiset(xs)
    ensures r.Ok? ==> IsSubsequence(r.value, s)
    decreases |xs|
  {
    if xs == [] then SubsequenceReflexive(s); Ok(s)
    else
      assert xs == [xs[0]] + xs[1..];
      assert multiset(xs) == multiset{xs[0]} + multiset(xs[1..]);
      if xs[0] !in s then
        assert multiset(xs)[xs[0]] > multiset(s)[xs[0]];
        Err(NotInList)
      else
        var s' := Delete(s, xs[0]);
        assert Remove(s, xs[0]) == Ok(s');
        MultisetStep(multiset(xs[1..]), multiset(s), xs[0]);
        var r := RemoveEach(s', xs[1..]);
        if r.Ok? then
          SubsequenceTransitive(r.value, s', s);
          MultisetDiffDiff(multiset(s), multiset{xs[0]}, multiset(xs[1..]));
          r
        else r
  }

  lemma MultisetStep<T(!new)>(a: multiset<T>, b: multiset<T>, x: T)
    requires x in b
    ensures multiset{x} + a <= b <==> a <= b - multiset{x}
  {
    if a <= b - multiset{x} {
      forall y ensures (multiset{x} + a)[y] <= b[y] {
        if y == x {} else {}
      }
    }
    if multiset{x} + a <= b {
      forall y ensures a[y] <= (b - multiset{x})[y] {
        assert (multiset{x} + a)[y] <= b[y];
      }
    }
  }

  lemma MultisetDiffDiff<T(!new)>(a: multiset<T>, b: multiset<T>, c: multiset<T>)
    ensures (a - b) - c == a - (b + c)
  {
    forall y ensures ((a - b) - c)[y] == (a - (b + c))[y] {}
  }

  /** Removing an element the list cannot contain commutes with a head the
      element differs from. */
  lemma {:induction false} RemoveEachCons<T(!new)>(h: T, t: seq<T>, xs: seq<T>)
    requires h !in xs
    ensures RemoveEach([h] + t, xs) == match RemoveEach(t, xs) { case Ok(v) => Ok([h] + v) case Err(e) => Err(e) }
    decreases |xs|
  {
    if xs != [] {
      var x := xs[0];
      assert x != h;
      assert ([h] + t)[0] == h && ([h] + t)[1..] == t;
      assert x in [h] + t <==> x in t;
      if x in t {
        assert Delete([h] + t, x) == [h] + Delete(t, x);
        RemoveEachCons(h, Delete(t, x), xs[1..]);
      }
    }
  }

  /** Collecting the elements to drop with one condition and then removing
      them one by one leaves exactly the elements meeting the opposite
      condition, in their original order: `list.remove` never raises here. */
  lemma {:induction false} RemoveFiltered<T(!new)>(s: seq<T>, drop: T -> bool, keep: T -> bool)
    requires forall x :: keep(x) == !drop(x)
    ensures RemoveEach(s, Filter(s, drop)) == Ok(Filter(s, keep))
    decreases |s|
  {
    if s != [] {
      var h, t := s[0], s[1..];
      assert s == [h] + t;
      RemoveFiltered(t, drop, keep);
      if drop(h) {
        var xs := [h] + Filter(t, drop);
        assert Filter(s, drop) == xs && xs[0] == h && xs[1..] == Filter(t, drop);
        assert Filter(s, keep) == Filter(t, keep);
        assert Delete(s, h) == t;
      } else {
        assert Filter(s, drop) == Filter(t, drop);
        assert Filter(s, keep) == [h] + Filter(t, keep);
        assert h !in Filter(t, drop);
        RemoveEachCons(h, t, Filter(t, drop));
      }
    }
  }

  /** `for x in xs: if x in s: s.remove(x)`. */
  function RemovePresent<T(==,!new)>(s: seq<T>, xs: seq<T>): (r: seq<T>)
    ensures multiset(r) == multiset(s) - multiset(xs)
    ensures IsSubsequence(r, s)
    decreases |xs|
  {
    if xs == [] then SubsequenceReflexive(s); s
    else
      assert xs == [xs[0]] + xs[1..];
      var s' := Delete(s, xs[0]);
      var r := RemovePresent(s', xs[1..]);
      SubsequenceTransitive(r, s', s);
      MultisetDiffDiff(multiset(s), multiset{xs[0]}, multiset(xs[1..]));
      assert multiset(xs) == multiset{xs[0]} + multiset(xs[1..]);
      r
  }

  /** On a list without duplicates, removing the present ones of `xs` removes
      exactly the elements of `xs`. */
  lemma RemovePresentDistinct<T(!new)>(s: seq<T>, xs: seq<T>)
    requires Distinct(s)
    ensures Distinct(RemovePresent(s, xs))
    ensures forall y :: y in RemovePresent(s, xs) <==> y in s && y !in xs
  {
    var r := RemovePresent(s, xs);
    forall y
      ensures multiset(r)[y] <= 1
      ensures y in r <==> y in s && y !in xs
    {
      assert multiset(s)[y] <= 1;
      assert y in xs <==> multiset(xs)[y] > 0;
    }
  }

  /** Removal is per copy: removing a list that holds `x` once, then a list
      without `x`, from `[x, x]` leaves `[x]`. */
  lemma OneCopyLeft<T(!new)>(s: seq<T>, x: T, xs: seq<T>, ys: seq<T>)
    requires s == [x, x]
    requires Distinct(xs) && x in xs && x !in ys
    ensures RemovePresent(RemovePresent(s, xs), ys) == [x]
  {
    var a := RemovePresent(s, xs);
    assert multiset(s) == multiset{x, x};
    DistinctCount(xs, x);
    DropOneCopy(s, x, xs);
    DropNoCopy(a, x, ys);
    SoleElement(RemovePresent(a, ys), x);
  }

  /** An element of a list without duplicates occurs once. */
  lemma DistinctCount<T(!new)>(s: seq<T>, x: T)
    requires Distinct(s) && x in s
    ensures multiset(s)[x] == 1
  {
  }

  lemma DropOneCopy<T(!new)>(s: seq<T>, x: T, xs: seq<T>)
    requires multiset(s) == multiset{x, x} && multiset(xs)[x] == 1
    ensures multiset(RemovePresent(s, xs)) == multiset{x}
  {
    var a := RemovePresent(s, xs);
    forall y ensures multiset(a)[y] == multiset{x}[y] {
      if y != x {
        assert multiset{x, x}[y] == 0;
      }
    }
  }

  lemma DropNoCopy<T(!new)>(s: seq<T>, x: T, ys: seq<T>)
    requires multiset(s) == multiset{x} && x !in ys
    ensures multiset(RemovePresent(s, ys)) == multiset{x}
  {
    assert multiset(ys)[x] == 0;
  }

  /** The only list whose multiset is `{x}` is `[x]`. */
  lemma SoleElement<T>(r: seq<T>, x: T)
    requires multiset(r) == multiset{x}
    ensures r == [x]
  {
    assert |r| == 1;
    assert r[0] in multiset(r);
  }

  /** Joining two lists without duplicates and without common elements gives
      a list without duplicates. */
  lemma DistinctConcat<T(!new)>(a: seq<T>, b: seq<T>)
    requires Distinct(a) && Distinct(b)
    requires forall x :: x in a ==> x !in b
    ensures Distinct(a + b)
  {
    assert multiset(a + b) == multiset(a) + multiset(b);
    forall y ensures multiset(a + b)[y] <= 1 {
      if y in a {
        assert y !in b;
      }
    }
  }

  /** A subsequence of a list without duplicates has none. */
  lemma {:induction false} SubsequenceDistinct<T(!new)>(a: seq<T>, b: seq<T>)
    requires IsSubsequence(a, b) && Distinct(b)
    ensures Distinct(a)
    decreases |b|
  {
    if b != [] {
      assert b == [b[0]] + b[1..];
      assert multiset(b) == multiset{b[0]} + multiset(b[1..]);
      assert Distinct(b[1..]) by {
        forall y ensures multiset(b[1..])[y] <= 1 {
          assert multiset(b)[y] <= 1;
        }
      }
      if IsSubsequence(a, b[1..]) {
        SubsequenceDistinct(a, b[1..]);
      } else {
        SubsequenceDistinct(a[1..], b[1..]);
        SubsequenceMembers(a[1..], b[1..]);
        assert a == [a[0]] + a[1..];
        assert multiset(a) == multiset{a[0]} + multiset(a[1..]);
        assert a[0] !in b[1..] by {
          assert multiset(b)[b[0]] <= 1;
        }
      }
    }
  }

  /** A list without duplicates whose elements all occur in `s` is contained
      in `s` as a multiset. */
  lemma DistinctWithin<T(!new)>(a: seq<T>, s: seq<T>)
    requires Distinct(a)
    requires forall x :: x in a ==> x in s
    ensures multiset(a) <= multiset(s)
  {
    forall x ensures multiset(a)[x] <= multiset(s)[x] {
      if x in a {
        assert multiset(s)[x] >= 1;
      }
    }
  }

  /** Taking a list without duplicates away from another leaves exactly the
      elements of the second that the first lacks. */
  lemma DistinctDifference<T(!new)>(s: seq<T>, xs: seq<T>, r: seq<T>)
    requires Distinct(s) && Distinct(xs)
    requires multiset(r) == multiset(s) - multiset(xs)
    ensures forall y :: y in r <==> y in s && y !in xs
  {
    forall y ensures y in r <==> y in s && y !in xs {
      assert multiset(s)[y] <= 1 && multiset(xs)[y] <= 1;
      assert (y in r <==> multiset(r)[y] > 0) && (y in s <==> multiset(s)[y] > 0) && (y in xs <==> multiset(xs)[y] > 0);
      assert multiset(r)[y] == if multiset(s)[y] <= multiset(xs)[y] then 0 else multiset(s)[y] - multiset(xs)[y];
    }
  }

  /** Every element stands in `ok` to every later element. */
  ghost predicate Pairwise<T(!new)>(s: seq<T>, ok: (T, T) -> bool) {
    forall i, j :: 0 <= i < j < |s| ==> ok(s[i], s[j])
  }

  /** Leaving elements out keeps a relation between every element and the
      later ones. */
  lemma {:induction false} SubsequencePairwise<T(!new)>(a: seq<T>, b: seq<T>, ok: (T, T) -> bool)
    requires IsSubsequence(a, b) && Pairwise(b, ok)
    ensures Pairwise(a, ok)
    decreases |b|
  {
    if b != [] {
      var rest := b[1..];
      assert Pairwise(rest, ok) by {
        forall i, j | 0 <= i < j < |rest| ensures ok(rest[i], rest[j]) {
          assert rest[i] == b[i + 1] && rest[j] == b[j + 1];
        }
      }
      if IsSubsequence(a, rest) {
        SubsequencePairwise(a, rest, ok);
      } else {
        SubsequencePairwise(a[1..], rest, ok);
        SubsequenceMembers(a[1..], rest);
        forall i, j | 0 <= i < j < |a| ensures ok(a[i], a[j]) {
          if i == 0 {
            assert a[j] == a[1..][j - 1];
            assert a[j] in rest;
            var k :| 0 <= k < |rest| && rest[k] == a[j];
            assert b[k + 1] == a[j];
          } else {
            assert a[i] == a[1..][i - 1] && a[j] == a[1..][j - 1];
          }
        }
      }
    }
  }

  /** An element of a non-empty list is its head or in its tail. */
  lemma HeadOrTail<T>(s: seq<T>)
    requires s != []
    ensures forall x :: x in s <==> x == s[0] || x in s[1..]
  {
    assert s == [s[0]] + s[1..];
  }

  /** Cutting a list at `j` keeps the elements before and after the cut. */
  lemma SplitAt<T>(s: seq<T>, i: int, j: int)
    requires 0 <= i < j < |s|
    ensures s == s[..j] + s[j..]
    ensures s[i] in s[..j] && s[j] in s[j..]
  {
    assert s[..j][i] == s[i] && s[j..][0] == s[j];
  }

  /** A non-empty list queued twice, in two parts of a longer list, does
      not fit into a list without duplicates. */
  lemma TwiceDoesNotFit<T(!new)>(m: seq<T>, a: seq<T>, b: seq<T>, s: seq<T>)
    requires m != []
    requires multiset(m) <= multiset(a) && multiset(m) <= multiset(b)
    requires Distinct(s)
    ensures !(multiset(a + b) <= multiset(s))
  {
    var x := m[0];
    assert multiset(m)[x] >= 1;
    assert multiset(a + b) == multiset(a) + multiset(b);
    assert multiset(a + b)[x] >= 2;
    assert multiset(s)[x] <= 1;
  }

  /** `acc.update(xs)` on a set kept as a list in first-seen order. */
  function AddNew<T(==,!new)>(acc: seq<T>, xs: seq<T>): (r: seq<T>)
    ensures forall x :: x in r <==> x in acc || x in xs
    ensures Distinct(acc) ==> Distinct(r)
    decreases |xs|
  {
    if xs == [] then acc
    else if xs[0] in acc then AddNew(acc, xs[1..])
    else
      assert Distinct(acc) ==> Distinct(acc + [xs[0]]) by {
        if Distinct(acc) {
          forall y ensures multiset(acc + [xs[0]])[y] <= 1 {
            assert multiset(acc + [xs[0]]) == multiset(acc) + multiset{xs[0]};
          }
        }
      }
      AddNew(acc + [xs[0]], xs[1..])
  }

  /** The concatenation of `f(x)` over the elements `x` of `s`, in order. */
  function FlatMap<T, U>(f: T -> seq<U>, s: seq<T>): seq<U>
    decreases |s|
  {
    if s == [] then [] else f(s[0]) + FlatMap(f, s[1..])
  }

  lemma {:induction false} FlatMapAppend<T, U>(f: T -> seq<U>, a: seq<T>, b: seq<T>)
    ensures FlatMap(f, a + b) == FlatMap(f, a) + FlatMap(f, b)
    decreases |a|
  {
    if a == [] {
      assert a + b == b;
    } else {
      assert (a + b)[0] == a[0] && (a + b)[1..] == a[1..] + b;
      FlatMapAppend(f, a[1..], b);
      assert f(a[0]) + (FlatMap(f, a[1..]) + FlatMap(f, b)) == (f(a[0]) + FlatMap(f, a[1..])) + FlatMap(f, b);
    }
  }
}
