/**
  Sequence combinators standing for the JavaScript array methods the
  application chains together (`filter`, `map`, `every`, `slice(0, n)`),
  and the optional values that stand for `null` / `undefined`.
 */
module Common {

  datatype Option<+T> = None | Some(value: T)

  /** `a` occurs in `b` in the same order, possibly with gaps. */
  ghost predicate IsSubseq<T>(a: seq<T>, b: seq<T>)
    decreases |b|
  {
    a == [] ||
    (b != [] &&
     ((a[0] == b[0] && IsSubseq(a[1..], b[1..])) || IsSubseq(a, b[1..])))
  }

  lemma {:induction false} SubseqBounds<T>(a: seq<T>, b: seq<T>)
    requires IsSubseq(a, b)
    ensures |a| <= |b|
    ensures forall x :: x in a ==> x in b
    decreases |b|
  {
    if a != [] {
      if a[0] == b[0] && IsSubseq(a[1..], b[1..]) {
        SubseqBounds(a[1..], b[1..]);
        forall x | x in a ensures x in b {
          if x != a[0] { assert x in a[1..]; }
        }
      } else {
        SubseqBounds(a, b[1..]);
      }
    }
  }

  /** `Array.prototype.filter`: the elements satisfying `p`, in their original order. */
  function Filter<T(!new)>(s: seq<T>, p: T -> bool): (r: seq<T>)
    ensures |r| <= |s|
    ensures forall x :: x in r <==> x in s && p(x)
    ensures IsSubseq(r, s)
    ensures (forall i :: 0 <= i < |s| ==> p(s[i])) ==> r == s
  {
    if s == [] then []
    else
      var rest := Filter(s[1..], p);
      assert forall x :: x in s <==> x == s[0] || x in s[1..];
      if p(s[0]) then
        assert ([s[0]] + rest)[1..] == rest;
        [s[0]] + rest
      else rest
  }

  lemma {:induction false} FilterAppend<T(!new)>(s: seq<T>, t: seq<T>, p: T -> bool)
    ensures Filter(s + t, p) == Filter(s, p) + Filter(t, p)
    decreases |s|
  {
    if s == [] {
      assert s + t == t;
    } else {
      assert (s + t)[0] == s[0] && (s + t)[1..] == s[1..] + t;
      FilterAppend(s[1..], t, p);
    }
  }

  lemma {:induction false} FilterIdempotent<T(!new)>(s: seq<T>, p: T -> bool)
    ensures Filter(Filter(s, p), p) == Filter(s, p)
  {
    var r := Filter(s, p);
    assert forall i :: 0 <= i < |r| ==> r[i] in r;
  }

  /** Filters by tests that agree on every element agree. */
  lemma {:induction false} FilterCongruent<T(!new)>(s: seq<T>, p: T -> bool, q: T -> bool)
    requires forall i :: 0 <= i < |s| ==> p(s[i]) == q(s[i])
    ensures Filter(s, p) == Filter(s, q)
  {
    if s != [] {
      FilterCongruent(s[1..], p, q);
    }
  }

  /** Every position listed in `idx` is a position of `s` whose element satisfies `p`. */
  ghost predicate Qualify<T>(idx: seq<nat>, s: seq<T>, p: T -> bool)
  {
    forall k :: 0 <= k < |idx| ==> idx[k] < |s| && p(s[idx[k]])
  }

  ghost predicate Increasing(idx: seq<nat>)
  {
    forall k, l :: 0 <= k < l < |idx| ==> idx[k] < idx[l]
  }

  /** Every position of `s` whose element satisfies `p` is listed in `idx`. */
  ghost predicate Covers<T>(idx: seq<nat>, s: seq<T>, p: T -> bool)
  {
    forall i :: 0 <= i < |s| && p(s[i]) ==> i in idx
  }

  /**
    `idx` lists, in increasing order, exactly the positions of `s` whose
    element satisfies `p`: each such position once, and no other.
   */
  ghost predicate IsPositions<T>(idx: seq<nat>, s: seq<T>, p: T -> bool)
  {
    Qualify(idx, s, p) && Increasing(idx) && Covers(idx, s, p)
  }

  /** The positions of `s[..|s| - 1]` seen from `s`: followed by the last position when it qualifies. */
  ghost function Extend<T>(s: seq<T>, p: T -> bool, idx: seq<nat>): seq<nat>
    requires s != []
  {
    if p(s[|s| - 1]) then idx + [|s| - 1] else idx
  }

  lemma ExtendQualify<T>(s: seq<T>, p: T -> bool, idx: seq<nat>)
    requires s != [] && Qualify(idx, s[..|s| - 1], p)
    ensures Qualify(Extend(s, p, idx), s, p)
  {
    var n := |s| - 1;
    var r := Extend(s, p, idx);
    forall k | 0 <= k < |r| ensures r[k] < |s| && p(s[r[k]]) {
      if k < |idx| {
        assert r[k] == idx[k];
        assert s[..n][idx[k]] == s[idx[k]];
      }
    }
  }

  lemma ExtendIncreasing<T>(s: seq<T>, p: T -> bool, idx: seq<nat>)
    requires s != [] && Qualify(idx, s[..|s| - 1], p) && Increasing(idx)
    ensures Increasing(Extend(s, p, idx))
  {
    var r := Extend(s, p, idx);
    forall k, l | 0 <= k < l < |r| ensures r[k] < r[l] {
      if l < |idx| {
        assert r[k] == idx[k] && r[l] == idx[l];
      } else {
        assert r[k] == idx[k];
      }
    }
  }

  lemma ExtendCovers<T>(s: seq<T>, p: T -> bool, idx: seq<nat>)
    requires s != [] && Covers(idx, s[..|s| - 1], p)
    ensures Covers(Extend(s, p, idx), s, p)
  {
    var n := |s| - 1;
    var r := Extend(s, p, idx);
    forall i | 0 <= i < |s| && p(s[i]) ensures i in r {
      if i < n {
        assert s[..n][i] == s[i];
        var k :| 0 <= k < |idx| && idx[k] == i;
        assert r[k] == i;
      }
    }
  }

  /** `Array.prototype.map`. */
  function Map<T, U>(s: seq<T>, f: T -> U): (r: seq<U>)
    ensures |r| == |s|
    ensures forall i :: 0 <= i < |s| ==> r[i] == f(s[i])
  {
    seq(|s|, i requires 0 <= i < |s| => f(s[i]))
  }

  lemma ExtendPicks<T>(s: seq<T>, p: T -> bool, idx: seq<nat>, picked: seq<T>)
    requires s != [] && |idx| == |picked|
    requires forall k :: 0 <= k < |idx| ==> idx[k] < |s| - 1 && picked[k] == s[..|s| - 1][idx[k]]
    ensures var r := picked + (if p(s[|s| - 1]) then [s[|s| - 1]] else []);
      |Extend(s, p, idx)| == |r| && forall k :: 0 <= k < |r| ==> r[k] == s[Extend(s, p, idx)[k]]
  {
    var n := |s| - 1;
    var r := picked + (if p(s[n]) then [s[n]] else []);
    var e := Extend(s, p, idx);
    forall k | 0 <= k < |r| ensures r[k] == s[e[k]] {
      if k < |idx| {
        assert r[k] == picked[k] && e[k] == idx[k];
        assert s[..n][idx[k]] == s[idx[k]];
      }
    }
  }

  lemma ExtendPicksPresent<T>(s: seq<Option<T>>, idx: seq<nat>, picked: seq<T>)
    requires s != [] && |idx| == |picked|
    requires forall k :: 0 <= k < |idx| ==> idx[k] < |s| - 1 && s[..|s| - 1][idx[k]] == Some(picked[k])
    ensures var r := picked + (if s[|s| - 1].Some? then [s[|s| - 1].value] else []);
      |Extend(s, IsSome, idx)| == |r| && forall k :: 0 <= k < |r| ==> s[Extend(s, IsSome, idx)[k]] == Some(r[k])
  {
    var n := |s| - 1;
    var r := picked + (if s[n].Some? then [s[n].value] else []);
    var e := Extend(s, IsSome, idx);
    forall k | 0 <= k < |r| ensures s[e[k]] == Some(r[k]) {
      if k < |idx| {
        assert r[k] == picked[k] && e[k] == idx[k];
        assert s[..n][idx[k]] == s[idx[k]];
      }
    }
  }

  lemma FilterSnoc<T(!new)>(s: seq<T>, p: T -> bool)
    requires s != []
    ensures Filter(s, p) == Filter(s[..|s| - 1], p) + (if p(s[|s| - 1]) then [s[|s| - 1]] else [])
  {
    var n := |s| - 1;
    assert s == s[..n] + [s[n]];
    FilterAppend(s[..n], [s[n]], p);
    assert Filter([s[n]], p) == if p(s[n]) then [s[n]] else [];
  }

  /** `Filter` keeps every element satisfying `p`, each once and in order, and nothing else. */
  lemma {:induction false} FilterPositions<T(!new)>(s: seq<T>, p: T -> bool)
    ensures exists idx :: (IsPositions(idx, s, p) && |idx| == |Filter(s, p)| &&
      forall k :: 0 <= k < |idx| ==> Filter(s, p)[k] == s[idx[k]])
    decreases |s|
  {
    if s == [] {
      assert IsPositions([], s, p);
    } else {
      var n := |s| - 1;
      var init := s[..n];
      var rest := Filter(init, p);
      FilterPositions(init, p);
      var idx' :| IsPositions(idx', init, p) && |idx'| == |rest| &&
        (forall k :: 0 <= k < |idx'| ==> rest[k] == init[idx'[k]]);
      var idx := Extend(s, p, idx');
      assert IsPositions(idx, s, p) by {
        ExtendQualify(s, p, idx');
        ExtendIncreasing(s, p, idx');
        ExtendCovers(s, p, idx');
      }
      FilterSnoc(s, p);
      ExtendPicks(s, p, idx', rest);
    }
  }

  /** Positions selected by `p` in `a` are the positions selected by `q` in `b` when the two tests agree position by position. */
  lemma PositionsTransfer<T, U>(idx: seq<nat>, a: seq<T>, p: T -> bool, b: seq<U>, q: U -> bool)
    requires IsPositions(idx, a, p) && |a| == |b|
    requires forall i :: 0 <= i < |a| ==> p(a[i]) == q(b[i])
    ensures IsPositions(idx, b, q)
  {
    forall k | 0 <= k < |idx| ensures idx[k] < |b| && q(b[idx[k]]) {
      assert p(a[idx[k]]);
    }
    forall i | 0 <= i < |b| && q(b[i]) ensures i in idx {
      assert p(a[i]);
    }
  }

  predicate IsSome<T>(o: Option<T>)
  {
    o.Some?
  }

  /** The present values, in order: `map` to a value or `NaN` followed by a `filter` that drops `NaN`. */
  function Present<T(!new)>(s: seq<Option<T>>): (r: seq<T>)
    ensures |r| <= |s|
    ensures r == [] <==> forall i :: 0 <= i < |s| ==> s[i].None?
    ensures forall x :: x in r <==> Some(x) in s
  {
    if s == [] then []
    else
      var init := s[..|s| - 1];
      var rest := Present(init);
      assert forall o :: o in s <==> o in init || o == s[|s| - 1];
      match s[|s| - 1]
      case Some(x) => rest + [x]
      case None => rest
  }

  lemma PresentSnoc<T(!new)>(s: seq<Option<T>>)
    requires s != []
    ensures Present(s) == Present(s[..|s| - 1]) + (if s[|s| - 1].Some? then [s[|s| - 1].value] else [])
  {
  }

  /** `Present` keeps every present value, each once and in order, and nothing else. */
  lemma {:induction false} PresentPositions<T(!new)>(s: seq<Option<T>>)
    ensures exists idx :: (IsPositions(idx, s, IsSome) && |idx| == |Present(s)| &&
      forall k :: 0 <= k < |idx| ==> s[idx[k]] == Some(Present(s)[k]))
    decreases |s|
  {
    if s == [] {
      assert IsPositions([], s, IsSome);
    } else {
      var n := |s| - 1;
      var init := s[..n];
      var rest := Present(init);
      PresentPositions(init);
      var idx' :| IsPositions(idx', init, IsSome) && |idx'| == |rest| &&
        (forall k :: 0 <= k < |idx'| ==> init[idx'[k]] == Some(rest[k]));
      var idx := Extend(s, IsSome, idx');
      assert IsPositions(idx, s, IsSome) by {
        ExtendQualify(s, IsSome, idx');
        ExtendIncreasing(s, IsSome, idx');
        ExtendCovers(s, IsSome, idx');
      }
      PresentSnoc(s);
      ExtendPicksPresent(s, idx', rest);
    }
  }

  /** `Present` after `Map`: the values of the elements `f` maps to a value, each once and in order. */
  lemma PresentOfMap<T, U(!new)>(s: seq<T>, f: T -> Option<U>, q: T -> bool)
    requires forall x :: q(x) == f(x).Some?
    ensures exists idx :: (IsPositions(idx, s, q) && |idx| == |Present(Map(s, f))| &&
      forall k :: 0 <= k < |idx| ==> f(s[idx[k]]) == Some(Present(Map(s, f))[k]))
  {
    var cells := Map(s, f);
    var r := Present(cells);
    PresentPositions(cells);
    var idx :| IsPositions(idx, cells, IsSome) && |idx| == |r| &&
      forall k :: 0 <= k < |idx| ==> cells[idx[k]] == Some(r[k]);
    PositionsTransfer(idx, cells, IsSome, s, q);
  }

  /** `filter` then `map`: the k-th result is `f` of the k-th element satisfying `p`, each taken once. */
  lemma MapFilterPositions<T(!new), U>(s: seq<T>, p: T -> bool, f: T -> U)
    ensures exists idx :: (IsPositions(idx, s, p) && |idx| == |Map(Filter(s, p), f)| &&
      forall k :: 0 <= k < |idx| ==> Map(Filter(s, p), f)[k] == f(s[idx[k]]))
  {
    var kept := Filter(s, p);
    FilterPositions(s, p);
    var idx :| IsPositions(idx, s, p) && |idx| == |kept| &&
      forall k :: 0 <= k < |idx| ==> kept[k] == s[idx[k]];
    assert forall k :: 0 <= k < |idx| ==> Map(kept, f)[k] == f(s[idx[k]]);
  }

  /** `Array.prototype.every`. */
  predicate All<T>(s: seq<T>, p: T -> bool)
  {
    forall i :: 0 <= i < |s| ==> p(s[i])
  }

  /** `Array.prototype.slice(0, n)`: at most the first `n` elements. */
  function Take<T>(s: seq<T>, n: nat): (r: seq<T>)
    ensures |r| == if |s| < n then |s| else n
    ensures forall i :: 0 <= i < |r| ==> r[i] == s[i]
  {
    if |s| <= n then s else s[..n]
  }

  function Min(a: nat, b: nat): nat
  {
    if a < b then a else b
  }
}
