/**
 * Generic sequence operations used to state what a listing loop emits:
 * the whole source sequence mapped to rows, the entities a membership list
 * points at, and the order-preserving selection of the elements a filter keeps.
 */
module Selection {

  /** The image of every element of `s` under `f`, in the order of `s`. */
  function Map<T, R>(s: seq<T>, f: T -> R): (r: seq<R>)
    ensures |r| == |s|
    ensures forall k :: 0 <= k < |s| ==> r[k] == f(s[k])
  {
    if s == [] then [] else Map(s[..|s| - 1], f) + [f(s[|s| - 1])]
  }

  /** The elements of `s` that the references `refs` point at, in the order of `refs`. */
  function Deref<T>(s: seq<T>, refs: seq<nat>): (r: seq<T>)
    requires forall k :: 0 <= k < |refs| ==> refs[k] < |s|
    ensures |r| == |refs|
    ensures forall k :: 0 <= k < |refs| ==> r[k] == s[refs[k]]
  {
    if refs == [] then [] else Deref(s, refs[..|refs| - 1]) + [s[refs[|refs| - 1]]]
  }

  /** Everything a list of references points at is an element of `s`. */
  lemma DerefWithin<T>(s: seq<T>, refs: seq<nat>)
    requires forall k :: 0 <= k < |refs| ==> refs[k] < |s|
    ensures forall x :: x in Deref(s, refs) ==> x in s
  {
    var d := Deref(s, refs);
    forall x | x in d
      ensures x in s
    {
      var k :| 0 <= k < |d| && d[k] == x;
      assert x == s[refs[k]];
    }
  }

  /** Going one more reference along `refs` adds the image of the entity it points at. */
  lemma MapDerefStep<T, R>(prefix: seq<R>, s: seq<T>, refs: seq<nat>, i: nat, f: T -> R)
    requires forall k :: 0 <= k < |refs| ==> refs[k] < |s|
    requires i < |refs|
    ensures prefix + Map(Deref(s, refs[..i + 1]), f) == prefix + Map(Deref(s, refs[..i]), f) + [f(s[refs[i]])]
  {
    var d, x := Deref(s, refs[..i]), s[refs[i]];
    DerefSnoc(s, refs, i);
    MapSnoc(d, x, f);
    AppendAssoc(prefix, Map(d, f), [f(x)]);
  }

  /** Concatenation regroups; stated on its own so the step above stays in a small context. */
  lemma AppendAssoc<T>(a: seq<T>, b: seq<T>, c: seq<T>)
    ensures a + (b + c) == a + b + c
  {
  }

  lemma DerefSnoc<T>(s: seq<T>, refs: seq<nat>, i: nat)
    requires forall k :: 0 <= k < |refs| ==> refs[k] < |s|
    requires i < |refs|
    ensures Deref(s, refs[..i + 1]) == Deref(s, refs[..i]) + [s[refs[i]]]
  {
    assert refs[..i + 1][..i] == refs[..i];
  }

  lemma MapSnoc<T, R>(a: seq<T>, x: T, f: T -> R)
    ensures Map(a + [x], f) == Map(a, f) + [f(x)]
  {
    assert (a + [x])[..|a|] == a;
  }

  /**
   * The images under `f` of the elements of `s` that `keep` accepts, in the
   * order of `s`. Defined by the last element, the way a loop over `s` grows it.
   */
  function FilterMap<T, R>(s: seq<T>, keep: T -> bool, f: T -> R): (r: seq<R>)
    ensures |r| <= |s|
  {
    if s == [] then []
    else FilterMap(s[..|s| - 1], keep, f) + (if keep(s[|s| - 1]) then [f(s[|s| - 1])] else [])
  }

  /** The elements of `s` that `keep` accepts, in the order of `s`. */
  function Filter<T>(s: seq<T>, keep: T -> bool): (r: seq<T>)
    ensures |r| <= |s|
    ensures forall k :: 0 <= k < |r| ==> r[k] in s && keep(r[k])
  {
    if s == [] then []
    else Filter(s[..|s| - 1], keep) + (if keep(s[|s| - 1]) then [s[|s| - 1]] else [])
  }

  /** Selecting and then mapping is mapping the selection. */
  lemma {:induction false} FilterMapIsMapOfFilter<T, R>(s: seq<T>, keep: T -> bool, f: T -> R)
    ensures FilterMap(s, keep, f) == Map(Filter(s, keep), f)
  {
    if s != [] {
      var init, last := s[..|s| - 1], s[|s| - 1];
      FilterMapIsMapOfFilter(init, keep, f);
      if keep(last) {
        MapSnoc(Filter(init, keep), last, f);
      }
    }
  }

  /** The indices of the elements of `s` that `keep` accepts: all of them, each once, ascending. */
  function Positions<T>(s: seq<T>, keep: T -> bool): (r: seq<nat>)
    ensures forall k :: 0 <= k < |r| ==> r[k] < |s| && keep(s[r[k]])
    ensures forall k, l :: 0 <= k < l < |r| ==> r[k] < r[l]
    ensures forall j :: 0 <= j < |s| ==> (j in r <==> keep(s[j]))
  {
    if s == [] then []
    else Positions(s[..|s| - 1], keep) + (if keep(s[|s| - 1]) then [|s| - 1] else [])
  }

  /** Filter picks the elements at exactly the positions `keep` accepts: an order-preserving subsequence. */
  lemma {:induction false} FilterAtPositions<T>(s: seq<T>, keep: T -> bool)
    ensures |Filter(s, keep)| == |Positions(s, keep)|
    ensures forall k :: 0 <= k < |Positions(s, keep)| ==> Filter(s, keep)[k] == s[Positions(s, keep)[k]]
  {
    if s != [] {
      var init, last := s[..|s| - 1], s[|s| - 1];
      FilterAtPositions(init, keep);
      var p, m := Positions(init, keep), Filter(init, keep);
      var p', m' := Positions(s, keep), Filter(s, keep);
      if keep(last) {
        assert p' == p + [|s| - 1];
        assert m' == m + [last];
      } else {
        assert p' == p;
        assert m' == m;
      }
      forall k | 0 <= k < |p'|
        ensures m'[k] == s[p'[k]]
      {
        if k < |p| {
          assert m'[k] == m[k] && p'[k] == p[k];
          assert s[p[k]] == init[p[k]];
        }
      }
    }
  }

  /** FilterMap is `f` applied at exactly the positions `keep` accepts. */
  lemma FilterMapAtPositions<T, R>(s: seq<T>, keep: T -> bool, f: T -> R)
    ensures |FilterMap(s, keep, f)| == |Positions(s, keep)|
    ensures forall k :: 0 <= k < |Positions(s, keep)| ==>
              FilterMap(s, keep, f)[k] == f(s[Positions(s, keep)[k]])
  {
    FilterMapIsMapOfFilter(s, keep, f);
    FilterAtPositions(s, keep);
  }

  /** A filter that accepts every element drops nothing. */
  lemma {:induction false} FilterMapKeepingAll<T, R>(s: seq<T>, keep: T -> bool, f: T -> R)
    requires forall k :: 0 <= k < |s| ==> keep(s[k])
    ensures FilterMap(s, keep, f) == Map(s, f)
  {
    if s != [] {
      FilterMapKeepingAll(s[..|s| - 1], keep, f);
    }
  }

  /** Two filters that agree on every element of `s` select the same elements. */
  lemma {:induction false} FilterMapCongruent<T, R>(s: seq<T>, keep1: T -> bool, keep2: T -> bool, f: T -> R)
    requires forall k :: 0 <= k < |s| ==> keep1(s[k]) == keep2(s[k])
    ensures FilterMap(s, keep1, f) == FilterMap(s, keep2, f)
  {
    if s != [] {
      FilterMapCongruent(s[..|s| - 1], keep1, keep2, f);
    }
  }

  /** Where the rows sit in a reply framed by one leading and one trailing line. */
  lemma FramedRows<T>(head: T, rows: seq<T>, tail: T)
    ensures |[head] + rows + [tail]| == |rows| + 2
    ensures forall k :: 0 <= k < |rows| ==> ([head] + rows + [tail])[k + 1] == rows[k]
  {
  }
}
