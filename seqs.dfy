/**
 * Order-preserving filtering of sequences, the behaviour of JavaScript's
 * `Array.prototype.filter`. The recipe list search, the difficulty filter,
 * deletion by id and `filter(Boolean)` on split lines are all instances.
 */
module Seqs {

  /** The elements of `s` on which `keep` holds, in their original order. */
  function Filter<T>(s: seq<T>, keep: T -> bool): (r: seq<T>)
    ensures |r| <= |s|
    ensures forall i :: 0 <= i < |r| ==> keep(r[i]) && r[i] in s
    ensures forall i :: 0 <= i < |s| && keep(s[i]) ==> s[i] in r
  {
    if s == [] then []
    else if keep(s[0]) then [s[0]] + Filter(s[1..], keep)
    else Filter(s[1..], keep)
  }

  /** Filtering distributes over concatenation. */
  lemma {:induction false} FilterAppend<T>(a: seq<T>, b: seq<T>, keep: T -> bool)
    ensures Filter(a + b, keep) == Filter(a, keep) + Filter(b, keep)
  {
    if a == [] {
      assert a + b == b;
    } else {
      assert (a + b)[0] == a[0];
      assert (a + b)[1..] == a[1..] + b;
      FilterAppend(a[1..], b, keep);
    }
  }

  /** A filter that every element passes returns the sequence unchanged. */
  lemma {:induction false} FilterKeepsAll<T>(s: seq<T>, keep: T -> bool)
    requires forall i :: 0 <= i < |s| ==> keep(s[i])
    ensures Filter(s, keep) == s
  {
    if s != [] {
      FilterKeepsAll(s[1..], keep);
    }
  }

  /** Applying the same filter twice gives what applying it once gives. */
  lemma {:induction false} FilterIdempotent<T>(s: seq<T>, keep: T -> bool)
    ensures Filter(Filter(s, keep), keep) == Filter(s, keep)
  {
    FilterKeepsAll(Filter(s, keep), keep);
  }

  /** Two filters applied one after the other give the same result in either order. */
  lemma {:induction false} FilterCommute<T>(s: seq<T>, p: T -> bool, q: T -> bool)
    ensures Filter(Filter(s, p), q) == Filter(Filter(s, q), p)
  {
    if s != [] {
      FilterCommute(s[1..], p, q);
    }
  }

  /** Every position in `ps` moved one place to the right. */
  function Shifted(ps: seq<nat>): (r: seq<nat>)
    ensures |r| == |ps|
    ensures forall k :: 0 <= k < |r| ==> r[k] == ps[k] + 1
  {
    seq(|ps|, k requires 0 <= k < |ps| => ps[k] + 1)
  }

  lemma ShiftedMembers(ps: seq<nat>, i: nat)
    ensures i in Shifted(ps) <==> i > 0 && i - 1 in ps
  {
    var r := Shifted(ps);
    if i in r {
      var k :| 0 <= k < |r| && r[k] == i;
      assert ps[k] == i - 1;
    }
    if i > 0 && i - 1 in ps {
      var k :| 0 <= k < |ps| && ps[k] == i - 1;
      assert r[k] == i;
    }
  }

  /** `pos` lists, in increasing order, the positions of `s` that hold the elements of `r`. */
  ghost predicate Picks<T>(s: seq<T>, r: seq<T>, pos: seq<nat>)
  {
    && |pos| == |r|
    && (forall k :: 0 <= k < |pos| ==> pos[k] < |s| && r[k] == s[pos[k]])
    && (forall k, l :: 0 <= k < l < |pos| ==> pos[k] < pos[l])
  }

  /** Positions picking `r` out of the tail pick `r`, or `[x] + r`, out of the whole. */
  lemma PicksCons<T>(s: seq<T>, r: seq<T>, pos: seq<nat>, keepHead: bool)
    requires s != [] && Picks(s[1..], r, pos)
    ensures keepHead ==> Picks(s, [s[0]] + r, [0] + Shifted(pos))
    ensures !keepHead ==> Picks(s, r, Shifted(pos))
  {
    var sh := Shifted(pos);
    forall k | 0 <= k < |sh|
      ensures sh[k] < |s| && r[k] == s[sh[k]]
    {
      assert r[k] == s[1..][pos[k]];
    }
    if keepHead {
      var p := [0] + sh;
      var r' := [s[0]] + r;
      forall k | 0 <= k < |p|
        ensures p[k] < |s| && r'[k] == s[p[k]]
      {
        if k > 0 {
          assert p[k] == sh[k - 1] && r'[k] == r[k - 1];
        }
      }
    }
  }

  /**
   * The result of a filter is the order-preserving subsequence of `s` made of
   * exactly the positions whose element passes: `pos` lists those positions,
   * strictly increasing, and the result's k-th element is `s[pos[k]]`.
   */
  lemma {:induction false} FilterPositions<T>(s: seq<T>, keep: T -> bool) returns (pos: seq<nat>)
    ensures Picks(s, Filter(s, keep), pos)
    ensures forall i :: 0 <= i < |s| ==> (keep(s[i]) <==> i in pos)
  {
    if s == [] {
      pos := [];
      return;
    }
    var rest := FilterPositions(s[1..], keep);
    PicksCons(s, Filter(s[1..], keep), rest, keep(s[0]));
    var shifted := Shifted(rest);
    pos := if keep(s[0]) then [0] + shifted else shifted;
    forall i | 0 <= i < |s|
      ensures keep(s[i]) <==> i in pos
    {
      ShiftedMembers(rest, i);
      if 1 <= i {
        assert s[i] == s[1..][i - 1];
      }
    }
  }
}
