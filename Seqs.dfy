/** Sequence helpers shared by the planner and the streaming read. */
module Seqs {
  /** The elements of `ss`, one sequence after the other, in order. */
  function Flatten<T>(ss: seq<seq<T>>): seq<T>
  {
    if ss == [] then [] else Flatten(ss[..|ss| - 1]) + ss[|ss| - 1]
  }

  lemma {:induction false} FlattenAppend<T>(a: seq<seq<T>>, b: seq<seq<T>>)
    ensures Flatten(a + b) == Flatten(a) + Flatten(b)
    decreases |b|
  {
    if b == [] {
      assert a + b == a;
    } else {
      assert (a + b)[..|a + b| - 1] == a + b[..|b| - 1];
      FlattenAppend(a, b[..|b| - 1]);
    }
  }

  lemma FlattenSnoc<T>(ss: seq<seq<T>>, s: seq<T>)
    ensures Flatten(ss + [s]) == Flatten(ss) + s
  {
    assert (ss + [s])[..|ss|] == ss;
  }

  lemma FlattenSingle<T>(s: seq<T>)
    ensures Flatten([s]) == s
  {
    assert [s][..0] == [];
  }

  /** The length of the longest sequence in `ss` (0 when there is none). */
  function MaxLength<T>(ss: seq<seq<T>>): (m: nat)
    ensures forall i :: 0 <= i < |ss| ==> |ss[i]| <= m
    ensures ss != [] ==> exists i :: 0 <= i < |ss| && |ss[i]| == m
    ensures ss == [] ==> m == 0
  {
    if ss == [] then 0
    else
      var m := MaxLength(ss[..|ss| - 1]);
      var last := |ss[|ss| - 1]|;
      if m < last then last else m
  }

  /** Every element of `ss` is longer than `lo` and at most `hi` long. */
  predicate LengthsWithin<T>(ss: seq<seq<T>>, lo: nat, hi: nat)
  {
    forall i :: 0 <= i < |ss| ==> lo < |ss[i]| <= hi
  }

  lemma LengthsWithinAppend<T>(a: seq<seq<T>>, b: seq<seq<T>>, lo: nat, hi: nat)
    requires LengthsWithin(a, lo, hi) && LengthsWithin(b, lo, hi)
    ensures LengthsWithin(a + b, lo, hi)
  {
    forall i | 0 <= i < |a + b| ensures lo < |(a + b)[i]| <= hi {
      if i >= |a| {
        assert (a + b)[i] == b[i - |a|];
      }
    }
  }

  /** No element of a stretch at the front of `ss` is longer than the longest element of `ss`. */
  lemma PrefixWithinMaxLength<T>(done: seq<seq<T>>, next: seq<seq<T>>, ss: seq<seq<T>>)
    requires done + next <= ss
    ensures forall i :: 0 <= i < |next| ==> |next[i]| <= MaxLength(ss)
  {
    forall i | 0 <= i < |next| ensures |next[i]| <= MaxLength(ss) {
      assert ss[|done| + i] == (done + next)[|done| + i] == next[i];
    }
  }

  /** `f` applied to every element, in order (a Python list comprehension). */
  function Map<A, B>(f: A -> B, s: seq<A>): (r: seq<B>)
    ensures |r| == |s| && forall i :: 0 <= i < |s| ==> r[i] == f(s[i])
  {
    seq(|s|, i requires 0 <= i < |s| => f(s[i]))
  }

  lemma MapSnoc<A, B>(f: A -> B, s: seq<A>)
    requires |s| > 0
    ensures Map(f, s) == Map(f, s[..|s| - 1]) + [f(s[|s| - 1])]
  {
  }

  /** Mapping the pieces one by one and joining them maps the joined whole. */
  lemma {:induction false} MapFlatten<A, B>(f: A -> B, ss: seq<seq<A>>, rs: seq<seq<B>>)
    requires |rs| == |ss| && forall i :: 0 <= i < |ss| ==> rs[i] == Map(f, ss[i])
    ensures Flatten(rs) == Map(f, Flatten(ss))
    decreases |ss|
  {
    if ss != [] {
      var n := |ss|;
      MapFlatten(f, ss[..n - 1], rs[..n - 1]);
      assert Map(f, Flatten(ss)) == Map(f, Flatten(ss[..n - 1])) + Map(f, ss[n - 1]);
    }
  }

  /** An element of the joined sequence comes from one of the pieces, and back. */
  lemma {:induction false} FlattenMembership<T>(ss: seq<seq<T>>, x: T)
    ensures x in Flatten(ss) <==> exists i :: 0 <= i < |ss| && x in ss[i]
    decreases |ss|
  {
    if ss != [] {
      var n := |ss|;
      FlattenMembership(ss[..n - 1], x);
      assert forall i :: 0 <= i < n - 1 ==> ss[..n - 1][i] == ss[i];
      if x in ss[n - 1] {
        assert x in Flatten(ss);
      }
    }
  }
}
