/** Order-preserving filtering of sequences (JavaScript's `Array.prototype.filter`) and subsequences. */
module Seqs {

  /** The elements of `s` that satisfy `p`, in their original order. */
  function Keep<T>(s: seq<T>, p: T -> bool): (r: seq<T>)
    ensures |r| <= |s|
    ensures forall i :: 0 <= i < |r| ==> r[i] in s && p(r[i])
    ensures forall i :: 0 <= i < |s| && p(s[i]) ==> s[i] in r
  {
    if s == [] then [] else (if p(s[0]) then [s[0]] else []) + Keep(s[1..], p)
  }

  /** `idx` picks, in strictly increasing positions of `b`, the elements of `a`. */
  ghost predicate Embeds<T>(a: seq<T>, b: seq<T>, idx: seq<nat>) {
    && |idx| == |a|
    && (forall i :: 0 <= i < |idx| ==> idx[i] < |b| && a[i] == b[idx[i]])
    && (forall i, j :: 0 <= i < j < |idx| ==> idx[i] < idx[j])
  }

  /** `a` is obtained from `b` by deleting elements, without reordering the rest. */
  ghost predicate IsSubsequence<T>(a: seq<T>, b: seq<T>) {
    exists idx :: Embeds(a, b, idx)
  }

  /** The positions of `s` that `Keep(s, p)` retains. */
  function KeptPositions<T>(s: seq<T>, p: T -> bool): seq<nat>
  {
    if s == [] then []
    else (if p(s[0]) then [0] else []) + Shift(KeptPositions(s[1..], p))
  }

  function Shift(idx: seq<nat>): (r: seq<nat>)
    ensures |r| == |idx| && forall i :: 0 <= i < |idx| ==> r[i] == idx[i] + 1
  {
    seq(|idx|, i requires 0 <= i < |idx| => idx[i] + 1)
  }

  /** An embedding into `s[1..]`, shifted by one, is an embedding into `s`, at positions above 0. */
  lemma ShiftEmbeds<T>(a: seq<T>, s: seq<T>, idx: seq<nat>)
    requires s != [] && Embeds(a, s[1..], idx)
    ensures Embeds(a, s, Shift(idx))
    ensures forall i :: 0 <= i < |idx| ==> Shift(idx)[i] > 0
  {
    var shifted := Shift(idx);
    forall i | 0 <= i < |shifted|
      ensures shifted[i] < |s| && a[i] == s[shifted[i]]
    {
      assert a[i] == s[1..][idx[i]];
    }
  }

  /** Putting `s[0]` at position 0 in front of an embedding that avoids position 0 is an embedding. */
  lemma ConsEmbeds<T>(a: seq<T>, s: seq<T>, idx: seq<nat>)
    requires s != [] && Embeds(a, s, idx)
    requires forall i :: 0 <= i < |idx| ==> idx[i] > 0
    ensures Embeds([s[0]] + a, s, [0] + idx)
  {
    var r, pos := [s[0]] + a, [0] + idx;
    forall i | 0 <= i < |pos|
      ensures pos[i] < |s| && r[i] == s[pos[i]]
    {
      if i > 0 {
        assert r[i] == a[i - 1] && pos[i] == idx[i - 1];
      }
    }
    forall i, j | 0 <= i < j < |pos|
      ensures pos[i] < pos[j]
    {
      assert pos[j] == idx[j - 1];
      if i > 0 {
        assert pos[i] == idx[i - 1];
      }
    }
  }

  lemma {:induction false} KeptPositionsEmbed<T>(s: seq<T>, p: T -> bool)
    ensures Embeds(Keep(s, p), s, KeptPositions(s, p))
  {
    if s != [] {
      var rest, tail := Keep(s[1..], p), KeptPositions(s[1..], p);
      KeptPositionsEmbed(s[1..], p);
      ShiftEmbeds(rest, s, tail);
      if p(s[0]) {
        assert Keep(s, p) == [s[0]] + rest;
        assert KeptPositions(s, p) == [0] + Shift(tail);
        ConsEmbeds(rest, s, Shift(tail));
      } else {
        assert Keep(s, p) == rest;
        assert KeptPositions(s, p) == Shift(tail);
      }
    }
  }

  /** Filtering never reorders: the result is a subsequence of the input. */
  lemma KeepIsSubsequence<T>(s: seq<T>, p: T -> bool)
    ensures IsSubsequence(Keep(s, p), s)
  {
    KeptPositionsEmbed(s, p);
  }

  /** When every element passes, filtering is the identity. */
  lemma {:induction false} KeepAll<T>(s: seq<T>, p: T -> bool)
    requires forall i :: 0 <= i < |s| ==> p(s[i])
    ensures Keep(s, p) == s
  {
    if s != [] {
      KeepAll(s[1..], p);
    }
  }

  /** Two predicates that agree on the elements of `s` filter it alike. */
  lemma {:induction false} KeepAgree<T>(s: seq<T>, p: T -> bool, q: T -> bool)
    requires forall i :: 0 <= i < |s| ==> p(s[i]) == q(s[i])
    ensures Keep(s, p) == Keep(s, q)
  {
    if s != [] {
      KeepAgree(s[1..], p, q);
    }
  }

  /** Chained filters are one filter by the conjunction. */
  lemma {:induction false} KeepKeep<T>(s: seq<T>, p: T -> bool, q: T -> bool, both: T -> bool)
    requires forall x :: both(x) == (p(x) && q(x))
    ensures Keep(Keep(s, p), q) == Keep(s, both)
  {
    if s != [] {
      KeepKeep(s[1..], p, q, both);
      assert Keep(s, p) == (if p(s[0]) then [s[0]] else []) + Keep(s[1..], p);
      KeepAppend(if p(s[0]) then [s[0]] else [], Keep(s[1..], p), q);
      if p(s[0]) {
        assert Keep([s[0]], q) == if q(s[0]) then [s[0]] else [] by {
          assert [s[0]][1..] == [];
        }
      }
    }
  }

  /** `Keep` applied only when `on` holds, as a conditional `.filter` step. */
  function KeepIf<T>(s: seq<T>, on: bool, p: T -> bool): (r: seq<T>)
    ensures !on ==> r == s
  {
    if on then Keep(s, p) else s
  }

  /** A conditional step after `prev` keeps what `next` keeps, when `next` is `prev` and, if the step is on, `p`. */
  lemma KeepIfStep<T>(s: seq<T>, on: bool, prev: T -> bool, p: T -> bool, next: T -> bool)
    requires forall x :: next(x) == (prev(x) && (on ==> p(x)))
    ensures KeepIf(Keep(s, prev), on, p) == Keep(s, next)
  {
    if on {
      KeepKeep(s, prev, p, next);
    } else {
      KeepAgree(s, prev, next);
    }
  }

  /** Filtering a concatenation filters each part. */
  lemma {:induction false} KeepAppend<T>(a: seq<T>, b: seq<T>, p: T -> bool)
    ensures Keep(a + b, p) == Keep(a, p) + Keep(b, p)
  {
    if a == [] {
      assert a + b == b;
    } else {
      var head := if p(a[0]) then [a[0]] else [];
      calc {
        Keep(a + b, p);
        { assert (a + b)[0] == a[0]; }
        head + Keep((a + b)[1..], p);
        { assert (a + b)[1..] == a[1..] + b; }
        head + Keep(a[1..] + b, p);
        { KeepAppend(a[1..], b, p); }
        head + (Keep(a[1..], p) + Keep(b, p));
        (head + Keep(a[1..], p)) + Keep(b, p);
        Keep(a, p) + Keep(b, p);
      }
    }
  }

  /** A filter that no element passes returns the empty array. */
  lemma {:induction false} KeepNone<T>(s: seq<T>, p: T -> bool)
    requires forall i :: 0 <= i < |s| ==> !p(s[i])
    ensures Keep(s, p) == []
  {
    if s != [] {
      KeepNone(s[1..], p);
    }
  }

  /** Filtering `a + b` where every element of `a` passes and none of `b` does gives `a`. */
  lemma KeepLeftPart<T>(a: seq<T>, b: seq<T>, p: T -> bool)
    requires forall i :: 0 <= i < |a| ==> p(a[i])
    requires forall i :: 0 <= i < |b| ==> !p(b[i])
    ensures Keep(a + b, p) == a
  {
    KeepAppend(a, b, p);
    KeepAll(a, p);
    KeepNone(b, p);
  }

  /** Filtering `a + b` where no element of `a` passes and every element of `b` does gives `b`. */
  lemma KeepRightPart<T>(a: seq<T>, b: seq<T>, p: T -> bool)
    requires forall i :: 0 <= i < |a| ==> !p(a[i])
    requires forall i :: 0 <= i < |b| ==> p(b[i])
    ensures Keep(a + b, p) == b
  {
    KeepAppend(a, b, p);
    KeepAll(b, p);
    KeepNone(a, p);
  }

  /** Whatever holds of every element of `s` holds of every element kept. */
  lemma KeepAllSatisfy<T>(s: seq<T>, p: T -> bool, q: T -> bool)
    requires forall i :: 0 <= i < |s| ==> q(s[i])
    ensures forall i :: 0 <= i < |Keep(s, p)| ==> q(Keep(s, p)[i]) && p(Keep(s, p)[i])
  {
    var r := Keep(s, p);
    forall i | 0 <= i < |r| ensures q(r[i]) {
      var j :| 0 <= j < |s| && s[j] == r[i];
    }
  }
}
