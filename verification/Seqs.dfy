/** Facts about slices and chunks, each small enough for the solver to need no help where it is used. */
module Seqs {
  lemma DropTwice<T>(s: seq<T>, k: nat, r: nat)
    requires k <= r <= |s|
    ensures s[r..] == s[k..][r - k..]
  {
  }

  lemma TakeDrop<T>(s: seq<T>, r: nat, k: nat)
    requires r <= k <= |s|
    ensures s[..k][r..] == s[r..k]
  {
  }

  lemma SliceOfTake<T>(s: seq<T>, k: nat, a: nat, b: nat)
    requires a <= b <= k <= |s|
    ensures s[..k][a..b] == s[a..b]
  {
  }

  lemma SliceCut<T>(s: seq<T>, r: nat, k: nat)
    requires r <= k <= |s|
    ensures s[r..] == s[r..k] + s[k..]
  {
  }

  lemma ConcatCut<T>(a: seq<T>, b: seq<T>, k: nat)
    requires k <= |b|
    ensures a + b == (a + b[..k]) + b[k..]
  {
  }

  lemma ConcatSlices<T>(a: seq<T>, b: seq<T>)
    ensures (a + b)[..|a|] == a && (a + b)[|a|..] == b
  {
  }

  lemma DropSnoc<T>(s: seq<T>, k: nat, x: T)
    requires k <= |s|
    ensures s[k..] + [x] == (s + [x])[k..]
  {
  }

  lemma DropFront<T>(s: seq<T>, k: nat)
    requires k < |s|
    ensures s[k..][..|s| - k - 1] == s[..|s| - 1][k..]
  {
  }

  lemma AppendAssoc<T>(a: seq<T>, b: seq<T>, c: seq<T>)
    ensures (a + b) + c == a + (b + c)
  {
  }

  /** All chunks, one after the other. */
  function Concat<T>(chunks: seq<seq<T>>): seq<T> {
    if chunks == [] then [] else Concat(chunks[..|chunks| - 1]) + chunks[|chunks| - 1]
  }

  lemma {:induction false} ConcatAppend<T>(a: seq<seq<T>>, b: seq<seq<T>>)
    ensures Concat(a + b) == Concat(a) + Concat(b)
  {
    if b == [] {
      assert a + b == a;
    } else {
      var n := |b| - 1;
      assert a + b == (a + b[..n]) + [b[n]];
      ConcatSnoc(a + b[..n], b[n]);
      ConcatAppend(a, b[..n]);
      AppendAssoc(Concat(a), Concat(b[..n]), b[n]);
    }
  }

  lemma ConcatSnoc<T>(chunks: seq<seq<T>>, last: seq<T>)
    ensures Concat(chunks + [last]) == Concat(chunks) + last
  {
    assert (chunks + [last])[..|chunks|] == chunks;
  }

  lemma ConcatUpto<T>(chunks: seq<seq<T>>, i: nat)
    requires i < |chunks|
    ensures Concat(chunks[..i + 1]) == Concat(chunks[..i]) + chunks[i]
  {
    hide Concat;
    assert chunks[..i + 1] == chunks[..i] + [chunks[i]];
    ConcatSnoc(chunks[..i], chunks[i]);
  }

  lemma ConcatNext<T>(chunks: seq<seq<T>>, i: nat)
    requires i < |chunks|
    ensures Concat(chunks) == Concat(chunks[..i]) + (chunks[i] + Concat(chunks[i + 1..]))
    ensures Concat(chunks[..i + 1]) == Concat(chunks[..i]) + chunks[i]
  {
    hide Concat;
    ConcatUpto(chunks, i);
    var before, after := chunks[..i + 1], chunks[i + 1..];
    assert chunks == before + after;
    ConcatAppend(before, after);
    AppendAssoc(Concat(chunks[..i]), chunks[i], Concat(after));
  }
}
