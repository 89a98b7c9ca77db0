/** Facts about sequences that every codec proof needs. */
module Sequences {

  lemma Assoc<T>(a: seq<T>, b: seq<T>, c: seq<T>)
    ensures (a + b) + c == a + (b + c)
  {
  }

  lemma Cut<T>(s: seq<T>, k: nat)
    requires k <= |s|
    ensures s[..k] + s[k..] == s
  {
  }

  lemma After<T>(a: seq<T>, b: seq<T>)
    ensures (a + b)[|a|..] == b && (a + b)[..|a|] == a
  {
  }

  /** Cutting a concatenation inside its first part. */
  lemma CutFirst<T>(a: seq<T>, b: seq<T>, n: nat)
    requires n <= |a|
    ensures (a + b)[..n] == a[..n] && (a + b)[n..] == a[n..] + b
  {
  }

  /** The next element of a prefix. */
  lemma Snoc<T>(s: seq<T>, k: nat)
    requires k < |s|
    ensures s[..k + 1] == s[..k] + [s[k]]
  {
  }

  lemma Whole<T>(s: seq<T>)
    ensures s[..|s|] == s && s[0..] == s && s + [] == s && [] + s == s
  {
  }

  /** The concatenation of a list of parts. */
  function Flatten<T>(parts: seq<seq<T>>): seq<T> {
    if parts == [] then [] else Flatten(parts[..|parts| - 1]) + parts[|parts| - 1]
  }

  lemma FlattenPush<T>(parts: seq<seq<T>>, part: seq<T>)
    ensures Flatten(parts + [part]) == Flatten(parts) + part
  {
    assert (parts + [part])[..|parts|] == parts;
  }

  lemma {:induction false} FlattenConcat<T>(a: seq<seq<T>>, b: seq<seq<T>>)
    ensures Flatten(a + b) == Flatten(a) + Flatten(b)
  {
    if b == [] {
      assert a + b == a;
    } else {
      var init, last := b[..|b| - 1], b[|b| - 1];
      FlattenConcat(a, init);
      FlattenPush(a + init, last);
      assert a + b == (a + init) + [last];
      Assoc(Flatten(a), Flatten(init), last);
    }
  }

  /** A list of parts, cut around its `k`-th one. */
  lemma FlattenAt<T>(parts: seq<seq<T>>, k: nat)
    requires k < |parts|
    ensures Flatten(parts) == Flatten(parts[..k]) + (parts[k] + Flatten(parts[k + 1..]))
    ensures Flatten(parts[..k + 1]) == Flatten(parts[..k]) + parts[k]
  {
    Snoc(parts, k);
    Cut(parts, k + 1);
    FlattenPush(parts[..k], parts[k]);
    FlattenConcat(parts[..k + 1], parts[k + 1..]);
    Assoc(Flatten(parts[..k]), parts[k], Flatten(parts[k + 1..]));
  }

  lemma Before<T>(a: seq<T>, b: seq<T>, i: nat, j: nat)
    requires i <= j <= |a|
    ensures (a + b)[i..j] == a[i..j]
  {
  }

  lemma DropDrop<T>(s: seq<T>, i: nat, n: nat)
    requires i + n <= |s|
    ensures s[i..][n..] == s[i + n..]
  {
  }

  lemma TakeMore<T>(s: seq<T>, i: nat, n: nat)
    requires i + n <= |s|
    ensures s[..i + n] == s[..i] + s[i..][..n]
  {
  }

  lemma ThreeParts<T>(s: seq<T>, i: nat, j: nat, k: nat)
    requires i <= j <= k <= |s|
    ensures s[i..] == s[i..j] + (s[j..k] + s[k..])
  {
  }

  lemma SliceOfSlice<T>(s: seq<T>, p: nat, q: nat, i: nat, j: nat)
    requires p <= q <= |s| && i <= j <= q - p
    ensures s[p..q][i..j] == s[p + i..p + j]
  {
    forall k | 0 <= k < j - i ensures s[p..q][i..j][k] == s[p + i..p + j][k] {
      assert s[p..q][i + k] == s[p + i + k];
    }
  }

  lemma {:induction false} FlattenLength<T>(parts: seq<seq<T>>)
    requires forall k :: 0 <= k < |parts| ==> |parts[k]| == 16
    ensures |Flatten(parts)| == 16 * |parts|
  {
    if parts != [] {
      FlattenLength(parts[..|parts| - 1]);
    }
  }

  lemma SliceMiddle<T>(a: seq<T>, b: seq<T>, c: seq<T>)
    ensures (a + (b + c))[|a|..|a| + |b|] == b
  {
  }

  /** Parts of 16 elements are found at multiples of 16. */
  lemma FlattenFixed<T>(parts: seq<seq<T>>, i: nat)
    requires i < |parts| && forall k :: 0 <= k < |parts| ==> |parts[k]| == 16
    ensures |Flatten(parts)| == 16 * |parts| && Flatten(parts)[16 * i..16 * i + 16] == parts[i]
  {
    FlattenLength(parts);
    FlattenLength(parts[..i]);
    FlattenAt(parts, i);
    SliceMiddle(Flatten(parts[..i]), parts[i], Flatten(parts[i + 1..]));
  }
}
