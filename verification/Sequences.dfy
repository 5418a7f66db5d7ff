/** Concatenation of a list of pieces, and where each piece ends up. */
module Sequences {

  function Flatten<T>(pieces: seq<seq<T>>): seq<T> {
    if pieces == [] then [] else pieces[0] + Flatten(pieces[1..])
  }

  /** Where piece `j` starts; the end of all pieces for j == |pieces|. */
  function Offset<T>(pieces: seq<seq<T>>, j: nat): nat
    requires j <= |pieces|
    decreases j
  {
    if j == 0 then 0 else |pieces[0]| + Offset(pieces[1..], j - 1)
  }

  lemma {:induction false} FlattenLength<T>(pieces: seq<seq<T>>)
    ensures |Flatten(pieces)| == Offset(pieces, |pieces|)
  {
    if pieces != [] {
      FlattenLength(pieces[1..]);
    }
  }

  lemma {:induction false} FlattenAppend<T>(pieces: seq<seq<T>>, last: seq<T>)
    ensures Flatten(pieces + [last]) == Flatten(pieces) + last
  {
    if pieces == [] {
      assert Flatten([last]) == last + Flatten([]);
    } else {
      assert (pieces + [last])[1..] == pieces[1..] + [last];
      FlattenAppend(pieces[1..], last);
      SeqAssociative(pieces[0], Flatten(pieces[1..]), last);
    }
  }

  lemma SeqAssociative<T>(a: seq<T>, b: seq<T>, c: seq<T>)
    ensures a + b + c == a + (b + c)
  {
  }

  lemma TakeNext<T>(s: seq<T>, i: nat)
    requires i < |s|
    ensures s[..i] + [s[i]] == s[..i + 1]
  {
  }

  lemma {:induction false} FlattenAt<T>(pieces: seq<seq<T>>, j: nat, i: nat)
    requires j < |pieces| && i < |pieces[j]|
    ensures Offset(pieces, j) + i < |Flatten(pieces)|
    ensures Flatten(pieces)[Offset(pieces, j) + i] == pieces[j][i]
  {
    if j > 0 {
      FlattenAt(pieces[1..], j - 1, i);
    }
  }

  lemma {:induction false} OffsetNext<T>(pieces: seq<seq<T>>, j: nat)
    requires j < |pieces|
    ensures Offset(pieces, j + 1) == Offset(pieces, j) + |pieces[j]|
  {
    if j > 0 {
      OffsetNext(pieces[1..], j - 1);
    }
  }

  lemma {:induction false} OffsetMonotone<T>(pieces: seq<seq<T>>, j: nat, k: nat)
    requires j <= k <= |pieces|
    ensures Offset(pieces, j) <= Offset(pieces, k)
  {
    if j > 0 {
      OffsetMonotone(pieces[1..], j - 1, k - 1);
    }
  }

  /** Every position lies in one piece. */
  lemma {:induction false} Locate<T>(pieces: seq<seq<T>>, p: nat) returns (j: nat, i: nat)
    requires p < Offset(pieces, |pieces|)
    ensures j < |pieces| && i < |pieces[j]| && p == Offset(pieces, j) + i
  {
    if p < |pieces[0]| {
      j, i := 0, p;
    } else {
      j, i := Locate(pieces[1..], p - |pieces[0]|);
      j := j + 1;
    }
  }

  lemma {:induction false} SameOffsets<S, T>(a: seq<seq<S>>, b: seq<seq<T>>, j: nat)
    requires |a| == |b| && j <= |a|
    requires forall k :: 0 <= k < |a| ==> |a[k]| == |b[k]|
    ensures Offset(a, j) == Offset(b, j)
  {
    if j > 0 {
      SameOffsets(a[1..], b[1..], j - 1);
    }
  }

  lemma ThreeParts<T>(a: seq<T>, b: seq<T>, c: seq<T>)
    ensures |a + b + c| == |a| + |b| + |c|
    ensures forall p :: 0 <= p < |a| ==> (a + b + c)[p] == a[p]
    ensures forall p :: |a| <= p < |a| + |b| ==> (a + b + c)[p] == b[p - |a|]
    ensures forall p :: |a| + |b| <= p < |a + b + c| ==> (a + b + c)[p] == c[p - |a| - |b|]
  {
  }
}
