/** The chunked search for repository-local paths in release files. */
module ReleaseScan {

  type Bytes = seq<nat>

  ghost predicate OccursAt(hay: Bytes, needle: Bytes, p: nat) {
    p + |needle| <= |hay| && hay[p..p + |needle|] == needle
  }

  ghost predicate Occurs(hay: Bytes, needle: Bytes) {
    exists p :: OccursAt(hay, needle, p)
  }

  ghost predicate AnyOccurs(hay: Bytes, needles: seq<Bytes>) {
    exists n :: n in needles && Occurs(hay, n)
  }

  /** The whole file. */
  function Joined(chunks: seq<Bytes>): (b: Bytes) {
    if chunks == [] then [] else Joined(chunks[..|chunks| - 1]) + chunks[|chunks| - 1]
  }

  /** Bytes as they are compared: unchanged, or lower-cased byte by byte. */
  function Folded(fold: nat -> nat, b: Bytes): (r: Bytes)
    ensures |r| == |b| && forall i :: 0 <= i < |b| ==> r[i] == fold(b[i])
  {
    seq(|b|, i requires 0 <= i < |b| => fold(b[i]))
  }

  function LongestNeedle(needles: seq<Bytes>): (m: nat)
    ensures forall n :: n in needles ==> |n| <= m
  {
    if needles == [] then 0
    else
      var rest := LongestNeedle(needles[1..]);
      assert forall n :: n in needles ==> n == needles[0] || n in needles[1..];
      if |needles[0]| > rest then |needles[0]| else rest
  }

  /** The last `k` bytes, or all of them. */
  function LastBytes(b: Bytes, k: nat): (r: Bytes) {
    if |b| <= k then b else b[|b| - k..]
  }

  method Find(hay: Bytes, needle: Bytes) returns (found: bool)
    ensures found <==> Occurs(hay, needle)
  {
    var p := 0;
    while p + |needle| <= |hay|
      invariant forall q: nat :: q < p ==> !OccursAt(hay, needle, q)
      decreases |hay| - p
    {
      if hay[p..p + |needle|] == needle {
        assert OccursAt(hay, needle, p);
        return true;
      }
      p := p + 1;
    }
    return false;
  }

  method FindAny(hay: Bytes, needles: seq<Bytes>) returns (found: bool)
    ensures found <==> AnyOccurs(hay, needles)
  {
    for i := 0 to |needles|
      invariant forall j :: 0 <= j < i ==> !Occurs(hay, needles[j])
    {
      var here := Find(hay, needles[i]);
      if here {
        return true;
      }
    }
    return false;
  }


  /**
   * Occurrences in what has been read so far are old occurrences or lie in the window of
   * the kept tail and the new chunk.
   */
  lemma WindowSuffices(before: Bytes, chunk: Bytes, needle: Bytes, overlap: nat)
    requires 0 < |needle| <= overlap + 1
    ensures Occurs(before + chunk, needle) <==>
              Occurs(before, needle) || Occurs(LastBytes(before, overlap) + chunk, needle)
  {
    var tail := LastBytes(before, overlap);
    var skip := |before| - |tail|;
    var whole, window := before + chunk, tail + chunk;
    assert window == whole[skip..];
    forall p: nat | OccursAt(whole, needle, p)
      ensures Occurs(before, needle) || Occurs(window, needle)
    {
      if p + |needle| <= |before| {
        assert before[p..p + |needle|] == whole[p..p + |needle|];
        assert OccursAt(before, needle, p);
      } else {
        assert OccursAt(window, needle, p - skip);
      }
    }
    forall p: nat | OccursAt(before, needle, p)
      ensures Occurs(whole, needle)
    {
      assert whole[p..p + |needle|] == before[p..p + |needle|];
      assert OccursAt(whole, needle, p);
    }
    forall p: nat | OccursAt(window, needle, p)
      ensures Occurs(whole, needle)
    {
      assert OccursAt(whole, needle, p + skip);
    }
  }

  lemma AnyWindowSuffices(before: Bytes, chunk: Bytes, needles: seq<Bytes>, overlap: nat)
    requires forall n :: n in needles ==> 0 < |n| <= overlap + 1
    ensures AnyOccurs(before + chunk, needles) <==>
              AnyOccurs(before, needles) || AnyOccurs(LastBytes(before, overlap) + chunk, needles)
  {
    forall n | n in needles
      ensures Occurs(before + chunk, n) <==> Occurs(before, n) || Occurs(LastBytes(before, overlap) + chunk, n)
    {
      WindowSuffices(before, chunk, n, overlap);
    }
  }


  /** Keeping the tail of the window is keeping the tail of the file. */
  lemma TailOfWindow(before: Bytes, chunk: Bytes, overlap: nat)
    ensures LastBytes(LastBytes(before, overlap) + chunk, overlap) == LastBytes(before + chunk, overlap)
  {}

  /**
   * The streaming scan finds a needle exactly when the whole file contains one, however the
   * file is cut into chunks and however many chunks an occurrence spans.
   */
  method FileContains(chunks: seq<Bytes>, needles: seq<Bytes>, fold: nat -> nat) returns (found: bool)
    requires needles != [] && forall n :: n in needles ==> n != []
    ensures found <==> AnyOccurs(Folded(fold, Joined(chunks)), needles)
  {
    assert needles[0] in needles;
    var overlap := LongestNeedle(needles) - 1;
    var tail: Bytes := [];
    for i := 0 to |chunks|
      invariant tail == LastBytes(Joined(chunks[..i]), overlap)
      invariant !AnyOccurs(Folded(fold, Joined(chunks[..i])), needles)
    {
      ghost var before := Joined(chunks[..i]);
      assert chunks[..i + 1][..i] == chunks[..i];
      assert Joined(chunks[..i + 1]) == before + chunks[i];
      var value := tail + chunks[i];
      FoldWindow(fold, before, chunks[i], overlap);
      AnyWindowSuffices(Folded(fold, before), Folded(fold, chunks[i]), needles, overlap);
      var here := FindAny(Folded(fold, value), needles);
      if here {
        StillThere(fold, chunks, needles, i + 1);
        return true;
      }
      TailOfWindow(before, chunks[i], overlap);
      tail := LastBytes(value, overlap);
    }
    assert chunks[..|chunks|] == chunks;
    return false;
  }

  lemma FoldWindow(fold: nat -> nat, before: Bytes, chunk: Bytes, overlap: nat)
    ensures Folded(fold, before + chunk) == Folded(fold, before) + Folded(fold, chunk)
    ensures Folded(fold, LastBytes(before, overlap) + chunk) ==
            LastBytes(Folded(fold, before), overlap) + Folded(fold, chunk)
  {}

  /** An occurrence in the part read so far is an occurrence in the file. */
  lemma {:induction false} StillThere(fold: nat -> nat, chunks: seq<Bytes>, needles: seq<Bytes>, i: nat)
    requires i <= |chunks| && AnyOccurs(Folded(fold, Joined(chunks[..i])), needles)
    ensures AnyOccurs(Folded(fold, Joined(chunks)), needles)
    decreases |chunks|
  {
    if i == |chunks| {
      assert chunks[..i] == chunks;
    } else {
      var front := chunks[..|chunks| - 1];
      assert front[..i] == chunks[..i];
      StillThere(fold, front, needles, i);
      var n :| n in needles && Occurs(Folded(fold, Joined(front)), n);
      var p: nat :| OccursAt(Folded(fold, Joined(front)), n, p);
      var hay := Folded(fold, Joined(chunks));
      assert hay[p..p + |n|] == Folded(fold, Joined(front))[p..p + |n|];
      assert OccursAt(hay, n, p);
    }
  }
}
