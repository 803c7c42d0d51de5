/** Splitting values into the fewest embedding calls that respect a model's limits. */
module EmbeddingSplit {
  import opened Sequences

  const USIZE_MAX: nat := 0xffff_ffff_ffff_ffff

  function SaturatingAdd(a: nat, b: nat): nat {
    if a + b > USIZE_MAX then USIZE_MAX else a + b
  }

  type Chunk = seq<string>

  datatype Limits = Limits(embeddings: nat, bytes: nat)

  function Bytes(chunk: Chunk): nat {
    if chunk == [] then 0 else |chunk[0]| + Bytes(chunk[1..])
  }

  /** A chunk within both limits, or a single value; a limit of the largest size is none. */
  predicate Fits(limits: Limits, chunk: Chunk) {
    |chunk| <= 1
    || (|chunk| <= limits.embeddings && (Bytes(chunk) <= limits.bytes || USIZE_MAX <= limits.bytes))
  }

  /** The split, with the chunk being filled and the values to come. */
  function SplitFrom(limits: Limits, current: Chunk, values: seq<string>): seq<Chunk>
    decreases |values|
  {
    if values == [] then (if current == [] then [] else [current])
    else if current != [] && !Fits(limits, current + [values[0]]) then
      [current] + SplitFrom(limits, [values[0]], values[1..])
    else SplitFrom(limits, current + [values[0]], values[1..])
  }

  function Split(limits: Limits, values: seq<string>): seq<Chunk> {
    SplitFrom(limits, [], values)
  }

  function Joined<T>(parts: seq<seq<T>>): seq<T> {
    if parts == [] then [] else parts[0] + Joined(parts[1..])
  }

  lemma {:induction false} BytesLast(chunk: Chunk, value: string)
    ensures Bytes(chunk + [value]) == Bytes(chunk) + |value|
  {
    if chunk == [] {
      assert [value][1..] == [];
    } else {
      assert (chunk + [value])[1..] == chunk[1..] + [value];
      BytesLast(chunk[1..], value);
    }
  }

  /** Splits values into chunks that respect both limits. */
  method SplitByLimits(values: seq<string>, limits: Limits) returns (chunks: seq<Chunk>)
    ensures chunks == Split(limits, values)
  {
    chunks := [];
    var current, currentBytes := [], 0;
    assert values[0..] == values && [] + Split(limits, values) == Split(limits, values);
    for i := 0 to |values|
      invariant currentBytes == (if Bytes(current) > USIZE_MAX then USIZE_MAX else Bytes(current))
      invariant chunks + SplitFrom(limits, current, values[i..]) == Split(limits, values)
    {
      var value := values[i];
      assert values[i..][1..] == values[i + 1..];
      BytesLast(current, value);
      BytesLast([], value);
      assert [] + [value] == [value];
      if current != [] && (|current| >= limits.embeddings || SaturatingAdd(currentBytes, |value|) > limits.bytes) {
        Cat2(chunks, [current], SplitFrom(limits, [value], values[i + 1..]));
        chunks := chunks + [current];
        current, currentBytes := [], 0;
      }
      current := current + [value];
      currentBytes := SaturatingAdd(currentBytes, |value|);
    }
    if current != [] {
      chunks := chunks + [current];
    } else {
      assert chunks + [] == chunks;
    }
  }

  // ----- The split is complete, feasible and greedy

  lemma {:induction false} JoinedCat<T>(a: seq<seq<T>>, b: seq<seq<T>>)
    ensures Joined(a + b) == Joined(a) + Joined(b)
  {
    if a == [] {
      assert a + b == b;
    } else {
      assert (a + b)[1..] == a[1..] + b;
      JoinedCat(a[1..], b);
      Cat2(a[0], Joined(a[1..]), Joined(b));
    }
  }

  /** Chunks that are filled one after the other, each as far as the limits allow. */
  predicate Greedy(limits: Limits, chunks: seq<Chunk>) {
    && (forall i :: 0 <= i < |chunks| ==> chunks[i] != [] && Fits(limits, chunks[i]))
    && forall i :: 0 <= i < |chunks| - 1 ==> !Fits(limits, chunks[i] + [chunks[i + 1][0]])
  }

  lemma {:induction false} SplitIsGreedy(limits: Limits, current: Chunk, values: seq<string>)
    requires Fits(limits, current)
    ensures var chunks := SplitFrom(limits, current, values);
      && Joined(chunks) == current + values && Greedy(limits, chunks)
      && (current != [] ==> chunks != [] && chunks[0] != [] && chunks[0][0] == current[0])
    decreases |values|
  {
    if values == [] {
      assert current + [] == current;
      if current != [] {
        assert Joined([current]) == current + Joined([]);
      }
    } else {
      var value, rest := values[0], values[1..];
      assert values == [value] + rest;
      if current != [] && !Fits(limits, current + [value]) {
        hide Fits, Bytes;
        assert Fits(limits, [value]) by { SingleFits(limits, value); }
        SplitIsGreedy(limits, [value], rest);
        var later := SplitFrom(limits, [value], rest);
        assert SplitFrom(limits, current, values) == [current] + later;
        assert ([current] + later)[1..] == later;
      } else {
        assert Fits(limits, current + [value]) by { assert current == [] ==> current + [value] == [value]; }
        hide Fits, Bytes;
        SplitIsGreedy(limits, current + [value], rest);
        Cat2(current, [value], rest);
      }
    }
  }

  lemma SingleFits(limits: Limits, value: string)
    ensures Fits(limits, [value])
  {
  }

  /** The chunks join to the values, in order, and none is empty.  A chunk of several values keeps both
      limits, where a byte limit of the largest size is none, and could not have taken the next value. */
  lemma SplitRespects(limits: Limits, values: seq<string>, i: nat)
    requires i < |Split(limits, values)|
    ensures var chunks := Split(limits, values);
      && Joined(chunks) == values && chunks[i] != []
      && (|chunks[i]| > 1 ==>
            |chunks[i]| <= limits.embeddings
            && (Bytes(chunks[i]) <= limits.bytes || limits.bytes >= 0xffff_ffff_ffff_ffff))
      && (i + 1 < |chunks| ==>
            chunks[i + 1] != [] &&
            (|chunks[i]| + 1 > limits.embeddings
             || (limits.bytes < 0xffff_ffff_ffff_ffff && Bytes(chunks[i]) + |chunks[i + 1][0]| > limits.bytes)))
  {
    var chunks := Split(limits, values);
    SplitIsGreedy(limits, [], values);
    assert [] + values == values;
    if i + 1 < |chunks| {
      BytesLast(chunks[i], chunks[i + 1][0]);
      assert !Fits(limits, chunks[i] + [chunks[i + 1][0]]);
    }
    hide SplitFrom, Bytes;
  }

  // ----- No split is shorter

  lemma {:induction false} BytesCat(a: Chunk, b: Chunk)
    ensures Bytes(a + b) == Bytes(a) + Bytes(b)
  {
    if a == [] {
      assert a + b == b;
    } else {
      assert (a + b)[1..] == a[1..] + b;
      BytesCat(a[1..], b);
    }
  }

  /** A part of a chunk that fits also fits. */
  lemma PartFits(limits: Limits, a: Chunk, b: Chunk, c: Chunk)
    requires Fits(limits, a + b + c)
    ensures Fits(limits, b)
  {
    BytesCat(a + b, c);
    BytesCat(a, b);
  }

  /** How many values the first `k` chunks hold. */
  function Count<T>(chunks: seq<seq<T>>, k: nat): nat
    requires k <= |chunks|
  {
    |Joined(chunks[..k])|
  }

  lemma CountNext<T>(chunks: seq<seq<T>>, k: nat)
    requires k < |chunks|
    ensures Count(chunks, k + 1) == Count(chunks, k) + |chunks[k]|
    ensures Count(chunks, k + 1) <= |Joined(chunks)|
    ensures chunks[k] == Joined(chunks)[Count(chunks, k)..Count(chunks, k + 1)]
  {
    assert chunks[..k + 1] == chunks[..k] + [chunks[k]];
    JoinedCat(chunks[..k], [chunks[k]]);
    assert Joined([chunks[k]]) == chunks[k] + Joined([]);
    assert chunks == chunks[..k + 1] + chunks[k + 1..];
    JoinedCat(chunks[..k + 1], chunks[k + 1..]);
  }

  lemma CountAll<T>(chunks: seq<seq<T>>)
    ensures Count(chunks, |chunks|) == |Joined(chunks)|
  {
    assert chunks[..|chunks|] == chunks;
  }

  lemma Cut3<T>(values: seq<T>, a: nat, b: nat, c: nat, d: nat)
    requires a <= b <= c <= d <= |values|
    ensures values[a..d] == values[a..b] + values[b..c] + values[c..d]
  {
  }

  lemma NextIsTooMuch(limits: Limits, greedy: seq<Chunk>, k: nat)
    requires Greedy(limits, greedy) && 0 < k < |greedy|
    ensures greedy[k] != [] && !Fits(limits, greedy[k - 1] + [greedy[k][0]])
  {
    hide Fits;
    assert greedy[k - 1 + 1] == greedy[k];
  }

  lemma ChunkAndNext(values: seq<string>, before: Chunk, next: Chunk, g0: nat, g1: nat, g2: nat)
    requires g0 <= g1 < g2 <= |values| && before == values[g0..g1] && next == values[g1..g2]
    ensures values[g0..g1 + 1] == before + [next[0]]
  {
  }

  /** What starts no later than a greedy chunk and ends after it does not fit. */
  lemma OverfullDoesNotFit(limits: Limits, greedy: seq<Chunk>, k: nat, lo: nat, hi: nat)
    requires Greedy(limits, greedy) && 0 < k < |greedy|
    requires lo <= Count(greedy, k - 1) && Count(greedy, k) < hi <= |Joined(greedy)| && lo <= hi
    ensures !Fits(limits, Joined(greedy)[lo..hi])
  {
    hide *;
    CountNext(greedy, k - 1);
    CountNext(greedy, k);
    NextIsTooMuch(limits, greedy, k);
    var values, g0, g1 := Joined(greedy), Count(greedy, k - 1), Count(greedy, k);
    ChunkAndNext(values, greedy[k - 1], greedy[k], g0, g1, Count(greedy, k + 1));
    Cut3(values, lo, g0, g1 + 1, hi);
    if Fits(limits, values[lo..hi]) {
      PartFits(limits, values[lo..g0], values[g0..g1 + 1], values[g1 + 1..hi]);
    }
  }

  /** The greedy split is ahead of every feasible split after every chunk. */
  lemma {:induction false} GreedyStaysAhead(limits: Limits, greedy: seq<Chunk>, other: seq<Chunk>, k: nat)
    requires Greedy(limits, greedy) && Joined(greedy) == Joined(other)
    requires forall i :: 0 <= i < |other| ==> Fits(limits, other[i])
    requires k <= |greedy| && k <= |other|
    ensures Count(other, k) <= Count(greedy, k)
  {
    if k > 0 {
      GreedyStaysAhead(limits, greedy, other, k - 1);
      CountNext(other, k - 1);
      CountAll(greedy);
      hide Fits, Bytes, Greedy;
      if k < |greedy| && Count(greedy, k) < Count(other, k) {
        OverfullDoesNotFit(limits, greedy, k, Count(other, k - 1), Count(other, k));
      }
    }
  }

  /** The split joins back to the values, has feasible chunks only, and no feasible split into
      contiguous chunks has fewer. */
  lemma SplitIsMinimal(limits: Limits, values: seq<string>, other: seq<Chunk>)
    requires Joined(other) == values && forall i :: 0 <= i < |other| ==> Fits(limits, other[i])
    ensures var chunks := Split(limits, values);
      && Joined(chunks) == values && |chunks| <= |other|
      && forall i :: 0 <= i < |chunks| ==> chunks[i] != [] && Fits(limits, chunks[i])
  {
    SplitIsGreedy(limits, [], values);
    assert [] + values == values;
    var chunks := Split(limits, values);
    hide Fits, Bytes;
    if |other| < |chunks| {
      GreedyStaysAhead(limits, chunks, other, |other|);
      assert other[..|other|] == other;
      CountNext(chunks, |other|);
    }
  }
}
