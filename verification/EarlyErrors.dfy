/** The early-error check: it looks at the first chunks of a stream and either fails with an
    error chunk or hands the stream on, complete. */
module EarlyErrors {

  datatype EarlyChunk = Error | Output | Accepted | Other

  /** A parsed chunk, or a parse failure. */
  datatype Chunk<T> = Parsed(value: T) | Unparsed(text: string)

  datatype Result<T> = Replayed(stream: seq<Chunk<T>>) | Failed(error: T)

  /** The chunk neither fails nor ends the check. */
  predicate Waits<T>(classify: T -> EarlyChunk, chunk: Chunk<T>) {
    chunk.Parsed? && (classify(chunk.value) == Accepted || classify(chunk.value) == Other)
  }

  predicate IsError<T>(classify: T -> EarlyChunk, chunk: Chunk<T>) {
    chunk.Parsed? && classify(chunk.value) == Error
  }

  predicate IsAccepted<T>(classify: T -> EarlyChunk, chunk: Chunk<T>) {
    chunk.Parsed? && classify(chunk.value) == Accepted
  }

  /** The grace period ran out while waiting for chunk `i`; it only runs once the request was
      accepted. */
  ghost predicate TimedOut<T>(classify: T -> EarlyChunk, stream: seq<Chunk<T>>, expired: nat -> bool, i: nat)
    requires i <= |stream|
  {
    expired(i) && exists j :: 0 <= j < i && IsAccepted(classify, stream[j])
  }

  /** Chunk `i` is the first that does not wait, and is reached in time. */
  ghost predicate Decides<T>(classify: T -> EarlyChunk, stream: seq<Chunk<T>>, expired: nat -> bool, i: nat) {
    && i < |stream| && !Waits(classify, stream[i])
    && (forall j :: 0 <= j < i ==> Waits(classify, stream[j]))
    && forall j :: 0 <= j <= i ==> !TimedOut(classify, stream, expired, j)
  }

  /** Whatever the timing, success replays the stream and failure reports the first error chunk,
      with no output chunk or parse failure before it. */
  method FailOnEarlyError<T>(stream: seq<Chunk<T>>, classify: T -> EarlyChunk, expired: nat -> bool)
      returns (result: Result<T>)
    ensures result.Replayed? ==> result.stream == stream
    ensures result.Failed? <==> exists i: nat :: Decides(classify, stream, expired, i) && IsError(classify, stream[i])
    ensures forall i: nat :: Decides(classify, stream, expired, i) && IsError(classify, stream[i]) ==>
      result == Failed(stream[i].value)
  {
    var rest, buffered, accepted := stream, [], false;
    ghost var n := 0;
    while true
      invariant n <= |stream| && buffered == stream[..n] && rest == stream[n..]
      invariant forall j :: 0 <= j < n ==> Waits(classify, stream[j])
      invariant accepted <==> exists j :: 0 <= j < n && IsAccepted(classify, stream[j])
      invariant forall j :: 0 <= j < n ==> !TimedOut(classify, stream, expired, j)
      decreases |rest|
    {
      if accepted && expired(|buffered|) {
        assert TimedOut(classify, stream, expired, n);
        break;
      }
      assert !TimedOut(classify, stream, expired, n);
      if rest == [] {
        break;
      }
      var chunk := rest[0];
      rest := rest[1..];
      if chunk.Unparsed? {
        buffered := buffered + [chunk];
        break;
      }
      match classify(chunk.value) {
        case Error =>
          assert Decides(classify, stream, expired, n) && IsError(classify, stream[n]);
          OnlyOneDecides(classify, stream, expired, n);
          return Failed(chunk.value);
        case Output =>
          buffered := buffered + [chunk];
          break;
        case Accepted =>
          accepted := true;
          buffered := buffered + [chunk];
          assert IsAccepted(classify, stream[n]);
        case Other =>
          buffered := buffered + [chunk];
      }
      n := n + 1;
    }
    assert buffered + rest == stream;
    NoErrorDecides(classify, stream, expired, n);
    result := Replayed(buffered + rest);
  }

  lemma OnlyOneDecides<T>(classify: T -> EarlyChunk, stream: seq<Chunk<T>>, expired: nat -> bool, n: nat)
    requires Decides(classify, stream, expired, n)
    ensures forall i: nat :: Decides(classify, stream, expired, i) ==> i == n
  {
  }

  lemma NoErrorDecides<T>(classify: T -> EarlyChunk, stream: seq<Chunk<T>>, expired: nat -> bool, n: nat)
    requires n <= |stream| && forall j :: 0 <= j < n ==> Waits(classify, stream[j])
    requires TimedOut(classify, stream, expired, n) || n == |stream|
          || (!Waits(classify, stream[n]) && !IsError(classify, stream[n]))
    ensures forall i: nat :: Decides(classify, stream, expired, i) ==> !IsError(classify, stream[i])
  {
    hide TimedOut;
    forall i: nat | Decides(classify, stream, expired, i)
      ensures !IsError(classify, stream[i])
    {
      assert i >= n;
    }
  }
}
