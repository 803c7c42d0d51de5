/** Embedding many values: one call per chunk, window by window, in any order of completion. */
module EmbeddingCalls {
  import opened Options
  import opened EmbeddingSplit

  /** A call's own answer, retries included. */
  datatype Answer<E> = Refused(message: string) | Embedded(embeddings: seq<E>, tokens: Option<nat>, response: string)

  datatype Error =
    | InvalidArgument(name: string)
    | InvalidCount(expected: nat, received: nat)
    | CallFailed(message: string)

  datatype Reply<E> = Reply(embeddings: seq<E>, tokens: Option<nat>, response: string)

  datatype Result<T> = Ok(value: T) | Err(error: Error)

  datatype EmbedMany<E> = EmbedMany(embeddings: seq<E>, responses: seq<string>, tokens: Option<nat>)

  /** What one chunk's call comes to: its answer must have one embedding per value. */
  function RunChunk<E>(call: (nat, Chunk) -> Answer<E>, index: nat, chunk: Chunk): Result<Reply<E>> {
    match call(index, chunk)
    case Refused(message) => Err(CallFailed(message))
    case Embedded(embeddings, tokens, response) =>
      if |embeddings| != |chunk| then Err(InvalidCount(|chunk|, |embeddings|))
      else Ok(Reply(embeddings, tokens, response))
  }

  function AddTokens(total: Option<nat>, tokens: Option<nat>): Option<nat> {
    if total.Some? && tokens.Some? then Some(SaturatingAdd(total.value, tokens.value)) else None
  }

  function Gathered<E>(replies: seq<Reply<E>>): EmbedMany<E> {
    if replies == [] then EmbedMany([], [], Some(0))
    else
      var before, last := Gathered(replies[..|replies| - 1]), replies[|replies| - 1];
      EmbedMany(before.embeddings + last.embeddings, before.responses + [last.response],
        AddTokens(before.tokens, last.tokens))
  }

  /** The tokens that replies count, those without a count aside. */
  function TokensCounted<E>(replies: seq<Reply<E>>): nat {
    if replies == [] then 0
    else (if replies[0].tokens.Some? then replies[0].tokens.value else 0) + TokensCounted(replies[1..])
  }

  lemma {:induction false} TokensLast<E>(replies: seq<Reply<E>>, last: Reply<E>)
    ensures TokensCounted(replies + [last]) ==
      TokensCounted(replies) + if last.tokens.Some? then last.tokens.value else 0
  {
    if replies == [] {
      assert [last][1..] == [] && [] + [last] == [last];
    } else {
      assert (replies + [last])[1..] == replies[1..] + [last];
      TokensLast(replies[1..], last);
    }
  }

  /** The responses come in order, and the tokens are the sum over all replies, at most the largest
      size; without one of them there is no sum. */
  lemma {:induction false} GatheredAll<E>(replies: seq<Reply<E>>)
    ensures |Gathered(replies).responses| == |replies|
    ensures forall k :: 0 <= k < |replies| ==> Gathered(replies).responses[k] == replies[k].response
    ensures Gathered(replies).tokens.Some? <==> forall k :: 0 <= k < |replies| ==> replies[k].tokens.Some?
    ensures Gathered(replies).tokens.Some? ==>
      Gathered(replies).tokens.value ==
        if TokensCounted(replies) < 0xffff_ffff_ffff_ffff then TokensCounted(replies) else 0xffff_ffff_ffff_ffff
    decreases |replies|
  {
    if replies != [] {
      var init, last := replies[..|replies| - 1], replies[|replies| - 1];
      GatheredAll(init);
      TokensLast(init, last);
      assert replies == init + [last];
    }
  }

  /** The chunks to call: everything at once when the model has no limits. */
  function Chunks(values: seq<string>, maxEmbeddings: Option<nat>, maxBytes: Option<nat>): seq<Chunk> {
    if maxEmbeddings.None? && maxBytes.None? then [values]
    else
      Split(Limits(if maxEmbeddings.Some? then maxEmbeddings.value else USIZE_MAX,
                   if maxBytes.Some? then maxBytes.value else USIZE_MAX), values)
  }

  /** The chunks join to the values, and a chunk of several values keeps the limits that there are; a
      byte limit of the largest size is none. */
  lemma ChunksRespect(values: seq<string>, maxEmbeddings: Option<nat>, maxBytes: Option<nat>, i: nat)
    requires i < |Chunks(values, maxEmbeddings, maxBytes)|
    ensures var chunks := Chunks(values, maxEmbeddings, maxBytes);
      && Joined(chunks) == values
      && (maxEmbeddings.None? && maxBytes.None? ==> chunks == [values])
      && (maxEmbeddings.Some? ==> |chunks[i]| <= 1 || |chunks[i]| <= maxEmbeddings.value)
      && (maxBytes.Some? && maxBytes.value < 0xffff_ffff_ffff_ffff ==>
            |chunks[i]| <= 1 || Bytes(chunks[i]) <= maxBytes.value)
  {
    if maxEmbeddings.None? && maxBytes.None? {
      assert Joined([values]) == values + Joined([]);
    } else {
      SplitRespects(Limits(if maxEmbeddings.Some? then maxEmbeddings.value else USIZE_MAX,
                           if maxBytes.Some? then maxBytes.value else USIZE_MAX), values, i);
    }
    hide Split, Bytes;
  }

  /** A chunk's call succeeds when it gives one embedding per value, and says what went wrong when it does
      not. */
  lemma ChunkComesTo<E>(call: (nat, Chunk) -> Answer<E>, k: nat, chunk: Chunk)
    ensures match RunChunk(call, k, chunk)
      case Ok(reply) =>
        && call(k, chunk) == Embedded(reply.embeddings, reply.tokens, reply.response)
        && |reply.embeddings| == |chunk|
      case Err(CallFailed(message)) => call(k, chunk) == Refused(message)
      case Err(InvalidCount(expected, received)) =>
        && expected == |chunk| && received != expected
        && call(k, chunk).Embedded? && |call(k, chunk).embeddings| == received
      case Err(InvalidArgument(_)) => false
  {
  }

  lemma ChunksJoin(values: seq<string>, maxEmbeddings: Option<nat>, maxBytes: Option<nat>)
    ensures Joined(Chunks(values, maxEmbeddings, maxBytes)) == values
  {
    if maxEmbeddings.None? && maxBytes.None? {
      assert Joined([values]) == values + Joined([]);
    } else {
      var limits := Limits(if maxEmbeddings.Some? then maxEmbeddings.value else USIZE_MAX,
                           if maxBytes.Some? then maxBytes.value else USIZE_MAX);
      SplitIsGreedy(limits, [], values);
      assert [] + values == values;
    }
  }

  /** Every chunk's call succeeded. */
  ghost predicate AllReply<E>(call: (nat, Chunk) -> Answer<E>, chunks: seq<Chunk>, replies: seq<Reply<E>>) {
    |replies| == |chunks| && forall k: nat :: k < |chunks| ==> RunChunk(call, k, chunks[k]) == Ok(replies[k])
  }

  /** Chunk `k` failed with this error, and every chunk of an earlier window succeeded. */
  ghost predicate FailsFirst<E>(call: (nat, Chunk) -> Answer<E>, chunks: seq<Chunk>, parallel: nat, k: nat,
      error: Error)
    requires parallel > 0
  {
    && k < |chunks| && RunChunk(call, k, chunks[k]) == Err(error)
    && forall j: nat :: j < |chunks| && j / parallel < k / parallel ==> RunChunk(call, j, chunks[j]).Ok?
  }

  /** Runs the calls of one window as tasks that complete in any order. */
  method RunWindow<E>(call: (nat, Chunk) -> Answer<E>, chunks: seq<Chunk>, slots: array<Option<Reply<E>>>, start: nat,
      end: nat)
      returns (failed: Option<(nat, Error)>)
    requires slots.Length == |chunks| && start <= end <= |chunks|
    modifies slots
    ensures forall k :: 0 <= k < |chunks| && !(start <= k < end) ==> slots[k] == old(slots[k])
    ensures failed.None? ==>
      forall k: nat :: start <= k < end ==> slots[k].Some? && RunChunk(call, k, chunks[k]) == Ok(slots[k].value)
    ensures failed.Some? ==>
      var (k, error) := failed.value; start <= k < end && RunChunk(call, k, chunks[k]) == Err(error)
  {
    var tasks: set<nat> := {};
    for k := start to end
      invariant forall i: nat :: i in tasks <==> start <= i < k
    {
      tasks := tasks + {k};
    }
    while tasks != {}
      invariant forall k :: k in tasks ==> start <= k < end
      invariant forall k :: 0 <= k < |chunks| && !(start <= k < end) ==> slots[k] == old(slots[k])
      invariant forall k: nat :: start <= k < end && k !in tasks ==>
        slots[k].Some? && RunChunk(call, k, chunks[k]) == Ok(slots[k].value)
      decreases tasks
    {
      var index :| index in tasks;
      tasks := tasks - {index};
      match RunChunk(call, index, chunks[index]) {
        case Ok(reply) => slots[index] := Some(reply);
        case Err(error) => return Some((index, error));
      }
    }
    failed := None;
  }

  lemma GatheredNext<E>(replies: seq<Reply<E>>, k: nat)
    requires k < |replies|
    ensures Gathered(replies[..k + 1]) ==
      var before, last := Gathered(replies[..k]), replies[k];
      EmbedMany(before.embeddings + last.embeddings, before.responses + [last.response],
        AddTokens(before.tokens, last.tokens))
  {
    assert replies[..k + 1][..k] == replies[..k];
  }

  lemma Monotone(a: nat, b: nat, width: nat)
    requires a <= b
    ensures a * width <= b * width
  {
  }

  lemma BeforeWindow(w: nat, width: nat, j: nat)
    requires width > 0 && j / width < w
    ensures j < w * width
  {
    Monotone(j / width + 1, w, width);
    assert j == (j / width) * width + j % width;
  }

  lemma FromWindow(w: nat, width: nat, j: nat)
    requires width > 0 && w <= j / width
    ensures w * width <= j
  {
    Monotone(w, j / width, width);
    assert j == (j / width) * width + j % width;
  }

  lemma WindowOf(w: nat, width: nat, k: nat)
    requires width > 0 && w * width <= k < w * width + width
    ensures k / width == w
  {
    if k / width < w {
      BeforeWindow(w, width, k);
    }
    if w + 1 <= k / width {
      FromWindow(w + 1, width, k);
    }
  }

  /** Where the window with chunk `k` ends, of `n` chunks. */
  function WindowEnd(k: nat, width: nat, n: nat): nat
    requires width > 0
  {
    var end := k / width * width + width;
    if end < n then end else n
  }

  lemma FailsInWindow<E>(call: (nat, Chunk) -> Answer<E>, chunks: seq<Chunk>, width: nat, w: nat, k: nat, error: Error)
    requires width > 0 && w * width <= k < w * width + width && k < |chunks|
    requires RunChunk(call, k, chunks[k]) == Err(error)
    requires forall j: nat :: j < w * width && j < |chunks| ==> RunChunk(call, j, chunks[j]).Ok?
    ensures FailsFirst(call, chunks, width, k, error)
    ensures WindowEnd(k, width, |chunks|) == if w * width + width < |chunks| then w * width + width else |chunks|
  {
    WindowOf(w, width, k);
    forall j: nat | j < |chunks| && j / width < k / width
      ensures RunChunk(call, j, chunks[j]).Ok?
    {
      BeforeWindow(w, width, j);
    }
  }

  /** Runs one window after the other, and stops at the first that fails. */
  method RunWindows<E>(call: (nat, Chunk) -> Answer<E>, chunks: seq<Chunk>, slots: array<Option<Reply<E>>>, width: nat)
      returns (failed: Option<Error>, started: nat)
    requires width > 0 && slots.Length == |chunks|
    modifies slots
    ensures failed.None? ==> started == |chunks|
    ensures failed.None? ==>
      forall k: nat :: k < |chunks| ==> slots[k].Some? && RunChunk(call, k, chunks[k]) == Ok(slots[k].value)
    ensures failed.Some? ==> exists k: nat ::
      FailsFirst(call, chunks, width, k, failed.value) && started == WindowEnd(k, width, |chunks|)
  {
    failed, started := None, 0;
    var start := 0;
    ghost var w := 0;
    while start < |chunks|
      invariant start == w * width && started == (if start < |chunks| then start else |chunks|)
      invariant forall k: nat :: k < start && k < |chunks| ==>
        slots[k].Some? && RunChunk(call, k, chunks[k]) == Ok(slots[k].value)
    {
      var end := if start + width < |chunks| then start + width else |chunks|;
      started := end;
      if end - start == 1 {
        match RunChunk(call, start, chunks[start]) {
          case Ok(reply) => slots[start] := Some(reply);
          case Err(error) =>
            FailsInWindow(call, chunks, width, w, start, error);
            return Some(error), started;
        }
      } else {
        var stopped := RunWindow(call, chunks, slots, start, end);
        if stopped.Some? {
          FailsInWindow(call, chunks, width, w, stopped.value.0, stopped.value.1);
          return Some(stopped.value.1), started;
        }
      }
      start := start + width;
      w := w + 1;
    }
  }

  function Parts<E>(replies: seq<Reply<E>>): seq<seq<E>> {
    seq(|replies|, i requires 0 <= i < |replies| => replies[i].embeddings)
  }

  lemma {:induction false} GatheredJoins<E>(replies: seq<Reply<E>>)
    ensures Gathered(replies).embeddings == Joined(Parts(replies))
    decreases |replies|
  {
    if replies != [] {
      var init, last := replies[..|replies| - 1], replies[|replies| - 1];
      GatheredJoins(init);
      assert Parts(replies) == Parts(init) + [last.embeddings];
      JoinedCat(Parts(init), [last.embeddings]);
      assert Joined([last.embeddings]) == last.embeddings + Joined([]);
    }
  }

  lemma {:induction false} SameCounts<S, T>(a: seq<seq<S>>, b: seq<seq<T>>, k: nat)
    requires |a| == |b| && k <= |a| && forall i :: 0 <= i < |a| ==> |a[i]| == |b[i]|
    ensures Count(a, k) == Count(b, k)
  {
    if k > 0 {
      SameCounts(a, b, k - 1);
      CountNext(a, k - 1);
      CountNext(b, k - 1);
    }
  }

  lemma ReplyLengths<E>(call: (nat, Chunk) -> Answer<E>, chunks: seq<Chunk>, replies: seq<Reply<E>>)
    requires AllReply(call, chunks, replies)
    ensures |Gathered(replies).embeddings| == |Joined(chunks)|
    ensures forall k: nat :: k < |chunks| ==> |Parts(replies)[k]| == |chunks[k]|
  {
    forall k: nat | k < |chunks|
      ensures |Parts(replies)[k]| == |chunks[k]|
    {
      assert RunChunk(call, k, chunks[k]) == Ok(replies[k]);
    }
    GatheredJoins(replies);
    SameCounts(Parts(replies), chunks, |chunks|);
    CountAll(chunks);
    CountAll(Parts(replies));
  }

  /** The embedding at a value's position is the one its chunk's call gave for it. */
  lemma EmbeddingBelongs<E>(call: (nat, Chunk) -> Answer<E>, chunks: seq<Chunk>, replies: seq<Reply<E>>, k: nat, j: nat)
    requires AllReply(call, chunks, replies) && k < |chunks| && j < |chunks[k]|
    ensures var at := Count(chunks, k) + j;
      && at < |Joined(chunks)| == |Gathered(replies).embeddings| && |replies[k].embeddings| == |chunks[k]|
      && Joined(chunks)[at] == chunks[k][j] && Gathered(replies).embeddings[at] == replies[k].embeddings[j]
  {
    ReplyLengths(call, chunks, replies);
    GatheredJoins(replies);
    var parts := Parts(replies);
    assert |parts[k]| == |chunks[k]| && parts[k] == replies[k].embeddings;
    SameCounts(parts, chunks, k);
    CountNext(chunks, k);
    CountNext(parts, k);
  }

  /** How many calls run at once. */
  function Width(supportsParallel: bool, maxParallel: Option<nat>): (n: nat)
    ensures n > 0
  {
    if !supportsParallel then 1
    else if maxParallel.None? then USIZE_MAX
    else if maxParallel.value == 0 then 1
    else maxParallel.value
  }

  /** Runs every call and puts the answers together in the order of the values. */
  method RunCalls<E>(values: seq<string>, maxEmbeddings: Option<nat>, maxBytes: Option<nat>, supportsParallel: bool,
                     maxParallel: Option<nat>, call: (nat, Chunk) -> Answer<E>)
      returns (result: Result<EmbedMany<E>>, started: nat, ghost replies: seq<Reply<E>>)
    ensures maxEmbeddings == Some(0) <==> result == Err(InvalidArgument("max_embeddings_per_call"))
    ensures maxEmbeddings != Some(0) ==>
      (maxBytes == Some(0) <==> result == Err(InvalidArgument("max_input_bytes_per_call")))
    ensures result.Ok? ==>
      AllReply(call, Chunks(values, maxEmbeddings, maxBytes), replies) && result.value == Gathered(replies)
    ensures result.Err? && !result.error.InvalidArgument? ==>
      var width := if !supportsParallel || maxParallel == Some(0) then 1
                   else if maxParallel.Some? then maxParallel.value else 0xffff_ffff_ffff_ffff;
      var chunks := Chunks(values, maxEmbeddings, maxBytes);
      exists k: nat ::
        FailsFirst(call, chunks, width, k, result.error) && started == WindowEnd(k, width, |chunks|)
    ensures result.Err? && result.error.InvalidArgument? ==> started == 0
    ensures result.Ok? ==> started == |Chunks(values, maxEmbeddings, maxBytes)|
  {
    replies, started := [], 0;
    if maxEmbeddings == Some(0) {
      return Err(InvalidArgument("max_embeddings_per_call")), started, replies;
    }
    if maxBytes == Some(0) {
      return Err(InvalidArgument("max_input_bytes_per_call")), started, replies;
    }
    var chunks;
    if maxEmbeddings.None? && maxBytes.None? {
      chunks := [values];
    } else {
      chunks := SplitByLimits(values, Limits(if maxEmbeddings.Some? then maxEmbeddings.value else USIZE_MAX,
                                             if maxBytes.Some? then maxBytes.value else USIZE_MAX));
    }
    var width := Width(supportsParallel, maxParallel);
    var slots := new Option<Reply<E>>[|chunks|](_ => None);
    var failed;
    failed, started := RunWindows(call, chunks, slots, width);
    assert chunks == Chunks(values, maxEmbeddings, maxBytes);
    if failed.Some? {
      result := Err(failed.value);
      FailureIsNotAnArgument(call, chunks, width, failed.value);
      return;
    }
    replies := seq(|chunks|, k requires 0 <= k < |chunks| reads slots =>
      if slots[k].Some? then slots[k].value else Reply([], None, ""));
    var gathered := Gather(slots, replies);
    var miscount := InvalidCount(|values|, |gathered.embeddings|);
    ReplyLengths(call, chunks, replies);
    ChunksJoin(values, maxEmbeddings, maxBytes);
    result := if miscount.received != miscount.expected then Err(miscount) else Ok(gathered);
  }

  lemma FailureIsNotAnArgument<E>(call: (nat, Chunk) -> Answer<E>, chunks: seq<Chunk>, width: nat, error: Error)
    requires width > 0 && exists k: nat :: FailsFirst(call, chunks, width, k, error)
    ensures !error.InvalidArgument?
  {
    var k: nat :| FailsFirst(call, chunks, width, k, error);
    assert RunChunk(call, k, chunks[k]) == Err(error);
  }

  /** Reads the slots in order. */
  method Gather<E>(slots: array<Option<Reply<E>>>, ghost replies: seq<Reply<E>>) returns (gathered: EmbedMany<E>)
    requires |replies| == slots.Length && forall k :: 0 <= k < slots.Length ==> slots[k] == Some(replies[k])
    ensures gathered == Gathered(replies)
  {
    var embeddings, responses, tokens := [], [], Some(0);
    for k := 0 to slots.Length
      invariant EmbedMany(embeddings, responses, tokens) == Gathered(replies[..k])
    {
      GatheredNext(replies, k);
      if slots[k].Some? {
        var reply := slots[k].value;
        embeddings := embeddings + reply.embeddings;
        responses := responses + [reply.response];
        tokens := AddTokens(tokens, reply.tokens);
      }
    }
    assert replies[..|replies|] == replies;
    gathered := EmbedMany(embeddings, responses, tokens);
  }
}
