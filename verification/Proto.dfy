/** Reading a control message off a stream. */
module Proto {
  import opened Addr

  const SCRATCHPAD_SLOTS := 4

  datatype ReadResult = Complete(bytes: seq<Byte>) | OutOfRange | TransportError

  function Concat(chunks: seq<seq<Byte>>): seq<Byte> {
    if chunks == [] then [] else Concat(chunks[..|chunks| - 1]) + chunks[|chunks| - 1]
  }

  /** One chunk is its own concatenation, and concatenation keeps the order of the chunks. */
  lemma {:induction false} ConcatKeepsOrder(c: seq<Byte>, a: seq<seq<Byte>>, b: seq<seq<Byte>>)
    ensures Concat([c]) == c && Concat(a + b) == Concat(a) + Concat(b)
    decreases |b|
  {
    assert [c][..0] == [];
    if b == [] {
      assert a + b == a;
    } else {
      ConcatKeepsOrder(c, a, b[..|b| - 1]);
      assert (a + b)[..|a + b| - 1] == a + b[..|b| - 1];
    }
  }

  /** Byte `j` of chunk `i` follows all the earlier chunks. */
  lemma {:induction false} ByteOfChunk(chunks: seq<seq<Byte>>, i: nat, j: nat)
    requires i < |chunks| && j < |chunks[i]|
    ensures |Concat(chunks[..i])| + j < |Concat(chunks)| && Concat(chunks)[|Concat(chunks[..i])| + j] == chunks[i][j]
  {
    var before, rest := chunks[..i], chunks[i + 1..];
    assert chunks == before + ([chunks[i]] + rest);
    ConcatKeepsOrder(chunks[i], before, [chunks[i]] + rest);
    ConcatKeepsOrder(chunks[i], [chunks[i]], rest);
  }

  /** What a stream delivers: some chunks, and then its end or an error of the transport. */
  datatype Stream = Stream(chunks: seq<seq<Byte>>, broken: bool)

  /** Outcome of reading a whole stream: its bytes if there are fewer than the limit and it ends well. */
  function ReadWhole(s: Stream, maxBytes: nat): ReadResult {
    if s.chunks != [] && |Concat(s.chunks)| >= maxBytes then OutOfRange
    else if s.broken then TransportError
    else Complete(Concat(s.chunks))
  }

  lemma {:induction false} PrefixIsShorter(chunks: seq<seq<Byte>>, n: nat)
    requires n <= |chunks|
    ensures |Concat(chunks[..n])| <= |Concat(chunks)|
    decreases |chunks|
  {
    if n < |chunks| {
      var front := chunks[..|chunks| - 1];
      PrefixIsShorter(front, n);
      assert front[..n] == chunks[..n];
    } else {
      assert chunks[..n] == chunks;
    }
  }

  lemma {:induction false} ExtendPrefix<T>(s: seq<T>, at: nat, filled: nat, n: nat)
    requires at + filled <= |s| && n <= filled
    ensures s[..at] + s[at..at + filled][..n] == s[..at + n]
  {
  }

  /** The transport: fills any number of slots with the next chunks, none at the end of the stream. */
  method ReadChunks(chunks: seq<seq<Byte>>, at: nat, pad: array<seq<Byte>>) returns (filled: nat)
    requires at <= |chunks| && pad.Length == SCRATCHPAD_SLOTS
    modifies pad
    ensures filled <= SCRATCHPAD_SLOTS && at + filled <= |chunks|
    ensures filled == 0 <==> at == |chunks|
    ensures pad[..filled] == chunks[at..at + filled]
  {
    filled :| 0 <= filled <= SCRATCHPAD_SLOTS && at + filled <= |chunks| && (filled == 0 <==> at == |chunks|)
      by { assert at < |chunks| ==> at + 1 <= |chunks|; }
    for i := 0 to filled
      invariant pad[..i] == chunks[at..at + i]
    {
      pad[i] := chunks[at + i];
      assert pad[..i + 1] == pad[..i] + [pad[i]];
    }
  }

  /** Moves the filled slots to the list, one by one, stopping once the limit is reached. */
  method Collect(list: seq<seq<Byte>>, pad: array<seq<Byte>>, filled: nat, maxBytes: nat)
      returns (longer: seq<seq<Byte>>, exceeded: bool)
    requires filled <= pad.Length
    modifies pad
    ensures |list| <= |longer| <= |list| + filled && longer == list + old(pad[..|longer| - |list|])
    ensures exceeded ==> |longer| > |list| && |Concat(longer)| >= maxBytes
    ensures !exceeded ==> |longer| == |list| + filled && (filled == 0 || |Concat(longer)| < maxBytes)
    ensures forall j :: 0 <= j < pad.Length ==> pad[j] == if j < |longer| - |list| then [] else old(pad[j])
  {
    longer, exceeded := list, false;
    for i := 0 to filled
      invariant longer == list + old(pad[..i])
      invariant forall j :: 0 <= j < pad.Length ==> pad[j] == if j < i then [] else old(pad[j])
      invariant i == 0 || |Concat(longer)| < maxBytes
    {
      longer := longer + [pad[i]];
      assert longer == list + old(pad[..i + 1]);
      pad[i] := [];
      if |Concat(longer)| >= maxBytes {
        return longer, true;
      }
    }
  }

  datatype Progress = More | AtEnd | Exceeded

  /** One round of the loop: whatever the transport delivers next is collected. */
  method ReadBatch(chunks: seq<seq<Byte>>, list: seq<seq<Byte>>, pad: array<seq<Byte>>, maxBytes: nat)
      returns (longer: seq<seq<Byte>>, progress: Progress)
    requires |list| <= |chunks| && list == chunks[..|list|] && pad.Length == SCRATCHPAD_SLOTS
    modifies pad
    ensures |list| <= |longer| <= |chunks| && longer == chunks[..|longer|]
    ensures progress == AtEnd ==> longer == list == chunks
    ensures progress == More ==> |longer| > |list| && |Concat(longer)| < maxBytes
    ensures progress == Exceeded ==> |longer| > |list| && |Concat(longer)| >= maxBytes
  {
    var filled := ReadChunks(chunks, |list|, pad);
    if filled == 0 {
      assert chunks[..|chunks|] == chunks;
      return list, AtEnd;
    }
    var exceeded;
    longer, exceeded := Collect(list, pad, filled, maxBytes);
    ExtendPrefix(chunks, |list|, filled, |longer| - |list|);
    progress := if exceeded then Exceeded else More;
  }

  /** However the chunks fall into the scratchpad, the whole stream decides the outcome. */
  method ReadToEnd(s: Stream, maxBytes: nat) returns (result: ReadResult)
    ensures result == ReadWhole(s, maxBytes)
  {
    var list: seq<seq<Byte>> := [];
    var pad := new seq<Byte>[SCRATCHPAD_SLOTS](_ => []);
    while true
      invariant |list| <= |s.chunks| && list == s.chunks[..|list|]
      invariant list == [] || |Concat(list)| < maxBytes
      decreases |s.chunks| - |list|
    {
      var progress;
      list, progress := ReadBatch(s.chunks, list, pad, maxBytes);
      match progress
      case AtEnd =>
        return if s.broken then TransportError else Complete(Concat(list));
      case Exceeded =>
        PrefixIsShorter(s.chunks, |list|);
        return OutOfRange;
      case More =>
    }
  }

  /** Bytes are returned exactly when the stream ends well below the limit, if that is positive. */
  lemma {:induction false} CompleteIffBelowLimit(s: Stream, maxBytes: nat)
    requires maxBytes > 0
    ensures ReadWhole(s, maxBytes) == Complete(Concat(s.chunks)) <==> !s.broken && |Concat(s.chunks)| < maxBytes
    ensures ReadWhole(s, maxBytes) == OutOfRange <==> |Concat(s.chunks)| >= maxBytes
  {
  }

  ghost predicate SameBytes(s: Stream, s': Stream) {
    s.broken == s'.broken && Concat(s.chunks) == Concat(s'.chunks)
  }

  /** Only the bytes matter, not how they were cut into chunks, exactly for a positive limit. */
  lemma {:induction false} ChunkingIrrelevantIff(maxBytes: nat)
    ensures (forall s, s' :: SameBytes(s, s') ==> ReadWhole(s, maxBytes) == ReadWhole(s', maxBytes)) <==> maxBytes > 0
  {
    if maxBytes == 0 {
      var none, empty := Stream([], false), Stream([[]], false);
      assert empty.chunks[..0] == [];
      assert SameBytes(none, empty) && ReadWhole(none, 0) != ReadWhole(empty, 0);
    }
  }
}
