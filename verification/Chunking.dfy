/**
 Cutting a schema document into C++ string literals: pieces of at most 16 KiB, none of which cuts
 a UTF-8 character.
 */
module Chunking {
  import opened Utf8

  const CHUNK_BYTES: nat := 16 * 1024

  datatype Result = Chunks(chunks: seq<seq<Byte>>) | InvalidUtf8 | ExceedsBound

  function Joined(chunks: seq<seq<Byte>>): seq<Byte> {
    if chunks == [] then [] else Joined(chunks[..|chunks| - 1]) + chunks[|chunks| - 1]
  }

  ghost predicate ChunkOk(chunk: seq<Byte>) {
    0 < |chunk| <= CHUNK_BYTES && Valid(chunk)
  }

  /** Every chunk that has a successor could not have held one more character for sure. */
  predicate Filled(chunks: seq<seq<Byte>>) {
    forall i :: 0 <= i < |chunks| ==> CHUNK_BYTES - 3 <= |chunks[i]|
  }

  /** The piece from `start` ends at the last place within the limit where no character is cut. */
  predicate LargestPiece(data: seq<Byte>, start: nat, end: nat) {
    && start < end <= |data| && end <= start + CHUNK_BYTES
    && (end < |data| ==> !Tail(data[end]))
    && (forall e :: end < e <= start + CHUNK_BYTES && e < |data| ==> Tail(data[e]))
    && (|data| <= start + CHUNK_BYTES ==> end == |data|)
  }

  /** Where each of the pieces ends that come one after the other. */
  predicate Pieces(data: seq<Byte>, chunks: seq<seq<Byte>>) {
    forall i :: 0 <= i < |chunks| ==> PieceAt(data, chunks, i)
  }

  predicate PieceAt(data: seq<Byte>, chunks: seq<seq<Byte>>, i: nat)
    requires i < |chunks|
  {
    LargestPiece(data, |Joined(chunks[..i])|, |Joined(chunks[..i])| + |chunks[i]|)
  }

  lemma PiecesGrow(data: seq<Byte>, chunks: seq<seq<Byte>>, chunk: seq<Byte>)
    requires Pieces(data, chunks) && LargestPiece(data, |Joined(chunks)|, |Joined(chunks)| + |chunk|)
    ensures Pieces(data, chunks + [chunk])
  {
    hide LargestPiece, Joined;
    var more := chunks + [chunk];
    forall i | 0 <= i < |more| ensures PieceAt(data, more, i) {
      if i < |chunks| {
        assert more[..i] == chunks[..i] && PieceAt(data, chunks, i);
      } else {
        assert more[..i] == chunks;
      }
    }
  }

  method LiteralChunks(data: seq<Byte>) returns (result: Result)
    ensures result.InvalidUtf8? <==> !Valid(data)
    ensures !result.ExceedsBound?
    ensures Valid(data) ==> result.Chunks? && Joined(result.chunks) == data
    ensures Valid(data) && data == [] ==> result.chunks == [[]]
    ensures Valid(data) && data != [] ==>
              && (forall i :: 0 <= i < |result.chunks| ==> ChunkOk(result.chunks[i]))
              && |result.chunks| > 0 && Filled(result.chunks[..|result.chunks| - 1])
              && Pieces(data, result.chunks)
  {
    hide Valid, LargestPiece, PieceAt;
    var ok := ValidUtf8(data);
    if !ok { return InvalidUtf8; }
    if data == [] { return Chunks([[]]); }
    var chunks: seq<seq<Byte>> := [];
    var start := 0;
    while start < |data|
      invariant 0 <= start <= |data| && Valid(data[start..])
      invariant Joined(chunks) == data[..start] && Pieces(data, chunks)
      invariant forall i :: 0 <= i < |chunks| ==> ChunkOk(chunks[i])
      invariant start == |data| ==> |chunks| > 0 && Filled(chunks[..|chunks| - 1])
      invariant start < |data| ==> Filled(chunks)
    {
      var limit := if start + CHUNK_BYTES < |data| then start + CHUNK_BYTES else |data|;
      var end := limit;
      while end < |data| && data[end] / 64 == 2
        invariant start < end <= limit && limit - 3 <= end
        invariant end < limit ==> limit < |data|
        invariant forall k :: end < k <= limit ==> Tail(data[k])
        decreases end
      {
        LeadBits(data[end]);
        FourthTail(data, start, end, limit);
        end := end - 1;
      }
      if end <= start { return ExceedsBound; }
      if end < |data| {
        LeadBits(data[end]);
      }
      CutIsValid(data, start, end);
      PieceIsLargest(data, start, end, limit);
      PiecesGrow(data, chunks, data[start..end]);
      JoinedStep(data, chunks, start, end);
      chunks := chunks + [data[start..end]];
      start := end;
    }
    return Chunks(chunks);
  }

  lemma PieceIsLargest(data: seq<Byte>, start: nat, end: nat, limit: nat)
    requires start < end <= limit <= |data|
    requires limit == if start + CHUNK_BYTES < |data| then start + CHUNK_BYTES else |data|
    requires forall k :: end < k <= limit && k < |data| ==> Tail(data[k])
    requires (end < |data| ==> !Tail(data[end])) && (end < limit ==> limit < |data|)
    ensures LargestPiece(data, start, end)
  {
  }

  lemma CutIsValid(data: seq<Byte>, start: nat, end: nat)
    requires start <= end <= |data| && Valid(data[start..]) && (end == |data| || !Tail(data[end]))
    ensures Valid(data[start..end]) && Valid(data[end..])
  {
    hide Valid;
    var rest := data[start..];
    CutsAtBoundaries(rest, end - start);
    assert rest[..end - start] == data[start..end] && rest[end - start..] == data[end..];
  }

  lemma JoinedStep(data: seq<Byte>, chunks: seq<seq<Byte>>, start: nat, end: nat)
    requires start <= end <= |data| && Joined(chunks) == data[..start]
    ensures Joined(chunks + [data[start..end]]) == data[..end]
    ensures (chunks + [data[start..end]])[..|chunks|] == chunks
  {
    JoinedAppends(chunks, data[start..end]);
    PrefixGrows(data, start, end);
  }

  lemma JoinedAppends(chunks: seq<seq<Byte>>, chunk: seq<Byte>)
    ensures Joined(chunks + [chunk]) == Joined(chunks) + chunk
    ensures (chunks + [chunk])[..|chunks|] == chunks
  {
    assert (chunks + [chunk])[..|chunks|] == chunks;
  }

  lemma PrefixGrows(data: seq<Byte>, start: nat, end: nat)
    requires start <= end <= |data|
    ensures data[..start] + data[start..end] == data[..end]
  {
  }

  /** The scan back from the limit stops within three bytes. */
  lemma FourthTail(data: seq<Byte>, start: nat, end: nat, limit: nat)
    requires start < end <= limit < |data| && limit == start + CHUNK_BYTES && Valid(data[start..])
    requires forall k :: end < k <= limit ==> Tail(data[k])
    requires Tail(data[end]) && limit - 3 <= end
    ensures limit - 3 < end
  {
    NoFourTails(data[start..], limit - 3 - start);
  }
}
