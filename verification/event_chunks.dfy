/** Splitting a series of events into POST bodies under the recorder's two caps. An event comes with
    the length of its JSON text, which is ASCII, so that length is its size in bytes. */
module EventChunks {

  const MAX_EVENTS_PER_POST: nat := 256
  const MAX_POST_BYTES: nat := 1024 * 1024 - 2048
  const BODY_CAP: nat := 1048576

  datatype Sized<+E> = Sized(event: E, size: nat)

  function Bytes<E>(chunk: seq<Sized<E>>): nat {
    if chunk == [] then 0 else Bytes(chunk[..|chunk| - 1]) + chunk[|chunk| - 1].size
  }

  // {"events": [e1, e2, ...]} as json.dumps writes it: 14 characters of wrapper, ", " between events.
  function BodySize<E>(chunk: seq<Sized<E>>): nat {
    14 + Bytes(chunk) + (if chunk == [] then 0 else 2 * (|chunk| - 1))
  }

  // The body as it is written, from the JSON texts of its events.
  function BodyText(texts: seq<string>): string {
    "{\"events\": [" + Listed(texts) + "]}"
  }

  function Listed(texts: seq<string>): string {
    if texts == [] then ""
    else if |texts| == 1 then texts[0]
    else Listed(texts[..|texts| - 1]) + ", " + texts[|texts| - 1]
  }

  lemma {:induction false} ListedSize<E>(chunk: seq<Sized<E>>, texts: seq<string>)
    requires |texts| == |chunk| && forall k :: 0 <= k < |chunk| ==> |texts[k]| == chunk[k].size
    ensures |Listed(texts)| == Bytes(chunk) + if chunk == [] then 0 else 2 * (|chunk| - 1)
  {
    if |chunk| == 1 {
      assert chunk[..0] == [];
    } else if |chunk| > 1 {
      ListedSize(chunk[..|chunk| - 1], texts[..|texts| - 1]);
    }
  }

  // Its length is the size computed from the sizes of the events.
  lemma {:induction false} BodyTextSize<E>(chunk: seq<Sized<E>>, texts: seq<string>)
    requires |texts| == |chunk| && forall k :: 0 <= k < |chunk| ==> |texts[k]| == chunk[k].size
    ensures |BodyText(texts)| == BodySize(chunk)
  {
    ListedSize(chunk, texts);
  }

  function Flatten<T>(chunks: seq<seq<T>>): seq<T> {
    if chunks == [] then [] else Flatten(chunks[..|chunks| - 1]) + chunks[|chunks| - 1]
  }

  ghost predicate WithinCaps<E>(chunk: seq<Sized<E>>) {
    && 0 < |chunk| <= MAX_EVENTS_PER_POST
    && (Bytes(chunk) <= MAX_POST_BYTES || |chunk| == 1)
  }

  // A chunk ends where it does only because the next event did not fit any more.
  ghost predicate CutByNeed<E>(chunk: seq<Sized<E>>, next: seq<Sized<E>>) {
    next != [] && (|chunk| >= MAX_EVENTS_PER_POST || Bytes(chunk) + next[0].size > MAX_POST_BYTES)
  }

  ghost predicate Chunked<E>(chunks: seq<seq<Sized<E>>>) {
    chunks == [] ||
      var front, last := chunks[..|chunks| - 1], chunks[|chunks| - 1];
      Chunked(front) && WithinCaps(last) && (front != [] ==> CutByNeed(front[|front| - 1], last))
  }

  lemma {:induction false} BytesOneMore<E>(chunk: seq<Sized<E>>, event: Sized<E>)
    ensures Bytes(chunk + [event]) == Bytes(chunk) + event.size
    ensures Bytes<E>([]) == 0
  {
  }

  lemma {:induction false} ChunkedOneMore<E>(chunks: seq<seq<Sized<E>>>, chunk: seq<Sized<E>>)
    requires Chunked(chunks) && WithinCaps(chunk)
    requires chunks != [] ==> CutByNeed(chunks[|chunks| - 1], chunk)
    ensures Chunked(chunks + [chunk]) && Flatten(chunks + [chunk]) == Flatten(chunks) + chunk
  {
  }

  predicate Cuts<E>(chunk: seq<Sized<E>>, event: Sized<E>) {
    chunk != [] && (|chunk| >= MAX_EVENTS_PER_POST || Bytes(chunk) + event.size > MAX_POST_BYTES)
  }

  // The walk over the first `n` events: the finished chunks, and the one being filled.
  ghost predicate Chunking<E>(events: seq<Sized<E>>, n: nat, chunks: seq<seq<Sized<E>>>, chunk: seq<Sized<E>>) {
    && n <= |events| && Chunked(chunks) && Flatten(chunks) + chunk == events[..n]
    && (if chunk == [] then n == 0 && chunks == [] else WithinCaps(chunk))
    && (chunks != [] ==> CutByNeed(chunks[|chunks| - 1], chunk))
  }

  lemma {:induction false} ChunkingCut<E>(events: seq<Sized<E>>, n: nat, chunks: seq<seq<Sized<E>>>, chunk: seq<Sized<E>>)
    requires n < |events| && Chunking(events, n, chunks, chunk) && Cuts(chunk, events[n])
    ensures Chunking(events, n + 1, chunks + [chunk], [events[n]])
  {
    ChunkedOneMore(chunks, chunk);
    assert events[..n + 1] == events[..n] + [events[n]];
  }

  lemma {:induction false} ChunkingGrows<E>(events: seq<Sized<E>>, n: nat, chunks: seq<seq<Sized<E>>>, chunk: seq<Sized<E>>)
    requires n < |events| && Chunking(events, n, chunks, chunk) && !Cuts(chunk, events[n])
    ensures Chunking(events, n + 1, chunks, chunk + [events[n]])
  {
    BytesOneMore(chunk, events[n]);
    assert Flatten(chunks) + (chunk + [events[n]]) == events[..n] + [events[n]] == events[..n + 1];
  }

  lemma {:induction false} ChunkingEnds<E>(events: seq<Sized<E>>, chunks: seq<seq<Sized<E>>>, chunk: seq<Sized<E>>)
    requires Chunking(events, |events|, chunks, chunk)
    ensures var all := if chunk == [] then chunks else chunks + [chunk];
      Flatten(all) == events && Chunked(all)
  {
    assert events[..|events|] == events;
    if chunk != [] {
      ChunkedOneMore(chunks, chunk);
    }
  }

  // Nothing is lost or reordered, and the chunks obey the caps without being cut early.
  method ChunkEvents<E>(events: seq<Sized<E>>) returns (chunks: seq<seq<Sized<E>>>)
    ensures Flatten(chunks) == events && Chunked(chunks)
  {
    chunks := [];
    var chunk: seq<Sized<E>>, size := [], 0;
    for n := 0 to |events|
      invariant Chunking(events, n, chunks, chunk) && size == Bytes(chunk)
    {
      hide Chunking, Bytes;
      var event := events[n];
      BytesOneMore(chunk, event);
      BytesOneMore([], event);
      if chunk != [] && (|chunk| >= MAX_EVENTS_PER_POST || size + event.size > MAX_POST_BYTES) {
        ChunkingCut(events, n, chunks, chunk);
        chunks := chunks + [chunk];
        chunk, size := [], 0;
      } else {
        ChunkingGrows(events, n, chunks, chunk);
      }
      chunk, size := chunk + [event], size + event.size;
    }
    ChunkingEnds(events, chunks, chunk);
    if chunk != [] {
      chunks := chunks + [chunk];
    }
  }

  // Chunk by chunk: both caps hold and the body fits under the recorder's cap, the only exception
  // being a lone event that is itself over the byte budget; and a chunk that another follows could
  // not have taken that one's first event.
  lemma {:induction false} ChunkAt<E>(chunks: seq<seq<Sized<E>>>, i: nat)
    requires Chunked(chunks) && i < |chunks|
    ensures WithinCaps(chunks[i])
    ensures |chunks[i]| > 1 || Bytes(chunks[i]) <= MAX_POST_BYTES ==> BodySize(chunks[i]) <= BODY_CAP
    ensures i + 1 < |chunks| ==> CutByNeed(chunks[i], chunks[i + 1])
  {
    if i + 1 < |chunks| {
      ChunkAt(chunks[..|chunks| - 1], i);
    }
  }
}
