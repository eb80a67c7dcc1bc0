/**
 The readers that stop at a limit (scripts/release/verify_release_candidate.py and
 tools/patch_evaluation_sidecar_hardening.py), over a source that may deliver any nonempty part
 of what is asked for.
 */
module BoundedReaders {
  import opened Wrappers

  const READ_CHUNK_BYTES := 1024 * 1024
  const CAPTURE_CHUNK_BYTES := 64 * 1024

  function Min(a: int, b: int): int { if a < b then a else b }

  function Take(b: Bytes, n: nat): Bytes { if n <= |b| then b[..n] else b }

  /** Keeping the first `limit` bytes piece by piece keeps the first `limit` bytes of the whole. */
  lemma TakeInPieces(seen: Bytes, chunk: Bytes, limit: nat)
    ensures |Take(seen, limit)| <= limit
    ensures Take(seen, limit) + Take(chunk, limit - |Take(seen, limit)|) == Take(seen + chunk, limit)
  {}

  lemma SeenThenRest(seen: Bytes, chunk: Bytes, rest: Bytes)
    ensures seen + (chunk + rest) == (seen + chunk) + rest
  {}

  /** A readable stream; `*` chooses how much of a request is delivered. */
  class Source {
    const data: Bytes
    var pos: nat

    constructor (data: Bytes)
      ensures this.data == data && pos == 0
    {
      this.data, pos := data, 0;
    }

    ghost function Rest(): Bytes
      requires pos <= |data|
      reads this
    {
      data[pos..]
    }

    method Read(size: nat) returns (chunk: Bytes)
      requires pos <= |data|
      modifies this
      ensures pos <= |data| && old(Rest()) == chunk + Rest() && pos == old(pos) + |chunk|
      ensures |chunk| <= size
      ensures chunk == [] <==> size == 0 || old(Rest()) == []
    {
      var available := Min(size, |data| - pos);
      if available == 0 { return []; }
      var n :| 1 <= n <= available;
      chunk := data[pos..pos + n];
      pos := pos + n;
    }
  }

  /** The whole content of a member or of an unpacked stream, or an error when it exceeds the limit. */
  method ReadLimited(source: Source, limit: nat) returns (r: Option<Bytes>)
    requires source.pos <= |source.data|
    modifies source
    ensures r == if |old(source.Rest())| <= limit then Some(old(source.Rest())) else None
    ensures source.pos <= |source.data| && source.pos - old(source.pos) <= limit + 1
  {
    ghost var whole := source.Rest();
    var content: Bytes := [];
    var done := false;
    while |content| <= limit && !done
      invariant source.pos <= |source.data| && whole == content + source.Rest()
      invariant source.pos == old(source.pos) + |content| && |content| <= limit + 1
      invariant done ==> source.Rest() == [] && |content| <= limit
      decreases limit + 1 - |content|, !done
    {
      var chunk := source.Read(Min(READ_CHUNK_BYTES, limit + 1 - |content|));
      SeenThenRest(content, chunk, source.Rest());
      if chunk == [] { done := true; }
      content := content + chunk;
    }
    if |content| > limit { return None; }
    assert whole == content;
    r := Some(content);
  }

  /** The digest of the whole archive and its first eight bytes, which hold the gzip time stamp. */
  method HashOpenArchive(source: Source, sha: Bytes -> string, limit: nat) returns (r: Option<(string, Bytes)>)
    requires source.pos <= |source.data|
    modifies source
    ensures var whole := old(source.Rest());
            r == if |whole| <= limit then Some((sha(whole), if |whole| < 8 then whole else whole[..8])) else None
    ensures source.pos <= |source.data| && source.pos - old(source.pos) <= limit + 1
  {
    ghost var whole := source.Rest();
    var digested: Bytes := [];
    var header: Bytes := [];
    var done := false;
    while |digested| <= limit && !done
      invariant source.pos <= |source.data| && whole == digested + source.Rest()
      invariant source.pos == old(source.pos) + |digested| && |digested| <= limit + 1
      invariant header == Take(digested, 8)
      invariant done ==> source.Rest() == [] && |digested| <= limit
      decreases limit + 1 - |digested|, !done
    {
      var chunk := source.Read(Min(READ_CHUNK_BYTES, limit + 1 - |digested|));
      SeenThenRest(digested, chunk, source.Rest());
      if chunk == [] { done := true; }
      if |header| < 8 { header := header + chunk[..Min(8 - |header|, |chunk|)]; }
      digested := digested + chunk;
    }
    if |digested| > limit { return None; }
    assert whole == digested;
    r := Some((sha(digested), header));
  }

  /** Exactly `size` bytes of a batch reply, or an error when the reply ends early. */
  method ReadExact(source: Source, size: nat) returns (r: Option<Bytes>)
    requires source.pos <= |source.data|
    modifies source
    ensures var whole := old(source.Rest());
            r == if |whole| >= size then Some(whole[..size]) else None
    ensures r.Some? ==> source.pos == old(source.pos) + size
  {
    ghost var whole := source.Rest();
    var content: Bytes := [];
    var remaining := size;
    while remaining > 0
      invariant source.pos <= |source.data| && whole == content + source.Rest()
      invariant source.pos == old(source.pos) + |content| && remaining == size - |content| >= 0
    {
      var chunk := source.Read(Min(READ_CHUNK_BYTES, remaining));
      SeenThenRest(content, chunk, source.Rest());
      if chunk == [] { return None; }
      content := content + chunk;
      remaining := remaining - |chunk|;
    }
    r := Some(content);
  }

  /** Keeps what fits of the next chunk, after the bytes `seen` so far. */
  method KeepPart(kept: Bytes, cut: bool, chunk: Bytes, limit: nat, ghost seen: Bytes)
      returns (content: Bytes, truncated: bool)
    requires kept == Take(seen, limit) && (cut <==> |seen| > limit)
    ensures content == Take(seen + chunk, limit) && (truncated <==> |seen + chunk| > limit)
  {
    TakeInPieces(seen, chunk, limit);
    var remaining := limit - |kept|;
    content, truncated := kept + Take(chunk, remaining), cut || |chunk| > remaining;
  }

  /** The first `limit` bytes of a command's output, read to its end, and whether there were more. */
  method CaptureStream(source: Source, limit: nat) returns (content: Bytes, truncated: bool)
    requires source.pos <= |source.data|
    modifies source
    ensures content <= old(source.Rest()) && |content| == (if truncated then limit else |old(source.Rest())|)
    ensures truncated <==> |old(source.Rest())| > limit
    ensures source.pos == |source.data|
  {
    ghost var whole := source.Rest();
    ghost var seen: Bytes := [];
    content, truncated := [], false;
    var done := false;
    while !done
      invariant source.pos <= |source.data| && whole == seen + source.Rest()
      invariant content == Take(seen, limit) && (truncated <==> |seen| > limit)
      invariant done ==> source.Rest() == []
      decreases |source.data| - source.pos, !done
    {
      var chunk := source.Read(CAPTURE_CHUNK_BYTES);
      SeenThenRest(seen, chunk, source.Rest());
      if chunk == [] { done := true; }
      content, truncated := KeepPart(content, truncated, chunk, limit, seen);
      seen := seen + chunk;
    }
    assert seen == whole;
  }
}
