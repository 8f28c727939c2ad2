/**
 * The bounded body reader of src/apps/core/safe_http.py (`_read_body`).
 *
 * A decompressor is known only by what it does to a stream: `output(raw)` is everything it can
 * produce from the bytes `raw`, `ended(raw)` says that the compressed stream is complete within them.
 * `Decoder.Decompress` hands the output out in pieces of bounded size.
 */
module BodyReader {
  import opened Prelude

  type Bytes = seq<bv8>

  const RAW_SLACK_BYTES := 64 * 1024

  datatype Codec = Codec(output: Bytes -> Bytes, ended: Bytes -> bool, valid: Bytes -> bool)

  /** More input only adds output, errors stay errors, and bytes after the end change nothing. */
  ghost predicate Incremental(c: Codec) {
    && c.output([]) == []
    && (forall a, b :: c.output(a) <= c.output(a + b))
    && (forall a, b :: c.valid(a + b) ==> c.valid(a))
    && (forall a, b :: c.ended(a) ==> c.ended(a + b) && c.output(a + b) == c.output(a))
  }

  class Decoder {
    const codec: Codec
    var fed: Bytes        // the input consumed so far
    var emitted: nat      // how much of its output was handed out
    var eof: bool

    ghost predicate Valid()
      reads this
    {
      Incremental(codec) && emitted <= |codec.output(fed)| &&
          (eof ==> codec.ended(fed) && emitted == |codec.output(fed)|)
    }

    constructor (codec: Codec)
      requires Incremental(codec)
      ensures Valid() && this.codec == codec && fed == [] && emitted == 0 && !eof
    {
      this.codec, fed, emitted, eof := codec, [], 0, false;
    }

    /**
     * Consume input until `max` bytes are out, the input is used up, or the stream ends.  What is left
     * of the input comes back as `tail`, except bytes after the end, which are dropped.
     */
    method Decompress(data: Bytes, max: nat) returns (ok: bool, out: Bytes, tail: Bytes, ghost n: nat)
      requires Valid() && !eof && max > 0
      modifies this
      ensures Valid() && n <= |data| && fed == old(fed) + data[..n]
      ensures ok ==> |out| <= max && emitted == old(emitted) + |out| && out == codec.output(fed)[old(emitted)..emitted]
      ensures ok && !eof ==> tail == data[n..]
      ensures ok && eof ==> tail == []
      ensures ok && |out| < max ==> emitted == |codec.output(fed)| && (eof || n == |data|)
      ensures !ok ==> !codec.valid(old(fed) + data)
    {
      var i := 0;
      assert fed + data[..0] == fed;
      while i < |data| && |codec.output(fed + data[..i])| - emitted < max && !codec.ended(fed + data[..i])
        invariant 0 <= i <= |data|
        invariant emitted <= |codec.output(fed + data[..i])|
      {
        assert fed + data[..i + 1] == (fed + data[..i]) + [data[i]];
        i := i + 1;
      }
      n := i;
      var bad := !codec.valid(fed + data[..i]);
      assert fed + data == (fed + data[..i]) + data[i..];
      fed := fed + data[..i];
      if bad {
        return false, [], [], n;
      }
      var all := codec.output(fed);
      var upTo := if |all| - emitted <= max then |all| else emitted + max;
      out := all[emitted..upTo];
      emitted := upTo;
      eof := upTo == |all| && codec.ended(fed);
      tail := if eof then [] else data[i..];
      ok := true;
    }

    method Flush() returns (out: Bytes)
      requires Valid()
      modifies this`emitted
      ensures Valid() && out == codec.output(fed)[old(emitted)..] && emitted == |codec.output(fed)|
    {
      out := codec.output(fed)[emitted..];
      emitted := |codec.output(fed)|;
    }
  }

  datatype Encoding = Identity | Compressed(codec: Codec) | Unsupported

  /** A chunk of the raw body; `late` when it arrives after the deadline. */
  datatype Chunk = Chunk(data: Bytes, late: bool)

  datatype Result = Body(data: Bytes, truncated: bool) | TooLarge | Late | BadEncoding

  ghost function Concat(chunks: seq<Chunk>): Bytes {
    if chunks == [] then [] else Concat(chunks[..|chunks| - 1]) + chunks[|chunks| - 1].data
  }

  lemma {:induction false} ConcatSplit(chunks: seq<Chunk>, k: nat)
    requires k <= |chunks|
    ensures exists rest :: Concat(chunks) == Concat(chunks[..k]) + rest
    decreases |chunks|
  {
    if k == |chunks| {
      assert chunks[..k] == chunks;
      assert Concat(chunks) == Concat(chunks[..k]) + [];
    } else {
      var init := chunks[..|chunks| - 1];
      ConcatSplit(init, k);
      assert init[..k] == chunks[..k];
      var rest :| Concat(init) == Concat(chunks[..k]) + rest;
      assert Concat(chunks) == Concat(chunks[..k]) + (rest + chunks[|chunks| - 1].data);
    }
  }

  /** The size checks at the end of the reader. */
  function Finish(buf: Bytes, rawRead: nat, maxBytes: nat, truncate: bool): Result {
    if |buf| > maxBytes || rawRead > maxBytes + RAW_SLACK_BYTES then
      if truncate then Body(if |buf| > maxBytes then buf[..maxBytes] else buf, true) else TooLarge
    else Body(buf, false)
  }

  predicate InTime(chunks: seq<Chunk>) { forall i | 0 <= i < |chunks| :: !chunks[i].late }

  /** Chunk `k` is late, and what came before it is within the cap. */
  ghost predicate LateAfter(chunks: seq<Chunk>, k: int, maxBytes: nat)
    requires 0 <= k < |chunks|
  {
    chunks[k].late && |Concat(chunks[..k])| <= maxBytes
  }

  lemma ConcatGrows(chunks: seq<Chunk>, j: nat, k: nat)
    requires j <= k <= |chunks|
    ensures |Concat(chunks[..j])| <= |Concat(chunks[..k])|
  {
    ConcatSplit(chunks[..k], j);
    assert chunks[..k][..j] == chunks[..j];
  }

  method ReadIdentity(chunks: seq<Chunk>, maxBytes: nat, truncate: bool) returns (r: Result)
    // Late exactly when a late chunk is met before the cap is passed.
    ensures r.Late? <==> exists k :: 0 <= k < |chunks| && LateAfter(chunks, k, maxBytes)
    ensures !r.Late? && |Concat(chunks)| <= maxBytes ==> r == Body(Concat(chunks), false)
    ensures !r.Late? && |Concat(chunks)| > maxBytes ==>
      r == if truncate then Body(Concat(chunks)[..maxBytes], true) else TooLarge
  {
    var buf: Bytes, rawRead := [], 0;
    var k := 0;
    assert chunks[..0] == [];
    while k < |chunks|
      invariant 0 <= k <= |chunks| && buf == Concat(chunks[..k]) && rawRead == |buf| <= maxBytes
      invariant forall i | 0 <= i < k :: !chunks[i].late
    {
      if chunks[k].late {
        assert LateAfter(chunks, k, maxBytes);
        return Late;
      }
      assert chunks[..k + 1][..k] == chunks[..k];
      rawRead := rawRead + |chunks[k].data|;
      buf := buf + chunks[k].data;
      k := k + 1;
      if |buf| > maxBytes || rawRead > maxBytes + RAW_SLACK_BYTES {
        break;
      }
    }
    forall j | k <= j < |chunks| && |buf| > maxBytes ensures !LateAfter(chunks, j, maxBytes) {
      ConcatGrows(chunks, k, j);
    }
    ConcatSplit(chunks, k);
    assert k == |chunks| ==> chunks[..k] == chunks;
    return Finish(buf, rawRead, maxBytes, truncate);
  }

  /** The inner loop: expand one chunk into the buffer, never past `limit`. */
  method Expand(decoder: Decoder, chunk: Bytes, buf0: Bytes, limit: nat) returns (ok: bool, buf: Bytes, ghost n: nat)
    requires decoder.Valid() && !decoder.eof && |buf0| < limit
    requires buf0 == decoder.codec.output(decoder.fed) && decoder.emitted == |buf0|
    modifies decoder
    ensures decoder.Valid() && n <= |chunk| && decoder.fed == old(decoder.fed) + chunk[..n]
    ensures ok ==> |buf| <= limit && buf <= decoder.codec.output(decoder.fed) && decoder.emitted == |buf|
    ensures ok && |buf| < limit ==> buf == decoder.codec.output(decoder.fed) && (decoder.eof || n == |chunk|)
    ensures ok && decoder.eof ==> buf == decoder.codec.output(decoder.fed)
    ensures !ok ==> !decoder.codec.valid(old(decoder.fed) + chunk)
  {
    buf, n, ok := buf0, 0, true;
    var data := chunk;
    ghost var start := decoder.fed;
    assert start + chunk[..0] == start;
    while data != [] && |buf| < limit && !decoder.eof
      invariant decoder.Valid() && n <= |chunk| && decoder.fed == start + chunk[..n]
      invariant |buf| <= limit && buf <= decoder.codec.output(decoder.fed) && decoder.emitted == |buf|
      invariant |buf| < limit ==> buf == decoder.codec.output(decoder.fed) && (decoder.eof || data == chunk[n..])
      invariant decoder.eof ==> buf == decoder.codec.output(decoder.fed)
      invariant n > 0 && |buf| < limit && !decoder.eof ==> data == []
      decreases limit - |buf|, |data|
    {
      var out, tail;
      ghost var m;
      ghost var before := decoder.fed;
      ok, out, tail, m := decoder.Decompress(data, limit - |buf|);
      assert data == chunk[n..] && before + data[..m] == start + chunk[..n + m];
      n := n + m;
      if !ok {
        assert before + data == start + chunk;
        return;
      }
      assert decoder.codec.output(before) <= decoder.codec.output(before + data[..m]);
      buf := buf + out;
      data := tail;
    }
  }

  /**
   * What reading a compressed body must give: a prefix of the decoded stream, all of it when not cut; cut
   * or refused only for one of the two caps, and to the first `maxBytes` bytes when it is the decoded one;
   * late when a late chunk is reached.
   */
  ghost predicate Reads(codec: Codec, chunks: seq<Chunk>, maxBytes: nat, truncate: bool, r: Result) {
    var raw := Concat(chunks);
    var all := codec.output(raw);
    && (r.Late? ==> !InTime(chunks)) && (r.BadEncoding? ==> !codec.valid(raw))
    && (r.Body? ==> |r.data| <= maxBytes && r.data <= all && (if r.truncated then truncate else r.data == all))
    && ((r.Body? && r.truncated) || r.TooLarge? ==> |all| > maxBytes || |raw| > maxBytes + RAW_SLACK_BYTES)
    && (r.Body? && r.truncated && |raw| <= maxBytes + RAW_SLACK_BYTES ==> |all| > maxBytes && r.data == all[..maxBytes])
    && (forall k | 0 <= k < |chunks| && chunks[k].late && Open(codec, chunks, k, maxBytes) :: r.Late?)
  }

  /** The state between chunks: all of the first `k` is expanded, none was late, both caps hold. */
  ghost predicate Reading(decoder: Decoder, codec: Codec, chunks: seq<Chunk>, k: int, buf: Bytes, rawRead: nat,
                          maxBytes: nat)
    reads decoder
  {
    && 0 <= k <= |chunks| && decoder.Valid() && decoder.codec == codec && !decoder.eof
    && decoder.fed == Concat(chunks[..k]) && buf == codec.output(decoder.fed) && decoder.emitted == |buf|
    && |buf| <= maxBytes && rawRead == |Concat(chunks[..k])| <= maxBytes + RAW_SLACK_BYTES
    && forall i | 0 <= i < k :: !chunks[i].late
  }

  /** One turn of the outer loop; `done` carries the result out of it. */
  method ReadChunk(decoder: Decoder, ghost codec: Codec, chunks: seq<Chunk>, k: nat, buf: Bytes, rawRead: nat,
                   maxBytes: nat, truncate: bool)
    returns (done: Option<Result>, buf': Bytes, rawRead': nat)
    requires k < |chunks| && Reading(decoder, codec, chunks, k, buf, rawRead, maxBytes)
    modifies decoder
    ensures done.Some? ==> Reads(codec, chunks, maxBytes, truncate, done.value)
    ensures done.None? ==> Reading(decoder, codec, chunks, k + 1, buf', rawRead', maxBytes)
  {
    buf', rawRead' := buf, rawRead;
    if chunks[k].late {
      LateReads(codec, chunks, k, maxBytes, truncate);
      return Some(Late), buf', rawRead';
    }
    ConcatNext(chunks, k);
    rawRead' := rawRead + |chunks[k].data|;
    var ok;
    ghost var n;
    ok, buf', n := Expand(decoder, chunks[k].data, buf, maxBytes + 1);
    if !ok {
      BadChunk(codec, chunks, k, maxBytes, truncate);
      return Some(BadEncoding), buf', rawRead';
    }
    if decoder.eof || |buf'| > maxBytes || rawRead' > maxBytes + RAW_SLACK_BYTES {
      StopReads(codec, chunks, k, n, buf', maxBytes, truncate);
      return Some(Finish(buf', rawRead', maxBytes, truncate)), buf', rawRead';
    }
    assert chunks[k].data[..n] == chunks[k].data;
    done := None;
  }

  method ReadCompressed(codec: Codec, chunks: seq<Chunk>, maxBytes: nat, truncate: bool) returns (r: Result)
    requires Incremental(codec)
    ensures Reads(codec, chunks, maxBytes, truncate, r)
  {
    var decoder := new Decoder(codec);
    var buf: Bytes, rawRead: nat := [], 0;
    assert chunks[..0] == [];
    for k := 0 to |chunks|
      invariant fresh(decoder) && Reading(decoder, codec, chunks, k, buf, rawRead, maxBytes)
    {
      var done;
      done, buf, rawRead := ReadChunk(decoder, codec, chunks, k, buf, rawRead, maxBytes, truncate);
      if done.Some? {
        return done.value;
      }
    }
    assert chunks[..|chunks|] == chunks;
    var rest := decoder.Flush();
    assert rest == [] && buf + rest == buf;
    EndReads(codec, chunks, maxBytes, truncate);
    return Finish(buf + rest, rawRead, maxBytes, truncate);
  }

  lemma ConcatNext(chunks: seq<Chunk>, k: nat)
    requires k < |chunks|
    ensures Concat(chunks[..k + 1]) == Concat(chunks[..k]) + chunks[k].data
  {
    assert chunks[..k + 1][..k] == chunks[..k];
  }

  lemma LateReads(codec: Codec, chunks: seq<Chunk>, k: nat, maxBytes: nat, truncate: bool)
    requires k < |chunks| && chunks[k].late
    ensures Reads(codec, chunks, maxBytes, truncate, Late)
  {
  }

  lemma EndReads(codec: Codec, chunks: seq<Chunk>, maxBytes: nat, truncate: bool)
    requires InTime(chunks)
    ensures var raw := Concat(chunks);
            Reads(codec, chunks, maxBytes, truncate, Finish(codec.output(raw), |raw|, maxBytes, truncate))
  {
  }

  lemma BadChunk(codec: Codec, chunks: seq<Chunk>, k: nat, maxBytes: nat, truncate: bool)
    requires Incremental(codec) && k < |chunks| && forall i | 0 <= i <= k :: !chunks[i].late
    requires !codec.valid(Concat(chunks[..k]) + chunks[k].data)
    ensures Reads(codec, chunks, maxBytes, truncate, BadEncoding)
  {
    PrefixFacts(codec, chunks, k, 0, Concat(chunks[..k]));
    StopsHere(codec, chunks, k, 0, maxBytes);
  }

  /** The reader stops after chunk `k`, of which `n` bytes were expanded. */
  lemma StopReads(codec: Codec, chunks: seq<Chunk>, k: nat, n: nat, buf: Bytes, maxBytes: nat, truncate: bool)
    requires Incremental(codec) && k < |chunks| && n <= |chunks[k].data| && forall i | 0 <= i <= k :: !chunks[i].late
    requires var fed := Concat(chunks[..k]) + chunks[k].data[..n];
             && buf <= codec.output(fed) && |buf| <= maxBytes + 1
             && (codec.ended(fed) || n == |chunks[k].data| || |buf| > maxBytes)
             && (|buf| <= maxBytes ==> buf == codec.output(fed))
             && ((codec.ended(fed) && buf == codec.output(fed)) || |buf| > maxBytes
                 || |Concat(chunks[..k + 1])| > maxBytes + RAW_SLACK_BYTES)
    ensures Reads(codec, chunks, maxBytes, truncate, Finish(buf, |Concat(chunks[..k + 1])|, maxBytes, truncate))
  {
    var before := Concat(chunks[..k]);
    PrefixFacts(codec, chunks, k, n, before);
    StopsHere(codec, chunks, k, n, maxBytes);
    assert buf <= codec.output(Concat(chunks));
  }

  /** The reader gets to chunk `k`: what came before it is valid, not complete, and within both caps. */
  ghost predicate Open(codec: Codec, chunks: seq<Chunk>, k: int, maxBytes: nat)
    requires 0 <= k <= |chunks|
  {
    var raw := Concat(chunks[..k]);
    && codec.valid(raw) && !codec.ended(raw)
    && |codec.output(raw)| <= maxBytes && |raw| <= maxBytes + RAW_SLACK_BYTES
  }

  /** What stops the reader at chunk `k` keeps all later chunks out of reach. */
  lemma StopsHere(codec: Codec, chunks: seq<Chunk>, k: nat, n: nat, maxBytes: nat)
    requires Incremental(codec) && k < |chunks| && n <= |chunks[k].data|
    requires var before := Concat(chunks[..k]);
             var fed := before + chunks[k].data[..n];
             || codec.ended(fed) || |codec.output(fed)| > maxBytes || !codec.valid(before + chunks[k].data)
             || |before + chunks[k].data| > maxBytes + RAW_SLACK_BYTES
    ensures forall j | k < j < |chunks| :: !Open(codec, chunks, j, maxBytes)
  {
    forall j | k < j < |chunks| ensures !Open(codec, chunks, j, maxBytes) {
      assert chunks[..j][..k] == chunks[..k] && chunks[..j][..k + 1] == chunks[..k + 1] && chunks[..j][k] == chunks[k];
      PrefixFacts(codec, chunks[..j], k, n, Concat(chunks[..k]));
    }
  }

  /** How a partly consumed chunk relates to the whole body. */
  lemma PrefixFacts(codec: Codec, chunks: seq<Chunk>, k: nat, n: nat, before: Bytes)
    requires Incremental(codec) && k < |chunks| && n <= |chunks[k].data| && before == Concat(chunks[..k])
    ensures var fed := before + chunks[k].data[..n];
            && codec.output(fed) <= codec.output(Concat(chunks))
            && (codec.ended(fed) ==> codec.ended(Concat(chunks)) && codec.output(Concat(chunks)) == codec.output(fed))
    ensures before + chunks[k].data == Concat(chunks[..k + 1])
    ensures codec.valid(Concat(chunks)) ==> codec.valid(before + chunks[k].data)
    ensures |Concat(chunks[..k + 1])| <= |Concat(chunks)|
  {
    var fed := before + chunks[k].data[..n];
    assert chunks[..k + 1][..k] == chunks[..k];
    ConcatSplit(chunks, k + 1);
    var rest :| Concat(chunks) == Concat(chunks[..k + 1]) + rest;
    assert Concat(chunks) == fed + (chunks[k].data[n..] + rest);
  }

  /** `_read_body`. */
  method ReadBody(declared: Option<nat>, encoding: Encoding, chunks: seq<Chunk>, maxBytes: nat, truncate: bool)
      returns (r: Result)
    requires encoding.Compressed? ==> Incremental(encoding.codec)
    ensures r.Body? ==> |r.data| <= maxBytes
    ensures r.Body? && r.truncated ==> truncate
    ensures r.Late? ==> !InTime(chunks)
    ensures declared.Some? && declared.value > maxBytes && !truncate ==> r == TooLarge
    ensures encoding.Identity? && InTime(chunks) && (declared.None? || declared.value <= maxBytes || truncate) ==>
      r == if |Concat(chunks)| <= maxBytes then Body(Concat(chunks), false)
           else if truncate then Body(Concat(chunks)[..maxBytes], true)
           else TooLarge
    ensures encoding.Compressed? && r.Body? ==> r.data <= encoding.codec.output(Concat(chunks))
    ensures encoding.Compressed? && r.Body? && !r.truncated ==> r.data == encoding.codec.output(Concat(chunks))
    ensures encoding.Compressed? && r.Body? && r.truncated && |Concat(chunks)| <= maxBytes + RAW_SLACK_BYTES ==>
      maxBytes < |encoding.codec.output(Concat(chunks))| && r.data == encoding.codec.output(Concat(chunks))[..maxBytes]
    ensures encoding.Identity? && (declared.None? || declared.value <= maxBytes || truncate) ==>
      (r.Late? <==> exists k :: 0 <= k < |chunks| && LateAfter(chunks, k, maxBytes))
    ensures encoding.Compressed? && (declared.None? || declared.value <= maxBytes || truncate) ==>
      forall k | 0 <= k < |chunks| && chunks[k].late && Open(encoding.codec, chunks, k, maxBytes) :: r.Late?
    ensures encoding.Compressed? && InTime(chunks) && encoding.codec.valid(Concat(chunks))
            && (declared.None? || declared.value <= maxBytes)
            && |encoding.codec.output(Concat(chunks))| <= maxBytes && |Concat(chunks)| <= maxBytes + RAW_SLACK_BYTES
            ==> r == Body(encoding.codec.output(Concat(chunks)), false)
  {
    if declared.Some? && declared.value > maxBytes && !truncate {
      return TooLarge;
    }
    match encoding {
      case Identity => r := ReadIdentity(chunks, maxBytes, truncate);
      case Compressed(codec) => r := ReadCompressed(codec, chunks, maxBytes, truncate);
      case Unsupported =>
        // The decoder is chosen at the first chunk, so an empty body is fine.
        if chunks == [] {
          r := Body([], false);
        } else if chunks[0].late {
          r := Late;
        } else {
          r := BadEncoding;
        }
    }
  }
}
