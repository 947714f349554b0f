/**
 * `BinaryInputFormatter`: reads an `application/octet-stream` request body
 * into a byte array of bounded size. The request body stream delivers the
 * bytes in chunks; one read returns at most one chunk's worth, and 0 only
 * at the end of the body.
 */
module BodyReader {
  import opened Wrappers
  import opened Ticks
  import opened Text

  function Concat(chunks: seq<seq<byte>>): seq<byte> {
    if chunks == [] then [] else chunks[0] + Concat(chunks[1..])
  }

  function Min(a: int, b: int): int { if a <= b then a else b }

  /** The request body: the chunks not yet delivered, none of them empty. */
  class BodyStream {
    var chunks: seq<seq<byte>>

    ghost predicate Valid()
      reads this
    {
      forall i :: 0 <= i < |chunks| ==> |chunks[i]| > 0
    }

    /** The bytes not yet read. */
    function Rest(): seq<byte>
      reads this
    {
      Concat(chunks)
    }

    constructor (chunks: seq<seq<byte>>)
      requires forall i :: 0 <= i < |chunks| ==> |chunks[i]| > 0
      ensures this.chunks == chunks && Valid()
    {
      this.chunks := chunks;
    }

    /**
     * `Stream.ReadAsync(buffer, offset, count)`: copies the first `n` unread
     * bytes into `buffer[offset..offset + n]`, with `n` at most `count` and
     * at most the current chunk; `n` is 0 only when `count` is 0 or the body
     * is exhausted.
     */
    method ReadAsync(buffer: array<byte>, offset: int, count: int) returns (n: int)
      requires Valid() && 0 <= offset && 0 <= count && offset + count <= buffer.Length
      modifies this, buffer
      ensures Valid()
      ensures 0 <= n <= count && n <= |old(Rest())|
      ensures n == 0 <==> count == 0 || old(Rest()) == []
      ensures buffer[..offset] == old(buffer[..offset])
      ensures buffer[offset + n..] == old(buffer[offset + n..])
      ensures buffer[offset..offset + n] == old(Rest())[..n]
      ensures Rest() == old(Rest())[n..]
    {
      if count == 0 || chunks == [] {
        return 0;
      }
      var head := chunks[0];
      n := if |head| < count then |head| else count;
      for k := 0 to n
        modifies buffer
        invariant buffer[..offset] == old(buffer[..offset])
        invariant buffer[offset + n..] == old(buffer[offset + n..])
        invariant buffer[offset..offset + k] == head[..k]
      {
        buffer[offset + k] := head[k];
      }
      assert old(Rest()) == head + Concat(chunks[1..]);
      if n == |head| {
        chunks := chunks[1..];
      } else {
        chunks := [head[n..]] + chunks[1..];
        assert Concat(chunks) == head[n..] + Concat(chunks[1..]);
      }
    }
  }

  /**
   * `TryReadMaxFromStream`: fills `buffer` from the stream until it is full
   * or the body ends. With `maxCheck`, a full buffer is followed by a
   * one-byte probe, and -1 is returned when the probe finds more data.
   */
  method TryReadMaxFromStream(source: BodyStream, buffer: array<byte>, maxCheck: bool) returns (read: int)
    requires source.Valid()
    modifies source, buffer
    ensures source.Valid()
    ensures var body := old(source.Rest());
      var n := Min(buffer.Length, |body|);
      && buffer[..n] == body[..n]
      && read == if maxCheck && |body| > buffer.Length then -1 else n
  {
    ghost var body := source.Rest();
    var length := buffer.Length;
    read := 0;
    while read < length
      invariant source.Valid()
      invariant 0 <= read <= length && read <= |body|
      invariant buffer[..read] == body[..read]
      invariant source.Rest() == body[read..]
      decreases length - read
    {
      var newRead := source.ReadAsync(buffer, read, length - read);
      if newRead == 0 {
        break;
      }
      assert buffer[..read + newRead] == buffer[..read] + buffer[read..read + newRead];
      assert body[..read + newRead] == body[..read] + body[read..][..newRead];
      read := read + newRead;
    }
    assert read == Min(length, |body|);
    if maxCheck {
      if read == length {
        var buf := new byte[1];
        var probe := source.ReadAsync(buf, 0, 1);
        if probe != 0 {
          return -1;
        }
      }
    }
  }

  /**
   * What `ReadRequestBodyAsync` yields for a body `body` with declared
   * length `contentLength`: the length is the declared one or else the
   * maximum, and fails the checked cast to `int` outside 32 bits; a
   * length over the maximum fails; a negative one fails allocating the
   * buffer. The read fails on -1 (more than the maximum arrived) and on 0.
   */
  function BodyResult(contentLength: Option<int>, max: int, body: seq<byte>): Option<seq<byte>> {
    var length := contentLength.GetOr(max);
    if !IsInt32(length) || length > max || length < 0 then None
    else
      var n := Min(length, |body|);
      if (length >= max && |body| > length) || n == 0 then None
      else Some(body[..n])
  }

  /**
   * Whatever is accepted is a non-empty prefix of the body of at most
   * `max` bytes, and no more bytes than were declared.
   */
  lemma BodyResultBounded(contentLength: Option<int>, max: int, body: seq<byte>)
    ensures var r := BodyResult(contentLength, max, body);
      r.Some? ==> 0 < |r.value| <= max && |r.value| <= contentLength.GetOr(max) && r.value == body[..|r.value|]
  {
  }

  /** An empty body always fails. */
  lemma EmptyBodyFails(contentLength: Option<int>, max: int)
    ensures BodyResult(contentLength, max, []).None?
  {
  }

  /**
   * A non-empty body that fits the maximum is accepted whole when its
   * length is declared truthfully or not declared at all.
   */
  lemma BodyAcceptedWhole(contentLength: Option<int>, max: int, body: seq<byte>)
    requires IsInt32(max) && 0 < |body| <= max
    requires contentLength == None || contentLength == Some(|body|)
    ensures BodyResult(contentLength, max, body) == Some(body)
  {
    assert body[..|body|] == body;
  }

  /** Without a declared length at or under the maximum, a body over the maximum is refused. */
  lemma OversizeRefused(contentLength: Option<int>, max: int, body: seq<byte>)
    requires contentLength.None? || contentLength.value >= max
    requires |body| > max
    ensures BodyResult(contentLength, max, body).None?
  {
  }

  /**
   * A declared length below the maximum disables the probe: a longer body
   * is cut to the declared length rather than refused.
   */
  lemma DeclaredShortTruncates(length: int, max: int, body: seq<byte>)
    requires 0 < length < max && IsInt32(max) && |body| > length
    ensures BodyResult(Some(length), max, body) == Some(body[..length])
  {
  }

  /** The formatter; the semaphore of `UseLocking` is not modelled. */
  class BinaryInputFormatter {
    const maxPayloadLengthApprox: int

    constructor (maxPayloadLengthApprox: int)
      requires IsInt32(maxPayloadLengthApprox)
      ensures this.maxPayloadLengthApprox == maxPayloadLengthApprox
    {
      this.maxPayloadLengthApprox := maxPayloadLengthApprox;
    }

    /** `ReadRequestBodyAsync`, with the declared `Content-Length` and the body stream. */
    method ReadRequestBody(contentLength: Option<int>, body: BodyStream) returns (result: Option<seq<byte>>)
      requires body.Valid()
      modifies body
      ensures result == BodyResult(contentLength, maxPayloadLengthApprox, old(body.Rest()))
    {
      var length := contentLength.GetOr(maxPayloadLengthApprox);
      if !IsInt32(length) {
        return None;              // the checked cast throws
      }
      if length > maxPayloadLengthApprox {
        return None;
      }
      if length < 0 {
        return None;              // allocating the buffer throws
      }
      var data := new byte[length];
      var read := TryReadMaxFromStream(body, data, length >= maxPayloadLengthApprox);
      if read == -1 || read == 0 {
        return None;
      }
      ghost var prefix := data[..read];
      if read != length {
        var resized := new byte[read];
        forall k | 0 <= k < read {
          resized[k] := data[k];
        }
        assert resized[..] == prefix;
        data := resized;
      } else {
        assert data[..] == prefix;
      }
      return Some(data[..]);
    }
  }
}
