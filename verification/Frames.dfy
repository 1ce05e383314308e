/**
  Length-prefixed JSON frames on a byte stream: alleycat.rs, `read_json_frame` and
  `write_json_frame`. JSON itself is a pair of functions on payloads.
 */
module Frames {
  import opened Wrappers
  import opened Utf8
  import opened Limits

  datatype FrameError = EndOfStream | TooLarge(len: nat) | BadJson

  /** `write_u32`: four bytes, most significant first. */
  function BigEndian(n: nat): (r: seq<byte>)
    requires n < 0x1_0000_0000
    ensures |r| == 4 && FromBigEndian(r) == n
  {
    var b2 := n / 256;
    var b1 := b2 / 256;
    var b0 := b1 / 256;
    [b0, b1 % 256, b2 % 256, n % 256]
  }

  function FromBigEndian(b: seq<byte>): (n: nat)
    requires |b| == 4
  {
    var high: int := b[0];
    ((high * 256 + b[1]) * 256 + b[2]) * 256 + b[3]
  }

  /** A frame on the wire; a payload over the limit has none. */
  function Frame(payload: seq<byte>): seq<byte>
    requires |payload| <= MAX_FRAME_BYTES
  {
    BigEndian(|payload|) + payload
  }

  /** A read takes a frame off the front of the stream, or fails having taken what it took. */
  datatype Reading<T> = Reading(result: Result<T, FrameError>, rest: seq<byte>)

  function ReadFrame<T>(bytes: seq<byte>, decode: seq<byte> -> Option<T>): Reading<T> {
    if |bytes| < 4 then Reading(Err(EndOfStream), [])
    else
      var len := FromBigEndian(bytes[..4]);
      var body := bytes[4..];
      if len > MAX_FRAME_BYTES then Reading(Err(TooLarge(len)), body)
      else if |body| < len then Reading(Err(EndOfStream), [])
      else
        match decode(body[..len])
        case None => Reading(Err(BadJson), body[len..])
        case Some(v) => Reading(Ok(v), body[len..])
  }

  /** One direction of a connection: the bytes written and not yet read. */
  class ByteStream {
    var pending: seq<byte>

    constructor ()
      ensures pending == []
    {
      pending := [];
    }

    /** `read_exact`: the next `n` bytes; at the end of the stream, whatever is left is lost. */
    method ReadExact(n: nat) returns (r: Option<seq<byte>>)
      modifies this
      ensures n <= |old(pending)| ==> r == Some(old(pending)[..n]) && pending == old(pending)[n..]
      ensures n > |old(pending)| ==> r == None && pending == []
    {
      if n > |pending| {
        pending := [];
        return None;
      }
      r := Some(pending[..n]);
      pending := pending[n..];
    }

    method ReadJsonFrame<T>(decode: seq<byte> -> Option<T>) returns (r: Result<T, FrameError>)
      modifies this
      ensures Reading(r, pending) == ReadFrame(old(pending), decode)
    {
      var prefix := ReadExact(4);
      if prefix.None? {
        return Err(EndOfStream);
      }
      var len := FromBigEndian(prefix.value);
      if len > MAX_FRAME_BYTES {
        return Err(TooLarge(len));
      }
      var body := ReadExact(len);
      if body.None? {
        return Err(EndOfStream);
      }
      var value := decode(body.value);
      if value.None? {
        return Err(BadJson);
      }
      return Ok(value.value);
    }

    method WriteJsonFrame<T>(value: T, encode: T -> seq<byte>) returns (r: Result<(), FrameError>)
      modifies this
      ensures |encode(value)| <= MAX_FRAME_BYTES ==>
                r == Ok(()) && pending == old(pending) + Frame(encode(value))
      ensures |encode(value)| > MAX_FRAME_BYTES ==>
                r == Err(TooLarge(|encode(value)|)) && pending == old(pending)
    {
      var buf := encode(value);
      if |buf| > MAX_FRAME_BYTES {
        return Err(TooLarge(|buf|));
      }
      pending := pending + BigEndian(|buf|);
      pending := pending + buf;
      assert pending == old(pending) + Frame(buf);
      return Ok(());
    }
  }

  // ----- Streams of frames -----

  ghost predicate Inverse<T(!new)>(encode: T -> seq<byte>, decode: seq<byte> -> Option<T>) {
    forall v :: decode(encode(v)) == Some(v)
  }

  ghost predicate Writable<T>(values: seq<T>, encode: T -> seq<byte>) {
    forall i :: 0 <= i < |values| ==> |encode(values[i])| <= MAX_FRAME_BYTES
  }

  /** The stream after writing the values in order. */
  function WriteAll<T>(values: seq<T>, encode: T -> seq<byte>): seq<byte>
    requires Writable(values, encode)
  {
    if values == [] then [] else Frame(encode(values[0])) + WriteAll(values[1..], encode)
  }

  /** Reading `n` frames; the first failure ends the reading. */
  function ReadMany<T>(n: nat, bytes: seq<byte>, decode: seq<byte> -> Option<T>): Reading<seq<T>> {
    if n == 0 then Reading(Ok([]), bytes)
    else
      var first := ReadFrame(bytes, decode);
      match first.result
      case Err(e) => Reading(Err(e), first.rest)
      case Ok(v) =>
        var others := ReadMany(n - 1, first.rest, decode);
        match others.result
        case Err(e) => Reading(Err(e), others.rest)
        case Ok(vs) => Reading(Ok([v] + vs), others.rest)
  }

  lemma ReadOne<T(!new)>(value: T, encode: T -> seq<byte>, decode: seq<byte> -> Option<T>, rest: seq<byte>)
    requires Inverse(encode, decode) && |encode(value)| <= MAX_FRAME_BYTES
    ensures ReadFrame(Frame(encode(value)) + rest, decode) == Reading(Ok(value), rest)
  {
    var buf := encode(value);
    var bytes := Frame(buf) + rest;
    assert bytes[..4] == BigEndian(|buf|);
    assert bytes[4..] == buf + rest;
    assert (buf + rest)[..|buf|] == buf && (buf + rest)[|buf|..] == rest;
  }

  /** The four bytes of a length, most significant first. */
  lemma NetworkOrder(n: nat)
    requires n < 0x1_0000_0000
    ensures BigEndian(n) == [n / 0x100_0000, n / 0x1_0000 % 0x100, n / 0x100 % 0x100, n % 0x100]
  {
  }

  /** A length over 1 MiB is refused, before any of the payload is read; up to that every payload has a frame. */
  lemma LimitIsOneMebibyte<T>(len: nat, rest: seq<byte>, decode: seq<byte> -> Option<T>)
    requires len < 0x1_0000_0000
    ensures len > 1_048_576 ==> ReadFrame(BigEndian(len) + rest, decode) == Reading(Err(TooLarge(len)), rest)
    ensures len <= 1_048_576 ==> ReadFrame(BigEndian(len) + rest, decode).result != Err(TooLarge(len))
  {
    var bytes := BigEndian(len) + rest;
    assert bytes[..4] == BigEndian(len) && bytes[4..] == rest;
  }

  /** A frame whose payload does not decode is taken off the stream and reported. */
  lemma BadPayloadTaken<T>(payload: seq<byte>, rest: seq<byte>, decode: seq<byte> -> Option<T>)
    requires |payload| <= 1_048_576 && decode(payload).None?
    ensures ReadFrame(Frame(payload) + rest, decode) == Reading(Err(BadJson), rest)
  {
    var bytes := Frame(payload) + rest;
    assert bytes[..4] == BigEndian(|payload|) && bytes[4..] == payload + rest;
    assert (payload + rest)[..|payload|] == payload && (payload + rest)[|payload|..] == rest;
  }

  /** Whatever was written is read back in order, and bytes after the last frame are untouched. */
  lemma {:induction false} FramesRoundTrip<T(!new)>(
      values: seq<T>, encode: T -> seq<byte>, decode: seq<byte> -> Option<T>, rest: seq<byte>)
    requires Inverse(encode, decode) && Writable(values, encode)
    ensures ReadMany(|values|, WriteAll(values, encode) + rest, decode) == Reading(Ok(values), rest)
  {
    if values == [] {
      assert WriteAll(values, encode) + rest == rest;
    } else {
      var tail := WriteAll(values[1..], encode) + rest;
      assert WriteAll(values, encode) + rest == Frame(encode(values[0])) + tail;
      ReadOne(values[0], encode, decode, tail);
      FramesRoundTrip(values[1..], encode, decode, rest);
      assert [values[0]] + values[1..] == values;
    }
  }

  /** A frame cut short anywhere reads as the end of the stream, never as a frame. */
  lemma FramePrefixUnreadable<T>(payload: seq<byte>, cut: nat, decode: seq<byte> -> Option<T>)
    requires |payload| <= MAX_FRAME_BYTES && cut < |Frame(payload)|
    ensures ReadFrame(Frame(payload)[..cut], decode) == Reading(Err(EndOfStream), [])
  {
    if 4 <= cut {
      assert Frame(payload)[..cut][..4] == BigEndian(|payload|);
    }
  }

  /**
    So a stream of frames is cut into frames in one way only: two lists of values with the same
    bytes on the wire are the same list.
   */
  lemma {:induction false} FramesUnambiguous<T(!new)>(
      a: seq<T>, b: seq<T>, encode: T -> seq<byte>, decode: seq<byte> -> Option<T>)
    requires Inverse(encode, decode) && Writable(a, encode) && Writable(b, encode)
    requires WriteAll(a, encode) == WriteAll(b, encode)
    ensures a == b
  {
    if a != [] && b != [] {
      ReadOne(a[0], encode, decode, WriteAll(a[1..], encode));
      ReadOne(b[0], encode, decode, WriteAll(b[1..], encode));
      FramesUnambiguous(a[1..], b[1..], encode, decode);
      assert a == [a[0]] + a[1..] && b == [b[0]] + b[1..];
    }
  }
}
