/**
  The resume cursor of alleycat.rs: every stream of a session watches the lines it reads for a
  sequence number, and a reconnect sends the highest one seen. Parsing a line as JSON and
  taking its `_alleycat_seq` is the function `seqOf`.
 */
module ResumeCursor {
  import opened Wrappers
  import opened Utf8
  import opened Limits

  const NEWLINE: byte := 0x0A

  type SeqOf = seq<byte> -> Option<nat>

  function Max(a: nat, b: nat): nat {
    if a < b then b else a
  }

  // ----- The observer as a function -----

  datatype Observer = Observer(buf: seq<byte>, tracked: nat)

  function ObserveLine(seqOf: SeqOf, line: seq<byte>, tracked: nat): nat {
    match seqOf(line)
    case None => tracked
    case Some(n) => Max(tracked, n)
  }

  function ObserveByte(seqOf: SeqOf, o: Observer, b: byte): Observer {
    if b == NEWLINE then Observer([], ObserveLine(seqOf, o.buf, o.tracked))
    else if |o.buf| < MAX_FRAME_BYTES then o.(buf := o.buf + [b])
    else o.(buf := [])
  }

  function Observe(seqOf: SeqOf, o: Observer, bytes: seq<byte>): Observer {
    if bytes == [] then o
    else ObserveByte(seqOf, Observe(seqOf, o, bytes[..|bytes| - 1]), bytes[|bytes| - 1])
  }

  function ObserveChunks(seqOf: SeqOf, o: Observer, chunks: seq<seq<byte>>): Observer {
    if chunks == [] then o
    else Observe(seqOf, ObserveChunks(seqOf, o, chunks[..|chunks| - 1]), chunks[|chunks| - 1])
  }

  function Flatten(chunks: seq<seq<byte>>): seq<byte> {
    if chunks == [] then [] else Flatten(chunks[..|chunks| - 1]) + chunks[|chunks| - 1]
  }

  // ----- The classes -----

  /** The atomic counter shared by all streams of one session. */
  class SeqTracker {
    var value: nat

    constructor ()
      ensures value == 0
    {
      value := 0;
    }

    method FetchMax(n: nat)
      modifies this
      ensures value == Max(old(value), n)
    {
      value := Max(value, n);
    }
  }

  class AlleycatStream {
    const seqTracker: SeqTracker?
    const seqOf: SeqOf
    var seqLineBuf: seq<byte>

    ghost function State(): Observer
      requires seqTracker != null
      reads this, seqTracker
    {
      Observer(seqLineBuf, seqTracker.value)
    }

    constructor (tracker: SeqTracker?, seqOf: SeqOf)
      ensures seqTracker == tracker && this.seqOf == seqOf && seqLineBuf == []
    {
      seqTracker := tracker;
      this.seqOf := seqOf;
      seqLineBuf := [];
    }

    method ObserveReadBytes(bytes: seq<byte>)
      modifies this, seqTracker
      ensures seqTracker != null ==> State() == Observe(seqOf, old(State()), bytes)
      ensures seqTracker == null ==> seqLineBuf == old(seqLineBuf)
    {
      if seqTracker == null {
        return;
      }
      var i := 0;
      while i < |bytes|
        invariant 0 <= i <= |bytes|
        invariant State() == Observe(seqOf, old(State()), bytes[..i])
      {
        var b := bytes[i];
        if b == NEWLINE {
          var seen := seqOf(seqLineBuf);
          if seen.Some? {
            seqTracker.FetchMax(seen.value);
          }
          seqLineBuf := [];
        } else if |seqLineBuf| < MAX_FRAME_BYTES {
          seqLineBuf := seqLineBuf + [b];
        } else {
          seqLineBuf := [];
        }
        i := i + 1;
        assert bytes[..i][..i - 1] == bytes[..i - 1];
      }
      assert bytes[..i] == bytes;
    }
  }

  datatype TransportError = ConnectionFailed(message: string)

  /** The cursor part of the reconnect transport. */
  class AlleycatReconnectTransport {
    const lastSeenSeq: SeqTracker
    const seqOf: SeqOf

    constructor (seqOf: SeqOf)
      ensures fresh(lastSeenSeq) && lastSeenSeq.value == 0 && this.seqOf == seqOf
    {
      lastSeenSeq := new SeqTracker();
      this.seqOf := seqOf;
    }

    /**
      Says which cursor the connect request sends, and opens a new stream on the shared tracker
      unless the attempt runs into `failure`, which it reports; either way the tracker keeps its value.
     */
    method Reconnect(failure: Option<string>)
      returns (resumeFrom: Option<nat>, stream: Result<AlleycatStream, TransportError>)
      ensures resumeFrom == Cursor(lastSeenSeq.value)
      ensures failure.Some? ==> stream == Err(ConnectionFailed(failure.value))
      ensures failure.None? ==>
                && stream.Ok? && fresh(stream.value)
                && stream.value.seqTracker == lastSeenSeq && stream.value.seqOf == seqOf
                && stream.value.State() == Observer([], lastSeenSeq.value)
    {
      resumeFrom := if lastSeenSeq.value > 0 then Some(lastSeenSeq.value) else None;
      if failure.Some? {
        return resumeFrom, Err(ConnectionFailed(failure.value));
      }
      var opened' := new AlleycatStream(lastSeenSeq, seqOf);
      return resumeFrom, Ok(opened');
    }
  }

  function Cursor(tracked: nat): Option<nat> {
    if tracked > 0 then Some(tracked) else None
  }

  // ----- Chunking does not matter -----

  lemma {:induction false} ObserveConcat(seqOf: SeqOf, o: Observer, a: seq<byte>, b: seq<byte>)
    ensures Observe(seqOf, o, a + b) == Observe(seqOf, Observe(seqOf, o, a), b)
  {
    if b == [] {
      assert a + b == a;
    } else {
      var front := b[..|b| - 1];
      assert (a + b)[..|a + b| - 1] == a + front;
      ObserveConcat(seqOf, o, a, front);
    }
  }

  /** However a byte stream is split into reads, the observer ends in the same state. */
  lemma {:induction false} ChunkingIrrelevant(seqOf: SeqOf, o: Observer, chunks: seq<seq<byte>>)
    ensures ObserveChunks(seqOf, o, chunks) == Observe(seqOf, o, Flatten(chunks))
  {
    if chunks != [] {
      var front := chunks[..|chunks| - 1];
      ChunkingIrrelevant(seqOf, o, front);
      ObserveConcat(seqOf, o, Flatten(front), chunks[|chunks| - 1]);
    }
  }

  // ----- What the observer computes -----

  /** The complete lines of a stream, and what follows the last newline. */
  function Lines(bytes: seq<byte>): seq<seq<byte>> {
    if bytes == [] then []
    else
      var front := bytes[..|bytes| - 1];
      if bytes[|bytes| - 1] == NEWLINE then Lines(front) + [Unfinished(front)] else Lines(front)
  }

  function Unfinished(bytes: seq<byte>): seq<byte> {
    if bytes == [] || bytes[|bytes| - 1] == NEWLINE then []
    else Unfinished(bytes[..|bytes| - 1]) + [bytes[|bytes| - 1]]
  }

  function Terminated(lines: seq<seq<byte>>): seq<byte> {
    if lines == [] then [] else Terminated(lines[..|lines| - 1]) + lines[|lines| - 1] + [NEWLINE]
  }

  /** `Lines` and `Unfinished` really split the stream at its newlines. */
  lemma {:induction false} LinesSplit(bytes: seq<byte>)
    ensures Terminated(Lines(bytes)) + Unfinished(bytes) == bytes
    ensures NEWLINE !in Unfinished(bytes)
    ensures forall i :: 0 <= i < |Lines(bytes)| ==> NEWLINE !in Lines(bytes)[i]
  {
    if bytes != [] {
      var front := bytes[..|bytes| - 1];
      LinesSplit(front);
      assert bytes == front + [bytes[|bytes| - 1]];
      if bytes[|bytes| - 1] == NEWLINE {
        assert Lines(bytes)[..|Lines(bytes)| - 1] == Lines(front);
      }
    }
  }

  /**
    What the bounded buffer still holds of a line: it is emptied, and the byte at hand lost,
    each time one byte more than `MAX_FRAME_BYTES` has come in.
   */
  function Remnant(line: seq<byte>): (r: seq<byte>)
    ensures |r| <= MAX_FRAME_BYTES
    ensures |line| <= MAX_FRAME_BYTES ==> r == line
  {
    line[|line| - |line| % (MAX_FRAME_BYTES + 1)..]
  }

  lemma RemnantStep(line: seq<byte>, b: byte)
    ensures Remnant(line + [b]) ==
            if |Remnant(line)| < MAX_FRAME_BYTES then Remnant(line) + [b] else []
  {
    var m := MAX_FRAME_BYTES + 1;
    var n := |line|;
    assert n == n / m * m + n % m;
    assert (n + 1) % m == if n % m + 1 == m then 0 else n % m + 1;
  }

  function HighestSeq(seqOf: SeqOf, from: nat, lines: seq<seq<byte>>): (h: nat)
    ensures from <= h
  {
    if lines == [] then from
    else ObserveLine(seqOf, lines[|lines| - 1], HighestSeq(seqOf, from, lines[..|lines| - 1]))
  }

  function Remnants(lines: seq<seq<byte>>): (r: seq<seq<byte>>)
    ensures |r| == |lines| && forall i :: 0 <= i < |r| ==> r[i] == Remnant(lines[i])
  {
    seq(|lines|, i requires 0 <= i < |lines| => Remnant(lines[i]))
  }

  lemma NothingRemains()
    ensures Remnant([]) == []
  {
  }

  /** The closed form of the observer on any stream, over-long lines included. */
  lemma {:induction false} ObserveClosedForm(seqOf: SeqOf, tracked: nat, bytes: seq<byte>)
    ensures Observe(seqOf, Observer([], tracked), bytes)
         == Observer(Remnant(Unfinished(bytes)), HighestSeq(seqOf, tracked, Remnants(Lines(bytes))))
  {
    hide Remnant, ObserveLine;
    if bytes == [] {
      NothingRemains();
    } else {
      var front, last := bytes[..|bytes| - 1], bytes[|bytes| - 1];
      ObserveClosedForm(seqOf, tracked, front);
      if last == NEWLINE {
        var lines := Remnants(Lines(bytes));
        assert lines[..|lines| - 1] == Remnants(Lines(front));
        NothingRemains();
      } else {
        RemnantStep(Unfinished(front), last);
      }
    }
  }

  /** `HighestSeq` is the maximum: no line has more, and some line (or the start) has as much. */
  lemma {:induction false} HighestSeqIsMaximum(seqOf: SeqOf, from: nat, lines: seq<seq<byte>>)
    ensures forall i :: 0 <= i < |lines| && seqOf(lines[i]).Some? ==>
              seqOf(lines[i]).value <= HighestSeq(seqOf, from, lines)
    ensures HighestSeq(seqOf, from, lines) == from
         || exists i :: 0 <= i < |lines| && seqOf(lines[i]) == Some(HighestSeq(seqOf, from, lines))
  {
    if lines != [] {
      var front := lines[..|lines| - 1];
      HighestSeqIsMaximum(seqOf, from, front);
      assert forall i :: 0 <= i < |front| ==> front[i] == lines[i];
      var h := HighestSeq(seqOf, from, lines);
      if h != from {
        if h == HighestSeq(seqOf, from, front) {
          var i :| 0 <= i < |front| && seqOf(front[i]) == Some(h);
          assert seqOf(lines[i]) == Some(h);
        } else {
          assert seqOf(lines[|lines| - 1]) == Some(h);
        }
      }
    }
  }

  // ----- Whole sessions -----

  /** The tracker after some connections, each a list of reads; every reconnect starts a fresh buffer. */
  function TrackedAfter(seqOf: SeqOf, connections: seq<seq<seq<byte>>>): nat {
    if connections == [] then 0
    else
      var before := TrackedAfter(seqOf, connections[..|connections| - 1]);
      ObserveChunks(seqOf, Observer([], before), connections[|connections| - 1]).tracked
  }

  /** All complete lines received, connection by connection. */
  function AllLines(connections: seq<seq<seq<byte>>>): seq<seq<byte>> {
    if connections == [] then []
    else AllLines(connections[..|connections| - 1]) + Lines(Flatten(connections[|connections| - 1]))
  }

  lemma {:induction false} HighestSeqConcat(seqOf: SeqOf, from: nat, a: seq<seq<byte>>, b: seq<seq<byte>>)
    ensures HighestSeq(seqOf, from, a + b) == HighestSeq(seqOf, HighestSeq(seqOf, from, a), b)
  {
    if b == [] {
      assert a + b == a;
    } else {
      assert (a + b)[..|a + b| - 1] == a + b[..|b| - 1];
      HighestSeqConcat(seqOf, from, a, b[..|b| - 1]);
    }
  }

  lemma {:induction false} TrackedClosedForm(seqOf: SeqOf, connections: seq<seq<seq<byte>>>)
    ensures TrackedAfter(seqOf, connections) == HighestSeq(seqOf, 0, Remnants(AllLines(connections)))
  {
    hide Remnant, Lines, Unfinished, Observe, ObserveLine, Flatten;
    if connections != [] {
      var front, last := connections[..|connections| - 1], connections[|connections| - 1];
      TrackedClosedForm(seqOf, front);
      ChunkingIrrelevant(seqOf, Observer([], TrackedAfter(seqOf, front)), last);
      ObserveClosedForm(seqOf, TrackedAfter(seqOf, front), Flatten(last));
      var a, b := AllLines(front), Lines(Flatten(last));
      assert Remnants(a + b) == Remnants(a) + Remnants(b);
      HighestSeqConcat(seqOf, 0, Remnants(a), Remnants(b));
    }
  }

  /**
    The cursor sent on a reconnect, for lines of at most `MAX_FRAME_BYTES`: the highest
    sequence number on any complete line of any earlier connection; none exactly when no line
    carried a positive one.
   */
  lemma {:induction false} CursorIsHighestSeen(seqOf: SeqOf, connections: seq<seq<seq<byte>>>)
    requires forall line :: line in AllLines(connections) ==> |line| <= MAX_FRAME_BYTES
    ensures var cursor := Cursor(TrackedAfter(seqOf, connections));
            var lines := AllLines(connections);
            && (cursor.Some? ==> exists i :: 0 <= i < |lines| && seqOf(lines[i]) == cursor)
            && forall i :: 0 <= i < |lines| && seqOf(lines[i]).Some? && seqOf(lines[i]).value > 0 ==>
                 cursor.Some? && seqOf(lines[i]).value <= cursor.value
  {
    var lines := AllLines(connections);
    TrackedClosedForm(seqOf, connections);
    assert Remnants(lines) == lines;
    HighestSeqIsMaximum(seqOf, 0, lines);
  }

  /**
    The bound on line length is exactly what it takes: the tracker equals the highest sequence
    number of the lines as sent, whatever lines mean, if and only if every line fits the buffer.
   */
  lemma {:induction false} CursorExactIffLinesFit(connections: seq<seq<seq<byte>>>)
    ensures (forall seqOf: SeqOf ::
               TrackedAfter(seqOf, connections) == HighestSeq(seqOf, 0, AllLines(connections)))
       <==> (forall line :: line in AllLines(connections) ==> |line| <= MAX_FRAME_BYTES)
  {
    hide AllLines, TrackedAfter, Remnant;
    var lines := AllLines(connections);
    if forall line :: line in lines ==> |line| <= MAX_FRAME_BYTES {
      assert Remnants(lines) == lines;
      forall seqOf: SeqOf ensures TrackedAfter(seqOf, connections) == HighestSeq(seqOf, 0, lines) {
        TrackedClosedForm(seqOf, connections);
      }
    } else {
      var i :| 0 <= i < |lines| && |lines[i]| > MAX_FRAME_BYTES;
      var long := lines[i];
      var seqOf: SeqOf := (x: seq<byte>) => if x == long then Some(1) else None;
      TrackedClosedForm(seqOf, connections);
      HighestSeqIsMaximum(seqOf, 0, Remnants(lines));
      HighestSeqIsMaximum(seqOf, 0, lines);
      assert seqOf(lines[i]) == Some(1);
      assert TrackedAfter(seqOf, connections) == 0;
    }
  }

  // ----- Streams that read side by side -----

  /** The buffer of each stream, and the counter they share. */
  datatype Shared = Shared(bufs: map<nat, seq<byte>>, tracked: nat)

  /** Bytes as they arrive, each at one of the streams. */
  type Feed = seq<(nat, byte)>

  function BufferOf(s: Shared, i: nat): seq<byte> {
    if i in s.bufs then s.bufs[i] else []
  }

  function ReadAt(seqOf: SeqOf, s: Shared, i: nat, b: byte): Shared {
    var o := ObserveByte(seqOf, Observer(BufferOf(s, i), s.tracked), b);
    Shared(s.bufs[i := o.buf], o.tracked)
  }

  function ReadAll(seqOf: SeqOf, feed: Feed): Shared {
    if feed == [] then Shared(map[], 0)
    else
      var last := feed[|feed| - 1];
      ReadAt(seqOf, ReadAll(seqOf, feed[..|feed| - 1]), last.0, last.1)
  }

  /** What one of the streams has read. */
  function BytesOf(feed: Feed, i: nat): seq<byte> {
    if feed == [] then []
    else
      var last := feed[|feed| - 1];
      BytesOf(feed[..|feed| - 1], i) + if last.0 == i then [last.1] else []
  }

  function Tagged(i: nat, chunk: seq<byte>): Feed {
    seq(|chunk|, k requires 0 <= k < |chunk| => (i, chunk[k]))
  }

  /** A read of several bytes by one stream is what its observer makes of them; no other buffer changes. */
  lemma {:induction false} ChunkRead(seqOf: SeqOf, feed: Feed, i: nat, chunk: seq<byte>)
    ensures var before, after := ReadAll(seqOf, feed), ReadAll(seqOf, feed + Tagged(i, chunk));
            && Observer(BufferOf(after, i), after.tracked)
               == Observe(seqOf, Observer(BufferOf(before, i), before.tracked), chunk)
            && forall j :: j != i ==> BufferOf(after, j) == BufferOf(before, j)
  {
    hide ObserveByte;
    if chunk == [] {
      assert feed + Tagged(i, chunk) == feed;
    } else {
      var front := chunk[..|chunk| - 1];
      ChunkRead(seqOf, feed, i, front);
      var all := feed + Tagged(i, chunk);
      assert all[..|all| - 1] == feed + Tagged(i, front) && all[|all| - 1] == (i, chunk[|chunk| - 1]);
    }
  }

  /** Each buffer is what its own stream alone would have left in it. */
  lemma {:induction false} BuffersApart(seqOf: SeqOf, feed: Feed, i: nat)
    ensures BufferOf(ReadAll(seqOf, feed), i) == Remnant(Unfinished(BytesOf(feed, i)))
  {
    hide Remnant, ObserveLine;
    if feed == [] {
      NothingRemains();
    } else {
      var front, last := feed[..|feed| - 1], feed[|feed| - 1];
      var bytes := BytesOf(front, i);
      BuffersApart(seqOf, front, i);
      if last.0 != i {
        assert BytesOf(feed, i) == bytes;
      } else {
        assert BytesOf(feed, i) == bytes + [last.1] && (bytes + [last.1])[..|bytes|] == bytes;
        if last.1 == NEWLINE {
          NothingRemains();
        } else {
          RemnantStep(Unfinished(bytes), last.1);
        }
      }
    }
  }

  /** The lines of the stream as its buffer keeps them. */
  function LinesOf(feed: Feed, i: nat): seq<seq<byte>> {
    Remnants(Lines(BytesOf(feed, i)))
  }

  ghost predicate AtMost(seqOf: SeqOf, lines: seq<seq<byte>>, n: nat) {
    forall k :: 0 <= k < |lines| && seqOf(lines[k]).Some? ==> seqOf(lines[k]).value <= n
  }

  ghost predicate Carries(seqOf: SeqOf, lines: seq<seq<byte>>, n: nat) {
    exists k :: 0 <= k < |lines| && seqOf(lines[k]) == Some(n)
  }

  lemma LinesOfNext(feed: Feed, i: nat)
    requires feed != []
    ensures var front, last := feed[..|feed| - 1], feed[|feed| - 1];
            LinesOf(feed, i) == LinesOf(front, i)
              + if last == (i, NEWLINE) then [Remnant(Unfinished(BytesOf(front, i)))] else []
  {
    hide Remnant, Unfinished;
    var front, last := feed[..|feed| - 1], feed[|feed| - 1];
    var bytes := BytesOf(front, i);
    if last.0 != i {
      assert BytesOf(feed, i) == bytes;
    } else {
      assert BytesOf(feed, i) == bytes + [last.1] && (bytes + [last.1])[..|bytes|] == bytes;
      if last.1 == NEWLINE {
        assert Lines(bytes + [last.1]) == Lines(bytes) + [Unfinished(bytes)];
      }
    }
  }

  /**
    However the reads of several streams interleave, the counter is the highest number on any
    complete line of any of them, as their buffers keep the lines, and 0 if there is none.
   */
  lemma {:induction false} InterleavedMaximum(seqOf: SeqOf, feed: Feed)
    ensures var n := ReadAll(seqOf, feed).tracked;
            && (forall i: nat :: AtMost(seqOf, LinesOf(feed, i), n))
            && (n == 0 || exists i: nat :: Carries(seqOf, LinesOf(feed, i), n))
  {
    hide LinesOf, BytesOf, Remnant, Unfinished;
    if feed == [] {
      NoLines(seqOf);
    } else {
      var front, last := feed[..|feed| - 1], feed[|feed| - 1];
      InterleavedMaximum(seqOf, front);
      BuffersApart(seqOf, front, last.0);
      var before, n := ReadAll(seqOf, front).tracked, ReadAll(seqOf, feed).tracked;
      forall i: nat ensures AtMost(seqOf, LinesOf(feed, i), n) {
        LinesOfNext(feed, i);
        assert AtMost(seqOf, LinesOf(front, i), before);
      }
      if n != 0 && n == before {
        var i: nat :| Carries(seqOf, LinesOf(front, i), n);
        LinesOfNext(feed, i);
        CarriesMore(seqOf, LinesOf(front, i), LinesOf(feed, i), n);
      } else if n != 0 {
        LinesOfNext(feed, last.0);
        var lines := LinesOf(feed, last.0);
        assert seqOf(lines[|lines| - 1]) == Some(n);
        assert Carries(seqOf, lines, n);
      }
    }
  }

  lemma NoLines(seqOf: SeqOf)
    ensures forall i: nat :: LinesOf([], i) == []
  {
  }

  lemma CarriesMore(seqOf: SeqOf, a: seq<seq<byte>>, b: seq<seq<byte>>, n: nat)
    requires Carries(seqOf, a, n) && a <= b
    ensures Carries(seqOf, b, n)
  {
    var k :| 0 <= k < |a| && seqOf(a[k]) == Some(n);
    assert b[k] == a[k];
  }

  /** So the order of the streams does not matter: the same bytes at each of them give the same counter. */
  lemma {:induction false} InterleavingIrrelevant(seqOf: SeqOf, a: Feed, b: Feed)
    requires forall i: nat :: BytesOf(a, i) == BytesOf(b, i)
    ensures ReadAll(seqOf, a).tracked == ReadAll(seqOf, b).tracked
  {
    hide ReadAll, BytesOf, Lines, Remnants;
    NotAbove(seqOf, a, b);
    NotAbove(seqOf, b, a);
  }

  lemma {:induction false} NotAbove(seqOf: SeqOf, a: Feed, b: Feed)
    requires forall i: nat :: BytesOf(a, i) == BytesOf(b, i)
    ensures ReadAll(seqOf, a).tracked <= ReadAll(seqOf, b).tracked
  {
    hide ReadAll, BytesOf, Lines, Remnants;
    InterleavedMaximum(seqOf, a);
    InterleavedMaximum(seqOf, b);
    var n := ReadAll(seqOf, a).tracked;
    if n > 0 {
      var i: nat :| Carries(seqOf, LinesOf(a, i), n);
      assert LinesOf(a, i) == LinesOf(b, i);
      assert AtMost(seqOf, LinesOf(b, i), ReadAll(seqOf, b).tracked);
    }
  }

  // ----- An over-long line -----

  /** After one byte more than the buffer holds, the rest of a line is read as a line of its own. */
  lemma TailReadAsLine(seqOf: SeqOf, filler: seq<byte>, tail: seq<byte>)
    requires |filler| == MAX_FRAME_BYTES + 1 && |tail| <= MAX_FRAME_BYTES
    requires NEWLINE !in filler + tail && seqOf(tail).Some?
    ensures var session := [[filler + tail + [NEWLINE]]];
            AllLines(session) == [filler + tail] && TrackedAfter(seqOf, session) == seqOf(tail).value
  {
    hide Lines, Unfinished, Observe, Remnant, AllLines, TrackedAfter, HighestSeq;
    var line := filler + tail;
    OneRead(line + [NEWLINE]);
    OneLine(line);
    RemnantOfLong(filler, tail);
    assert Remnants([line]) == [tail];
    TrackedClosedForm(seqOf, [[line + [NEWLINE]]]);
    HighestOfOne(seqOf, tail);
  }

  lemma OneRead(bytes: seq<byte>)
    ensures AllLines([[bytes]]) == Lines(bytes)
  {
    hide Lines;
    var connection, session := [bytes], [[bytes]];
    assert connection[..0] == [] && Flatten(connection) == [] + bytes == bytes;
    assert session[..0] == [] && AllLines(session) == [] + Lines(bytes);
  }

  lemma HighestOfOne(seqOf: SeqOf, line: seq<byte>)
    ensures HighestSeq(seqOf, 0, [line]) == if seqOf(line).Some? then seqOf(line).value else 0
  {
    assert [line][..0] == [];
  }

  lemma {:induction false} NoNewline(line: seq<byte>)
    requires NEWLINE !in line
    ensures Lines(line) == [] && Unfinished(line) == line
  {
    if line != [] {
      NoNewline(line[..|line| - 1]);
    }
  }

  lemma OneLine(line: seq<byte>)
    requires NEWLINE !in line
    ensures Lines(line + [NEWLINE]) == [line]
  {
    NoNewline(line);
    assert (line + [NEWLINE])[..|line|] == line;
  }

  lemma RemnantOfLong(filler: seq<byte>, tail: seq<byte>)
    requires |filler| == MAX_FRAME_BYTES + 1 && |tail| <= MAX_FRAME_BYTES
    ensures Remnant(filler + tail) == tail
  {
    var n, m := |filler + tail|, MAX_FRAME_BYTES + 1;
    assert n == m + |tail| && n % m == |tail|;
  }

  /** `{"_alleycat_seq":9}` */
  const NINE: seq<byte> := [0x7B, 0x22, 0x5F, 0x61, 0x6C, 0x6C, 0x65, 0x79, 0x63, 0x61, 0x74,
                            0x5F, 0x73, 0x65, 0x71, 0x22, 0x3A, 0x39, 0x7D]

  /** Reads lines that are `NINE` with any one digit in place of the 9, and no others. */
  function OneDigitSeq(line: seq<byte>): Option<nat> {
    if |line| == |NINE| && 0x30 <= line[17] <= 0x39 && line == NINE[17 := line[17]] then Some(line[17] - 0x30)
    else None
  }

  /** A single line, which says nothing, sets the cursor to a number that no line carried. */
  lemma LongLineMisread() returns (line: seq<byte>)
    ensures var session := [[line + [0x0A]]];
            && AllLines(session) == [line] && OneDigitSeq(line).None?
            && HighestSeq(OneDigitSeq, 0, AllLines(session)) == 0
            && Cursor(TrackedAfter(OneDigitSeq, session)) == Some(9)
  {
    hide TrackedAfter, AllLines;
    var filler: seq<byte> := seq(MAX_FRAME_BYTES + 1, _ => 0x78);
    line := filler + NINE;
    TailReadAsLine(OneDigitSeq, filler, NINE);
    HighestOfOne(OneDigitSeq, line);
  }
}
