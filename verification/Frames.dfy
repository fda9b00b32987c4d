/**
 Length-prefixed frames: the Emacs side (`emacs/ma-ipc.el`), which reassembles them from arbitrary
 chunks and keeps a newest-first queue, and the Rust side (`src/ipc.rs`), which reads them in order.
 `parse` turns a frame body into a message and may fail.
 */
module Frames {
  import opened Wrappers
  import opened Cbor
  import Stdlib

  const MAX_FRAME_LEN := 16 * 1024 * 1024

  type Parse<!T> = Bytes -> Result<T>

  // ── Writing ───────────────────────────────────────────────────────────────

  function Framed(body: Bytes): Bytes {
    BigEndian(|body|, 4) + body
  }

  /** The Emacs writer refuses what its reader would refuse. */
  function Frame(body: Bytes): Result<Bytes> {
    if |body| > MAX_FRAME_LEN then Failure("zscheme IPC frame too large") else Success(Framed(body))
  }

  /** A Rust stream being written; the length only has to fit a `u32`. */
  class ByteWriter {
    var written: Bytes

    constructor ()
      ensures written == []
    {
      written := [];
    }

    method WriteFrame(body: Bytes) returns (r: Result<()>)
      modifies this
      ensures r.Success? <==> |body| < 0x1_0000_0000
      ensures written == old(written) + if r.Success? then Framed(body) else []
    {
      if |body| >= 0x1_0000_0000 {
        return Failure("frame too large");
      }
      written := written + BigEndian(|body|, 4);
      written := written + body;
      assert written == old(written) + Framed(body);
      return Success(());
    }
  }

  // ── The Emacs filter ──────────────────────────────────────────────────────

  /** What one run of the filter takes from a buffer: messages, the bytes left, and the error that stopped it. */
  datatype Drained<+T> = Drained(frames: seq<T>, rest: Bytes, error: Option<string>)

  function Drain<T>(parse: Parse<T>, buffer: Bytes): Drained<T>
    decreases |buffer|
  {
    if |buffer| < 4 then Drained([], buffer, None)
    else
      var len := U32(buffer, 0);
      if len > MAX_FRAME_LEN then Drained([], buffer, Some("frame too large"))
      else if |buffer| < 4 + len then Drained([], buffer, None)
      else
        match parse(buffer[4..4 + len])
        case Failure(e) => Drained([], buffer[4 + len..], Some(e))
        case Success(t) =>
          var d := Drain(parse, buffer[4 + len..]);
          Drained([t] + d.frames, d.rest, d.error)
  }

  function Before<T>(frames: seq<T>, d: Drained<T>): Drained<T> {
    Drained(frames + d.frames, d.rest, d.error)
  }

  /** The filter over successive chunks; the error reported is the first. */
  function FeedAll<T>(parse: Parse<T>, buffer: Bytes, chunks: seq<Bytes>): Drained<T>
    decreases |chunks|
  {
    if chunks == [] then Drained([], buffer, None)
    else
      var d := Drain(parse, buffer + chunks[0]);
      var later := FeedAll(parse, d.rest, chunks[1..]);
      Drained(d.frames + later.frames, later.rest, if d.error.Some? then d.error else later.error)
  }

  function Concat<T>(xss: seq<seq<T>>): seq<T> {
    if xss == [] then [] else xss[0] + Concat(xss[1..])
  }

  // ── Chunking does not matter ──────────────────────────────────────────────

  lemma BeforeTwice<T>(first: seq<T>, second: seq<T>, d: Drained<T>)
    ensures Before(first, Before(second, d)) == Before(first + second, d)
  {
    assert first + (second + d.frames) == (first + second) + d.frames;
  }

  lemma WholeFrame(a: Bytes, b: Bytes)
    requires |a| >= 4
    ensures U32(a + b, 0) == U32(a, 0)
    ensures var end := 4 + U32(a, 0);
            end <= |a| ==> (a + b)[4..end] == a[4..end] && (a + b)[end..] == a[end..] + b
  {
  }

  /** More bytes after `a` continue a clean run, and leave a stopped run's messages and error as they were. */
  lemma {:induction false} DrainAppend<T>(parse: Parse<T>, a: Bytes, b: Bytes)
    ensures var d := Drain(parse, a);
            Drain(parse, a + b) ==
            if d.error.Some? then Drained(d.frames, d.rest + b, d.error)
            else Before(d.frames, Drain(parse, d.rest + b))
    decreases |a|
  {
    if |a| >= 4 {
      var len := U32(a, 0);
      WholeFrame(a, b);
      if len <= MAX_FRAME_LEN && |a| >= 4 + len {
        match parse(a[4..4 + len])
        case Failure(e) =>
        case Success(t) =>
          var d := Drain(parse, a[4 + len..]);
          DrainAppend(parse, a[4 + len..], b);
          BeforeTwice([t], d.frames, Drain(parse, d.rest + b));
      }
    }
  }

  lemma {:induction false} DrainLeavesNothingMore<T>(parse: Parse<T>, a: Bytes)
    requires Drain(parse, a).error.None?
    ensures Drain(parse, Drain(parse, a).rest) == Drained([], Drain(parse, a).rest, None)
    decreases |a|
  {
    if |a| >= 4 && |a| >= 4 + U32(a, 0) {
      DrainLeavesNothingMore(parse, a[4 + U32(a, 0)..]);
    }
  }

  /** A whole frame of an admissible length stands at the front. */
  predicate StartsWithFrame(s: Bytes) {
    |s| >= 4 && U32(s, 0) <= MAX_FRAME_LEN && |s| >= 4 + U32(s, 0)
  }

  lemma FrameStays(a: Bytes, b: Bytes)
    requires StartsWithFrame(a)
    ensures StartsWithFrame(a + b)
  {
    WholeFrame(a, b);
  }

  lemma {:induction false} DrainTakesFrames<T>(parse: Parse<T>, s: Bytes)
    ensures var d := Drain(parse, s);
            if StartsWithFrame(s) then |d.rest| < |s| else d.frames == [] && d.rest == s
    decreases |s|
  {
    if StartsWithFrame(s) {
      DrainTakesFrames(parse, s[4 + U32(s, 0)..]);
    }
  }

  lemma {:induction false} FeedingNeverGrows<T>(parse: Parse<T>, buffer: Bytes, chunks: seq<Bytes>)
    ensures |FeedAll(parse, buffer, chunks).rest| <= |buffer + Concat(chunks)|
    decreases |chunks|
  {
    if chunks != [] {
      DrainTakesFrames(parse, buffer + chunks[0]);
      FeedingNeverGrows(parse, Drain(parse, buffer + chunks[0]).rest, chunks[1..]);
    }
  }

  /** Chunks that follow an error take nothing from the buffer if and only if no whole frame comes to stand there. */
  lemma {:induction false} FeedingAfterError<T>(parse: Parse<T>, buffer: Bytes, chunks: seq<Bytes>)
    requires chunks != []
    ensures var fed, all := FeedAll(parse, buffer, chunks), buffer + Concat(chunks);
            fed.frames == [] && fed.rest == all <==> !StartsWithFrame(all)
    decreases |chunks|
  {
    var first, later := buffer + chunks[0], chunks[1..];
    assert buffer + Concat(chunks) == first + Concat(later);
    DrainTakesFrames(parse, first);
    if StartsWithFrame(first) {
      FrameStays(first, Concat(later));
      FeedingNeverGrows(parse, Drain(parse, first).rest, later);
    } else if later == [] {
      assert first + Concat(later) == first;
    } else {
      FeedingAfterError(parse, first, later);
    }
  }

  /** The last chunk is the one in which the stream is refused. */
  predicate RefusedLast<T>(parse: Parse<T>, buffer: Bytes, chunks: seq<Bytes>) {
    chunks != [] && Drain(parse, buffer + Concat(chunks[..|chunks| - 1])).error.None?
  }

  predicate CutShows<T>(parse: Parse<T>, buffer: Bytes, chunks: seq<Bytes>) {
    var whole := Drain(parse, buffer + Concat(chunks));
    whole.error.Some? && StartsWithFrame(whole.rest) && !RefusedLast(parse, buffer, chunks)
  }

  /** Cutting a stream into chunks never changes the error, nor the messages before it. It changes anything at all
      exactly when a body is refused, a whole frame follows it in the stream, and there is a chunk after the one
      that brought the refused body: the buffer is already past that body, and that chunk resumes the loop. */
  lemma {:induction false} ChunkingExact<T>(parse: Parse<T>, buffer: Bytes, chunks: seq<Bytes>)
    requires Drain(parse, buffer) == Drained([], buffer, None)
    ensures var whole := Drain(parse, buffer + Concat(chunks));
            var fed := FeedAll(parse, buffer, chunks);
            && fed.error == whole.error
            && whole.frames <= fed.frames
            && (fed == whole <==> !CutShows(parse, buffer, chunks))
    decreases |chunks|
  {
    if chunks == [] {
      assert buffer + Concat(chunks) == buffer;
    } else {
      var first, later := buffer + chunks[0], chunks[1..];
      var d := Drain(parse, first);
      assert buffer + Concat(chunks) == first + Concat(later);
      DrainAppend(parse, first, Concat(later));
      RefusedStep(parse, buffer, chunks);
      if d.error.None? {
        DrainLeavesNothingMore(parse, first);
        ChunkingExact(parse, d.rest, later);
      } else if later == [] {
        assert d.rest + Concat(later) == d.rest;
      } else {
        FeedingAfterError(parse, d.rest, later);
      }
    }
  }

  lemma RefusedStep<T>(parse: Parse<T>, buffer: Bytes, chunks: seq<Bytes>)
    requires chunks != [] && Drain(parse, buffer).error.None?
    ensures var d := Drain(parse, buffer + chunks[0]);
            RefusedLast(parse, buffer, chunks) <==>
              |chunks| == 1 || (d.error.None? && RefusedLast(parse, d.rest, chunks[1..]))
  {
    var init, later := chunks[..|chunks| - 1], chunks[1..];
    if |chunks| == 1 {
      assert buffer + Concat(init) == buffer;
    } else {
      assert init[0] == chunks[0] && init[1..] == later[..|later| - 1];
      assert buffer + Concat(init) == (buffer + chunks[0]) + Concat(init[1..]);
      DrainAppend(parse, buffer + chunks[0], Concat(init[1..]));
    }
  }

  /** A body of the stream is refused and a whole frame follows it. */
  predicate RefusedBeforeFrame<T>(parse: Parse<T>, s: Bytes) {
    Drain(parse, s).error.Some? && StartsWithFrame(Drain(parse, s).rest)
  }

  lemma QuietCut<T>(parse: Parse<T>, s: Bytes, chunks: seq<Bytes>)
    requires Concat(chunks) == s && !RefusedBeforeFrame(parse, s)
    ensures FeedAll(parse, [], chunks) == Drain(parse, s)
  {
    assert [] + Concat(chunks) == s;
    ChunkingExact(parse, [], chunks);
  }

  lemma ConcatOne<T>(x: seq<T>)
    ensures Concat([x]) == x && Concat([x, []]) == x
  {
    assert [x][1..] == [] && [x, []][1..] == [[]];
    assert Concat([[]]) == [] + Concat<T>([]);
  }

  lemma ShowingCut<T>(parse: Parse<T>, s: Bytes)
    requires RefusedBeforeFrame(parse, s)
    ensures Concat([s, []]) == s && FeedAll(parse, [], [s, []]) != Drain(parse, s)
  {
    var chunks: seq<Bytes> := [s, []];
    ConcatOne(s);
    assert chunks[..1] == [s] && [] + s == s;
    ChunkingExact(parse, [], chunks);
  }

  /** No cut of a stream shows if and only if no body of it is refused before a whole frame:
      an oversized prefix never shows. */
  lemma EveryCutExact<T(!new)>(parse: Parse<T>, s: Bytes)
    ensures (forall chunks: seq<Bytes> | Concat(chunks) == s :: FeedAll(parse, [], chunks) == Drain(parse, s))
            <==> !RefusedBeforeFrame(parse, s)
  {
    if RefusedBeforeFrame(parse, s) {
      ShowingCut(parse, s);
    } else {
      forall chunks: seq<Bytes> | Concat(chunks) == s
        ensures FeedAll(parse, [], chunks) == Drain(parse, s)
      {
        QuietCut(parse, s, chunks);
      }
    }
  }

  /** A refused body followed by a good frame, as one chunk and as two. */
  lemma RefusedBodyShowsTheCut()
    ensures var bad, good := Framed([0xff]), Framed([0xf6]);
            && Drain(DecodeBodyOf, bad + good).frames == [] && Drain(DecodeBodyOf, bad + good).rest == good
            && FeedAll(DecodeBodyOf, [], [bad, good]).frames == [Nil]
            && FeedAll(DecodeBodyOf, [], [bad, good]).rest == []
  {
    var bad, good := Framed([0xff]), Framed([0xf6]);
    FramedLength([0xff], good);
    FramedLength([0xff], []);
    FramedLength([0xf6], []);
    assert bad + [] == bad && good + [] == good && [] + bad == bad && [] + good == good;
    assert DecodeBodyOf([0xff]).Failure? && DecodeBodyOf([0xf6]) == Success(Nil);
    assert Drain(DecodeBodyOf, bad) == Drained([], [], Some(DecodeBodyOf([0xff]).error));
    var chunks: seq<Bytes> := [bad, good];
    assert chunks[1..] == [good] && chunks[1..][1..] == [];
    assert Drain(DecodeBodyOf, good) == Drained([Nil], [], None);
    assert FeedAll(DecodeBodyOf, [], chunks[1..]).frames == [Nil] + [];
  }

  function Stream(bodies: seq<Bytes>): Bytes {
    if bodies == [] then [] else Framed(bodies[0]) + Stream(bodies[1..])
  }

  predicate Deliverable<T>(parse: Parse<T>, bodies: seq<Bytes>) {
    forall body | body in bodies :: |body| <= MAX_FRAME_LEN && parse(body).Success?
  }

  function Parsed<T>(parse: Parse<T>, bodies: seq<Bytes>): seq<T>
    requires Deliverable(parse, bodies)
  {
    if bodies == [] then [] else [parse(bodies[0]).value] + Parsed(parse, bodies[1..])
  }

  lemma FramedLength(body: Bytes, tail: Bytes)
    requires |body| < 0x1_0000_0000
    ensures var s := Framed(body) + tail;
            U32(s, 0) == |body| && s[4..4 + |body|] == body && s[4 + |body|..] == tail
  {
    var s := Framed(body) + tail;
    assert s[0..4] == BigEndian(|body|, 4);
    ReadU32(s, 0, |body|);
  }

  lemma {:induction false} DrainStream<T>(parse: Parse<T>, bodies: seq<Bytes>)
    requires Deliverable(parse, bodies)
    ensures Drain(parse, Stream(bodies)) == Drained(Parsed(parse, bodies), [], None)
    decreases |bodies|
  {
    if bodies != [] {
      FramedLength(bodies[0], Stream(bodies[1..]));
      DrainStream(parse, bodies[1..]);
    }
  }

  /** Framed bodies, cut anywhere, arrive in order and leave an empty buffer. */
  lemma FramesSurviveChunking<T>(parse: Parse<T>, bodies: seq<Bytes>, chunks: seq<Bytes>)
    requires Deliverable(parse, bodies) && Concat(chunks) == Stream(bodies)
    ensures FeedAll(parse, [], chunks) == Drained(Parsed(parse, bodies), [], None)
  {
    assert [] + Concat(chunks) == Stream(bodies);
    DrainStream(parse, bodies);
    ChunkingExact(parse, [], chunks);
  }

  // ── Values over the wire ──────────────────────────────────────────────────

  /** The filter's own parse: the first CBOR item of the body. */
  function DecodeBodyOf(body: Bytes): Result<Value> {
    var r :- Decode(body, 0);
    Success(r.value)
  }

  function Encodings(values: seq<Value>): (r: seq<Bytes>)
    ensures |r| == |values|
    ensures forall i | 0 <= i < |values| :: r[i] == Encode(values[i])
  {
    if values == [] then [] else [Encode(values[0])] + Encodings(values[1..])
  }

  predicate Sendable(v: Value) {
    Sized(v) && InRange(v) && |Encode(v)| <= MAX_FRAME_LEN
  }

  lemma DecodeBodyOfEncoding(v: Value)
    requires Sized(v) && InRange(v)
    ensures DecodeBodyOf(Encode(v)) == Success(v)
  {
    assert [] + Encode(v) + [] == Encode(v);
    RoundTripInContext([], v, []);
  }

  lemma EncodingsDeliverable(values: seq<Value>)
    requires forall v | v in values :: Sendable(v)
    ensures Deliverable(DecodeBodyOf, Encodings(values))
  {
    forall body | body in Encodings(values)
      ensures |body| <= MAX_FRAME_LEN && DecodeBodyOf(body).Success?
    {
      var i :| 0 <= i < |values| && Encodings(values)[i] == body;
      assert values[i] in values;
      DecodeBodyOfEncoding(values[i]);
    }
  }

  lemma {:induction false} ParsedEncodings(values: seq<Value>)
    requires forall v | v in values :: Sendable(v)
    requires Deliverable(DecodeBodyOf, Encodings(values))
    ensures Parsed(DecodeBodyOf, Encodings(values)) == values
  {
    if values != [] {
      var bodies := Encodings(values);
      assert bodies[0] == Encode(values[0]) && bodies[1..] == Encodings(values[1..]);
      assert values[0] in values;
      DecodeBodyOfEncoding(values[0]);
      ParsedEncodings(values[1..]);
    }
  }

  /** Values encoded, framed, concatenated and cut anywhere come out of the filter as they went in. */
  lemma ValuesSurviveTheWire(values: seq<Value>, chunks: seq<Bytes>)
    requires forall v | v in values :: Sendable(v)
    requires Concat(chunks) == Stream(Encodings(values))
    ensures FeedAll(DecodeBodyOf, [], chunks) == Drained(values, [], None)
  {
    EncodingsDeliverable(values);
    ParsedEncodings(values);
    FramesSurviveChunking(DecodeBodyOf, Encodings(values), chunks);
  }

  // ── The Rust reader ───────────────────────────────────────────────────────

  datatype Received<+T> = Message(value: T) | EndOfStream | Broken(error: string)

  /** Reading one frame from `s`; a stream that ends inside the length prefix is a clean end. */
  function FrameAhead<T>(parse: Parse<T>, s: Bytes): Received<T> {
    if |s| < 4 then EndOfStream
    else
      var len := U32(s, 0);
      if len > MAX_FRAME_LEN then Broken("IPC frame too large")
      else if |s| < 4 + len then Broken("unexpected end of file")
      else
        match parse(s[4..4 + len])
        case Failure(e) => Broken(e)
        case Success(t) => Message(t)
  }

  function ReadAll<T>(parse: Parse<T>, s: Bytes): (seq<T>, Received<T>)
    decreases |s|
  {
    match FrameAhead(parse, s)
    case Message(t) =>
      var (ts, end) := ReadAll(parse, s[4 + U32(s, 0)..]);
      ([t] + ts, end)
    case end => ([], end)
  }

  lemma SliceOfRest(data: Bytes, pos: nat, from: nat, to: nat)
    requires from <= to && pos + to <= |data|
    ensures data[pos..][from..to] == data[pos + from..pos + to]
    ensures data[pos..][to..] == data[pos + to..]
  {
  }

  class ByteReader {
    const data: Bytes
    var pos: nat

    ghost predicate Valid()
      reads this
    {
      pos <= |data|
    }

    constructor (data: Bytes)
      ensures Valid() && this.data == data && pos == 0
    {
      this.data := data;
      pos := 0;
    }

    /** `read_exact`: the next `n` bytes, or nothing at the end of the stream. */
    method ReadExact(n: nat) returns (r: Option<Bytes>)
      requires Valid()
      modifies `pos
      ensures Valid()
      ensures old(pos) + n <= |data| ==> r == Some(data[old(pos)..old(pos) + n]) && pos == old(pos) + n
      ensures old(pos) + n > |data| ==> r.None?
    {
      if pos + n > |data| {
        pos := |data|;
        return None;
      }
      r := Some(data[pos..pos + n]);
      pos := pos + n;
    }

    method ReadFrame<T>(parse: Parse<T>) returns (r: Received<T>)
      requires Valid()
      modifies `pos
      ensures Valid()
      ensures r == FrameAhead(parse, old(data[pos..]))
      ensures r.Message? ==> data[pos..] == old(data[pos..])[4 + U32(old(data[pos..]), 0)..]
    {
      ghost var start, s := pos, data[pos..];
      var prefix := ReadExact(4);
      if prefix.None? {
        return EndOfStream;
      }
      SliceOfRest(data, start, 0, 4);
      var len := U32(prefix.value, 0);
      assert len == U32(s, 0);
      if len > MAX_FRAME_LEN {
        return Broken("IPC frame too large");
      }
      var body := ReadExact(len);
      if body.None? {
        return Broken("unexpected end of file");
      }
      SliceOfRest(data, start, 4, 4 + len);
      match parse(body.value) {
        case Failure(e) => return Broken(e);
        case Success(t) => return Message(t);
      }
    }
  }

  /** On every byte stream the two readers take the same messages, and the Rust reader ends cleanly
      exactly when the filter has no error and no more than a partial length prefix left. */
  lemma {:induction false} ReadersAgree<T>(parse: Parse<T>, s: Bytes)
    ensures var d := Drain(parse, s);
            && ReadAll(parse, s).0 == d.frames
            && (ReadAll(parse, s).1.EndOfStream? <==> d.error.None? && |d.rest| < 4)
    decreases |s|
  {
    if FrameAhead(parse, s).Message? {
      ReadersAgree(parse, s[4 + U32(s, 0)..]);
    }
  }

  /** The Rust reader, too, takes framed bodies back in order and then meets the end of the stream. */
  lemma ReadAllStream<T>(parse: Parse<T>, bodies: seq<Bytes>)
    requires Deliverable(parse, bodies)
    ensures ReadAll(parse, Stream(bodies)) == (Parsed(parse, bodies), EndOfStream)
  {
    DrainStream(parse, bodies);
    ReadersAgree(parse, Stream(bodies));
  }

  /** `read_frame` on a stream of one byte: it ends cleanly with that byte left over. */
  lemma PartialPrefixEndsCleanly<T>(parse: Parse<T>)
    ensures ReadAll(parse, [0]) == ([], EndOfStream) && Drain(parse, [0]) == Drained([], [0], None)
  {
  }

  /** The Emacs writer refuses exactly the bodies over 16 MiB, which both readers would refuse. What it writes is
      the length as four bytes, most significant first, and the body, and both readers take that body back. The
      Rust writer, bounded only by the prefix, also writes longer ones, and nothing after one is ever read. */
  lemma FrameExact<T>(parse: Parse<T>, body: Bytes, tail: Bytes)
    requires |body| < 0x1_0000_0000
    ensures var s := Framed(body) + tail;
            && |Framed(body)| == 4 + |body| && Spelt(s[..4]) == |body| && s[4..4 + |body|] == body
            && (Frame(body).Success? <==> |body| <= 16 * 1024 * 1024)
            && if Frame(body).Success? then
                 && Frame(body).value == Framed(body)
                 && FrameAhead(parse, s) ==
                    match parse(body) { case Success(t) => Message(t) case Failure(e) => Broken(e) }
               else FrameAhead(parse, s).Broken? && Drain(parse, s).rest == s && Drain(parse, s).error.Some?
  {
    var s := Framed(body) + tail;
    FramedLength(body, tail);
    U32Spelt(s, 0);
  }

  /** Both readers refuse, at once and for good, a prefix that spells more than 16 MiB. */
  lemma OversizedIsRefused<T>(parse: Parse<T>, s: Bytes, more: Bytes)
    requires |s| >= 4 && Spelt(s[..4]) > 16 * 1024 * 1024
    ensures FrameAhead(parse, s).Broken?
    ensures Drain(parse, s).frames == [] && Drain(parse, s).rest == s && Drain(parse, s).error.Some?
    ensures Drain(parse, s + more).frames == [] && Drain(parse, s + more).error.Some?
  {
    U32Spelt(s, 0);
    DrainAppend(parse, s, more);
  }

  // ── The response queue ────────────────────────────────────────────────────

  function FirstMatch<T>(wanted: T -> bool, queue: seq<T>): Option<T> {
    if queue == [] then None
    else if wanted(queue[0]) then Some(queue[0])
    else FirstMatch(wanted, queue[1..])
  }

  function WithoutFirst<T>(wanted: T -> bool, queue: seq<T>): seq<T> {
    if queue == [] then []
    else if wanted(queue[0]) then queue[1..]
    else [queue[0]] + WithoutFirst(wanted, queue[1..])
  }

  /** `k` is the earliest wanted position. */
  predicate IsFirst<T>(wanted: T -> bool, queue: seq<T>, k: nat) {
    k < |queue| && wanted(queue[k]) && forall j | 0 <= j < k :: !wanted(queue[j])
  }

  lemma {:induction false} FirstMatchAt<T>(wanted: T -> bool, queue: seq<T>, k: nat)
    requires IsFirst(wanted, queue, k)
    ensures FirstMatch(wanted, queue) == Some(queue[k])
    decreases k
  {
    if k > 0 {
      assert !wanted(queue[0]);
      FirstMatchAt(wanted, queue[1..], k - 1);
    }
  }

  lemma {:induction false} WithoutFirstAt<T>(wanted: T -> bool, queue: seq<T>, k: nat)
    requires IsFirst(wanted, queue, k)
    ensures WithoutFirst(wanted, queue) == queue[..k] + queue[k + 1..]
    decreases k
  {
    if k > 0 {
      assert !wanted(queue[0]);
      WithoutFirstAt(wanted, queue[1..], k - 1);
    }
  }

  lemma {:induction false} NoMatch<T>(wanted: T -> bool, queue: seq<T>)
    ensures FirstMatch(wanted, queue).None? <==> forall f | f in queue :: !wanted(f)
    ensures FirstMatch(wanted, queue).None? ==> WithoutFirst(wanted, queue) == queue
    ensures FirstMatch(wanted, queue).Some? ==> exists k: nat :: IsFirst(wanted, queue, k)
  {
    if queue != [] {
      var tail := queue[1..];
      NoMatch(wanted, tail);
      assert forall f :: f in queue <==> f == queue[0] || f in tail;
      if wanted(queue[0]) {
        assert IsFirst(wanted, queue, 0);
      } else if FirstMatch(wanted, tail).Some? {
        var k: nat :| IsFirst(wanted, tail, k);
        assert queue[k + 1] == tail[k] && forall j | 0 < j <= k :: queue[j] == tail[j - 1];
        assert IsFirst(wanted, queue, k + 1);
      }
    }
  }

  /** A pass finds a frame iff one is wanted; it takes the earliest arrived and keeps every other, once, in order. */
  lemma FirstMatchExact<T>(wanted: T -> bool, queue: seq<T>)
    ensures FirstMatch(wanted, queue).None? <==> forall f | f in queue :: !wanted(f)
    ensures FirstMatch(wanted, queue).None? ==> WithoutFirst(wanted, queue) == queue
    ensures FirstMatch(wanted, queue).Some? ==>
              exists k: nat :: IsFirst(wanted, queue, k) && FirstMatch(wanted, queue) == Some(queue[k])
                          && WithoutFirst(wanted, queue) == queue[..k] + queue[k + 1..]
  {
    NoMatch(wanted, queue);
    if FirstMatch(wanted, queue).Some? {
      var k: nat :| IsFirst(wanted, queue, k);
      FirstMatchAt(wanted, queue, k);
      WithoutFirstAt(wanted, queue, k);
    }
  }

  datatype Popped<+T> = Popped(found: Option<T>, queue: seq<T>, buffer: Bytes)

  /** Passes over the queue until a match, one chunk of output accepted after each fruitless pass;
      the deadline falls when the chunks run out. */
  function Pop<T>(parse: Parse<T>, wanted: T -> bool, queue: seq<T>, buffer: Bytes, chunks: seq<Bytes>): Popped<T>
    decreases |chunks|
  {
    if chunks == [] then Popped(None, queue, buffer)
    else if FirstMatch(wanted, queue).Some? then
      Popped(FirstMatch(wanted, queue), WithoutFirst(wanted, queue), buffer)
    else
      var d := Drain(parse, buffer + chunks[0]);
      Pop(parse, wanted, queue + d.frames, d.rest, chunks[1..])
  }

  /** Everything that has arrived once `n` chunks have been accepted. */
  function ArrivedAfter<T>(parse: Parse<T>, queue: seq<T>, buffer: Bytes, chunks: seq<Bytes>, n: nat): seq<T>
    requires n <= |chunks|
  {
    queue + FeedAll(parse, buffer, chunks[..n]).frames
  }

  /** `p` is what a pop must leave if it stops after `n` chunks. */
  predicate StopsAt<T(==)>(
      parse: Parse<T>, wanted: T -> bool, queue: seq<T>, buffer: Bytes, chunks: seq<Bytes>, n: nat, p: Popped<T>)
  {
    && n <= |chunks|
    && var arrived := ArrivedAfter(parse, queue, buffer, chunks, n);
       && p.buffer == FeedAll(parse, buffer, chunks[..n]).rest
       && (p.found.Some? ==> p.found == FirstMatch(wanted, arrived) && p.queue == WithoutFirst(wanted, arrived))
       && (p.found.None? ==> n == |chunks| && p.queue == arrived)
       && (n > 0 ==> FirstMatch(wanted, ArrivedAfter(parse, queue, buffer, chunks, n - 1)).None?)
  }

  /** Across any number of passes, with frames arriving between them, a pop takes the earliest match among
      all that had arrived as soon as there was one, and loses, repeats and reorders nothing. */
  lemma {:induction false} PopTakesEarliest<T>(
      parse: Parse<T>, wanted: T -> bool, queue: seq<T>, buffer: Bytes, chunks: seq<Bytes>)
    ensures exists n: nat ::
              StopsAt(parse, wanted, queue, buffer, chunks, n, Pop(parse, wanted, queue, buffer, chunks))
    decreases |chunks|
  {
    var p := Pop(parse, wanted, queue, buffer, chunks);
    assert chunks[..0] == [] && queue + [] == queue;
    assert ArrivedAfter(parse, queue, buffer, chunks, 0) == queue;
    if chunks == [] || FirstMatch(wanted, queue).Some? {
      assert StopsAt(parse, wanted, queue, buffer, chunks, 0, p);
    } else {
      var d := Drain(parse, buffer + chunks[0]);
      PopTakesEarliest(parse, wanted, queue + d.frames, d.rest, chunks[1..]);
      var n: nat :| StopsAt(parse, wanted, queue + d.frames, d.rest, chunks[1..], n, p);
      FeedStep(parse, queue, buffer, chunks, n);
      if n > 0 {
        FeedStep(parse, queue, buffer, chunks, n - 1);
      }
      assert StopsAt(parse, wanted, queue, buffer, chunks, n + 1, p);
    }
  }

  lemma FeedStep<T>(parse: Parse<T>, queue: seq<T>, buffer: Bytes, chunks: seq<Bytes>, n: nat)
    requires n < |chunks|
    ensures var d := Drain(parse, buffer + chunks[0]);
            && ArrivedAfter(parse, queue, buffer, chunks, n + 1)
               == ArrivedAfter(parse, queue + d.frames, d.rest, chunks[1..], n)
            && FeedAll(parse, buffer, chunks[..n + 1]).rest == FeedAll(parse, d.rest, chunks[1..][..n]).rest
  {
    assert chunks[..n + 1][1..] == chunks[1..][..n];
    var d := Drain(parse, buffer + chunks[0]);
    var later := FeedAll(parse, d.rest, chunks[1..][..n]);
    assert queue + (d.frames + later.frames) == (queue + d.frames) + later.frames;
  }

  lemma ScanStep<T>(wanted: T -> bool, kept: seq<T>, queue: seq<T>, i: nat)
    requires i < |queue|
    ensures kept + queue[i..] == (kept + [queue[i]]) + queue[i + 1..]
    ensures wanted(queue[i]) ==>
              FirstMatch(wanted, queue[i..]) == Some(queue[i]) && WithoutFirst(wanted, queue[i..]) == queue[i + 1..]
    ensures !wanted(queue[i]) ==>
              && FirstMatch(wanted, queue[i..]) == FirstMatch(wanted, queue[i + 1..])
              && kept + WithoutFirst(wanted, queue[i..]) == (kept + [queue[i]]) + WithoutFirst(wanted, queue[i + 1..])
  {
    assert queue[i..][1..] == queue[i + 1..];
  }

  /** The Emacs connection: a byte buffer and a newest-first list of frames. */
  class Connection<T> {
    const parse: Parse<T>
    var buffer: Bytes
    var frames: seq<T>

    constructor (parse: Parse<T>)
      ensures this.parse == parse && buffer == [] && Arrived() == []
    {
      this.parse := parse;
      buffer, frames := [], [];
    }

    /** The frames in the order they arrived. */
    ghost function Arrived(): seq<T>
      reads this
    {
      Stdlib.Reverse(frames)
    }

    method ProcessFilter(chunk: Bytes) returns (error: Option<string>)
      modifies this
      ensures var d := Drain(parse, old(buffer) + chunk);
              buffer == d.rest && error == d.error && Arrived() == old(Arrived()) + d.frames
    {
      buffer := buffer + chunk;
      error := None;
      ghost var whole := buffer;
      ghost var taken: seq<T> := [];
      while |buffer| >= 4
        invariant error.None?
        invariant Arrived() == old(Arrived()) + taken
        invariant Drain(parse, whole) == Before(taken, Drain(parse, buffer))
        decreases |buffer|
      {
        var len := U32(buffer, 0);
        if len > MAX_FRAME_LEN {
          return Some("frame too large");
        }
        if |buffer| < 4 + len {
          break;
        }
        var body := buffer[4..4 + len];
        ghost var before := buffer;
        buffer := buffer[4 + len..];
        var parsed := parse(body);
        if parsed.Failure? {
          return Some(parsed.error);
        }
        Stdlib.ReverseCons(parsed.value, frames);
        frames := [parsed.value] + frames;
        BeforeTwice(taken, [parsed.value], Drain(parse, buffer));
        assert (old(Arrived()) + taken) + [parsed.value] == old(Arrived()) + (taken + [parsed.value]);
        taken := taken + [parsed.value];
      }
    }

    /** One pass: reverse, scan, and push back all but the first match, which restores newest-first order. */
    method Pass(wanted: T -> bool) returns (found: Option<T>)
      modifies `frames
      ensures found == FirstMatch(wanted, old(Arrived()))
      ensures Arrived() == WithoutFirst(wanted, old(Arrived()))
    {
      var queue := Stdlib.Reverse(frames);
      var remaining: seq<T> := [];
      found := None;
      ghost var kept: seq<T> := [];
      assert queue[0..] == queue;
      for i := 0 to |queue|
        invariant remaining == Stdlib.Reverse(kept)
        invariant found.None? ==>
                    && FirstMatch(wanted, queue) == FirstMatch(wanted, queue[i..])
                    && WithoutFirst(wanted, queue) == kept + WithoutFirst(wanted, queue[i..])
        invariant found.Some? ==> FirstMatch(wanted, queue) == found && WithoutFirst(wanted, queue) == kept + queue[i..]
      {
        ScanStep(wanted, kept, queue, i);
        if found.None? && wanted(queue[i]) {
          found := Some(queue[i]);
        } else {
          Stdlib.ReverseSnoc(kept, queue[i]);
          remaining := [queue[i]] + remaining;
          kept := kept + [queue[i]];
        }
      }
      assert queue[|queue|..] == [];
      assert kept + [] == kept;
      Stdlib.ReverseTwice(kept);
      frames := remaining;
    }

    method PopResponse(wanted: T -> bool, chunks: seq<Bytes>) returns (r: Result<T>)
      modifies this
      ensures var p := Pop(parse, wanted, old(Arrived()), old(buffer), chunks);
              && Arrived() == p.queue && buffer == p.buffer
              && (p.found.Some? ==> r == Success(p.found.value))
              && (p.found.None? ==> r == Failure("Timed out waiting for zscheme IPC response"))
    {
      var i := 0;
      while i < |chunks|
        invariant 0 <= i <= |chunks|
        invariant Pop(parse, wanted, old(Arrived()), old(buffer), chunks)
               == Pop(parse, wanted, Arrived(), buffer, chunks[i..])
      {
        ghost var queue := Arrived();
        var found := Pass(wanted);
        if found.Some? {
          return Success(found.value);
        }
        FirstMatchExact(wanted, queue);
        var _ := ProcessFilter(chunks[i]);
        assert chunks[i..][1..] == chunks[i + 1..];
        i := i + 1;
      }
      return Failure("Timed out waiting for zscheme IPC response");
    }
  }
}
