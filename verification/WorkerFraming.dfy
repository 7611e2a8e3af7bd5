/**
  The binary protocol between the service and a model worker: fixed markers, big-endian fields, and
  the worker's serving loop over a stream that may deliver any request in any number of pieces.
*/
module WorkerFraming {
  import opened Outcomes
  import opened Utf8

  const VIDEO_LIMIT := 16 * 1024 * 1024
  const TEXT_LIMIT := 4096

  predicate Latin(s: string) {
    forall i :: 0 <= i < |s| ==> s[i] as int < 256
  }

  function Ascii(s: string): (r: seq<Byte>)
    requires Latin(s)
    ensures |r| == |s|
  {
    seq(|s|, i requires 0 <= i < |s| => s[i] as int)
  }

  const READY: seq<Byte> := Ascii("umi-community-worker-v1\0")
  const REQUEST: seq<Byte> := Ascii("umi-community-video-v1\0")
  const RESPONSE: seq<Byte> := Ascii("umi-community-text-v1\0")

  const SPACES: string :=
    "\t\n\U{0B}\U{0C}\r\U{1C}\U{1D}\U{1E}\U{1F} \U{85}\U{A0}\U{1680}\U{2000}\U{2001}\U{2002}\U{2003}\U{2004}\U{2005}"
    + "\U{2006}\U{2007}\U{2008}\U{2009}\U{200A}\U{2028}\U{2029}\U{202F}\U{205F}\U{3000}"

  /** Nothing is left of the text once white space is stripped. */
  predicate Blank(text: string) {
    forall c :: c in text ==> c in SPACES
  }

  // ----- big-endian fields -----

  function Power(width: nat): (r: nat)
    ensures r >= 1
  {
    if width == 0 then 1 else 256 * Power(width - 1)
  }

  function BigEndian(n: nat, width: nat): (r: seq<Byte>)
    ensures |r| == width
  {
    if width == 0 then [] else BigEndian(n / 256, width - 1) + [n % 256]
  }

  function Value(bytes: seq<Byte>): nat {
    if bytes == [] then 0 else 256 * Value(bytes[..|bytes| - 1]) + bytes[|bytes| - 1]
  }

  lemma {:induction false} FieldRoundTrip(n: nat, width: nat)
    requires n < Power(width)
    ensures Value(BigEndian(n, width)) == n
  {
    if width != 0 {
      FieldRoundTrip(n / 256, width - 1);
      assert BigEndian(n, width)[..width - 1] == BigEndian(n / 256, width - 1);
    }
  }

  lemma {:induction false} FieldIsCanonical(bytes: seq<Byte>)
    ensures BigEndian(Value(bytes), |bytes|) == bytes && Value(bytes) < Power(|bytes|)
  {
    if bytes != [] {
      var front := bytes[..|bytes| - 1];
      FieldIsCanonical(front);
      assert Value(bytes) / 256 == Value(front) && Value(bytes) % 256 == bytes[|bytes| - 1];
      assert bytes == front + [bytes[|bytes| - 1]];
    }
  }

  lemma FieldSizes()
    ensures Power(4) == 0x1_0000_0000 && VIDEO_LIMIT < Power(8)
  {
    assert Power(1) == 256 && Power(2) == 0x1_0000 && Power(3) == 0x100_0000;
    assert Power(4) == 0x1_0000_0000;
    assert Power(5) == 256 * Power(4) && Power(6) == 256 * Power(5) && Power(7) == 256 * Power(6);
  }

  // ----- frames -----

  /** A request as the service sends it; the deadline is in Unix nanoseconds. */
  datatype Request = Request(nonce: seq<Byte>, video: seq<Byte>, deadline: nat)

  type Hash = seq<Byte> -> seq<Byte>

  /** What a worker is: a digest function, the text the model gives for a video, and its clock, reading by reading. */
  datatype Worker = Worker(hash: Hash, answer: (seq<Byte>, nat) -> string, now: nat -> int)
  {
    ghost predicate Valid() {
      forall v :: |hash(v)| == 32
    }
  }

  ghost predicate Fits(r: Request) {
    |r.nonce| == 32 && 0 < |r.video| <= VIDEO_LIMIT && r.deadline < Power(8)
  }

  function EncodeRequest(hash: Hash, r: Request): seq<Byte> {
    REQUEST + (r.nonce + hash(r.video) + BigEndian(|r.video|, 8) + BigEndian(r.deadline, 8)) + r.video
  }

  function EncodeRequests(hash: Hash, rs: seq<Request>): seq<Byte> {
    if rs == [] then [] else EncodeRequest(hash, rs[0]) + EncodeRequests(hash, rs[1..])
  }

  function EncodeReply(nonce: seq<Byte>, text: string): seq<Byte> {
    RESPONSE + (nonce + BigEndian(|EncodeAll(text)|, 4)) + EncodeAll(text)
  }

  function Replies(w: Worker, rs: seq<Request>): seq<Byte> {
    if rs == [] then [] else EncodeReply(rs[0].nonce, w.answer(rs[0].video, rs[0].deadline)) + Replies(w, rs[1..])
  }

  /** The model has a text for the request that the protocol can carry. */
  ghost predicate Answerable(w: Worker, r: Request) {
    var text := w.answer(r.video, r.deadline);
    !Blank(text) && |EncodeAll(text)| <= TEXT_LIMIT
  }

  /** The deadline has not passed at any of the three readings the worker takes for it. */
  ghost predicate Timely(w: Worker, r: Request, k: nat) {
    w.now(k) < r.deadline && w.now(k + 1) < r.deadline && w.now(k + 2) < r.deadline
  }

  ghost predicate AllServed(w: Worker, rs: seq<Request>, k: nat) {
    rs == [] || (Fits(rs[0]) && Answerable(w, rs[0]) && Timely(w, rs[0], k) && AllServed(w, rs[1..], k + 3))
  }

  // ----- the serving loop -----

  datatype Reason = Truncated | BadMarker | BadSizeOrDeadline | BadBinding | NoText | OverLimit

  datatype Ending = EndOfInput | Stopped(why: Reason)

  datatype Served = Served(output: seq<Byte>, ending: Ending)

  const HEADER := 103

  /** The fields of a request header that starts at the front of `input`. */
  function Nonce(input: seq<Byte>): seq<Byte>
    requires |input| >= HEADER
  {
    input[23..55]
  }

  function Digest(input: seq<Byte>): seq<Byte>
    requires |input| >= HEADER
  {
    input[55..87]
  }

  function Size(input: seq<Byte>): nat
    requires |input| >= HEADER
  {
    Value(input[87..95])
  }

  function Deadline(input: seq<Byte>): nat
    requires |input| >= HEADER
  {
    Value(input[95..103])
  }

  /** What stops the worker at the request in front of `input`, if anything does; `k` clock readings have been taken. */
  function Refusal(w: Worker, input: seq<Byte>, k: nat): Option<Reason>
    requires input != []
  {
    if |input| < 23 then Some(Truncated)
    else if input[..23] != REQUEST then Some(BadMarker)
    else if |input| < HEADER then Some(Truncated)
    else if !(0 < Size(input) <= VIDEO_LIMIT) || Deadline(input) <= w.now(k) then Some(BadSizeOrDeadline)
    else if |input| < HEADER + Size(input) then Some(Truncated)
    else
      var video := input[HEADER..HEADER + Size(input)];
      if w.hash(video) != Digest(input) || Deadline(input) <= w.now(k + 1) then Some(BadBinding)
      else
        var text := w.answer(video, Deadline(input));
        if Blank(text) then Some(NoText)
        else if |EncodeAll(text)| > TEXT_LIMIT || Deadline(input) <= w.now(k + 2) then Some(OverLimit)
        else None
  }

  /** Everything the worker writes for `input`, and how it ends. */
  function Serve(w: Worker, input: seq<Byte>, k: nat): Served
    decreases |input|
  {
    if input == [] then Served([], EndOfInput)
    else if Refusal(w, input, k).Some? then Served([], Stopped(Refusal(w, input, k).value))
    else
      var size := Size(input);
      var text := w.answer(input[HEADER..HEADER + size], Deadline(input));
      var rest := Serve(w, input[HEADER + size..], k + 3);
      Served(EncodeReply(Nonce(input), text) + rest.output, rest.ending)
  }

  // ----- parsing inverts encoding -----

  lemma HeaderFields(hash: Hash, r: Request, rest: seq<Byte>)
    requires Fits(r) && |hash(r.video)| == 32
    ensures
      var input := EncodeRequest(hash, r) + rest;
      && |input| >= HEADER + |r.video| && input[..23] == REQUEST
      && Nonce(input) == r.nonce && Digest(input) == hash(r.video)
      && Size(input) == |r.video| && Deadline(input) == r.deadline
      && input[HEADER..HEADER + |r.video|] == r.video && input[HEADER + |r.video|..] == rest
  {
    hide BigEndian, Value, Power;
    FieldSizes();
    FieldRoundTrip(|r.video|, 8);
    FieldRoundTrip(r.deadline, 8);
    var input := EncodeRequest(hash, r) + rest;
    assert input[87..95] == BigEndian(|r.video|, 8);
    assert input[95..103] == BigEndian(r.deadline, 8);
  }

  lemma OneRequest(w: Worker, r: Request, rest: seq<Byte>, k: nat)
    requires w.Valid() && Fits(r) && Answerable(w, r) && Timely(w, r, k)
    ensures
      var after := Serve(w, rest, k + 3);
      Serve(w, EncodeRequest(w.hash, r) + rest, k)
      == Served(EncodeReply(r.nonce, w.answer(r.video, r.deadline)) + after.output, after.ending)
  {
    hide Nonce, Digest, Size, Deadline, EncodeRequest, EncodeReply, Blank, EncodeAll, Power;
    HeaderFields(w.hash, r, rest);
  }

  /**
    Any concatenation of encoded requests is parsed back exactly: one reply to each, in order,
    echoing its nonce, and then the worker goes on with whatever follows.
  */
  lemma {:induction false} RequestsAreServedInOrder(w: Worker, rs: seq<Request>, rest: seq<Byte>, k: nat)
    requires w.Valid() && AllServed(w, rs, k)
    ensures
      var after := Serve(w, rest, k + 3 * |rs|);
      Serve(w, EncodeRequests(w.hash, rs) + rest, k) == Served(Replies(w, rs) + after.output, after.ending)
  {
    hide Serve, EncodeRequest, EncodeReply, Worker.Valid, Fits, Answerable, Timely;
    if rs == [] {
      assert EncodeRequests(w.hash, rs) + rest == rest;
    } else {
      var tail := EncodeRequests(w.hash, rs[1..]) + rest;
      assert EncodeRequests(w.hash, rs) + rest == EncodeRequest(w.hash, rs[0]) + tail;
      OneRequest(w, rs[0], tail, k);
      RequestsAreServedInOrder(w, rs[1..], rest, k + 3);
    }
  }

  /** The request in front of an input that is not refused. */
  function FirstRequest(input: seq<Byte>): Request
    requires |input| >= HEADER && |input| >= HEADER + Size(input)
  {
    Request(Nonce(input), input[HEADER..HEADER + Size(input)], Deadline(input))
  }

  lemma AcceptedHeader(w: Worker, input: seq<Byte>, k: nat)
    requires input != [] && Refusal(w, input, k).None?
    ensures |input| >= HEADER && |input| >= HEADER + Size(input) && Size(input) > 0
    ensures
      var r := FirstRequest(input);
      && Fits(r) && Answerable(w, r) && Timely(w, r, k)
      && input == EncodeRequest(w.hash, r) + input[HEADER + Size(input)..]
  {
    hide BigEndian, Value, Power, EncodeAll, Blank;
    FieldIsCanonical(input[87..95]);
    FieldIsCanonical(input[95..103]);
    var r := FirstRequest(input);
    var rest := input[HEADER + Size(input)..];
    assert input == input[..23] + (input[23..55] + input[55..87] + input[87..95] + input[95..103]) + r.video + rest;
  }

  /** The requests the worker found in its input. */
  function Parsed(w: Worker, input: seq<Byte>, k: nat): seq<Request>
    decreases |input|
  {
    if input == [] || Refusal(w, input, k).Some? then []
    else [FirstRequest(input)] + Parsed(w, input[HEADER + Size(input)..], k + 3)
  }

  /**
    Conversely, an input the worker serves to its end is nothing but a concatenation of encoded
    requests, and an input it refuses still begins with every request it has answered.
  */
  lemma {:induction false} ServedInputIsRequests(w: Worker, input: seq<Byte>, k: nat)
    ensures
      var rs, r := Parsed(w, input, k), Serve(w, input, k);
      && AllServed(w, rs, k) && r.output == Replies(w, rs)
      && EncodeRequests(w.hash, rs) <= input
      && (r.ending == EndOfInput <==> input == EncodeRequests(w.hash, rs))
    decreases |input|
  {
    hide Nonce, Digest, Deadline, EncodeRequest, EncodeReply, Fits, Answerable, Timely;
    if input != [] && Refusal(w, input, k).None? {
      AcceptedHeader(w, input, k);
      hide Refusal;
      var first, rest := FirstRequest(input), input[HEADER + Size(input)..];
      ServedInputIsRequests(w, rest, k + 3);
      var rs := Parsed(w, rest, k + 3);
      assert ([first] + rs)[1..] == rs;
      assert EncodeRequests(w.hash, [first] + rs) == EncodeRequest(w.hash, first) + EncodeRequests(w.hash, rs);
    }
  }

  // ----- the service's side of a reply -----

  datatype ReplyError = EndOfReplies | WrongMarker | WrongBinding | NotText | EmptyText

  const PREFIX := 58

  /** The text whose encoding is `body`, if there is one. */
  ghost function StrictDecode(body: seq<Byte>): Option<string> {
    if exists text :: EncodeAll(text) == body
    then
      var text :| EncodeAll(text) == body;
      Some(text)
    else None
  }

  lemma EncodingIsInjective(a: string, b: string)
    requires EncodeAll(a) == EncodeAll(b)
    ensures a == b
  {
    hide Decode, EncodeAll;
    DecodeNothing();
    assert EncodeAll(a) + [] == EncodeAll(b) + [];
    DecodingInvertsEncoding(a, []);
    DecodingInvertsEncoding(b, []);
    assert a + [] == a && b + [] == b;
  }

  lemma StrictDecodeInverts(text: string)
    ensures StrictDecode(EncodeAll(text)) == Some(text)
  {
    hide EncodeAll;
    forall other | EncodeAll(other) == EncodeAll(text)
      ensures other == text
    {
      EncodingIsInjective(other, text);
    }
  }

  /** Reading one reply off the front of what the child has written and will write. */
  ghost function ReadReply(nonce: seq<Byte>, stream: seq<Byte>): Result<string, ReplyError> {
    if |stream| < PREFIX then Err(EndOfReplies)
    else if stream[..22] != RESPONSE then Err(WrongMarker)
    else
      var size := Value(stream[54..58]);
      if stream[22..54] != nonce || !(0 < size <= TEXT_LIMIT) then Err(WrongBinding)
      else if |stream| < PREFIX + size then Err(EndOfReplies)
      else
        match StrictDecode(stream[PREFIX..PREFIX + size])
        case None => Err(NotText)
        case Some(text) => if Blank(text) then Err(EmptyText) else Ok(text)
  }

  ghost predicate Carried(text: string) {
    !Blank(text) && 0 < |EncodeAll(text)| <= TEXT_LIMIT
  }

  /**
    The service accepts a text exactly when the stream begins with the encoded reply that carries
    this text under this request's nonce.
  */
  lemma AcceptsExactlyTheEchoedReply(nonce: seq<Byte>, stream: seq<Byte>, text: string)
    requires |nonce| == 32
    ensures ReadReply(nonce, stream) == Ok(text) <==> Carried(text) && EncodeReply(nonce, text) <= stream
  {
    if Carried(text) && EncodeReply(nonce, text) <= stream {
      EchoedReplyIsAccepted(nonce, stream, text);
    }
    if ReadReply(nonce, stream) == Ok(text) {
      AcceptedReplyIsEchoed(nonce, stream, text);
    }
  }

  lemma EchoedReplyIsAccepted(nonce: seq<Byte>, stream: seq<Byte>, text: string)
    requires |nonce| == 32 && Carried(text) && EncodeReply(nonce, text) <= stream
    ensures ReadReply(nonce, stream) == Ok(text)
  {
    hide StrictDecode, EncodeAll, Value, BigEndian, Power;
    var body := EncodeAll(text);
    FieldSizes();
    FieldRoundTrip(|body|, 4);
    StrictDecodeInverts(text);
    var reply := EncodeReply(nonce, text);
    assert forall k :: 0 <= k < |reply| ==> stream[k] == reply[k];
    assert stream[..22] == RESPONSE;
    assert stream[22..54] == nonce;
    assert stream[54..58] == BigEndian(|body|, 4);
    assert stream[PREFIX..PREFIX + |body|] == body;
  }

  lemma AcceptedReplyIsEchoed(nonce: seq<Byte>, stream: seq<Byte>, text: string)
    requires |nonce| == 32 && ReadReply(nonce, stream) == Ok(text)
    ensures Carried(text) && EncodeReply(nonce, text) <= stream
  {
    hide EncodeAll, Value, BigEndian, Power, Blank;
    FieldIsCanonical(stream[54..58]);
    var size := Value(stream[54..58]);
    assert EncodeAll(text) == stream[PREFIX..PREFIX + size];
    assert stream[..PREFIX + size] == stream[..22] + (stream[22..54] + stream[54..58]) + stream[PREFIX..PREFIX + size];
  }

  // ----- what an honest worker can have written -----

  ghost predicate AllFit(rs: seq<Request>) {
    forall i :: 0 <= i < |rs| ==> Fits(rs[i])
  }

  /** A request header that has fully arrived is the sent one, however much of the rest is still missing. */
  lemma ArrivedHeader(hash: Hash, r: Request, rest: seq<Byte>, input: seq<Byte>)
    requires Fits(r) && |hash(r.video)| == 32
    requires input <= EncodeRequest(hash, r) + rest && |input| >= HEADER
    ensures Nonce(input) == r.nonce && Digest(input) == hash(r.video)
    ensures Size(input) == |r.video| && Deadline(input) == r.deadline
    ensures |input| >= HEADER + |r.video| ==>
              input[HEADER..HEADER + |r.video|] == r.video && input[HEADER + |r.video|..] <= rest
  {
    hide BigEndian, Value, Power, EncodeRequest;
    var whole := EncodeRequest(hash, r) + rest;
    HeaderFields(hash, r, rest);
    assert forall a, b :: 0 <= a <= b <= |input| ==> input[a..b] == whole[a..b];
    if |input| >= HEADER + |r.video| {
      assert input[HEADER + |r.video|..] == whole[HEADER + |r.video|..][..|input| - HEADER - |r.video|];
    }
  }

  /** The replies a worker can get to: it stops at the first request that has no answer to carry. */
  ghost function ServedReplies(w: Worker, rs: seq<Request>): seq<Byte> {
    if rs == [] || !Answerable(w, rs[0]) then []
    else EncodeReply(rs[0].nonce, w.answer(rs[0].video, rs[0].deadline)) + ServedReplies(w, rs[1..])
  }

  /** Whatever part of the requests has arrived, and whenever the worker stops: it has written replies, in order. */
  lemma {:induction false} WorkerWritesOnlyReplies(w: Worker, rs: seq<Request>, input: seq<Byte>, k: nat)
    requires w.Valid() && AllFit(rs) && input <= EncodeRequests(w.hash, rs)
    ensures Serve(w, input, k).output <= ServedReplies(w, rs)
    decreases |rs|
  {
    hide EncodeRequest, EncodeReply, Fits, Answerable, Nonce, Digest, Size, Deadline;
    if input != [] && Refusal(w, input, k).None? {
      AcceptedHeader(w, input, k);
      hide Refusal;
      ArrivedHeader(w.hash, rs[0], EncodeRequests(w.hash, rs[1..]), input);
      WorkerWritesOnlyReplies(w, rs[1..], input[HEADER + Size(input)..], k + 3);
    }
  }

  /** One reply cannot be the front of another reply to the same request. */
  lemma RepliesArePrefixFree(nonce: seq<Byte>, a: string, b: string)
    requires |nonce| == 32 && Carried(a) && Carried(b) && EncodeReply(nonce, a) <= EncodeReply(nonce, b)
    ensures a == b
  {
    hide ReadReply, EncodeReply, Carried;
    AcceptsExactlyTheEchoedReply(nonce, EncodeReply(nonce, b), a);
    AcceptsExactlyTheEchoedReply(nonce, EncodeReply(nonce, b), b);
  }

  // ----- the worker as it runs -----

  /** A pipe: each read delivers at least one byte if any is left, and at most as many as asked for. */
  class Source {
    const data: seq<Byte>
    var position: nat

    ghost predicate Valid()
      reads this
    {
      position <= |data|
    }

    function Rest(): seq<Byte>
      requires Valid()
      reads this
    {
      data[position..]
    }

    constructor (data: seq<Byte>)
      ensures Valid() && Rest() == data
    {
      this.data := data;
      position := 0;
    }

    method Read(size: nat) returns (chunk: seq<Byte>)
      requires Valid() && size > 0
      modifies this
      ensures Valid() && old(Rest()) == chunk + Rest()
      ensures |chunk| <= size && (chunk == [] ==> Rest() == [])
    {
      if position == |data| {
        return [];
      }
      var n: nat :| 0 < n <= size && position + n <= |data|;
      chunk := data[position..position + n];
      position := position + n;
    }
  }

  class Destination {
    var written: seq<Byte>

    constructor ()
      ensures written == []
    {
      written := [];
    }

    method Write(bytes: seq<Byte>)
      modifies this
      ensures written == old(written) + bytes
    {
      written := written + bytes;
    }
  }

  /** Collects exactly `size` bytes however they arrive; a shorter input ends early. */
  method ReadExact(source: Source, size: nat) returns (chunks: seq<Byte>)
    requires source.Valid()
    modifies source
    ensures source.Valid() && old(source.Rest()) == chunks + source.Rest()
    ensures |chunks| == size || (|chunks| < size && source.Rest() == [])
  {
    chunks := [];
    while |chunks| < size
      invariant source.Valid() && old(source.Rest()) == chunks + source.Rest()
      invariant |chunks| <= size
    {
      var body := source.Read(size - |chunks|);
      if body == [] {
        return;
      }
      chunks := chunks + body;
    }
  }

  /** One turn of the loop: a request read, checked, answered; or the reason to stop. */
  method ServeOne(w: Worker, source: Source, destination: Destination, k: nat) returns (why: Option<Reason>)
    requires source.Valid() && source.Rest() != []
    modifies source, destination
    ensures source.Valid()
    ensures why == Refusal(w, old(source.Rest()), k)
    ensures why.Some? ==> destination.written == old(destination.written)
    ensures why.None? ==>
              var input := old(source.Rest());
              && |input| >= HEADER && |input| >= HEADER + Size(input) && source.Rest() == input[HEADER + Size(input)..]
              && destination.written == old(destination.written) + FirstReply(w, input)
  {
    hide Value, Blank, EncodeAll, EncodeReply;
    ghost var input := source.Rest();
    var first := source.Read(1);
    var rest := ReadExact(source, 22);
    if |rest| < 22 {
      return Some(Truncated);
    }
    assert first + rest == input[..23];
    if first + rest != REQUEST {
      return Some(BadMarker);
    }
    var fields := ReadExact(source, 80);
    if |fields| < 80 {
      return Some(Truncated);
    }
    assert fields == input[23..103];
    var nonce, digest, size, deadline := fields[..32], fields[32..64], Value(fields[64..72]), Value(fields[72..80]);
    assert nonce == Nonce(input) && digest == Digest(input) && fields[64..72] == input[87..95]
      && fields[72..80] == input[95..103];
    if !(0 < size <= VIDEO_LIMIT) || deadline <= w.now(k) {
      return Some(BadSizeOrDeadline);
    }
    var video := ReadExact(source, size);
    if |video| < size {
      return Some(Truncated);
    }
    assert video == input[HEADER..HEADER + size];
    if w.hash(video) != digest || deadline <= w.now(k + 1) {
      return Some(BadBinding);
    }
    var text := w.answer(video, deadline);
    if Blank(text) {
      return Some(NoText);
    }
    var body := EncodeAll(text);
    if |body| > TEXT_LIMIT || deadline <= w.now(k + 2) {
      return Some(OverLimit);
    }
    destination.Write(EncodeReply(nonce, text));
    return None;
  }

  /** The reply to the request in front of an input that is not refused. */
  function FirstReply(w: Worker, input: seq<Byte>): seq<Byte>
    requires |input| >= HEADER && |input| >= HEADER + Size(input)
  {
    EncodeReply(Nonce(input), w.answer(input[HEADER..HEADER + Size(input)], Deadline(input)))
  }

  lemma ServeUnfolds(w: Worker, input: seq<Byte>, k: nat, output: seq<Byte>)
    ensures input == [] ==> Serve(w, input, k) == Served([], EndOfInput)
    ensures input != [] && Refusal(w, input, k).Some? ==>
            Serve(w, input, k) == Served([], Stopped(Refusal(w, input, k).value))
    ensures input != [] && Refusal(w, input, k).None? ==>
              && |input| >= HEADER && |input| >= HEADER + Size(input) && Size(input) > 0
              && var rest := Serve(w, input[HEADER + Size(input)..], k + 3);
                 && Serve(w, input, k).ending == rest.ending
                 && output + Serve(w, input, k).output == (output + FirstReply(w, input)) + rest.output
  {
    hide EncodeReply, Nonce, Deadline;
    if input != [] && Refusal(w, input, k).None? {
    }
    hide Refusal, Size;
  }

  /** The child's loop: readiness first, then every request of the input until its end or a bad one. */
  method ServeWorker(w: Worker, revision: seq<Byte>, source: Source, destination: Destination) returns (ending: Ending)
    requires source.Valid()
    modifies source, destination
    ensures
      var served := Serve(w, old(source.Rest()), 0);
      ending == served.ending && destination.written == old(destination.written) + READY + revision + served.output
  {
    hide Refusal, FirstReply, Serve, Size, READY;
    destination.Write(READY + revision);
    ghost var input, start := source.Rest(), destination.written;
    ghost var output: seq<Byte> := [];
    var k := 0;
    while source.position < |source.data|
      invariant source.Valid() && destination.written == start + output
      invariant Serve(w, input, 0).ending == Serve(w, source.Rest(), k).ending
      invariant Serve(w, input, 0).output == output + Serve(w, source.Rest(), k).output
      decreases |source.data| - source.position
    {
      ServeUnfolds(w, source.Rest(), k, output);
      ghost var reply := if Refusal(w, source.Rest(), k).None? then FirstReply(w, source.Rest()) else [];
      var why := ServeOne(w, source, destination, k);
      if why.Some? {
        return Stopped(why.value);
      }
      output := output + reply;
      k := k + 3;
    }
    assert source.Rest() == [];
    ServeUnfolds(w, [], k, output);
    return EndOfInput;
  }
}
