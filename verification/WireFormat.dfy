/**
  The frames of the worker protocol byte by byte, with every marker, offset and limit as a number.
*/
module WireFormat {
  import opened Outcomes
  import opened Utf8
  import opened WorkerFraming

  // ----- numbers -----

  /** `b` is `n` in four bytes, the most significant first. */
  predicate Spells4(b: seq<Byte>, n: int) {
    |b| == 4 && n == 0x100_0000 * (b[0] as int) + 0x1_0000 * (b[1] as int) + 0x100 * (b[2] as int) + b[3] as int
  }

  predicate Spells8(b: seq<Byte>, n: int) {
    && |b| == 8
    && n == 0x100_0000_0000_0000 * (b[0] as int) + 0x1_0000_0000_0000 * (b[1] as int) + 0x100_0000_0000 * (b[2] as int)
            + 0x1_0000_0000 * (b[3] as int) + 0x100_0000 * (b[4] as int) + 0x1_0000 * (b[5] as int)
            + 0x100 * (b[6] as int) + b[7] as int
  }

  lemma ValueNext(b: seq<Byte>, k: nat)
    requires k < |b|
    ensures Value(b[..k + 1]) == 256 * Value(b[..k]) + b[k]
  {
    assert b[..k + 1][..k] == b[..k];
  }

  lemma ValuesAreSpelled(b: seq<Byte>)
    ensures |b| == 4 ==> Spells4(b, Value(b))
    ensures |b| == 8 ==> Spells8(b, Value(b))
  {
    hide Value;
    NoValue();
    if |b| >= 4 {
      assert b[..0] == [];
      ValueNext(b, 0);
      ValueNext(b, 1);
      ValueNext(b, 2);
      ValueNext(b, 3);
      assert |b| == 4 ==> b[..4] == b;
    }
    if |b| == 8 {
      ValueNext(b, 4);
      ValueNext(b, 5);
      ValueNext(b, 6);
      ValueNext(b, 7);
      assert b[..8] == b;
    }
  }

  lemma NoValue()
    ensures Value([]) == 0
  {
  }

  lemma PowersOf256()
    ensures Power(4) == 0x1_0000_0000 && Power(8) == 0x1_0000_0000_0000_0000
  {
    FieldSizes();
    assert Power(5) == 256 * Power(4) && Power(6) == 256 * Power(5) && Power(7) == 256 * Power(6);
    assert Power(8) == 256 * Power(7);
  }

  /** The four and eight bytes written for a number are exactly those that spell it. */
  lemma NumbersAreSpelled(n: nat, b: seq<Byte>)
    ensures n < 0x1_0000_0000 ==> (Spells4(b, n) <==> b == BigEndian(n, 4))
    ensures n < 0x1_0000_0000_0000_0000 ==> (Spells8(b, n) <==> b == BigEndian(n, 8))
  {
    hide BigEndian, Value, Power;
    PowersOf256();
    ValuesAreSpelled(b);
    FieldIsCanonical(b);
    if n < 0x1_0000_0000 {
      FieldRoundTrip(n, 4);
    }
    if n < 0x1_0000_0000_0000_0000 {
      FieldRoundTrip(n, 8);
    }
  }

  // ----- frames -----

  /** `umi-community-worker-v1` and a zero byte. */
  lemma ReadinessMarker()
    ensures READY ==
            [117, 109, 105, 45, 99, 111, 109, 109, 117, 110, 105, 116, 121, 45, 119, 111, 114, 107, 101, 114, 45, 118,
             49, 0]
  {
  }

  /** `umi-community-video-v1` and a zero byte. */
  lemma RequestMarker()
    ensures REQUEST ==
            [117, 109, 105, 45, 99, 111, 109, 109, 117, 110, 105, 116, 121, 45, 118, 105, 100, 101, 111, 45, 118, 49, 0]
  {
  }

  /** `umi-community-text-v1` and a zero byte. */
  lemma ReplyMarker()
    ensures RESPONSE ==
            [117, 109, 105, 45, 99, 111, 109, 109, 117, 110, 105, 116, 121, 45, 116, 101, 120, 116, 45, 118, 49, 0]
  {
  }

  /** A request: marker, nonce, digest of the video, its length, the deadline, and the video. */
  predicate IsRequest(hash: Hash, r: Request, frame: seq<Byte>) {
    && |frame| == 103 + |r.video| && frame[..23] == REQUEST && frame[23..55] == r.nonce
    && frame[55..87] == hash(r.video) && Spells8(frame[87..95], |r.video|) && Spells8(frame[95..103], r.deadline)
    && frame[103..] == r.video
  }

  lemma MarkerSizes()
    ensures |READY| == 24 && |REQUEST| == 23 && |RESPONSE| == 22
  {
  }

  lemma RequestsAreLaidOut(hash: Hash, r: Request, frame: seq<Byte>)
    requires |r.nonce| == 32 && |hash(r.video)| == 32
    requires |r.video| < 0x1_0000_0000_0000_0000 && r.deadline < 0x1_0000_0000_0000_0000
    ensures IsRequest(hash, r, frame) <==> frame == EncodeRequest(hash, r)
  {
    hide BigEndian, Spells8, REQUEST;
    var size, deadline := BigEndian(|r.video|, 8), BigEndian(r.deadline, 8);
    MarkerSizes();
    if frame == EncodeRequest(hash, r) {
      NumbersAreSpelled(|r.video|, size);
      NumbersAreSpelled(r.deadline, deadline);
      RequestParts(r.nonce, hash(r.video), size, deadline, r.video);
    }
    if IsRequest(hash, r, frame) {
      NumbersAreSpelled(|r.video|, frame[87..95]);
      NumbersAreSpelled(r.deadline, frame[95..103]);
      assert frame == frame[..23] + (frame[23..55] + frame[55..87] + frame[87..95] + frame[95..103]) + frame[103..];
    }
  }

  lemma Between(a: seq<Byte>, b: seq<Byte>, c: seq<Byte>, i: nat, j: nat)
    requires i <= j <= |b|
    ensures (a + b + c)[|a| + i..|a| + j] == b[i..j]
  {
  }

  lemma FieldParts(nonce: seq<Byte>, digest: seq<Byte>, size: seq<Byte>, deadline: seq<Byte>)
    requires |nonce| == |digest| == 32 && |size| == |deadline| == 8
    ensures
      var fields := nonce + digest + size + deadline;
      |fields| == 80 && fields[..32] == nonce && fields[32..64] == digest && fields[64..72] == size
      && fields[72..80] == deadline
  {
  }

  lemma RequestParts(nonce: seq<Byte>, digest: seq<Byte>, size: seq<Byte>, deadline: seq<Byte>, video: seq<Byte>)
    requires |nonce| == |digest| == 32 && |size| == |deadline| == 8
    ensures
      var frame := REQUEST + (nonce + digest + size + deadline) + video;
      && |frame| == 103 + |video| && frame[..23] == REQUEST && frame[23..55] == nonce && frame[55..87] == digest
      && frame[87..95] == size && frame[95..103] == deadline && frame[103..] == video
  {
    hide REQUEST;
    MarkerSizes();
    FieldParts(nonce, digest, size, deadline);
    var fields := nonce + digest + size + deadline;
    Between(REQUEST, fields, video, 0, 32);
    Between(REQUEST, fields, video, 32, 64);
    Between(REQUEST, fields, video, 64, 72);
    Between(REQUEST, fields, video, 72, 80);
  }

  /** A reply: marker, the request's nonce, the length of the text, and the text. */
  predicate IsReply(nonce: seq<Byte>, text: string, frame: seq<Byte>) {
    && |frame| == 58 + |EncodeAll(text)| && frame[..22] == RESPONSE && frame[22..54] == nonce
    && Spells4(frame[54..58], |EncodeAll(text)|) && frame[58..] == EncodeAll(text)
  }

  lemma RepliesAreLaidOut(nonce: seq<Byte>, text: string, frame: seq<Byte>)
    requires |nonce| == 32 && |EncodeAll(text)| < 0x1_0000_0000
    ensures IsReply(nonce, text, frame) <==> frame == EncodeReply(nonce, text)
  {
    hide BigEndian, Spells4, EncodeAll, RESPONSE;
    MarkerSizes();
    var body := EncodeAll(text);
    NumbersAreSpelled(|body|, BigEndian(|body|, 4));
    if frame == EncodeReply(nonce, text) {
      assert frame[54..58] == BigEndian(|body|, 4);
    }
    if IsReply(nonce, text, frame) {
      NumbersAreSpelled(|body|, frame[54..58]);
      assert frame == frame[..22] + (frame[22..54] + frame[54..58]) + frame[58..];
    }
  }

  // ----- limits -----

  /** The characters that stripping removes, by their code points. */
  predicate IsSpace(c: int) {
    || 9 <= c <= 13 || 28 <= c <= 32 || c == 0x85 || c == 0xA0 || c == 0x1680 || 0x2000 <= c <= 0x200A
    || c == 0x2028 || c == 0x2029 || c == 0x202F || c == 0x205F || c == 0x3000
  }

  predicate AllSpaces(text: string) {
    forall i :: 0 <= i < |text| ==> IsSpace(text[i] as int)
  }

  lemma SpacesAreFixed(c: char)
    ensures c in SPACES <==> IsSpace(c as int)
  {
    if IsSpace(c as int) {
      var n := c as int;
      var i :=
        if n <= 13 then n - 9
        else if n <= 32 then n - 23
        else if n == 0x85 then 10
        else if n == 0xA0 then 11
        else if n == 0x1680 then 12
        else if n <= 0x200A then n - 0x2000 + 13
        else if n == 0x2028 then 24
        else if n == 0x2029 then 25
        else if n == 0x202F then 26
        else if n == 0x205F then 27
        else 28;
      assert SPACES[i] == c;
    }
  }

  lemma BlankMeansSpaces(text: string)
    ensures Blank(text) <==> AllSpaces(text)
  {
    hide SPACES, IsSpace;
    forall c: char
      ensures c in SPACES <==> IsSpace(c as int)
    {
      SpacesAreFixed(c);
    }
    assert forall c :: c in text ==> exists i :: 0 <= i < |text| && text[i] == c;
    if Blank(text) {
      forall i | 0 <= i < |text|
        ensures IsSpace(text[i] as int)
      {
        assert text[i] in text;
      }
    }
  }

  /** A text that the protocol carries: not blank and at most 4096 bytes. */
  predicate Carries(text: string) {
    !AllSpaces(text) && |EncodeAll(text)| <= 4096
  }

  /** What may be asked and what may be answered: 16 MiB of video, a 64-bit deadline, 4096 bytes of text. */
  lemma LimitsAreFixed(w: Worker, r: Request)
    ensures Fits(r) <==>
            |r.nonce| == 32 && 0 < |r.video| <= 0x100_0000 && r.deadline < 0x1_0000_0000_0000_0000
    ensures Answerable(w, r) <==> Carries(w.answer(r.video, r.deadline))
  {
    hide Power, EncodeAll, AllSpaces, Blank;
    PowersOf256();
    BlankMeansSpaces(w.answer(r.video, r.deadline));
  }

  /** The service accepts a text exactly when the stream starts with a reply that carries it. */
  lemma AcceptsExactlyReplies(nonce: seq<Byte>, stream: seq<Byte>, text: string)
    requires |nonce| == 32
    ensures ReadReply(nonce, stream) == Ok(text) <==>
            Carries(text) && 58 + |EncodeAll(text)| <= |stream|
              && IsReply(nonce, text, stream[..58 + |EncodeAll(text)|])
  {
    hide ReadReply, EncodeAll, AllSpaces, Blank, IsReply;
    AcceptsExactlyTheEchoedReply(nonce, stream, text);
    BlankMeansSpaces(text);
    NothingIsBlank(text);
    var n := 58 + |EncodeAll(text)|;
    if |EncodeAll(text)| <= 4096 {
      RepliesAreLaidOut(nonce, text, EncodeReply(nonce, text));
      if n <= |stream| {
        RepliesAreLaidOut(nonce, text, stream[..n]);
      }
    }
  }

  lemma NothingIsBlank(text: string)
    ensures |EncodeAll(text)| == 0 ==> Blank(text)
  {
    if text != [] {
      EncodingIsNotEmpty(text);
    }
  }

  lemma EncodingIsNotEmpty(text: string)
    requires text != []
    ensures EncodeAll(text) != []
  {
  }
}
