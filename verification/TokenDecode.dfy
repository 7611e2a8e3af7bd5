/**
  The decode-only tokenizer: the piece table `S1DecodeTokenizer.from_bytes` accepts, and the
  streaming decoder `decode`, against a specification that first groups the tokens and then
  renders the groups.
*/
module TokenDecode {
  import opened Outcomes
  import opened Utf8

  const PAD := 0
  const BOS := 1
  const EOS := 2
  const UNK := 3
  const VOCABULARY_SIZE := 4096
  const MAXIMUM_OUTPUT_TOKENS := 128
  const MAXIMUM_UTF8_BYTES := 4096
  const MARKER: char := '\U{2581}'
  const UNKNOWN_SURFACE: string := " \U{2047} "

  datatype Piece = Piece(text: string, isByte: bool, isControl: bool, isUnknown: bool)

  // ----- the piece table -----

  datatype RawPiece = RawPiece(id: int, text: string, finiteScore: bool, byte: bool, control: bool, unknown: bool,
      unused: bool)

  function HexDigit(n: nat): char
    requires n < 16
  {
    "0123456789ABCDEF"[n]
  }

  function ByteName(b: Byte): string {
    "<0x" + [HexDigit(b / 16), HexDigit(b % 16)] + ">"
  }

  /** The form the frozen tokenizer fixes for the piece at one index. */
  predicate PieceFits(index: nat, p: RawPiece) {
    && p.id == index && p.text != "" && p.finiteScore
    && match index
       case 0 => p.text == "<pad>" && !p.byte && p.control && !p.unknown && !p.unused
       case 1 => p.text == "<bos>" && !p.byte && p.control && !p.unknown && !p.unused
       case 2 => p.text == "<eos>" && !p.byte && p.control && !p.unknown && !p.unused
       case 3 => p.text == "<unk>" && !p.byte && !p.control && p.unknown && !p.unused
       case _ =>
         if index < 260 then p.text == ByteName(index - 4) && p.byte && !p.control && !p.unknown && !p.unused
         else !p.byte && !p.control && !p.unknown && !p.unused
  }

  function Accepted(p: RawPiece): Piece {
    Piece(p.text, p.byte, p.control, p.unknown)
  }

  /** What every loaded table satisfies: kinds by index, no empty text, no text twice. */
  ghost predicate ValidTable(pieces: seq<Piece>) {
    && |pieces| == VOCABULARY_SIZE
    && (forall i :: 0 <= i < |pieces| ==> pieces[i].text != "")
    && (forall i :: 0 <= i < |pieces| ==> (pieces[i].isByte <==> 4 <= i < 260))
    && (forall i :: 0 <= i < |pieces| ==> (pieces[i].isControl <==> i == PAD || i == BOS || i == EOS))
    && (forall i :: 0 <= i < |pieces| ==> (pieces[i].isUnknown <==> i == UNK))
    && (forall i, j :: 0 <= i < j < |pieces| ==> pieces[i].text != pieces[j].text)
  }

  ghost predicate FitsFrozenTable(raw: seq<RawPiece>) {
    && |raw| == VOCABULARY_SIZE
    && (forall i :: 0 <= i < |raw| ==> PieceFits(i, raw[i]))
    && (forall i, j :: 0 <= i < j < |raw| ==> raw[i].text != raw[j].text)
  }

  /** Loads exactly the tables of the frozen form, and every loaded table is valid. */
  method LoadPieces(raw: seq<RawPiece>) returns (r: Option<seq<Piece>>)
    ensures r.Some? <==> FitsFrozenTable(raw)
    ensures r.Some? ==> ValidTable(r.value) && |r.value| == |raw| && forall i :: 0 <= i < |raw| ==>
            r.value[i] == Accepted(raw[i])
  {
    if |raw| != VOCABULARY_SIZE {
      return None;
    }
    var pieces: seq<Piece> := [];
    var observed: set<string> := {};
    var index := 0;
    while index < |raw|
      invariant 0 <= index <= |raw| && |pieces| == index
      invariant forall i :: 0 <= i < index ==> PieceFits(i, raw[i]) && pieces[i] == Accepted(raw[i])
      invariant observed == set i | 0 <= i < index :: raw[i].text
      invariant forall i, j :: 0 <= i < j < index ==> raw[i].text != raw[j].text
    {
      var piece := raw[index];
      if piece.text in observed || !PieceFits(index, piece) {
        return None;
      }
      observed := observed + {piece.text};
      pieces := pieces + [Accepted(piece)];
      index := index + 1;
    }
    r := Some(pieces);
  }

  // ----- tokens and groups -----

  datatype RawToken = Integer(value: int) | NotAnInteger

  datatype DecodeError = TooManyTokens | TokenNotAnInteger | TextTooLong

  datatype Item = ByteRun(values: seq<Byte>) | Unknown | Text(text: string)

  /** The identifier a token stands for: anything outside the vocabulary is unknown. */
  function Identifier(t: RawToken): int {
    if t.Integer? && 0 <= t.value < VOCABULARY_SIZE then t.value else UNK
  }

  /** The tokens before the first end of sequence. */
  function BeforeEos(tokens: seq<RawToken>): (r: seq<RawToken>)
    ensures r <= tokens
  {
    if tokens == [] || tokens[0] == Integer(EOS) then [] else [tokens[0]] + BeforeEos(tokens[1..])
  }

  predicate Skipped(t: RawToken) {
    t == Integer(PAD) || t == Integer(BOS)
  }

  predicate IsByteToken(t: RawToken) {
    t.Integer? && 4 <= t.value < 260
  }

  function ByteOf(t: RawToken): Byte
    requires IsByteToken(t)
  {
    t.value - 4
  }

  /** Adds one token to a list of groups: bytes join a byte run in front of them. */
  function AddToken(pieces: seq<Piece>, items: seq<Item>, t: RawToken): seq<Item>
    requires |pieces| == VOCABULARY_SIZE
  {
    if Skipped(t) then items
    else if IsByteToken(t) then
      if items != [] && items[|items| - 1].ByteRun?
      then items[..|items| - 1] + [ByteRun(items[|items| - 1].values + [ByteOf(t)])]
      else items + [ByteRun([ByteOf(t)])]
    else if Identifier(t) == UNK then items + [Unknown]
    else items + [Text(pieces[Identifier(t)].text)]
  }

  /** Maximal byte runs, unknown tokens and text pieces, in order; PAD and BOS leave no trace. */
  function Group(pieces: seq<Piece>, tokens: seq<RawToken>): seq<Item>
    requires |pieces| == VOCABULARY_SIZE
  {
    if tokens == [] then [] else AddToken(pieces, Group(pieces, tokens[..|tokens| - 1]), tokens[|tokens| - 1])
  }

  /** Every marker becomes a space, and nothing else changes. */
  function Spaced(text: string): (r: string)
    ensures |r| == |text| && '\U{2581}' !in r
    ensures forall i :: 0 <= i < |text| && text[i] == '\U{2581}' ==> r[i] == ' '
    ensures forall i :: 0 <= i < |text| && text[i] != '\U{2581}' ==> r[i] == text[i]
    ensures '\U{2581}' !in text ==> r == text
  {
    seq(|text|, i requires 0 <= i < |text| => if text[i] == MARKER then ' ' else text[i])
  }

  /** The text of one group on its own. */
  ghost function Surface(item: Item): string {
    match item
    case ByteRun(values) => Decode(values)
    case Unknown => UNKNOWN_SURFACE
    case Text(text) => Spaced(text)
  }

  ghost function Plain(items: seq<Item>): string {
    if items == [] then [] else Plain(items[..|items| - 1]) + Surface(items[|items| - 1])
  }

  /** Only a text piece that is the very first group and starts with the marker loses its space. */
  predicate DropsLeadingSpace(items: seq<Item>) {
    items != [] && items[0].Text? && items[0].text != "" && items[0].text[0] == MARKER
  }

  ghost function Render(items: seq<Item>): string {
    if items == [] then []
    else if |items| == 1 then
      if DropsLeadingSpace(items) then Surface(items[0])[1..] else Surface(items[0])
    else Render(items[..|items| - 1]) + Surface(items[|items| - 1])
  }

  /** The meaning of a token sequence: group what stands before the end, then render. */
  ghost function Meaning(pieces: seq<Piece>, tokens: seq<RawToken>): Result<string, DecodeError>
    requires |pieces| == VOCABULARY_SIZE
  {
    if |tokens| > MAXIMUM_OUTPUT_TOKENS then Err(TooManyTokens)
    else if exists t :: t in BeforeEos(tokens) && t.NotAnInteger? then Err(TokenNotAnInteger)
    else
      var text := Render(Group(pieces, BeforeEos(tokens)));
      if |EncodeAll(text)| > MAXIMUM_UTF8_BYTES then Err(TextTooLong) else Ok(text)
  }

  // ----- the streaming decoder -----

  /** What has been written, plus the pending bytes, is the rendering of the groups so far. */
  ghost predicate Streaming(pieces: seq<Piece>, done: seq<RawToken>, output: string, pending: seq<Byte>, eligible: bool)
    requires |pieces| == VOCABULARY_SIZE
  {
    var items := Group(pieces, done);
    if pending == [] then
      && output == Render(items)
      && (eligible <==> items == [])
      && (items != [] ==> !items[|items| - 1].ByteRun?)
    else
      && items != [] && items[|items| - 1] == ByteRun(pending)
      && output == Render(items[..|items| - 1])
      && (eligible <==> |items| == 1)
  }

  method FlushBytes(output: string, pending: seq<Byte>, eligible: bool)
    returns (output': string, eligible': bool)
    ensures output' == output + (if pending == [] then [] else Decode(pending))
    ensures eligible' == (eligible && pending == [])
  {
    output', eligible' := output, eligible;
    if pending != [] {
      var text := DecodeBytes(pending);
      output' := output + text;
      eligible' := false;
    }
  }

  lemma RenderNothing()
    ensures Render([]) == ""
  {
  }

  lemma RenderLast(items: seq<Item>, item: Item)
    ensures items != [] || !DropsLeadingSpace([item]) ==> Render(items + [item]) == Render(items) + Surface(item)
    ensures items == [] && DropsLeadingSpace([item]) ==> Render([item]) == Surface(item)[1..]
  {
    assert (items + [item])[..|items|] == items;
  }

  /** One text or unknown token after the pending bytes have been flushed. */
  lemma StreamText(pieces: seq<Piece>, done: seq<RawToken>, output: string, pending: seq<Byte>, eligible: bool,
      t: RawToken)
    requires |pieces| == VOCABULARY_SIZE && Streaming(pieces, done, output, pending, eligible)
    requires !Skipped(t) && !IsByteToken(t)
    ensures
      var flushed := output + (if pending == [] then [] else Decode(pending));
      var item := if Identifier(t) == UNK then Unknown else Text(pieces[Identifier(t)].text);
      var text := if eligible && pending == [] && DropsLeadingSpace([item]) then Surface(item)[1..] else Surface(item);
      Streaming(pieces, done + [t], flushed + text, [], false)
  {
    hide Decode, Render, Surface;
    var items := Group(pieces, done);
    var item := if Identifier(t) == UNK then Unknown else Text(pieces[Identifier(t)].text);
    StreamEnd(pieces, done, output, pending, eligible);
    assert (eligible && pending == []) <==> items == [];
    assert (done + [t])[..|done|] == done;
    assert Group(pieces, done + [t]) == items + [item];
    hide Group;
    RenderNothing();
    RenderLast(items, item);
    MarkedSurface(item);
    assert [] + [item] == [item];
  }

  lemma StreamEnd(pieces: seq<Piece>, done: seq<RawToken>, output: string, pending: seq<Byte>, eligible: bool)
    requires |pieces| == VOCABULARY_SIZE && Streaming(pieces, done, output, pending, eligible)
    ensures output + (if pending == [] then [] else Decode(pending)) == Render(Group(pieces, done))
  {
    hide Group, Render, Decode;
    if pending == [] {
      assert output + [] == output;
    } else {
      var items := Group(pieces, done);
      var front := items[..|items| - 1];
      assert items == front + [ByteRun(pending)];
      RenderLast(front, ByteRun(pending));
    }
  }

  lemma {:induction false} BeforeEosAt(tokens: seq<RawToken>, i: nat)
    requires i < |tokens|
    requires forall j :: 0 <= j < i ==> tokens[j] != Integer(EOS)
    ensures tokens[..i] <= BeforeEos(tokens)
    ensures tokens[i] == Integer(EOS) ==> BeforeEos(tokens) == tokens[..i]
    ensures tokens[i] != Integer(EOS) ==> tokens[i] in BeforeEos(tokens)
  {
    if i != 0 {
      BeforeEosAt(tokens[1..], i - 1);
      assert tokens[..i] == [tokens[0]] + tokens[1..][..i - 1];
    }
  }

  lemma {:induction false} BeforeEosWhole(tokens: seq<RawToken>)
    requires forall j :: 0 <= j < |tokens| ==> tokens[j] != Integer(EOS)
    ensures BeforeEos(tokens) == tokens
  {
    if tokens != [] { BeforeEosWhole(tokens[1..]); }
  }

  lemma StreamStart(pieces: seq<Piece>)
    requires |pieces| == VOCABULARY_SIZE
    ensures Streaming(pieces, [], "", [], true)
  {
  }

  lemma GroupNext(pieces: seq<Piece>, done: seq<RawToken>, t: RawToken)
    requires |pieces| == VOCABULARY_SIZE
    ensures Group(pieces, done + [t]) == AddToken(pieces, Group(pieces, done), t)
  {
    hide AddToken;
    assert (done + [t])[..|done|] == done;
  }

  /** A token that leaves no trace. */
  lemma StreamSkipped(pieces: seq<Piece>, done: seq<RawToken>, output: string, pending: seq<Byte>, eligible: bool,
      t: RawToken)
    requires |pieces| == VOCABULARY_SIZE && Streaming(pieces, done, output, pending, eligible) && Skipped(t)
    ensures Streaming(pieces, done + [t], output, pending, eligible)
  {
    hide Render, Group;
    GroupNext(pieces, done, t);
  }

  lemma FrontAndLast(front: seq<Item>, last: Item)
    ensures (front + [last])[..|front|] == front && (front + [last])[|front|] == last
  {
  }

  /** A byte token joins the pending bytes. */
  lemma StreamByte(pieces: seq<Piece>, done: seq<RawToken>, output: string, pending: seq<Byte>, eligible: bool,
      t: RawToken)
    requires |pieces| == VOCABULARY_SIZE && Streaming(pieces, done, output, pending, eligible)
    requires IsByteToken(t) && !Skipped(t)
    ensures Streaming(pieces, done + [t], output, pending + [ByteOf(t)], eligible)
  {
    hide Render, Group, ByteOf, IsByteToken, Skipped;
    GroupNext(pieces, done, t);
    var items := Group(pieces, done);
    var front := if pending == [] then items else items[..|items| - 1];
    assert pending == [] ==> pending + [ByteOf(t)] == [ByteOf(t)];
    FrontAndLast(front, ByteRun(pending + [ByteOf(t)]));
  }

  /** What the table says of a token. */
  lemma PieceOf(pieces: seq<Piece>, t: RawToken)
    requires ValidTable(pieces) && t.Integer? && t != Integer(EOS)
    ensures
      var i := Identifier(t);
      && |pieces| == VOCABULARY_SIZE && 0 <= i < |pieces| && pieces[i].text != "" && (pieces[i].isUnknown <==> i == UNK)
      && (i == PAD || i == BOS || pieces[i].isControl <==> Skipped(t))
      && (pieces[i].isByte <==> IsByteToken(t)) && (IsByteToken(t) ==> ByteOf(t) == i - 4 && !Skipped(t))
  {
  }

  /** One token of the loop that is neither a wrong type nor the end of sequence. */
  method ConsumeToken(pieces: seq<Piece>, token: RawToken, ghost done: seq<RawToken>, output: string,
      pending: seq<Byte>, eligible: bool)
    returns (output': string, pending': seq<Byte>, eligible': bool)
    requires ValidTable(pieces) && token.Integer? && token != Integer(EOS)
    requires Streaming(pieces, done, output, pending, eligible)
    ensures Streaming(pieces, done + [token], output', pending', eligible')
  {
    hide ValidTable, Streaming, Identifier, IsByteToken, ByteOf, Skipped, Decode, Surface;
    PieceOf(pieces, token);
    var identifier := Identifier(token);
    var piece := pieces[identifier];
    output', pending', eligible' := output, pending, eligible;
    if identifier == PAD || identifier == BOS || piece.isControl {
      StreamSkipped(pieces, done, output, pending, eligible, token);
    } else if piece.isByte {
      pending' := pending + [identifier - 4];
      StreamByte(pieces, done, output, pending, eligible, token);
    } else {
      StreamText(pieces, done, output, pending, eligible, token);
      output', eligible' := FlushBytes(output, pending, eligible);
      pending' := [];
      output' := EmitPiece(output', piece, identifier, eligible');
      eligible' := false;
    }
  }

  lemma MeaningRefused(pieces: seq<Piece>, tokens: seq<RawToken>, i: nat)
    requires |pieces| == VOCABULARY_SIZE && i < |tokens| <= MAXIMUM_OUTPUT_TOKENS
    requires (forall j :: 0 <= j < i ==> tokens[j] != Integer(EOS)) && tokens[i].NotAnInteger?
    ensures Meaning(pieces, tokens) == Err(TokenNotAnInteger)
  {
    hide Render, Group, EncodeAll, BeforeEos;
    BeforeEosAt(tokens, i);
  }

  lemma MeaningOf(pieces: seq<Piece>, tokens: seq<RawToken>, i: nat, output: string, pending: seq<Byte>, eligible: bool)
    requires |pieces| == VOCABULARY_SIZE && i <= |tokens| <= MAXIMUM_OUTPUT_TOKENS
    requires forall j :: 0 <= j < i ==> tokens[j] != Integer(EOS) && tokens[j].Integer?
    requires i == |tokens| || tokens[i] == Integer(EOS)
    requires Streaming(pieces, tokens[..i], output, pending, eligible)
    ensures
      var text := output + (if pending == [] then [] else Decode(pending));
      Meaning(pieces, tokens) == if |EncodeAll(text)| > MAXIMUM_UTF8_BYTES then Err(TextTooLong) else Ok(text)
  {
    hide Render, Group, EncodeAll, BeforeEos, Streaming, Decode;
    if i == |tokens| {
      BeforeEosWhole(tokens);
      assert tokens[..i] == tokens;
    } else {
      BeforeEosAt(tokens, i);
    }
    StreamEnd(pieces, tokens[..i], output, pending, eligible);
  }

  lemma TableSize(pieces: seq<Piece>)
    requires ValidTable(pieces)
    ensures |pieces| == VOCABULARY_SIZE
  {
  }

  lemma MeaningBounded(pieces: seq<Piece>, tokens: seq<RawToken>)
    requires |pieces| == VOCABULARY_SIZE
    ensures |tokens| > MAXIMUM_OUTPUT_TOKENS ==> Meaning(pieces, tokens) == Err(TooManyTokens)
  {
  }

  /** The streaming decoder computes the grouped meaning, errors included. */
  method DecodeTokens(pieces: seq<Piece>, tokens: seq<RawToken>) returns (r: Result<string, DecodeError>)
    requires ValidTable(pieces)
    ensures r == Meaning(pieces, tokens)
  {
    hide ValidTable, Streaming, Meaning, Decode, EncodeAll, BeforeEos;
    TableSize(pieces);
    MeaningBounded(pieces, tokens);
    if |tokens| > MAXIMUM_OUTPUT_TOKENS {
      return Err(TooManyTokens);
    }
    var output: string := "";
    var pending: seq<Byte> := [];
    var eligible := true;
    StreamStart(pieces);
    var i := 0;
    assert tokens[..0] == [];
    while i < |tokens|
      invariant 0 <= i <= |tokens|
      invariant forall j :: 0 <= j < i ==> tokens[j] != Integer(EOS) && tokens[j].Integer?
      invariant Streaming(pieces, tokens[..i], output, pending, eligible)
    {
      if tokens[i].NotAnInteger? {
        MeaningRefused(pieces, tokens, i);
        return Err(TokenNotAnInteger);
      }
      if Identifier(tokens[i]) == EOS {
        break;
      }
      output, pending, eligible := ConsumeToken(pieces, tokens[i], tokens[..i], output, pending, eligible);
      assert tokens[..i + 1] == tokens[..i] + [tokens[i]];
      i := i + 1;
    }
    MeaningOf(pieces, tokens, i, output, pending, eligible);
    output, eligible := FlushBytes(output, pending, eligible);
    if |EncodeAll(output)| > MAXIMUM_UTF8_BYTES {
      return Err(TextTooLong);
    }
    r := Ok(output);
  }

  /** Appends the surface of an unknown token or a text piece, less one leading space when eligible. */
  method EmitPiece(output: string, piece: Piece, identifier: int, eligible: bool) returns (output': string)
    requires piece.text != "" && (piece.isUnknown <==> identifier == UNK)
    ensures
      var item := if identifier == UNK then Unknown else Text(piece.text);
      output' == output + if eligible && DropsLeadingSpace([item]) then Surface(item)[1..] else Surface(item)
  {
    if identifier == UNK || piece.isUnknown {
      output' := output + UNKNOWN_SURFACE;
    } else {
      var text := Spaced(piece.text);
      if eligible && piece.text[0] == MARKER {
        text := text[1..];
      }
      output' := output + text;
    }
  }

  // ----- consequences -----

  lemma {:induction false} BeforeEosCut(before: seq<RawToken>, after: seq<RawToken>)
    ensures BeforeEos(before + [Integer(EOS)] + after) == BeforeEos(before)
  {
    if before == [] {
    } else {
      BeforeEosCut(before[1..], after);
      assert (before + [Integer(EOS)] + after)[1..] == before[1..] + [Integer(EOS)] + after;
    }
  }

  /** Within the token ceiling, nothing behind the first end of sequence is looked at. */
  lemma OnlyTokensBeforeEosMatter(pieces: seq<Piece>, before: seq<RawToken>, after: seq<RawToken>)
    requires |pieces| == VOCABULARY_SIZE && |before| + 1 + |after| <= MAXIMUM_OUTPUT_TOKENS
    ensures Meaning(pieces, before + [Integer(EOS)] + after) == Meaning(pieces, before)
  {
    BeforeEosCut(before, after);
  }

  lemma {:induction false} GroupSkips(pieces: seq<Piece>, a: seq<RawToken>, t: RawToken, b: seq<RawToken>)
    requires |pieces| == VOCABULARY_SIZE && Skipped(t)
    ensures Group(pieces, a + [t] + b) == Group(pieces, a + b)
  {
    if b == [] {
      assert (a + [t] + b)[..|a|] == a && a + b == a;
    } else {
      var front, last := b[..|b| - 1], b[|b| - 1];
      GroupSkips(pieces, a, t, front);
      assert (a + [t] + b)[..|a + [t] + b| - 1] == a + [t] + front;
      assert (a + b)[..|a + b| - 1] == a + front;
    }
  }

  lemma BeforeEosNext(t: RawToken, rest: seq<RawToken>)
    ensures BeforeEos([t] + rest) == if t == Integer(EOS) then [] else [t] + BeforeEos(rest)
  {
    assert ([t] + rest)[1..] == rest;
  }

  lemma FirstOfConcat(a: seq<RawToken>, b: seq<RawToken>)
    requires a != []
    ensures a + b == [a[0]] + (a[1..] + b)
    ensures Integer(EOS) in a <==> a[0] == Integer(EOS) || Integer(EOS) in a[1..]
  {
    assert a == [a[0]] + a[1..];
  }

  lemma {:induction false} BeforeEosConcat(a: seq<RawToken>, b: seq<RawToken>)
    ensures BeforeEos(a + b) == if Integer(EOS) in a then BeforeEos(a) else a + BeforeEos(b)
  {
    hide BeforeEos;
    if a == [] {
      assert a + b == b && a + BeforeEos(b) == BeforeEos(b);
    } else {
      BeforeEosConcat(a[1..], b);
      BeforeEosNext(a[0], a[1..]);
      BeforeEosNext(a[0], a[1..] + b);
      FirstOfConcat(a, b);
      FirstOfConcat(a, []);
      FirstOfConcat(a, BeforeEos(b));
      assert a + [] == a && a[1..] + [] == a[1..];
    }
  }

  lemma BeforeEosSkips(a: seq<RawToken>, t: RawToken, b: seq<RawToken>)
    requires Skipped(t)
    ensures
      || BeforeEos(a + [t] + b) == BeforeEos(a + b)
      || (BeforeEos(a + [t] + b) == a + [t] + BeforeEos(b) && BeforeEos(a + b) == a + BeforeEos(b))
  {
    hide BeforeEos;
    BeforeEosConcat(a + [t], b);
    BeforeEosConcat(a, [t]);
    BeforeEosConcat(a, b);
  }

  /** PAD and BOS may stand anywhere, even inside a multi-byte character, within the token ceiling. */
  lemma PaddingIsInvisible(pieces: seq<Piece>, a: seq<RawToken>, t: RawToken, b: seq<RawToken>)
    requires |pieces| == VOCABULARY_SIZE && Skipped(t) && |a| + 1 + |b| <= MAXIMUM_OUTPUT_TOKENS
    ensures Meaning(pieces, a + [t] + b) == Meaning(pieces, a + b)
  {
    BeforeEosSkips(a, t, b);
    GroupSkips(pieces, a, t, BeforeEos(b));
    if BeforeEos(a + [t] + b) != BeforeEos(a + b) {
      assert forall u :: u in a + [t] + BeforeEos(b) <==> u in a + BeforeEos(b) || u == t;
    }
  }

  /** At most one leading space is dropped, and exactly when the first group is a marked text piece. */
  lemma {:induction false} AtMostOneSpaceIsDropped(items: seq<Item>)
    ensures Plain(items) == (if DropsLeadingSpace(items) then " " else "") + Render(items)
  {
    hide Surface;
    if |items| > 1 {
      AtMostOneSpaceIsDropped(items[..|items| - 1]);
    } else if |items| == 1 {
      assert items[..0] == [] && items == [items[0]];
      assert Plain(items) == Surface(items[0]);
      MarkedSurface(items[0]);
    }
  }

  lemma MarkedSurface(item: Item)
    ensures DropsLeadingSpace([item]) ==> Surface(item) != [] && Surface(item) == " " + Surface(item)[1..]
  {
    if DropsLeadingSpace([item]) {
      assert Surface(item)[0] == ' ';
    }
  }

  function ByteTokens(values: seq<Byte>): (r: seq<RawToken>)
    ensures |r| == |values| && forall i :: 0 <= i < |r| ==> r[i] == Integer(values[i] as int + 4)
  {
    seq(|values|, i requires 0 <= i < |values| => Integer(values[i] as int + 4))
  }

  lemma AddByteToken(pieces: seq<Piece>, values: seq<Byte>, value: Byte)
    requires |pieces| == VOCABULARY_SIZE
    ensures AddToken(pieces, if values == [] then [] else [ByteRun(values)], Integer(value as int + 4)) ==
            [ByteRun(values + [value])]
  {
    assert values == [] ==> values + [value] == [value];
    var items := [ByteRun(values)];
    assert items[..0] + [ByteRun(values + [value])] == [ByteRun(values + [value])];
  }

  lemma GroupLast(pieces: seq<Piece>, tokens: seq<RawToken>)
    requires |pieces| == VOCABULARY_SIZE
    ensures Group(pieces, tokens) ==
            if tokens == [] then [] else AddToken(pieces, Group(pieces, tokens[..|tokens| - 1]), tokens[|tokens| - 1])
  {
    hide AddToken;
  }

  lemma {:induction false} ByteTokensAreOneRun(pieces: seq<Piece>, values: seq<Byte>)
    requires |pieces| == VOCABULARY_SIZE
    ensures Group(pieces, ByteTokens(values)) == if values == [] then [] else [ByteRun(values)]
  {
    hide Group, AddToken;
    GroupLast(pieces, ByteTokens(values));
    if values != [] {
      var front, last := values[..|values| - 1], values[|values| - 1];
      ByteTokensAreOneRun(pieces, front);
      assert ByteTokens(values)[..|values| - 1] == ByteTokens(front);
      AddByteToken(pieces, front, last);
      assert front + [last] == values;
    }
  }

  /** Byte fallback is complete: any text of at most 128 bytes is decoded from its byte tokens. */
  lemma ByteFallbackRoundTrip(pieces: seq<Piece>, text: string)
    requires |pieces| == VOCABULARY_SIZE && |EncodeAll(text)| <= MAXIMUM_OUTPUT_TOKENS
    ensures Meaning(pieces, ByteTokens(EncodeAll(text))) == Ok(text)
  {
    hide Decode, EncodeAll, Group, ByteTokens;
    var values := EncodeAll(text);
    var tokens := ByteTokens(values);
    BeforeEosWhole(tokens);
    ByteTokensAreOneRun(pieces, values);
    DecodingInvertsEncoding(text, []);
    DecodeNothing();
    assert values + [] == values && text + [] == text;
  }
}
