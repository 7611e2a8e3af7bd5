/**
  What the tokenizer's answers are, said of the tokens alone: which piece tables are loaded, which
  token sequences have a text, and which text that is.
*/
module TokenMeaning {
  import opened Outcomes
  import opened Utf8
  import opened TokenDecode

  // ----- the table -----

  /** The value of a hexadecimal digit, and 16 for any other character. */
  function HexValue(c: char): nat {
    if '0' <= c <= '9' then c as int - '0' as int
    else if 'A' <= c <= 'F' then c as int - 'A' as int + 10
    else 16
  }

  /** `text` spells the byte `b` in two hexadecimal digits. */
  predicate NamesByte(text: string, b: int) {
    && |text| == 6 && text[..3] == "<0x" && text[5] == '>'
    && HexValue(text[3]) < 16 && HexValue(text[4]) < 16 && HexValue(text[3]) * 16 + HexValue(text[4]) == b
  }

  lemma ByteNameNamesIt(b: Byte)
    ensures NamesByte(ByteName(b), b)
    ensures forall text :: NamesByte(text, b) ==> text == ByteName(b)
  {
    forall n: nat | n < 16
      ensures HexValue(HexDigit(n)) == n
    {
    }
    forall text | NamesByte(text, b)
      ensures text == ByteName(b)
    {
      assert HexValue(text[3]) == b / 16 && HexValue(text[4]) == b % 16;
      assert text == text[..3] + [text[3], text[4]] + [text[5]];
      DigitOf(text[3]);
      DigitOf(text[4]);
    }
  }

  lemma DigitOf(c: char)
    ensures HexValue(c) < 16 ==> HexDigit(HexValue(c)) == c
  {
  }

  /** The frozen table, column by column. */
  ghost predicate Frozen(raw: seq<RawPiece>) {
    && |raw| == 4096
    && (forall i :: 0 <= i < 4096 ==> raw[i].id == i && raw[i].finiteScore && !raw[i].unused && raw[i].text != "")
    && (forall i :: 0 <= i < 4096 ==> (raw[i].byte <==> 4 <= i < 260))
    && (forall i :: 0 <= i < 4096 ==> (raw[i].control <==> i < 3) && (raw[i].unknown <==> i == 3))
    && raw[0].text == "<pad>" && raw[1].text == "<bos>" && raw[2].text == "<eos>" && raw[3].text == "<unk>"
    && (forall i :: 4 <= i < 260 ==> NamesByte(raw[i].text, i - 4))
    && (forall i, j :: 0 <= i < j < 4096 ==> raw[i].text != raw[j].text)
  }

  /** Exactly the frozen table is loaded. */
  lemma FrozenTableIsFixed(raw: seq<RawPiece>)
    ensures FitsFrozenTable(raw) <==> Frozen(raw)
  {
    hide ByteName, NamesByte;
    forall b: Byte
      ensures forall text :: NamesByte(text, b) <==> text == ByteName(b)
    {
      ByteNameNamesIt(b);
    }
    if |raw| == 4096 && Frozen(raw) {
      forall i | 0 <= i < 4096
        ensures PieceFits(i, raw[i])
      {
        if 4 <= i < 260 {
          var b: Byte := i - 4;
          assert raw[i].text == ByteName(b);
        }
      }
    }
    if FitsFrozenTable(raw) {
      forall i | 4 <= i < 260
        ensures NamesByte(raw[i].text, i - 4)
      {
        var b: Byte := i - 4;
        assert raw[i].text == ByteName(b);
      }
    }
  }

  // ----- the text -----

  /** The sequence ends at the first token 2, or where the tokens end. */
  ghost predicate EndsAt(tokens: seq<RawToken>, n: nat) {
    && n <= |tokens| && (forall j :: 0 <= j < n ==> tokens[j] != Integer(2))
    && (n < |tokens| ==> tokens[n] == Integer(2))
  }

  /**
    The text of tokens before the end, read from the front: 0 and 1 are passed over, 4 to 259 are
    bytes that are decoded together with those around them, 260 to 4095 stand for their piece with
    spaces for markers, and every other token is unknown.
  */
  ghost function Written(pieces: seq<Piece>, tokens: seq<RawToken>, bytes: seq<Byte>): string
    requires |pieces| == 4096
  {
    if tokens == [] then Decode(bytes)
    else if tokens[0] == Integer(0) || tokens[0] == Integer(1) then Written(pieces, tokens[1..], bytes)
    else if tokens[0].Integer? && 4 <= tokens[0].value <= 259 then
      Written(pieces, tokens[1..], bytes + [tokens[0].value - 4])
    else if tokens[0].Integer? && 260 <= tokens[0].value <= 4095 then
      Decode(bytes) + Spaced(pieces[tokens[0].value].text) + Written(pieces, tokens[1..], [])
    else Decode(bytes) + [' ', '\U{2047}', ' '] + Written(pieces, tokens[1..], [])
  }

  /** The first token that is not passed over is a piece that starts with a marker. */
  ghost predicate OpensMarked(pieces: seq<Piece>, tokens: seq<RawToken>, k: nat)
    requires |pieces| == 4096
  {
    && k < |tokens| && (forall j :: 0 <= j < k ==> tokens[j] == Integer(0) || tokens[j] == Integer(1))
    && tokens[k].Integer? && 260 <= tokens[k].value <= 4095
    && pieces[tokens[k].value].text != "" && pieces[tokens[k].value].text[0] == '\U{2581}'
  }

  /** The groups without a byte run at the end, and the bytes of that run. */
  function Settled(items: seq<Item>): seq<Item> {
    if items != [] && items[|items| - 1].ByteRun? then items[..|items| - 1] else items
  }

  function Open(items: seq<Item>): seq<Byte> {
    if items != [] && items[|items| - 1].ByteRun? then items[|items| - 1].values else []
  }

  lemma PlainLast(items: seq<Item>, item: Item)
    ensures Plain(items + [item]) == Plain(items) + Surface(item)
  {
    hide Surface;
    assert (items + [item])[..|items|] == items;
  }

  lemma PlainSettles(items: seq<Item>)
    ensures Plain(items) == Plain(Settled(items)) + Decode(Open(items))
  {
    hide Decode, Plain;
    if items != [] && items[|items| - 1].ByteRun? {
      assert items == Settled(items) + [items[|items| - 1]];
      PlainLast(Settled(items), items[|items| - 1]);
    } else {
      DecodeNothing();
      assert Plain(items) + [] == Plain(items);
    }
  }

  lemma ByteAdded(items: seq<Item>, b: Byte)
    ensures
      var next := Settled(items) + [ByteRun(Open(items) + [b])];
      Settled(next) == Settled(items) && Open(next) == Open(items) + [b]
  {
    var run := ByteRun(Open(items) + [b]);
    FrontAndLast(Settled(items), run);
  }

  lemma TokenJoins(pieces: seq<Piece>, items: seq<Item>, t: RawToken)
    requires |pieces| == 4096 && t.Integer? && 4 <= t.value <= 259
    ensures AddToken(pieces, items, t) == Settled(items) + [ByteRun(Open(items) + [t.value - 4])]
  {
    assert Open(items) == [] ==> Open(items) + [ByteOf(t)] == [ByteOf(t)];
  }

  /** What one token does to the groups, by its number. */
  lemma TokenAdded(pieces: seq<Piece>, items: seq<Item>, t: RawToken)
    requires |pieces| == 4096 && t.Integer? && t.value != 2
    ensures t.value == 0 || t.value == 1 ==> AddToken(pieces, items, t) == items
    ensures 260 <= t.value <= 4095 ==> AddToken(pieces, items, t) == items + [Text(pieces[t.value].text)]
    ensures t.value < 0 || t.value == 3 || t.value > 4095 ==> AddToken(pieces, items, t) == items + [Unknown]
  {
  }

  lemma {:induction false} GroupsAreWritten(pieces: seq<Piece>, done: seq<RawToken>, tokens: seq<RawToken>)
    requires |pieces| == 4096
    requires forall t :: t in tokens ==> t.Integer? && t.value != 2
    ensures
      var items := Group(pieces, done);
      Plain(Group(pieces, done + tokens)) == Plain(Settled(items)) + Written(pieces, tokens, Open(items))
    decreases |tokens|
  {
    hide Decode, Plain, Group, AddToken, Settled, Open, Spaced;
    var items := Group(pieces, done);
    if tokens == [] {
      assert done + tokens == done;
      PlainSettles(items);
    } else {
      var t, rest := tokens[0], tokens[1..];
      var next := Group(pieces, done + [t]);
      assert done + tokens == done + [t] + rest;
      GroupsAreWritten(pieces, done + [t], rest);
      GroupNext(pieces, done, t);
      TokenAdded(pieces, items, t);
      if 4 <= t.value <= 259 {
        TokenJoins(pieces, items, t);
        ByteAdded(items, t.value - 4);
      }
      PlainSettles(items);
      var item := if 260 <= t.value <= 4095 then Text(pieces[t.value].text) else Unknown;
      PlainLast(items, item);
      SettledItem(items, item);
    }
  }

  lemma SettledItem(items: seq<Item>, item: Item)
    requires !item.ByteRun?
    ensures Settled(items + [item]) == items + [item] && Open(items + [item]) == []
  {
  }

  lemma {:induction false} NoGroups(pieces: seq<Piece>, tokens: seq<RawToken>)
    requires |pieces| == 4096
    ensures Group(pieces, tokens) == [] <==>
            forall j :: 0 <= j < |tokens| ==> tokens[j] == Integer(0) || tokens[j] == Integer(1)
  {
    hide AddToken, Group;
    GroupLast(pieces, tokens);
    if tokens != [] {
      var front, t := tokens[..|tokens| - 1], tokens[|tokens| - 1];
      NoGroups(pieces, front);
      AddedToken(pieces, Group(pieces, front), t);
      assert tokens == front + [t];
    }
  }

  lemma AddedToken(pieces: seq<Piece>, items: seq<Item>, t: RawToken)
    requires |pieces| == 4096
    ensures t == Integer(0) || t == Integer(1) ==> AddToken(pieces, items, t) == items
    ensures !(t == Integer(0) || t == Integer(1)) ==> AddToken(pieces, items, t) != []
    ensures items != [] ==> (DropsLeadingSpace(AddToken(pieces, items, t)) <==> DropsLeadingSpace(items))
    ensures t.Integer? && t.value != 2 ==>
              (DropsLeadingSpace(AddToken(pieces, [], t)) <==> OpensMarked(pieces, [t], 0))
  {
  }

  lemma {:induction false} DropsExactlyMarkedOpenings(pieces: seq<Piece>, tokens: seq<RawToken>)
    requires |pieces| == 4096
    requires forall j :: 0 <= j < |tokens| ==> tokens[j].Integer? && tokens[j].value != 2
    ensures DropsLeadingSpace(Group(pieces, tokens)) <==> exists k :: OpensMarked(pieces, tokens, k)
  {
    hide AddToken, Group, DropsLeadingSpace;
    GroupLast(pieces, tokens);
    if tokens == [] {
      NothingDrops();
    } else {
      var front, t := tokens[..|tokens| - 1], tokens[|tokens| - 1];
      DropsExactlyMarkedOpenings(pieces, front);
      NoGroups(pieces, front);
      AddedToken(pieces, Group(pieces, front), t);
      AddedToken(pieces, [], t);
      NothingDrops();
      OpeningNext(pieces, front, t);
      assert tokens == front + [t];
    }
  }

  lemma NothingDrops()
    ensures !DropsLeadingSpace([])
  {
  }

  lemma OpeningNext(pieces: seq<Piece>, front: seq<RawToken>, t: RawToken)
    requires |pieces| == 4096
    ensures
      var passed := forall j :: 0 <= j < |front| ==> front[j] == Integer(0) || front[j] == Integer(1);
      (exists k :: OpensMarked(pieces, front + [t], k)) <==>
      if passed then OpensMarked(pieces, [t], 0) else exists k :: OpensMarked(pieces, front, k)
  {
    if k: nat :| OpensMarked(pieces, front + [t], k) {
      if k < |front| {
        assert forall j :: 0 <= j <= k ==> (front + [t])[j] == front[j];
        assert OpensMarked(pieces, front, k);
      } else {
        assert forall j :: 0 <= j < |front| ==> (front + [t])[j] == front[j];
      }
    }
    if k: nat :| OpensMarked(pieces, front, k) {
      assert OpensMarked(pieces, front + [t], k);
    }
    var passed := forall j :: 0 <= j < |front| ==> front[j] == Integer(0) || front[j] == Integer(1);
    if passed && OpensMarked(pieces, [t], 0) {
      assert OpensMarked(pieces, front + [t], |front|);
    }
  }

  /** The first error in the order of the checks, or the text: all of it said of the tokens before the end. */
  ghost predicate Answers(pieces: seq<Piece>, tokens: seq<RawToken>, n: nat, r: Result<string, DecodeError>)
    requires |pieces| == 4096 && EndsAt(tokens, n)
  {
    if |tokens| > 128 then r == Err(TooManyTokens)
    else if exists j :: 0 <= j < n && tokens[j].NotAnInteger? then r == Err(TokenNotAnInteger)
    else
      var written := Written(pieces, tokens[..n], []);
      exists text: string ::
        && (if exists k :: OpensMarked(pieces, tokens[..n], k) then written == " " + text else written == text)
        && (if |EncodeAll(text)| > 4096 then r == Err(TextTooLong) else r == Ok(text))
  }

  lemma EndOf(tokens: seq<RawToken>, n: nat)
    requires EndsAt(tokens, n)
    ensures BeforeEos(tokens) == tokens[..n]
  {
    if n < |tokens| {
      BeforeEosAt(tokens, n);
    } else {
      BeforeEosWhole(tokens);
      assert tokens[..n] == tokens;
    }
  }

  /** The decoder's answer is what the tokens before the end spell, less one opening space. */
  lemma MeaningIsWhatTokensSpell(pieces: seq<Piece>, tokens: seq<RawToken>, n: nat)
    requires |pieces| == 4096 && EndsAt(tokens, n)
    ensures Answers(pieces, tokens, n, Meaning(pieces, tokens))
  {
    hide Decode, Group, Render, EncodeAll, BeforeEos, Written, OpensMarked, DropsLeadingSpace;
    EndOf(tokens, n);
    var before := tokens[..n];
    assert (exists t :: t in before && t.NotAnInteger?) <==> exists j :: 0 <= j < n && tokens[j].NotAnInteger?;
    if !exists j :: 0 <= j < n && tokens[j].NotAnInteger? {
      SpelledByGroups(pieces, before);
    }
  }

  lemma SpelledByGroups(pieces: seq<Piece>, before: seq<RawToken>)
    requires |pieces| == 4096
    requires forall j :: 0 <= j < |before| ==> before[j].Integer? && before[j].value != 2
    ensures
      var text := Render(Group(pieces, before));
      var written := Written(pieces, before, []);
      if exists k :: OpensMarked(pieces, before, k) then written == " " + text else written == text
  {
    hide Decode, AddToken, Render, Written, OpensMarked, DropsLeadingSpace, Surface;
    var items := Group(pieces, before);
    GroupsAreWritten(pieces, [], before);
    assert [] + before == before;
    DropsExactlyMarkedOpenings(pieces, before);
    AtMostOneSpaceIsDropped(items);
    NothingPlain();
    assert [] + Written(pieces, before, []) == Written(pieces, before, []);
    assert "" + Render(items) == Render(items);
  }

  lemma NothingPlain()
    ensures Plain([]) == [] && Settled([]) == [] && Open([]) == []
  {
  }
}
