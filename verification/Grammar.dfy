/**
 The reply language of the protocol, given by derivation trees: a Word is a tree, WordBytes is the
 text it derives, WordValue is what a client is told. Nothing here mentions parser states.
 */
module Grammar {
  import opened Bytes

  /** The three one-line replies. */
  datatype Kind = OkLine | ErrorLine | IntegerLine

  /** A bulk reply: nil, or a declared length (digits as written) and that many bytes. */
  datatype Item = NilBulk | Bulk(digits: seq<Byte>, body: seq<Byte>)

  /** A whole reply; a multibulk reply declares how many bulk replies follow. */
  datatype Word =
    | Line(kind: Kind, text: seq<Byte>)
    | Single(item: Item)
    | NilMulti
    | Multi(digits: seq<Byte>, items: seq<Item>)

  /** What an Item and a Word mean to the client: the digits' spelling is forgotten. */
  datatype ItemValue = NilValue | BytesValue(body: seq<Byte>)

  datatype Value =
    | LineValue(kind: Kind, text: seq<Byte>)
    | ItemValue(item: ItemValue)
    | NilMultiValue
    | MultiValue(items: seq<ItemValue>)

  predicate WfItem(i: Item) {
    i.Bulk? ==> IsNumeral(i.digits) && DecimalValue(i.digits) == |i.body|
  }

  predicate WfItems(items: seq<Item>) {
    forall i | i in items :: WfItem(i)
  }

  predicate WfWord(w: Word) {
    match w
    case Line(_, text) => CR !in text
    case Single(item) => WfItem(item)
    case NilMulti => true
    case Multi(digits, items) =>
      IsNumeral(digits) && DecimalValue(digits) == |items| && WfItems(items)
  }

  function Marker(k: Kind): Byte {
    match k
    case OkLine => PLUS
    case ErrorLine => MINUS
    case IntegerLine => COLON
  }

  function ItemBytes(i: Item): seq<Byte> {
    match i
    case NilBulk => [DOLLAR] + [MINUS] + [ONE] + [CR] + [LF]
    case Bulk(digits, body) => [DOLLAR] + digits + [CR] + [LF] + body + [CR] + [LF]
  }

  function ItemsBytes(items: seq<Item>): seq<Byte> {
    if items == [] then [] else ItemsBytes(items[..|items| - 1]) + ItemBytes(items[|items| - 1])
  }

  function WordBytes(w: Word): seq<Byte> {
    match w
    case Line(kind, text) => [Marker(kind)] + text + [CR] + [LF]
    case Single(item) => ItemBytes(item)
    case NilMulti => [STAR] + [MINUS] + [ONE] + [CR] + [LF]
    case Multi(digits, items) => [STAR] + digits + [CR] + [LF] + ItemsBytes(items)
  }

  /** The text of several replies in a row. */
  function WordsBytes(ws: seq<Word>): seq<Byte> {
    if ws == [] then [] else WordsBytes(ws[..|ws| - 1]) + WordBytes(ws[|ws| - 1])
  }

  predicate WfWords(ws: seq<Word>) {
    forall w | w in ws :: WfWord(w)
  }

  function ItemMeaning(i: Item): ItemValue {
    match i
    case NilBulk => NilValue
    case Bulk(_, body) => BytesValue(body)
  }

  function ItemMeanings(items: seq<Item>): (r: seq<ItemValue>)
    ensures |r| == |items|
    ensures forall k | 0 <= k < |items| :: r[k] == ItemMeaning(items[k])
  {
    seq(|items|, k requires 0 <= k < |items| => ItemMeaning(items[k]))
  }

  function Meaning(w: Word): Value {
    match w
    case Line(kind, text) => LineValue(kind, text)
    case Single(item) => ItemValue(ItemMeaning(item))
    case NilMulti => NilMultiValue
    case Multi(_, items) => MultiValue(ItemMeanings(items))
  }

  function Meanings(ws: seq<Word>): (r: seq<Value>)
    ensures |r| == |ws|
    ensures forall k | 0 <= k < |ws| :: r[k] == Meaning(ws[k])
  {
    seq(|ws|, k requires 0 <= k < |ws| => Meaning(ws[k]))
  }

  // ----- The same texts, byte by byte -----

  /** A one-line reply: '+', '-' or ':', the text, CR and LF. */
  predicate IsLineText(t: seq<Byte>, marker: Byte, text: seq<Byte>) {
    t == [marker] + text + [13, 10] && 13 !in text
  }

  /** "$-1", CR and LF. */
  predicate IsNilText(t: seq<Byte>) {
    t == [36, 45, 49, 13, 10]
  }

  /** n in decimal digits. */
  predicate IsLength(digits: seq<Byte>, n: nat) {
    |digits| > 0 && (forall d | d in digits :: IsDigit(d) && 48 <= d <= 57) && DecimalValue(digits) == n
  }

  /** '$', the length of the body, CR and LF, the body, CR and LF. */
  ghost predicate IsBulkText(t: seq<Byte>, body: seq<Byte>) {
    exists digits :: IsLength(digits, |body|) && t == [36] + digits + [13, 10] + body + [13, 10]
  }

  /** '*', the number of children, CR and LF, and then the children. */
  ghost predicate IsMultiText(t: seq<Byte>, children: seq<seq<Byte>>) {
    exists digits :: IsLength(digits, |children|) && t == [42] + digits + [13, 10] + Joined(children)
  }

  function ItemTexts(items: seq<Item>): (ts: seq<seq<Byte>>)
    ensures |ts| == |items|
    ensures forall k | 0 <= k < |items| :: ts[k] == ItemBytes(items[k])
  {
    seq(|items|, k requires 0 <= k < |items| => ItemBytes(items[k]))
  }

  lemma LengthSpelled(digits: seq<Byte>)
    requires IsNumeral(digits)
    ensures IsLength(digits, DecimalValue(digits))
  {
    hide DecimalValue;
  }

  lemma ItemSpelled(i: Item)
    requires WfItem(i)
    ensures if i.NilBulk? then IsNilText(ItemBytes(i)) else IsBulkText(ItemBytes(i), i.body)
  {
    hide DecimalValue, IsNumeral, IsLength;
    if i.Bulk? {
      LengthSpelled(i.digits);
      assert ItemBytes(i) == [36] + i.digits + [13, 10] + i.body + [13, 10];
    }
  }

  lemma {:induction false} ItemsJoined(items: seq<Item>)
    ensures ItemsBytes(items) == Joined(ItemTexts(items))
  {
    hide ItemBytes, Joined;
    if items == [] {
      NothingJoined();
      assert ItemTexts(items) == [];
    } else {
      var init, last := items[..|items| - 1], items[|items| - 1];
      ItemsJoined(init);
      assert ItemTexts(items) == ItemTexts(init) + [ItemBytes(last)];
      JoinedConcat(ItemTexts(init), [ItemBytes(last)]);
      OneJoined(ItemBytes(last));
    }
  }

  lemma MultiSpelled(digits: seq<Byte>, items: seq<Item>)
    requires WfWord(Multi(digits, items))
    ensures IsMultiText(WordBytes(Multi(digits, items)), ItemTexts(items))
  {
    hide DecimalValue, IsNumeral, IsLength, ItemTexts, ItemsBytes, WfItems, Joined;
    ItemsJoined(items);
    LengthSpelled(digits);
    assert WordBytes(Multi(digits, items)) == [42] + digits + [13, 10] + Joined(ItemTexts(items));
  }

  lemma {:induction false} WordsBytesSnoc(ws: seq<Word>, w: Word)
    ensures WordsBytes(ws + [w]) == WordsBytes(ws) + WordBytes(w)
  {
    assert (ws + [w])[..|ws|] == ws;
  }

  lemma {:induction false} ItemsBytesSnoc(items: seq<Item>, i: Item)
    ensures ItemsBytes(items + [i]) == ItemsBytes(items) + ItemBytes(i)
  {
    assert (items + [i])[..|items|] == items;
  }

  lemma {:induction false} WordsBytesConcat(a: seq<Word>, b: seq<Word>)
    ensures WordsBytes(a + b) == WordsBytes(a) + WordsBytes(b)
    decreases |b|
  {
    if b == [] {
      assert a + b == a;
    } else {
      var init, last := b[..|b| - 1], b[|b| - 1];
      assert WordsBytes(a + b) == WordsBytes(a + init) + WordBytes(last) by {
        assert a + b == (a + init) + [last];
        WordsBytesSnoc(a + init, last);
      }
      WordsBytesConcat(a, init);
    }
  }

  lemma {:induction false} WordsBytesCons(w: Word, ws: seq<Word>)
    ensures WordsBytes([w] + ws) == WordBytes(w) + WordsBytes(ws)
  {
    WordsBytesConcat([w], ws);
    WordsBytesSnoc([], w);
    assert [] + [w] == [w];
    assert WordsBytes([w]) == [] + WordBytes(w) == WordBytes(w);
  }

  lemma {:induction false} ItemsBytesConcat(a: seq<Item>, b: seq<Item>)
    ensures ItemsBytes(a + b) == ItemsBytes(a) + ItemsBytes(b)
    decreases |b|
  {
    if b == [] {
      assert a + b == a;
    } else {
      var init, last := b[..|b| - 1], b[|b| - 1];
      assert ItemsBytes(a + b) == ItemsBytes(a + init) + ItemBytes(last) by {
        assert a + b == (a + init) + [last];
        ItemsBytesSnoc(a + init, last);
      }
      ItemsBytesConcat(a, init);
    }
  }
}
