/**
 The reply parser as a byte-at-a-time automaton over partial derivations, and what it decides.

 A Partial is a derivation in progress, with one Stage for each group of parser states; Consumed
 gives back the text read since the last complete reply. Run folds Next over a text. The theorems
 say that Run inverts the grammar (RunDecodes, RunInverts), that its three verdicts are
 exactly the three ways a text can relate to the language (ReplyIff, MoreIff, ErrorIff),
 and that a text may be cut anywhere (RunConcat).
 */
module Machine {
  import opened Bytes
  import opened Grammar

  datatype Stage =
    | AtStart
    | InLine(kind: Kind, text: seq<Byte>)
    | LineCr(kind: Kind, text: seq<Byte>)
    | Dollar
    | NilMinus
    | NilOne
    | NilCr
    | InCount(digits: seq<Byte>)
    | CountCr(digits: seq<Byte>)
    | InBody(digits: seq<Byte>, body: seq<Byte>)
    | BodyCr(digits: seq<Byte>, body: seq<Byte>)
    | Star
    | MultiMinus
    | MultiOne
    | MultiCr
    | InMultiCount(digits: seq<Byte>)
    | MultiCountCr(digits: seq<Byte>)

  /** A multibulk reply whose items are still arriving. */
  datatype Open = NoMulti | Open(digits: seq<Byte>, items: seq<Item>)

  datatype Partial = Partial(stage: Stage, open: Open)

  const Init := Partial(AtStart, NoMulti)

  datatype Out = Go(next: Partial) | Done(word: Word) | Bad

  /** An item is complete: it is a reply by itself, or one more child of the open multibulk. */
  function Complete(open: Open, item: Item): Out
    requires open.Open? ==> IsNumeral(open.digits)
  {
    if open.NoMulti? then Done(Single(item))
    else
      var items := open.items + [item];
      if |items| == DecimalValue(open.digits) then Done(Word.Multi(open.digits, items))
      else Go(Partial(AtStart, Open(open.digits, items)))
  }

  /** One byte. */
  function Next(a: Partial, c: Byte): Out
    requires WfPartial(a)
  {
    match a.stage
    case AtStart =>
      if c == DOLLAR then Go(a.(stage := Dollar))
      else if a.open.Open? then Bad
      else if c == PLUS then Go(a.(stage := InLine(OkLine, [])))
      else if c == MINUS then Go(a.(stage := InLine(ErrorLine, [])))
      else if c == STAR then Go(a.(stage := Star))
      else if c == COLON then Go(a.(stage := InLine(IntegerLine, [])))
      else Bad
    case InLine(kind, text) =>
      if c == CR then Go(a.(stage := LineCr(kind, text)))
      else Go(a.(stage := InLine(kind, text + [c])))
    case LineCr(kind, text) => if c == LF then Done(Line(kind, text)) else Bad
    case Dollar =>
      if c == MINUS then Go(a.(stage := NilMinus))
      else if IsDigit(c) then Go(a.(stage := InCount([c])))
      else Bad
    case NilMinus => if c == ONE then Go(a.(stage := NilOne)) else Bad
    case NilOne => if c == CR then Go(a.(stage := NilCr)) else Bad
    case NilCr => if c == LF then Complete(a.open, NilBulk) else Bad
    case InCount(digits) =>
      if c == CR then Go(a.(stage := CountCr(digits)))
      else if IsDigit(c) then Go(a.(stage := InCount(digits + [c])))
      else Bad
    case CountCr(digits) => if c == LF then Go(a.(stage := InBody(digits, []))) else Bad
    case InBody(digits, body) =>
      if |body| < DecimalValue(digits) then Go(a.(stage := InBody(digits, body + [c])))
      else if c == CR then Go(a.(stage := BodyCr(digits, body)))
      else Bad
    case BodyCr(digits, body) =>
      if c == LF then Complete(a.open, Bulk(digits, body)) else Bad
    case Star =>
      if c == MINUS then Go(a.(stage := MultiMinus))
      else if IsDigit(c) then Go(a.(stage := InMultiCount([c])))
      else Bad
    case MultiMinus => if c == ONE then Go(a.(stage := MultiOne)) else Bad
    case MultiOne => if c == CR then Go(a.(stage := MultiCr)) else Bad
    case MultiCr => if c == LF then Done(NilMulti) else Bad
    case InMultiCount(digits) =>
      if c == CR then Go(a.(stage := MultiCountCr(digits)))
      else if IsDigit(c) then Go(a.(stage := InMultiCount(digits + [c])))
      else Bad
    case MultiCountCr(digits) =>
      if c != LF then Bad
      else if DecimalValue(digits) == 0 then Done(Word.Multi(digits, []))
      else Go(Partial(AtStart, Open(digits, [])))
  }

  /** Stages that can occur inside a multibulk reply. */
  predicate ItemStage(s: Stage) {
    s.AtStart? || s.Dollar? || s.NilMinus? || s.NilOne? || s.NilCr?
    || s.InCount? || s.CountCr? || s.InBody? || s.BodyCr?
  }

  /** The partial derivations that occur. An open multibulk still misses at least one child. */
  predicate WfPartial(a: Partial) {
    && (a.open.Open? ==>
          && ItemStage(a.stage)
          && IsNumeral(a.open.digits)
          && WfItems(a.open.items)
          && |a.open.items| < DecimalValue(a.open.digits))
    && (match a.stage
        case InLine(_, text) => CR !in text
        case LineCr(_, text) => CR !in text
        case InCount(digits) => IsNumeral(digits)
        case CountCr(digits) => IsNumeral(digits)
        case InBody(digits, body) => IsNumeral(digits) && |body| <= DecimalValue(digits)
        case BodyCr(digits, body) => IsNumeral(digits) && |body| == DecimalValue(digits)
        case InMultiCount(digits) => IsNumeral(digits)
        case MultiCountCr(digits) => IsNumeral(digits)
        case _ => true)
  }

  /** The text of the open multibulk reply up to its last complete child. */
  function OpenBytes(open: Open): seq<Byte> {
    if open.NoMulti? then [] else [STAR] + open.digits + [CR] + [LF] + ItemsBytes(open.items)
  }

  function StageBytes(s: Stage): seq<Byte> {
    match s
    case AtStart => []
    case InLine(kind, text) => [Marker(kind)] + text
    case LineCr(kind, text) => [Marker(kind)] + text + [CR]
    case Dollar => [DOLLAR]
    case NilMinus => [DOLLAR] + [MINUS]
    case NilOne => [DOLLAR] + [MINUS] + [ONE]
    case NilCr => [DOLLAR] + [MINUS] + [ONE] + [CR]
    case InCount(digits) => [DOLLAR] + digits
    case CountCr(digits) => [DOLLAR] + digits + [CR]
    case InBody(digits, body) => [DOLLAR] + digits + [CR] + [LF] + body
    case BodyCr(digits, body) => [DOLLAR] + digits + [CR] + [LF] + body + [CR]
    case Star => [STAR]
    case MultiMinus => [STAR] + [MINUS]
    case MultiOne => [STAR] + [MINUS] + [ONE]
    case MultiCr => [STAR] + [MINUS] + [ONE] + [CR]
    case InMultiCount(digits) => [STAR] + digits
    case MultiCountCr(digits) => [STAR] + digits + [CR]
  }

  /** All the text read since the last complete reply. */
  function Consumed(a: Partial): seq<Byte> {
    if a.stage.AtStart? then OpenBytes(a.open)
    else if a.open.NoMulti? then StageBytes(a.stage)
    else OpenBytes(a.open) + StageBytes(a.stage)
  }

  datatype Verdict =
    | More(state: Partial)                        // the text ran out inside a reply
    | Reply(word: Word, rest: seq<Byte>)          // a reply, and the text after it
    | Error(before: Partial, from: seq<Byte>)     // stuck before from[0]

  function Run(a: Partial, s: seq<Byte>): (v: Verdict)
    requires WfPartial(a)
    ensures v.More? ==> WfPartial(v.state)
    ensures v.Error? ==> WfPartial(v.before) && |v.from| > 0 && Next(v.before, v.from[0]) == Bad
    decreases |s|
  {
    if s == [] then More(a)
    else
      NextSound(a, s[0]);
      match Next(a, s[0])
      case Go(b) => Run(b, s[1..])
      case Done(w) => Reply(w, s[1..])
      case Bad => Error(a, s)
  }

  lemma Assoc<T>(x: seq<T>, y: seq<T>, z: seq<T>)
    ensures (x + y) + z == x + (y + z)
  {
  }

  /** A step is sound when the new state or the word accounts for the text read so far. */
  ghost predicate Sound(out: Out, text: seq<Byte>) {
    && (out.Go? ==> WfPartial(out.next) && Consumed(out.next) == text)
    && (out.Done? ==> WfWord(out.word) && WordBytes(out.word) == text)
  }

  lemma CompleteSound(open: Open, item: Item)
    requires open.Open? ==> IsNumeral(open.digits) && WfItems(open.items)
                            && |open.items| < DecimalValue(open.digits)
    requires WfItem(item)
    ensures Sound(Complete(open, item),
                  if open.NoMulti? then ItemBytes(item) else OpenBytes(open) + ItemBytes(item))
  {
    if open.Open? {
      ItemsBytesSnoc(open.items, item);
      var header := [STAR] + open.digits + [CR] + [LF];
      Assoc(header, ItemsBytes(open.items), ItemBytes(item));
    }
  }

  lemma NextSoundLine(a: Partial, c: Byte)
    requires WfPartial(a)
    requires a.stage.AtStart? || a.stage.InLine? || a.stage.LineCr?
    ensures Sound(Next(a, c), Consumed(a) + [c])
  {
    match a.stage
    case AtStart => assert [] + [c] == [c]; assert [c] + [] == [c];
    case InLine(kind, text) => Assoc([Marker(kind)], text, [c]);
    case _ =>
  }

  lemma NextSoundBulk(a: Partial, c: Byte)
    requires WfPartial(a)
    requires ItemStage(a.stage) && !a.stage.AtStart?
    ensures Sound(Next(a, c), Consumed(a) + [c])
  {
    hide OpenBytes, DecimalValue, WfItems;
    Assoc(OpenBytes(a.open), StageBytes(a.stage), [c]);
    match a.stage
    case NilCr => CompleteSound(a.open, NilBulk);
    case BodyCr(digits, body) => CompleteSound(a.open, Bulk(digits, body));
    case InCount(digits) => Assoc([DOLLAR], digits, [c]);
    case InBody(digits, body) => Assoc([DOLLAR] + digits + [CR] + [LF], body, [c]);
    case CountCr(digits) =>
      var header := [DOLLAR] + digits + [CR] + [LF];
      assert header + [] == header;
    case _ =>
  }

  lemma NextSoundMulti(a: Partial, c: Byte)
    requires WfPartial(a)
    requires !ItemStage(a.stage) && !a.stage.InLine? && !a.stage.LineCr?
    ensures Sound(Next(a, c), Consumed(a) + [c])
  {
    match a.stage
    case InMultiCount(digits) => Assoc([STAR], digits, [c]);
    case MultiCountCr(digits) =>
      var header := [STAR] + digits + [CR] + [LF];
      assert header + [] == header;
    case _ =>
  }

  /** One step keeps the derivation well formed and accounts for exactly one more byte. */
  lemma NextSound(a: Partial, c: Byte)
    requires WfPartial(a)
    ensures Sound(Next(a, c), Consumed(a) + [c])
  {
    if a.stage.AtStart? || a.stage.InLine? || a.stage.LineCr? {
      NextSoundLine(a, c);
    } else if ItemStage(a.stage) {
      NextSoundBulk(a, c);
    } else {
      NextSoundMulti(a, c);
    }
  }

  /** No byte is lost or counted twice: what Run consumed plus what it left is the text it was given. */
  lemma {:induction false} RunDecodes(a: Partial, s: seq<Byte>)
    requires WfPartial(a)
    ensures match Run(a, s)
            case More(b) => Consumed(b) == Consumed(a) + s
            case Reply(w, rest) => WfWord(w) && |rest| < |s| && WordBytes(w) + rest == Consumed(a) + s
            case Error(b, from) => |from| <= |s| && Consumed(b) + from == Consumed(a) + s
    decreases |s|
  {
    if s == [] {
      assert Consumed(a) + s == Consumed(a);
    } else {
      NextSound(a, s[0]);
      assert Consumed(a) + s == (Consumed(a) + [s[0]]) + s[1..] by {
        assert s == [s[0]] + s[1..];
        Assoc(Consumed(a), [s[0]], s[1..]);
      }
      if Next(a, s[0]).Go? {
        RunDecodes(Next(a, s[0]).next, s[1..]);
      }
    }
  }

  function Extend(v: Verdict, t: seq<Byte>): Verdict
    requires v.More? ==> WfPartial(v.state)
  {
    match v
    case More(b) => Run(b, t)
    case Reply(w, rest) => Reply(w, rest + t)
    case Error(b, from) => Error(b, from + t)
  }

  /** Chunk independence: the text can be handed over in two parts cut at any byte. */
  lemma {:induction false} RunConcat(a: Partial, s: seq<Byte>, t: seq<Byte>)
    requires WfPartial(a)
    ensures Run(a, s + t) == Extend(Run(a, s), t)
    decreases |s|
  {
    if s == [] {
      assert s + t == t;
    } else {
      NextSound(a, s[0]);
      assert (s + t)[1..] == s[1..] + t;
      if Next(a, s[0]).Go? {
        RunConcat(Next(a, s[0]).next, s[1..], t);
      }
    }
  }

  /** Up to the byte where it gets stuck, the automaton asks for more. */
  lemma {:induction false} ErrorBefore(a: Partial, s: seq<Byte>)
    requires WfPartial(a) && Run(a, s).Error?
    ensures |Run(a, s).from| <= |s| && Run(a, s[..|s| - |Run(a, s).from|]) == More(Run(a, s).before)
    decreases |s|
  {
    NextSound(a, s[0]);
    if Next(a, s[0]).Go? {
      var b := Next(a, s[0]).next;
      ErrorBefore(b, s[1..]);
      var n := |s| - |Run(a, s).from|;
      assert n > 0 && s[..n][0] == s[0] && s[..n][1..] == s[1..][..n - 1];
    }
  }

  // ----- Completeness: Run reads every word of the grammar -----

  lemma {:induction false} RunText(kind: Kind, read: seq<Byte>, text: seq<Byte>)
    requires CR !in read && CR !in text
    ensures Run(Partial(InLine(kind, read), NoMulti), text)
         == More(Partial(InLine(kind, read + text), NoMulti))
    decreases |text|
  {
    if text == [] {
      assert read + text == read;
    } else {
      RunText(kind, read + [text[0]], text[1..]);
      assert read + [text[0]] + text[1..] == read + text;
    }
  }

  lemma {:induction false} RunDigits(open: Open, read: seq<Byte>, more: seq<Byte>)
    requires IsNumeral(read) && forall c | c in more :: IsDigit(c)
    requires WfPartial(Partial(InCount(read), open))
    ensures Run(Partial(InCount(read), open), more) == More(Partial(InCount(read + more), open))
    decreases |more|
  {
    if more == [] {
      assert read + more == read;
    } else {
      assert more[0] in more;
      RunDigits(open, read + [more[0]], more[1..]);
      assert read + [more[0]] + more[1..] == read + more;
    }
  }

  lemma {:induction false} RunMultiDigits(read: seq<Byte>, more: seq<Byte>)
    requires IsNumeral(read) && forall c | c in more :: IsDigit(c)
    ensures Run(Partial(InMultiCount(read), NoMulti), more)
         == More(Partial(InMultiCount(read + more), NoMulti))
    decreases |more|
  {
    if more == [] {
      assert read + more == read;
    } else {
      assert more[0] in more;
      RunMultiDigits(read + [more[0]], more[1..]);
      assert read + [more[0]] + more[1..] == read + more;
    }
  }

  lemma {:induction false} RunBody(open: Open, digits: seq<Byte>, read: seq<Byte>, more: seq<Byte>)
    requires IsNumeral(digits) && |read| + |more| <= DecimalValue(digits)
    requires WfPartial(Partial(InBody(digits, read), open))
    ensures Run(Partial(InBody(digits, read), open), more)
         == More(Partial(InBody(digits, read + more), open))
    decreases |more|
  {
    if more == [] {
      assert read + more == read;
    } else {
      RunBody(open, digits, read + [more[0]], more[1..]);
      assert read + [more[0]] + more[1..] == read + more;
    }
  }

  /** If s leaves the automaton in b, reading s + t is reading t from b. */
  lemma {:induction false} Chain(a: Partial, s: seq<Byte>, b: Partial, t: seq<Byte>)
    requires WfPartial(a) && Run(a, s) == More(b)
    ensures Run(a, s + t) == Run(b, t)
  {
    RunConcat(a, s, t);
  }

  lemma {:induction false} RunOne(a: Partial, c: Byte)
    requires WfPartial(a)
    ensures Run(a, [c]) == match Next(a, c)
                           case Go(b) => More(b)
                           case Done(w) => Reply(w, [])
                           case Bad => Error(a, [c])
  {
    assert [c][1..] == [];
    NextSound(a, c);
  }

  /** What is reached when an item has been read in full. */
  function Completed(open: Open, item: Item): Verdict
    requires open.Open? ==> IsNumeral(open.digits)
  {
    match Complete(open, item)
    case Go(b) => More(b)
    case Done(w) => Reply(w, [])
    case Bad => Error(Init, [])
  }

  lemma {:induction false} RunNil(open: Open)
    requires WfPartial(Partial(AtStart, open))
    ensures Run(Partial(AtStart, open), ItemBytes(NilBulk)) == Completed(open, NilBulk)
  {
    var a := Partial(AtStart, open);
    RunOne(a, DOLLAR);
    Chain(a, [DOLLAR], a.(stage := Dollar), [MINUS]);
    RunOne(a.(stage := Dollar), MINUS);
    Chain(a, [DOLLAR] + [MINUS], a.(stage := NilMinus), [ONE]);
    RunOne(a.(stage := NilMinus), ONE);
    Chain(a, [DOLLAR] + [MINUS] + [ONE], a.(stage := NilOne), [CR]);
    RunOne(a.(stage := NilOne), CR);
    Chain(a, [DOLLAR] + [MINUS] + [ONE] + [CR], a.(stage := NilCr), [LF]);
    RunOne(a.(stage := NilCr), LF);
    CompleteSound(open, NilBulk);
  }

  /** The digits after '$' up to and including their CR LF. */
  lemma {:induction false} RunCount(open: Open, digits: seq<Byte>)
    requires WfPartial(Partial(AtStart, open)) && IsNumeral(digits)
    ensures Run(Partial(AtStart, open), [DOLLAR] + digits + [CR] + [LF])
         == More(Partial(InBody(digits, []), open))
  {
    var a := Partial(AtStart, open);
    RunOne(a, DOLLAR);
    Chain(a, [DOLLAR], a.(stage := Dollar), digits);
    assert digits[0] in digits;
    assert [digits[0]] + digits[1..] == digits;
    RunDigits(open, [digits[0]], digits[1..]);
    Chain(a, [DOLLAR] + digits, a.(stage := InCount(digits)), [CR]);
    RunOne(a.(stage := InCount(digits)), CR);
    Chain(a, [DOLLAR] + digits + [CR], a.(stage := CountCr(digits)), [LF]);
    RunOne(a.(stage := CountCr(digits)), LF);
  }

  lemma {:induction false} RunBulk(open: Open, digits: seq<Byte>, body: seq<Byte>)
    requires WfPartial(Partial(AtStart, open)) && WfItem(Bulk(digits, body))
    ensures Run(Partial(AtStart, open), ItemBytes(Bulk(digits, body))) == Completed(open, Bulk(digits, body))
  {
    var a := Partial(AtStart, open);
    var header := [DOLLAR] + digits + [CR] + [LF];
    RunCount(open, digits);
    Chain(a, header, a.(stage := InBody(digits, [])), body);
    RunBody(open, digits, [], body);
    assert [] + body == body;
    Chain(a, header + body, a.(stage := InBody(digits, body)), [CR]);
    RunOne(a.(stage := InBody(digits, body)), CR);
    Chain(a, header + body + [CR], a.(stage := BodyCr(digits, body)), [LF]);
    RunOne(a.(stage := BodyCr(digits, body)), LF);
    CompleteSound(open, Bulk(digits, body));
  }

  lemma {:induction false} RunItem(open: Open, item: Item)
    requires WfPartial(Partial(AtStart, open)) && WfItem(item)
    ensures Run(Partial(AtStart, open), ItemBytes(item)) == Completed(open, item)
  {
    match item
    case NilBulk => RunNil(open);
    case Bulk(digits, body) => RunBulk(open, digits, body);
  }

  function MultiHeader(digits: seq<Byte>): seq<Byte> {
    [STAR] + digits + [CR] + [LF]
  }

  lemma {:induction false} RunMultiHeader(digits: seq<Byte>)
    requires IsNumeral(digits)
    ensures Run(Init, MultiHeader(digits))
         == if DecimalValue(digits) == 0 then Reply(Word.Multi(digits, []), [])
            else More(Partial(AtStart, Open(digits, [])))
  {
    RunOne(Init, STAR);
    Chain(Init, [STAR], Init.(stage := Star), digits);
    assert digits[0] in digits;
    assert [digits[0]] + digits[1..] == digits;
    RunMultiDigits([digits[0]], digits[1..]);
    Chain(Init, [STAR] + digits, Init.(stage := InMultiCount(digits)), [CR]);
    RunOne(Init.(stage := InMultiCount(digits)), CR);
    Chain(Init, [STAR] + digits + [CR], Init.(stage := MultiCountCr(digits)), [LF]);
    RunOne(Init.(stage := MultiCountCr(digits)), LF);
  }

  /** One more child after the children read so far. */
  lemma {:induction false} RunNextItem(open: Open, read: seq<Byte>, item: Item)
    requires open.Open? && WfPartial(Partial(AtStart, open)) && WfItem(item)
    requires Run(Init, read + ItemsBytes(open.items)) == More(Partial(AtStart, open))
    ensures Run(Init, read + ItemsBytes(open.items + [item])) == Completed(open, item)
  {
    ItemsBytesSnoc(open.items, item);
    Assoc(read, ItemsBytes(open.items), ItemBytes(item));
    Chain(Init, read + ItemsBytes(open.items), Partial(AtStart, open), ItemBytes(item));
    RunItem(open, item);
  }

  lemma {:induction false} RunItems(digits: seq<Byte>, items: seq<Item>)
    requires IsNumeral(digits) && WfItems(items)
    requires 0 < DecimalValue(digits) && |items| <= DecimalValue(digits)
    ensures Run(Init, MultiHeader(digits) + ItemsBytes(items))
         == if |items| == DecimalValue(digits) then Reply(Word.Multi(digits, items), [])
            else More(Partial(AtStart, Open(digits, items)))
    decreases |items|
  {
    if items == [] {
      RunMultiHeader(digits);
      assert MultiHeader(digits) + [] == MultiHeader(digits);
    } else {
      var init, last := items[..|items| - 1], items[|items| - 1];
      RunItems(digits, init);
      assert init + [last] == items;
      RunNextItem(Open(digits, init), MultiHeader(digits), last);
    }
  }

  lemma RunLine(kind: Kind, text: seq<Byte>)
    requires CR !in text
    ensures Run(Init, WordBytes(Line(kind, text))) == Reply(Line(kind, text), [])
  {
    RunOne(Init, Marker(kind));
    Chain(Init, [Marker(kind)], Init.(stage := InLine(kind, [])), text);
    RunText(kind, [], text);
    assert [] + text == text;
    Chain(Init, [Marker(kind)] + text, Init.(stage := InLine(kind, text)), [CR]);
    RunOne(Init.(stage := InLine(kind, text)), CR);
    Chain(Init, [Marker(kind)] + text + [CR], Init.(stage := LineCr(kind, text)), [LF]);
    RunOne(Init.(stage := LineCr(kind, text)), LF);
  }

  lemma RunNilMulti()
    ensures Run(Init, WordBytes(NilMulti)) == Reply(NilMulti, [])
  {
    RunOne(Init, STAR);
    Chain(Init, [STAR], Init.(stage := Star), [MINUS]);
    RunOne(Init.(stage := Star), MINUS);
    Chain(Init, [STAR] + [MINUS], Init.(stage := MultiMinus), [ONE]);
    RunOne(Init.(stage := MultiMinus), ONE);
    Chain(Init, [STAR] + [MINUS] + [ONE], Init.(stage := MultiOne), [CR]);
    RunOne(Init.(stage := MultiOne), CR);
    Chain(Init, [STAR] + [MINUS] + [ONE] + [CR], Init.(stage := MultiCr), [LF]);
    RunOne(Init.(stage := MultiCr), LF);
  }

  /** Run recovers every derivation tree from its text. */
  lemma RunInverts(w: Word)
    requires WfWord(w)
    ensures Run(Init, WordBytes(w)) == Reply(w, [])
  {
    match w
    case Line(kind, text) => RunLine(kind, text);
    case Single(item) => RunItem(NoMulti, item);
    case NilMulti => RunNilMulti();
    case Multi(digits, items) =>
      if items == [] {
        RunMultiHeader(digits);
        assert MultiHeader(digits) + [] == MultiHeader(digits);
      } else {
        RunItems(digits, items);
      }
  }

  // ----- Every state can still be completed to a word -----

  function Nils(n: nat): (r: seq<Item>)
    ensures |r| == n && WfItems(r)
  {
    seq(n, _ => NilBulk)
  }

  lemma CompleteItem(s: Stage) returns (i: Item)
    requires ItemStage(s) && WfPartial(Partial(s, NoMulti))
    ensures WfItem(i) && StageBytes(s) < ItemBytes(i)
  {
    match s
    case InCount(digits) =>
      i := Bulk(digits, seq(DecimalValue(digits), _ => 0 as Byte));
    case CountCr(digits) =>
      i := Bulk(digits, seq(DecimalValue(digits), _ => 0 as Byte));
    case InBody(digits, body) =>
      i := Bulk(digits, body + seq(DecimalValue(digits) - |body|, _ => 0 as Byte));
    case BodyCr(digits, body) =>
      i := Bulk(digits, body);
    case _ =>
      i := NilBulk;
  }

  lemma ConsumedInOpen(a: Partial)
    requires a.open.Open?
    ensures Consumed(a) == MultiHeader(a.open.digits) + ItemsBytes(a.open.items) + StageBytes(a.stage)
  {
    if a.stage.AtStart? {
      var read := MultiHeader(a.open.digits) + ItemsBytes(a.open.items);
      assert read + [] == read;
    }
  }

  /** Inside an open multibulk: finish the current item, then pad with nil bulks. */
  lemma CompleteOpen(a: Partial) returns (w: Word)
    requires WfPartial(a) && a.open.Open?
    ensures WfWord(w) && Consumed(a) < WordBytes(w)
  {
    hide ItemsBytes, ItemBytes, StageBytes, Consumed;
    var digits, items := a.open.digits, a.open.items;
    var i := CompleteItem(a.stage);
    var tail := Nils(DecimalValue(digits) - |items| - 1);
    w := Word.Multi(digits, items + [i] + tail);
    ItemsBytesConcat(items + [i], tail);
    ItemsBytesSnoc(items, i);
    var header := MultiHeader(digits);
    var mid, rest := ItemBytes(i), ItemsBytes(tail);
    assert WordBytes(w) == header + ItemsBytes(items) + mid + rest by {
      Assoc(header, ItemsBytes(items) + mid, rest);
      Assoc(header, ItemsBytes(items), mid);
    }
    ConsumedInOpen(a);
  }

  /** The automaton never runs into a dead end: from every state some text completes a word. */
  lemma Completable(a: Partial) returns (w: Word)
    requires WfPartial(a)
    ensures WfWord(w) && Consumed(a) < WordBytes(w)
  {
    if a.open.Open? {
      w := CompleteOpen(a);
    } else if ItemStage(a.stage) {
      var i := CompleteItem(a.stage);
      w := Single(i);
    } else {
      match a.stage
      case InLine(kind, text) => w := Line(kind, text);
      case LineCr(kind, text) => w := Line(kind, text);
      case InMultiCount(digits) => w := Word.Multi(digits, Nils(DecimalValue(digits)));
      case MultiCountCr(digits) => w := Word.Multi(digits, Nils(DecimalValue(digits)));
      case _ => w := NilMulti;
    }
  }

  // ----- The three verdicts -----

  /** s is a proper prefix of a word. */
  ghost predicate Unfinished(s: seq<Byte>) {
    exists w :: WfWord(w) && s < WordBytes(w)
  }

  /** s starts with a word. */
  ghost predicate StartsWithWord(s: seq<Byte>) {
    exists w :: WfWord(w) && WordBytes(w) <= s
  }

  lemma NothingConsumed(s: seq<Byte>)
    ensures Consumed(Init) + s == s
  {
  }

  /** A reply is reported exactly for a word at the start of the text, with that very word. */
  lemma {:induction false} ReplyIff(s: seq<Byte>, w: Word, rest: seq<Byte>)
    ensures Run(Init, s) == Reply(w, rest) <==> WfWord(w) && s == WordBytes(w) + rest
  {
    RunDecodes(Init, s);
    assert Consumed(Init) + s == s;
    if WfWord(w) && s == WordBytes(w) + rest {
      RunInverts(w);
      RunConcat(Init, WordBytes(w), rest);
      assert [] + rest == rest;
    }
  }

  lemma {:induction false} StartsWithWordIff(s: seq<Byte>)
    ensures Run(Init, s).Reply? <==> StartsWithWord(s)
  {
    hide Run, WordBytes, WfWord, Consumed;
    RunDecodes(Init, s);
    NothingConsumed(s);
    if Run(Init, s).Reply? {
      assert WordBytes(Run(Init, s).word) <= s;
    }
    if StartsWithWord(s) {
      var w :| WfWord(w) && WordBytes(w) <= s;
      ReplyIff(s, w, s[|WordBytes(w)|..]);
    }
  }

  /** More is asked for exactly when the text is a proper prefix of a word. */
  lemma {:induction false} MoreIff(s: seq<Byte>)
    ensures Run(Init, s).More? <==> Unfinished(s)
  {
    RunDecodes(Init, s);
    assert Consumed(Init) + s == s;
    if Run(Init, s).More? {
      var w := Completable(Run(Init, s).state);
    }
    if Unfinished(s) {
      var w :| WfWord(w) && s < WordBytes(w);
      RunInverts(w);
      var t := WordBytes(w)[|s|..];
      assert s + t == WordBytes(w);
      RunConcat(Init, s, t);
    }
  }

  /** An error is reported exactly at the first byte that no word can continue with. */
  lemma {:induction false} ErrorIff(s: seq<Byte>, n: nat)
    requires n < |s|
    ensures (Run(Init, s).Error? && |Run(Init, s).from| == |s| - n)
       <==> Unfinished(s[..n]) && !Unfinished(s[..n + 1]) && !StartsWithWord(s[..n + 1])
  {
    var t, u, c, rest := s[..n], s[..n + 1], s[n], s[n + 1..];
    MoreIff(t);
    MoreIff(u);
    StartsWithWordIff(u);
    RunConcat(Init, t, [c] + rest);
    RunConcat(Init, t, [c]);
    assert s == t + ([c] + rest) && u == t + [c];
    if Run(Init, t).More? {
      var b := Run(Init, t).state;
      RunOne(b, c);
      RunConcat(b, [c], rest);
      if Next(b, c).Go? {
        RunDecodes(Next(b, c).next, rest);
      }
    }
  }

  /** A word is determined by its text, and no word is a proper prefix of another. */
  lemma Unambiguous(v: Word, w: Word)
    requires WfWord(v) && WfWord(w) && WordBytes(v) <= WordBytes(w)
    ensures v == w
  {
    RunInverts(w);
    ReplyIff(WordBytes(w), v, WordBytes(w)[|WordBytes(v)|..]);
  }
}
