/** Pipelined replies: decoding a whole stream, and handing it over in pieces. */
module Streams {
  import opened Bytes
  import opened Grammar
  import opened Machine

  /** The replies at the start of a stream, as many as are complete. */
  function Decode(s: seq<Byte>): (ws: seq<Word>)
    ensures WfWords(ws)
    decreases |s|
  {
    RunDecodes(Init, s);
    match Run(Init, s)
    case Reply(w, rest) => [w] + Decode(rest)
    case _ => []
  }

  /** What is found after the last complete reply of a stream. */
  function Leftover(s: seq<Byte>): (v: Verdict)
    ensures !v.Reply?
    ensures v.More? ==> WfPartial(v.state)
    decreases |s|
  {
    RunDecodes(Init, s);
    match Run(Init, s)
    case Reply(w, rest) => Leftover(rest)
    case v => v
  }

  lemma {:induction false} DecodeStep(w: Word, rest: seq<Byte>)
    requires WfWord(w)
    ensures Decode(WordBytes(w) + rest) == [w] + Decode(rest)
    ensures Leftover(WordBytes(w) + rest) == Leftover(rest)
  {
    ReplyIff(WordBytes(w) + rest, w, rest);
  }

  /** Replies at the front of a stream are decoded as written, whatever follows them. */
  lemma {:induction false} DecodePrefix(ws: seq<Word>, rest: seq<Byte>)
    requires WfWords(ws)
    ensures Decode(WordsBytes(ws) + rest) == ws + Decode(rest)
    ensures Leftover(WordsBytes(ws) + rest) == Leftover(rest)
    decreases |ws|
  {
    if ws == [] {
      assert WordsBytes(ws) + rest == rest;
      assert ws + Decode(rest) == Decode(rest);
    } else {
      var w, tail := ws[0], ws[1..];
      var after := WordsBytes(tail) + rest;
      assert w in ws && WfWords(tail);
      DecodePrefix(tail, rest);
      DecodeStep(w, after);
      assert WordsBytes(ws) + rest == WordBytes(w) + after by {
        assert ws == [w] + tail;
        WordsBytesCons(w, tail);
        Assoc(WordBytes(w), WordsBytes(tail), rest);
      }
      Assoc([w], tail, Decode(rest));
      assert [w] + tail == ws;
    }
  }

  /** Pipelined round trip: any list of replies is read back, and nothing is left over. */
  lemma {:induction false} PipelinedRoundTrip(ws: seq<Word>)
    requires WfWords(ws)
    ensures Decode(WordsBytes(ws)) == ws && Leftover(WordsBytes(ws)) == More(Init)
  {
    DecodePrefix(ws, []);
    assert WordsBytes(ws) + [] == WordsBytes(ws);
    assert ws + Decode([]) == ws;
  }

  /** The text a verdict leaves behind. */
  function Remains(v: Verdict): seq<Byte> {
    match v
    case More(b) => Consumed(b)
    case Error(b, from) => Consumed(b) + from
    case Reply(_, rest) => rest
  }

  /** Conversely, Decode accounts for all of the stream but what is left over. */
  lemma {:induction false} DecodeSound(s: seq<Byte>)
    ensures s == WordsBytes(Decode(s)) + Remains(Leftover(s))
    decreases |s|
  {
    RunDecodes(Init, s);
    assert Consumed(Init) + s == s;
    if Run(Init, s).Reply? {
      var w, rest := Run(Init, s).word, Run(Init, s).rest;
      DecodeSound(rest);
      WordsBytesCons(w, Decode(rest));
      Assoc(WordBytes(w), WordsBytes(Decode(rest)), Remains(Leftover(rest)));
    } else {
      assert Decode(s) == [] && WordsBytes([]) + Remains(Leftover(s)) == Remains(Leftover(s)) == s;
    }
  }

  /** Words that make up the front of a stream are the first words of its decoding. */
  lemma {:induction false} DecodeIsPrefix(ws: seq<Word>, s: seq<Byte>)
    requires WfWords(ws) && WordsBytes(ws) <= s
    ensures ws <= Decode(s)
  {
    var rest := s[|WordsBytes(ws)|..];
    assert s == WordsBytes(ws) + rest;
    DecodePrefix(ws, rest);
  }

  /** The replies read from a stream so far, and what was found behind them. */
  datatype Progress = Progress(words: seq<Word>, verdict: Verdict)

  function Read(s: seq<Byte>): Progress {
    Progress(Decode(s), Leftover(s))
  }

  predicate WfProgress(p: Progress) {
    !p.verdict.Reply? && (p.verdict.More? ==> WfPartial(p.verdict.state))
  }

  /** Going on with a chunk: the open derivation is continued, and then come whole replies. */
  function Resume(p: Progress, chunk: seq<Byte>): (r: Progress)
    requires WfProgress(p)
    ensures WfProgress(r)
  {
    match Extend(p.verdict, chunk)
    case Reply(w, rest) => Progress(p.words + [w] + Decode(rest), Leftover(rest))
    case v => Progress(p.words, v)
  }

  /** Reading some and then more is reading all of it at once. */
  lemma {:induction false} ResumeReads(s: seq<Byte>, t: seq<Byte>)
    ensures Read(s + t) == Resume(Read(s), t)
    decreases |s|
  {
    RunDecodes(Init, s);
    RunConcat(Init, s, t);
    var v := Run(Init, s);
    if v.Reply? {
      ResumeReads(v.rest, t);
      var ws, u := Decode(v.rest), Extend(Leftover(v.rest), t);
      if u.Reply? {
        assert [v.word] + (ws + [u.word] + Decode(u.rest)) == [v.word] + ws + [u.word] + Decode(u.rest);
      }
    } else if Extend(v, t).Reply? {
      var u := Extend(v, t);
      assert [] + [u.word] + Decode(u.rest) == [u.word] + Decode(u.rest);
    }
  }

  /** A stream handed over in chunks. */
  function ReadChunks(p: Progress, chunks: seq<seq<Byte>>): Progress
    requires WfProgress(p)
    decreases |chunks|
  {
    if chunks == [] then p else ReadChunks(Resume(p, chunks[0]), chunks[1..])
  }

  /** Every split of a stream gives all the same replies, the same state and the same error position. */
  lemma {:induction false} ChunkIndependence(read: seq<Byte>, chunks: seq<seq<Byte>>)
    ensures ReadChunks(Read(read), chunks) == Read(read + Joined(chunks))
    decreases |chunks|
  {
    if chunks == [] {
      assert read + [] == read;
    } else {
      ResumeReads(read, chunks[0]);
      ChunkIndependence(read + chunks[0], chunks[1..]);
      Assoc(read, chunks[0], Joined(chunks[1..]));
    }
  }

  // ----- The words at the front of a text that is being read -----

  /** From the start of the current word on. */
  lemma RunFrom(contents: seq<Byte>, start: nat, p: nat, len: nat, st: Partial)
    requires start <= p <= len <= |contents|
    requires Run(Init, contents[start..p]) == More(st)
    ensures Run(Init, contents[start..len]) == Run(st, contents[p..len])
  {
    Chain(Init, contents[start..p], st, contents[p..len]);
    assert contents[start..len] == contents[start..p] + contents[p..len];
  }

  /** A word has been completed at position q. */
  lemma WordRead(contents: seq<Byte>, ws: seq<Word>, start: nat, len: nat, q: nat, w: Word)
    requires start <= len <= |contents| && q <= len && WordsBytes(ws) == contents[..start]
    requires Run(Init, contents[start..len]) == Reply(w, contents[q..len])
    ensures WfWord(w) && WordsBytes(ws + [w]) == contents[..q]
  {
    hide WordBytes, WordsBytes, Run;
    ReplyIff(contents[start..len], w, contents[q..len]);
    WordsBytesSnoc(ws, w);
    assert contents[..len] == contents[..start] + contents[start..len];
    Assoc(contents[..start], WordBytes(w), contents[q..len]);
    assert contents[..len] == contents[..q] + contents[q..len];
  }

  /** Once there is nothing more to be had from the first len bytes, they are decoded. */
  lemma {:induction false} Decoded(contents: seq<Byte>, ws: seq<Word>, start: nat, len: nat)
    requires start <= len <= |contents| && WfWords(ws) && WordsBytes(ws) == contents[..start]
    requires !Run(Init, contents[start..len]).Reply?
    ensures Decode(contents[..len]) == ws && Leftover(contents[..len]) == Run(Init, contents[start..len])
  {
    var rest := contents[start..len];
    assert contents[..len] == WordsBytes(ws) + rest;
    DecodePrefix(ws, rest);
    assert ws + [] == ws;
  }

  /** No word goes on with the byte at p. */
  ghost predicate Stuck(st: Partial, contents: seq<Byte>, p: nat, len: nat) {
    p <= len <= |contents| && WfPartial(st) && Run(st, contents[p..len]) == Error(st, contents[p..len])
  }

  /** The automaton stays where it got stuck. */
  lemma StuckAt(contents: seq<Byte>, p: nat, len: nat, q: nat, st: Partial)
    requires p <= len <= |contents| && q <= len && WfPartial(st)
    requires Run(st, contents[p..len]).Error? && Run(st, contents[p..len]).from == contents[q..len]
    ensures p <= q && Run(st, contents[p..q]) == More(Run(st, contents[p..len]).before)
    ensures Stuck(Run(st, contents[p..len]).before, contents, q, len)
  {
    ErrorBefore(st, contents[p..len]);
    assert contents[p..len][..q - p] == contents[p..q];
  }

  lemma NothingRead(contents: seq<Byte>, p: nat)
    requires p <= |contents|
    ensures Run(Init, contents[p..p]) == More(Init)
  {
  }
}
