/** Server-sent events: the log writer (internal/server/server.go, sseWriter) on bytes, against the
    stream format of the WHATWG HTML standard, sections 9.2.5 and 9.2.6, UTF-8 decoding included. */
module Sse {
  import opened Common
  import opened Utf8

  const LF: Byte := 0x0A
  const CR: Byte := 0x0D
  const DATA: seq<Byte> := Encode("data: ")

  function NonEmpty<T(==)>(lines: seq<seq<T>>): seq<seq<T>> {
    if lines == [] then [] else (if lines[0] == [] then [] else [lines[0]]) + NonEmpty(lines[1..])
  }

  /** The lines one Write call turns into events. */
  function LinesOf(p: seq<Byte>): seq<seq<Byte>> {
    NonEmpty(Split(p, LF))
  }

  /** Leaving out the empty lines leaves out nothing else: every other line stays as often as it was. */
  lemma {:induction false} NonEmptyCount<T>(lines: seq<seq<T>>, line: seq<T>)
    ensures multiset(NonEmpty(lines))[line] == if line == [] then 0 else multiset(lines)[line]
  {
    if lines != [] {
      NonEmptyCount(lines[1..], line);
      assert lines == [lines[0]] + lines[1..];
    }
  }

  lemma {:induction false} NonEmptyOrder<T>(lines: seq<seq<T>>)
    ensures IsSubsequence(NonEmpty(lines), lines)
  {
    if lines != [] {
      NonEmptyOrder(lines[1..]);
      SubsequencePrepend(lines[0], NonEmpty(lines[1..]), lines[1..]);
      assert lines == [lines[0]] + lines[1..];
      assert lines[0] == [] ==> NonEmpty(lines) == NonEmpty(lines[1..]);
      hide IsSubsequence;
    }
  }

  /** The lines of a write, exactly: its text is cut at every line feed and nowhere else, nothing is
      lost in that, and of the pieces the empty ones are left out. */
  lemma LinesExactly(p: seq<Byte>, line: seq<Byte>)
    ensures var pieces := Split(p, LF);
            && Joined(pieces, LF) == p && (forall x | x in pieces :: LF !in x)
            && multiset(LinesOf(p))[line] == (if line == [] then 0 else multiset(pieces)[line])
            && IsSubsequence(LinesOf(p), pieces)
  {
    SplitJoined(p, LF);
    SplitFree(p, LF, LF);
    NonEmptyCount(Split(p, LF), line);
    NonEmptyOrder(Split(p, LF));
  }

  function Frame(line: seq<Byte>): seq<Byte> {
    DATA + line + [LF, LF]
  }

  function Frames(lines: seq<seq<Byte>>): seq<Byte> {
    if lines == [] then [] else Frame(lines[0]) + Frames(lines[1..])
  }

  class Writer {
    var stream: seq<Byte>

    constructor ()
      ensures stream == []
    {
      stream := [];
    }

    /** The connection takes `accepted` more events; of the next one it takes `torn` bytes and fails. */
    method Write(p: seq<Byte>, accepted: nat, torn: nat) returns (n: nat, ok: bool)
      modifies this
      ensures ok <==> accepted >= |LinesOf(p)|
      ensures n == if ok then |p| else 0
      ensures ok ==> stream == old(stream) + Frames(LinesOf(p))
      ensures !ok ==> stream == old(stream) + (Frames(LinesOf(p)[..accepted]) + Torn(LinesOf(p)[accepted], torn))
    {
      var lines := Split(p, LF);
      ghost var all := NonEmpty(lines);
      assert all == LinesOf(p);
      hide Torn, Frames, LinesOf, NonEmpty, Split;
      var left := accepted;
      ghost var sent: seq<seq<Byte>> := [];
      assert lines[0..] == lines && [] + NonEmpty(lines) == NonEmpty(lines);
      FramesNone(stream);
      for i := 0 to |lines|
        invariant sent + NonEmpty(lines[i..]) == all && |sent| + left == accepted
        invariant stream == old(stream) + Frames(sent)
      {
        NonEmptyStep(lines, i);
        if lines[i] != [] {
          SentStep(all, sent, lines[i], NonEmpty(lines[i + 1..]));
          if left == 0 {
            stream := stream + Torn(lines[i], torn);
            Associative(old(stream), Frames(sent), Torn(lines[i], torn));
            return 0, false;
          }
          SentText(old(stream), sent, lines[i]);
          left := left - 1;
          sent := sent + [lines[i]];
          stream := stream + DATA + lines[i] + [LF, LF];
        }
      }
      AllSent(lines, sent);
      return |p|, true;
    }
  }

  lemma NonEmptyStep(lines: seq<seq<Byte>>, i: nat)
    requires i < |lines|
    ensures NonEmpty(lines[i..]) == (if lines[i] == [] then [] else [lines[i]]) + NonEmpty(lines[i + 1..])
    ensures lines[i] == [] ==> NonEmpty(lines[i..]) == NonEmpty(lines[i + 1..])
  {
    assert lines[i..][1..] == lines[i + 1..];
  }

  lemma AllSent(lines: seq<seq<Byte>>, sent: seq<seq<Byte>>)
    ensures sent + NonEmpty(lines[|lines|..]) == sent
  {
  }

  lemma FramesNone(stream: seq<Byte>)
    ensures Frames([]) == [] && stream == stream + Frames([])
  {
  }

  lemma SentStep(all: seq<seq<Byte>>, sent: seq<seq<Byte>>, line: seq<Byte>, more: seq<seq<Byte>>)
    requires sent + ([line] + more) == all
    ensures all[..|sent|] == sent && all[|sent|] == line && (sent + [line]) + more == all
  {
  }

  lemma SentText(stream: seq<Byte>, sent: seq<seq<Byte>>, line: seq<Byte>)
    ensures stream + Frames(sent) + DATA + line + [LF, LF] == stream + Frames(sent + [line])
  {
    FramesConcat(sent, [line]);
    FramesFirst(line, []);
    assert [line] + [] == [line];
    assert Frames([line]) == Frame(line);
    hide Frames;
    FrameParts(stream + Frames(sent), line);
    Associative(stream, Frames(sent), Frame(line));
  }

  lemma FrameParts(before: seq<Byte>, line: seq<Byte>)
    ensures before + DATA + line + [LF, LF] == before + Frame(line)
  {
  }

  /** What is left of an event whose writing fails: not all of it. */
  function Torn(line: seq<Byte>, torn: nat): seq<Byte> {
    if torn < |Frame(line)| then Frame(line)[..torn] else Frame(line)[..|Frame(line)| - 1]
  }

  lemma FramesFirst(line: seq<Byte>, lines: seq<seq<Byte>>)
    ensures Frames([line] + lines) == Frame(line) + Frames(lines)
  {
    assert ([line] + lines)[1..] == lines;
  }

  lemma {:induction false} FramesConcat(a: seq<seq<Byte>>, b: seq<seq<Byte>>)
    ensures Frames(a + b) == Frames(a) + Frames(b)
  {
    if a == [] {
      assert a + b == b;
    } else {
      assert (a + b)[1..] == a[1..] + b;
      FramesConcat(a[1..], b);
      Associative(Frame(a[0]), Frames(a[1..]), Frames(b));
    }
  }

  /** The stream after a sequence of writes, and the lines they held. */
  function Stream(ps: seq<seq<Byte>>): seq<Byte> {
    if ps == [] then [] else Stream(DropLast(ps)) + Frames(LinesOf(Last(ps)))
  }

  function AllLines(ps: seq<seq<Byte>>): seq<seq<Byte>> {
    if ps == [] then [] else AllLines(DropLast(ps)) + LinesOf(Last(ps))
  }

  lemma {:induction false} StreamIsFrames(ps: seq<seq<Byte>>)
    ensures Stream(ps) == Frames(AllLines(ps))
  {
    if ps != [] {
      StreamIsFrames(DropLast(ps));
      FramesConcat(AllLines(DropLast(ps)), LinesOf(Last(ps)));
    }
  }

  // ---- The parser of the standard ----------------------------------------------------------------

  function LineEnd(s: string): (k: nat)
    ensures k <= |s| && (forall i | 0 <= i < k :: s[i] != '\n' && s[i] != '\r')
    ensures k < |s| ==> s[k] == '\n' || s[k] == '\r'
  {
    if s == "" || s[0] == '\n' || s[0] == '\r' then 0 else 1 + LineEnd(s[1..])
  }

  /** Characters of the terminator at position k: CRLF counts as one. */
  function TerminatorLength(s: string, k: nat): nat
    requires k < |s|
  {
    if s[k] == '\r' && k + 1 < |s| && s[k + 1] == '\n' then 2 else 1
  }

  /** The terminated lines of a stream; what follows the last terminator is discarded. */
  function StreamLines(s: string): seq<string>
    decreases |s|
  {
    var k := LineEnd(s);
    if k == |s| then [] else [s[..k]] + StreamLines(s[k + TerminatorLength(s, k)..])
  }

  function Colon(line: string): (k: nat)
    ensures k <= |line| && (k < |line| ==> line[k] == ':')
  {
    if line == "" || line[0] == ':' then 0 else 1 + Colon(line[1..])
  }

  /** The data buffer after a non-empty line. */
  function ProcessLine(line: string, data: string): string {
    var k := Colon(line);
    var field := line[..k];
    var value := if k == |line| then "" else if k + 1 < |line| && line[k + 1] == ' ' then line[k + 2..] else line[k + 1..];
    if field == "data" then data + value + "\n" else data
  }

  /** The data of the events dispatched, from data buffer `data`. */
  function Dispatch(lines: seq<string>, data: string): seq<string> {
    if lines == [] then []
    else if lines[0] != "" then Dispatch(lines[1..], ProcessLine(lines[0], data))
    else if data == "" then Dispatch(lines[1..], "")
    else [if Last(data) == '\n' then DropLast(data) else data] + Dispatch(lines[1..], "")
  }

  /** The data of the events in a decoded stream. */
  function Parse(s: string): seq<string> {
    Dispatch(StreamLines(s), "")
  }

  // ---- Decoded events ------------------------------------------------------------------------------------

  /** An event as text, followed by `rest`. */
  function TextFrame(line: string): string {
    "data: " + line + "\n\n"
  }

  predicate OneLine(s: string) {
    '\n' !in s && '\r' !in s
  }

  lemma {:induction false} LineEndAt(line: string, rest: string)
    requires OneLine(line)
    ensures LineEnd(line + "\n" + rest) == |line|
  {
    var s := line + "\n" + rest;
    if line != "" {
      assert s[1..] == line[1..] + "\n" + rest;
      LineEndAt(line[1..], rest);
    }
  }

  lemma FirstLine(line: string, rest: string)
    requires OneLine(line)
    ensures StreamLines(line + "\n" + rest) == [line] + StreamLines(rest)
  {
    var s := line + "\n" + rest;
    LineEndAt(line, rest);
    assert s[..|line|] == line && s[|line| + 1..] == rest;
  }

  lemma DataLine(line: string)
    ensures ProcessLine("data: " + line, "") == line + "\n"
  {
    var s := "data: " + line;
    assert s[1..] == "ata: " + line;
    assert s[2..] == "ta: " + line;
    assert s[3..] == "a: " + line;
    assert s[4..] == ": " + line;
    assert Colon(s[4..]) == 0;
    assert s[3..][1..] == s[4..] && s[2..][1..] == s[3..] && s[1..][1..] == s[2..];
    assert Colon(s[3..]) == 1;
    assert Colon(s[2..]) == 2;
    assert Colon(s[1..]) == 3;
    assert s[..4] == "data" && s[6..] == line;
  }

  lemma DispatchFrame(line: string, after: seq<string>)
    ensures Dispatch(["data: " + line, ""] + after, "") == [line] + Dispatch(after, "")
  {
    var lines := ["data: " + line, ""] + after;
    assert lines[1..] == [""] + after;
    assert lines[1..][1..] == after;
    DataLine(line);
    AppendLast(line, '\n');
  }

  lemma FrameLines(line: string, rest: string)
    requires OneLine(line)
    ensures StreamLines(TextFrame(line) + rest) == ["data: " + line, ""] + StreamLines(rest)
  {
    var head := "data: " + line;
    assert OneLine(head);
    Associative(head, "\n\n", rest);
    assert "\n\n" + rest == "\n" + ("\n" + rest);
    Associative(head, "\n", "\n" + rest);
    FirstLine(head, "\n" + rest);
    EmptyLine(rest);
  }

  lemma EmptyLine(rest: string)
    ensures StreamLines("\n" + rest) == [""] + StreamLines(rest)
  {
    assert "" + "\n" + rest == "\n" + rest;
    FirstLine("", rest);
  }

  lemma ParseFrame(line: string, rest: string)
    requires OneLine(line)
    ensures Parse(TextFrame(line) + rest) == [line] + Parse(rest)
  {
    FrameLines(line, rest);
    DispatchFrame(line, StreamLines(rest));
  }

  lemma {:induction false} NoTerminator(s: string)
    requires OneLine(s)
    ensures LineEnd(s) == |s|
  {
    if s != "" {
      NoTerminator(s[1..]);
    }
  }

  // ---- From bytes to events ------------------------------------------------------------------------

  function Texts(lines: seq<seq<Byte>>): seq<string> {
    if lines == [] then [] else [Decode(lines[0])] + Texts(lines[1..])
  }

  function Bytes(texts: seq<string>): seq<seq<Byte>> {
    if texts == [] then [] else [Encode(texts[0])] + Bytes(texts[1..])
  }

  predicate OneLineBytes(line: seq<Byte>) {
    LF !in line && CR !in line
  }

  lemma DecodedOneLine(line: seq<Byte>)
    ensures OneLine(Decode(line)) <==> OneLineBytes(line)
  {
    DecodeHas(line, LF);
    DecodeHas(line, CR);
  }

  /** An event decodes to an event, whatever its bytes are and whatever follows. */
  lemma DecodeFrame(line: seq<Byte>, rest: seq<Byte>)
    ensures Decode(Frame(line) + rest) == TextFrame(Decode(line)) + Decode(rest)
  {
    hide Decode;
    assert Frame(line) + rest == DATA + (line + [LF] + ([LF] + rest));
    DecodeAfter("data: ", line + [LF] + ([LF] + rest));
    DecodeSplit(line, LF, [LF] + rest);
    DecodeAscii(LF, rest);
    TextParts(Decode(line), Decode(rest));
  }

  lemma TextParts(line: string, rest: string)
    ensures "data: " + (line + "\n" + ("\n" + rest)) == TextFrame(line) + rest
  {
  }

  lemma {:induction false} ParseFrames(lines: seq<seq<Byte>>, rest: seq<Byte>)
    requires forall l | l in lines :: OneLineBytes(l)
    ensures Parse(Decode(Frames(lines) + rest)) == Texts(lines) + Parse(Decode(rest))
  {
    hide Parse, Frame, OneLineBytes, Decode;
    if lines == [] {
      assert [] + rest == rest;
    } else {
      ParseFrames(lines[1..], rest);
      Associative(Frame(lines[0]), Frames(lines[1..]), rest);
      DecodeFrame(lines[0], Frames(lines[1..]) + rest);
      DecodedOneLine(lines[0]);
      ParseFrame(Decode(lines[0]), Decode(Frames(lines[1..]) + rest));
      Associative([Decode(lines[0])], Texts(lines[1..]), Parse(Decode(rest)));
    }
  }

  lemma ParseHead(head: string)
    requires head != "" && OneLine(head)
    ensures Parse(head) == [] && Parse(head + "\n") == []
  {
    NoTerminator(head);
    FirstLine(head, "");
    assert head + "\n" + "" == head + "\n";
    assert StreamLines("") == [];
    assert StreamLines(head + "\n") == [head];
    assert Dispatch([head], "") == Dispatch([], ProcessLine(head, ""));
  }

  lemma HeadOneLine(line: seq<Byte>)
    requires OneLineBytes(line)
    ensures OneLineBytes(DATA + line)
  {
    EncodeHas("data: ", LF);
    EncodeHas("data: ", CR);
  }

  lemma ParseTornEarly(head: seq<Byte>, n: nat)
    requires OneLineBytes(head) && n <= |head|
    ensures Parse(Decode(head[..n])) == []
  {
    var t := head[..n];
    assert OneLineBytes(t);
    DecodedOneLine(t);
    hide Decode;
    NoTerminator(Decode(t));
  }

  lemma ParseTornLate(line: seq<Byte>)
    requires OneLineBytes(line)
    ensures Parse(Decode(DATA + line + [LF])) == []
  {
    var head := DATA + line;
    HeadOneLine(line);
    DecodedOneLine(head);
    DecodeAfter("data: ", line);
    assert Decode([]) == "";
    hide Decode, Parse, OneLine, OneLineBytes;
    assert head + [LF] + [] == head + [LF];
    DecodeSplit(head, LF, []);
    ParseHead(Decode(head));
    assert Decode(head) + [LF as char] + "" == Decode(head) + "\n";
  }

  /** An event that was not written to its end is not dispatched. */
  lemma ParseTorn(line: seq<Byte>, torn: nat)
    requires OneLineBytes(line)
    ensures Parse(Decode(Torn(line, torn))) == []
  {
    hide Decode, Parse, OneLineBytes;
    var head, t := DATA + line, Torn(line, torn);
    if |t| <= |head| {
      HeadOneLine(line);
      assert t == head[..|t|];
      ParseTornEarly(head, |t|);
    } else {
      assert t == head + [LF];
      ParseTornLate(line);
    }
  }

  /** An event stream never starts with a byte order mark. */
  lemma NoMark(lines: seq<seq<Byte>>, line: seq<Byte>, torn: nat)
    ensures DecodeStream(Frames(lines)) == Decode(Frames(lines))
    ensures DecodeStream(Frames(lines) + Torn(line, torn)) == Decode(Frames(lines) + Torn(line, torn))
  {
    assert DATA[0] == 0x64;
    assert Frames(lines) != [] ==> Frames(lines)[0] == 0x64;
    var s := Frames(lines) + Torn(line, torn);
    assert s != [] ==> s[0] == 0x64;
  }

  // ---- Carriage returns and UTF-8 ------------------------------------------------------------------

  predicate FreeOf<T(==)>(c: T, ss: seq<seq<T>>) {
    forall s | s in ss :: c !in s
  }

  lemma FreeConcat<T>(a: seq<seq<T>>, b: seq<seq<T>>, c: T)
    ensures FreeOf(c, a + b) <==> FreeOf(c, a) && FreeOf(c, b)
  {
    if FreeOf(c, a + b) {
      forall s | s in a || s in b
        ensures c !in s
      {
        assert s in a + b;
      }
    }
  }

  lemma FreeFirst<T>(s: seq<T>, ss: seq<seq<T>>, c: T)
    ensures FreeOf(c, [s] + ss) <==> c !in s && FreeOf(c, ss)
  {
    FreeConcat([s], ss, c);
    assert s in [s];
  }

  lemma NoneFree<T>(c: T)
    ensures FreeOf(c, [])
  {
  }

  /** Splitting takes out the separator and nothing else. */
  lemma {:induction false} SplitFree<T>(p: seq<T>, sep: T, c: T)
    ensures FreeOf(c, Split(p, sep)) <==> c == sep || c !in p
  {
    if p != [] {
      var rest := Split(p[1..], sep);
      SplitFree(p[1..], sep, c);
      hide FreeOf;
      assert p == [p[0]] + p[1..];
      assert rest == [rest[0]] + rest[1..];
      FreeFirst(rest[0], rest[1..], c);
      if p[0] == sep {
        FreeFirst([], rest, c);
      } else {
        FreeFirst([p[0]] + rest[0], rest[1..], c);
      }
    }
  }

  lemma {:induction false} NonEmptyFree<T>(lines: seq<seq<T>>, c: T)
    ensures FreeOf(c, NonEmpty(lines)) <==> FreeOf(c, lines)
  {
    if lines != [] {
      NonEmptyFree(lines[1..], c);
      hide FreeOf;
      assert lines == [lines[0]] + lines[1..];
      FreeFirst(lines[0], lines[1..], c);
      FreeFirst(lines[0], NonEmpty(lines[1..]), c);
    }
  }

  lemma LinesFree(p: seq<Byte>, c: Byte)
    ensures FreeOf(c, LinesOf(p)) <==> c == LF || c !in p
  {
    SplitFree(p, LF, c);
    NonEmptyFree(Split(p, LF), c);
  }

  lemma {:induction false} AllLinesFree(ps: seq<seq<Byte>>, c: Byte)
    ensures FreeOf(c, AllLines(ps)) <==> c == LF || forall p | p in ps :: c !in p
  {
    hide FreeOf, LinesOf;
    if ps == [] {
      NoneFree(c);
    } else {
      var rest, p := DropLast(ps), Last(ps);
      AllLinesFree(rest, c);
      LinesFree(p, c);
      assert ps == rest + [p];
      FreeConcat(AllLines(rest), LinesOf(p), c);
    }
  }

  lemma {:induction false} TextsFree(lines: seq<seq<Byte>>, c: Byte)
    requires c < 0x80
    ensures FreeOf(c as char, Texts(lines)) <==> FreeOf(c, lines)
  {
    if lines != [] {
      TextsFree(lines[1..], c);
      hide FreeOf;
      DecodeHas(lines[0], c);
      assert lines == [lines[0]] + lines[1..];
      FreeFirst(lines[0], lines[1..], c);
      FreeFirst(Decode(lines[0]), Texts(lines[1..]), c as char);
    }
  }

  lemma {:induction false} BytesFree(texts: seq<string>, c: Byte)
    requires c < 0x80
    ensures FreeOf(c, Bytes(texts)) <==> FreeOf(c as char, texts)
  {
    if texts != [] {
      BytesFree(texts[1..], c);
      hide FreeOf;
      EncodeHas(texts[0], c);
      assert texts == [texts[0]] + texts[1..];
      FreeFirst(texts[0], texts[1..], c as char);
      FreeFirst(Encode(texts[0]), Bytes(texts[1..]), c);
    }
  }

  lemma {:induction false} BytesOfTexts(lines: seq<seq<Byte>>)
    ensures Bytes(Texts(lines)) == lines <==> forall l | l in lines :: IsUtf8(l)
  {
    if lines != [] {
      hide Encode, Decode, IsUtf8;
      var t := Texts(lines);
      BytesOfTexts(lines[1..]);
      EncodeDecodeIff(lines[0]);
      assert t[0] == Decode(lines[0]) && t[1..] == Texts(lines[1..]);
      assert Bytes(t) == [Encode(t[0])] + Bytes(t[1..]);
      assert lines == [lines[0]] + lines[1..];
      assert Bytes(t) == lines <==> Encode(t[0]) == lines[0] && Bytes(t[1..]) == lines[1..] by {
        if Bytes(t) == lines {
          assert Bytes(t)[0] == lines[0] && Bytes(t)[1..] == lines[1..];
        }
      }
    }
  }

  lemma {:induction false} StreamLinesFree(s: string)
    ensures FreeOf('\r', StreamLines(s))
    decreases |s|
  {
    var k := LineEnd(s);
    if k < |s| {
      StreamLinesFree(s[k + TerminatorLength(s, k)..]);
    }
  }

  lemma {:induction false} DispatchFree(lines: seq<string>, data: string)
    requires FreeOf('\r', lines) && '\r' !in data
    ensures FreeOf('\r', Dispatch(lines, data))
    decreases |lines|
  {
    if lines != [] {
      assert lines[0] in lines;
      DispatchFree(lines[1..], if lines[0] == "" then "" else ProcessLine(lines[0], data));
    }
  }

  /** No event carries a carriage return. */
  lemma ParseFree(s: string)
    ensures FreeOf('\r', Parse(s))
  {
    StreamLinesFree(s);
    DispatchFree(StreamLines(s), "");
  }

  lemma OneLines(ps: seq<seq<Byte>>)
    requires forall p | p in ps :: CR !in p
    ensures forall l | l in AllLines(ps) :: OneLineBytes(l)
  {
    AllLinesFree(ps, CR);
    AllLinesFree(ps, LF);
  }

  lemma EventsAreTexts(ps: seq<seq<Byte>>)
    requires forall p | p in ps :: CR !in p
    ensures Parse(DecodeStream(Stream(ps))) == Texts(AllLines(ps))
  {
    hide Parse, Decode, DecodeStream, Frames, Texts, OneLineBytes;
    StreamIsFrames(ps);
    OneLines(ps);
    NoMark(AllLines(ps), [], 0);
    ParseFrames(AllLines(ps), []);
    assert Frames(AllLines(ps)) + [] == Frames(AllLines(ps));
    ParseNothing();
    assert Texts(AllLines(ps)) + [] == Texts(AllLines(ps));
  }

  lemma ParseNothing()
    ensures Parse(Decode([])) == []
  {
  }

  /** Over any sequence of writes, a browser receives exactly the decoded non-empty lines, in order, if
      and only if no write contains a carriage return; and it receives exactly the bytes of those lines
      if and only if, besides, every line on its own is UTF-8. */
  lemma EventsAreLines(ps: seq<seq<Byte>>)
    ensures var events := Parse(DecodeStream(Stream(ps)));
            && (events == Texts(AllLines(ps)) <==> forall p | p in ps :: CR !in p)
            && (Bytes(events) == AllLines(ps) <==>
                  (forall p | p in ps :: CR !in p) && (forall l | l in AllLines(ps) :: IsUtf8(l)))
  {
    hide Parse, DecodeStream, Stream, Texts, Bytes, IsUtf8, FreeOf;
    var events := Parse(DecodeStream(Stream(ps)));
    ParseFree(DecodeStream(Stream(ps)));
    AllLinesFree(ps, CR);
    TextsFree(AllLines(ps), CR);
    BytesFree(events, CR);
    BytesOfTexts(AllLines(ps));
    if forall p | p in ps :: CR !in p {
      EventsAreTexts(ps);
    }
  }

  /** When the connection fails in the middle of a write, the browser has received exactly the decoded
      lines of the writes before and the first `accepted` lines of this one. */
  lemma LinesBeforeFailure(ps: seq<seq<Byte>>, p: seq<Byte>, accepted: nat, torn: nat)
    requires accepted < |LinesOf(p)| && CR !in p && forall q | q in ps :: CR !in q
    ensures Parse(DecodeStream(Stream(ps) + (Frames(LinesOf(p)[..accepted]) + Torn(LinesOf(p)[accepted], torn)))) ==
            Texts(AllLines(ps) + LinesOf(p)[..accepted])
  {
    var lines, last := LinesOf(p)[..accepted], LinesOf(p)[accepted];
    var all := AllLines(ps) + lines;
    OneLines(ps);
    OneLines([p]);
    assert AllLines([p]) == LinesOf(p) by { assert DropLast([p]) == [] && [] + LinesOf(p) == LinesOf(p); }
    assert last in LinesOf(p) && forall l | l in lines :: l in LinesOf(p);
    hide Parse, Decode, DecodeStream, Frames, Texts, OneLineBytes, LinesOf, Torn;
    StreamIsFrames(ps);
    FramesConcat(AllLines(ps), lines);
    Associative(Frames(AllLines(ps)), Frames(lines), Torn(last, torn));
    NoMark(all, last, torn);
    ParseTorn(last, torn);
    ParseFrames(all, Torn(last, torn));
    assert Texts(all) + [] == Texts(all);
  }
}
