/** The log viewer (internal/ui/src/components/AppDetail.jsx, LogStream): its bounded buffer, the
    filtered view, and the arithmetic of the mounted window. */
module LogView {
  import opened Common

  const LOG_LINE_H := 19
  const LOG_BUFFER := 8
  const LOG_MAX := 50_000

  datatype Line = Line(text: string, timeStr: string, level: string)

  /** The last n elements, or all of them. */
  function LastN<T>(s: seq<T>, n: nat): seq<T> {
    if |s| <= n then s else s[|s| - n..]
  }

  lemma LastNExactly<T>(s: seq<T>, n: nat)
    ensures var r := LastN(s, n); |r| == (if |s| < n then |s| else n) && r == s[|s| - |r|..]
  {
  }

  /** `lines` are the newest 50,000 lines of the stream, or all of them, each in its place: the last
      one is the last line received. */
  predicate KeepsNewest(lines: seq<Line>, stream: seq<Line>) {
    && |lines| == (if |stream| < 50_000 then |stream| else 50_000)
    && (forall i | 0 <= i < |lines| :: lines[i] == stream[|stream| - |lines| + i])
    && (stream != [] ==> Last(lines) == Last(stream))
  }

  predicate Contains(text: string, part: string) {
    exists i | 0 <= i <= |text| :: part <= text[i..]
  }

  /** The lines whose lower-cased text contains `part`, in order. */
  function Matching(lower: string -> string, lines: seq<Line>, part: string): seq<Line> {
    if lines == [] then []
    else Matching(lower, DropLast(lines), part) + if Contains(lower(Last(lines).text), part) then [Last(lines)] else []
  }

  lemma {:induction false} MatchingCount(lower: string -> string, lines: seq<Line>, part: string, line: Line)
    ensures multiset(Matching(lower, lines, part))[line] == if Contains(lower(line.text), part) then multiset(lines)[line] else 0
  {
    if lines != [] {
      hide Contains;
      MatchingCount(lower, DropLast(lines), part, line);
      assert lines == DropLast(lines) + [Last(lines)];
    }
  }

  lemma {:induction false} MatchingOrder(lower: string -> string, lines: seq<Line>, part: string)
    ensures IsSubsequence(Matching(lower, lines, part), lines)
  {
    if lines != [] {
      var rest := DropLast(lines);
      MatchingOrder(lower, rest, part);
      SubsequenceAppend(Matching(lower, rest, part), rest, Last(lines));
      hide Contains, IsSubsequence;
      assert lines == rest + [Last(lines)];
      assert Matching(lower, rest, part) + [] == Matching(lower, rest, part);
    }
  }

  /** A line is kept as often as it occurs if its lower-cased text has `part` somewhere, and not at all
      otherwise; and the order stays. */
  lemma {:induction false} MatchingExactly(lower: string -> string, lines: seq<Line>, part: string, line: Line)
    ensures multiset(Matching(lower, lines, part))[line] ==
            if exists before, after :: lower(line.text) == before + part + after then multiset(lines)[line] else 0
    ensures IsSubsequence(Matching(lower, lines, part), lines)
  {
    ContainsExactly(lower(line.text), part);
    MatchingCount(lower, lines, part, line);
    MatchingOrder(lower, lines, part);
    hide Matching, Contains, IsSubsequence;
  }

  lemma ContainsExactly(text: string, part: string)
    ensures Contains(text, part) <==> exists before, after :: text == before + part + after
  {
    if i :| 0 <= i <= |text| && part <= text[i..] {
      assert text == text[..i] + part + text[i + |part|..];
    }
    if before, after :| text == before + part + after {
      assert text[|before|..] == part + after;
    }
  }

  /** What the viewer shows for a filter text; an empty filter shows the retained lines. */
  function Shown(lower: string -> string, lines: seq<Line>, filterText: string): seq<Line> {
    if lower(filterText) == "" then lines else Matching(lower, lines, lower(filterText))
  }

  lemma NothingShown(lower: string -> string, filterText: string)
    ensures Shown(lower, [], filterText) == []
  {
  }

  lemma {:induction false} MatchingLength(lower: string -> string, lines: seq<Line>, part: string)
    ensures |Matching(lower, lines, part)| <= |lines|
  {
    if lines != [] {
      MatchingLength(lower, DropLast(lines), part);
    }
  }

  /** The view never holds more than LOG_MAX rows. */
  lemma ShownLength(lower: string -> string, stream: seq<Line>, filterText: string)
    ensures |Shown(lower, LastN(stream, LOG_MAX), filterText)| <= LOG_MAX
  {
    MatchingLength(lower, LastN(stream, LOG_MAX), lower(filterText));
  }

  /** `lower` is toLowerCase. `stream` is everything received since the stream was started. */
  class LogStream {
    const lower: string -> string
    var buffer: seq<Line>
    var lines: seq<Line>
    var filtered: seq<Line>
    var filterText: string
    ghost var stream: seq<Line>

    /** The retained lines are the last LOG_MAX of the flushed part of the stream, and the view is
        the filter of the retained lines. */
    ghost predicate Valid()
      reads this
    {
      && |buffer| <= |stream| && buffer == stream[|stream| - |buffer|..]
      && lines == LastN(stream[..|stream| - |buffer|], LOG_MAX)
      && filtered == Shown(lower, lines, filterText)
    }

    constructor (lower: string -> string)
      requires lower("") == ""
      ensures Valid() && stream == [] && filterText == ""
    {
      this.lower := lower;
      buffer, lines, filtered, filterText, stream := [], [], [], "", [];
    }

    method Refilter()
      modifies this`filtered
      ensures filtered == Shown(lower, lines, filterText)
    {
      var f := lower(filterText);
      if f == "" {
        filtered := lines;
        return;
      }
      filtered := [];
      for i := 0 to |lines|
        invariant filtered == Matching(lower, lines[..i], f)
      {
        assert DropLast(lines[..i + 1]) == lines[..i];
        if Contains(lower(lines[i].text), f) {
          filtered := filtered + [lines[i]];
        }
      }
      assert lines[..|lines|] == lines;
    }

    /** A new connection starts from nothing; only the filter text stays. */
    method StartStream()
      requires Valid()
      modifies this
      ensures Valid() && stream == [] && lines == filtered == [] && filterText == old(filterText)
    {
      buffer := [];
      lines := [];
      filtered := lines;
      stream := [];
      assert stream[..0] == [] && stream[|stream|..] == [] && LastN<Line>([], LOG_MAX) == [];
      NothingShown(lower, filterText);
      hide Shown;
    }

    method OnMessage(line: Line)
      requires Valid()
      modifies this`buffer, this`stream
      ensures Valid() && stream == old(stream) + [line] && buffer == old(buffer) + [line]
    {
      buffer := buffer + [line];
      stream := stream + [line];
      assert stream[..|stream| - |buffer|] == old(stream[..|stream| - |buffer|]);
    }

    method Flush()
      requires Valid()
      modifies this
      ensures Valid() && stream == old(stream) && buffer == [] && filterText == old(filterText)
      ensures KeepsNewest(lines, stream)
    {
      hide Shown, LastN, KeepsNewest;
      if |buffer| == 0 {
        assert stream[..|stream|] == stream;
        LastLines(stream);
        return;
      }
      var incoming := buffer;
      buffer := [];
      var before := lines;
      for i := 0 to |incoming|
        invariant lines == before + incoming[..i]
        invariant buffer == [] && stream == old(stream) && filterText == old(filterText)
      {
        lines := lines + [incoming[i]];
        assert incoming[..i + 1] == incoming[..i] + [incoming[i]];
      }
      assert incoming[..|incoming|] == incoming;
      Capped(lines, LOG_MAX);
      if |lines| > LOG_MAX {
        lines := lines[|lines| - LOG_MAX..];
      }
      RetainedAfterFlush(stream, before, incoming);
      LastLines(stream);
      Refilter();
    }

    method SetFilter(text: string)
      requires Valid()
      modifies this`filterText, this`filtered
      ensures Valid() && filterText == text
    {
      filterText := text;
      Refilter();
    }
  }

  lemma Capped<T>(s: seq<T>, n: nat)
    ensures LastN(s, n) == if |s| > n then s[|s| - n..] else s
  {
  }

  lemma LastLines(stream: seq<Line>)
    ensures KeepsNewest(LastN(stream, LOG_MAX), stream)
  {
    LastNExactly(stream, LOG_MAX);
    hide LastN;
  }

  lemma RetainedAfterFlush(stream: seq<Line>, before: seq<Line>, incoming: seq<Line>)
    requires |incoming| <= |stream| && incoming == stream[|stream| - |incoming|..]
    requires before == LastN(stream[..|stream| - |incoming|], LOG_MAX)
    ensures LastN(before + incoming, LOG_MAX) == LastN(stream, LOG_MAX) && stream[..|stream|] == stream
  {
    var flushed := stream[..|stream| - |incoming|];
    assert stream == flushed + incoming;
    LastNAppend(flushed, incoming, LOG_MAX);
  }

  /** Cutting early loses nothing: keeping the last n before appending is the same as after. */
  lemma LastNAppend<T>(a: seq<T>, b: seq<T>, n: nat)
    ensures LastN(LastN(a, n) + b, n) == LastN(a + b, n)
  {
  }

  function Concat<T>(batches: seq<seq<T>>): seq<T> {
    if batches == [] then [] else Concat(DropLast(batches)) + Last(batches)
  }

  /** The retained lines after flushing the batches one by one. */
  function Retained<T>(batches: seq<seq<T>>, n: nat): seq<T> {
    if batches == [] then [] else LastN(Retained(DropLast(batches), n) + Last(batches), n)
  }

  /** However the stream is split into flush batches, its last n lines, or all of them, are retained. */
  lemma {:induction false} BatchesDoNotMatter<T>(batches: seq<seq<T>>, n: nat)
    ensures var all, kept := Concat(batches), Retained(batches, n);
            |kept| == (if |all| < n then |all| else n) && kept == all[|all| - |kept|..]
    ensures Retained(batches, n) == LastN(Concat(batches), n)
  {
    LastNExactly(Concat(batches), n);
    if batches != [] {
      BatchesDoNotMatter(DropLast(batches), n);
      LastNAppend(Concat(DropLast(batches)), Last(batches), n);
    }
    hide LastN;
  }

  // ---- The mounted window ----------------------------------------------------------------------

  function Floor(x: real): int {
    x.Floor
  }

  function Ceil(x: real): int {
    -(-x).Floor
  }

  function Max(a: int, b: int): int {
    if a > b then a else b
  }

  function Min(a: int, b: int): int {
    if a < b then a else b
  }

  function First(scrollTop: real): int {
    Max(0, Floor(scrollTop / (LOG_LINE_H as real)) - LOG_BUFFER)
  }

  function LastRow(total: nat, scrollTop: real, viewportH: real): int {
    Min(total, Ceil((scrollTop + viewportH) / (LOG_LINE_H as real)) + LOG_BUFFER)
  }

  /** Array.prototype.slice with a non-negative start: a negative end counts from the back. */
  function SliceEnd(total: nat, end: int): int {
    if end < 0 then Max(0, total + end) else Min(end, total)
  }

  predicate Mounted(i: int, total: nat, scrollTop: real, viewportH: real) {
    First(scrollTop) <= i < SliceEnd(total, LastRow(total, scrollTop, viewportH))
  }

  function MountedRows(total: nat, scrollTop: real, viewportH: real): int {
    Max(0, SliceEnd(total, LastRow(total, scrollTop, viewportH)) - First(scrollTop))
  }

  /** Row i occupies [19 i, 19 (i + 1)). */
  predicate InViewport(i: int, scrollTop: real, viewportH: real) {
    (LOG_LINE_H * i) as real < scrollTop + viewportH && (LOG_LINE_H * (i + 1)) as real > scrollTop
  }

  /** Row i intersects the viewport extended by the margin of LOG_BUFFER rows on both sides. */
  predicate NearViewport(i: int, scrollTop: real, viewportH: real) {
    (LOG_LINE_H * (i - LOG_BUFFER)) as real < scrollTop + viewportH && (LOG_LINE_H * (i + 1 + LOG_BUFFER)) as real > scrollTop
  }

  /** Unless the view is scrolled far above the top, a row is mounted if and only if it lies in the
      viewport or its margin. */
  lemma MountedExactly(i: nat, total: nat, scrollTop: real, viewportH: real)
    requires scrollTop + viewportH > -171.0
    ensures Mounted(i, total, scrollTop, viewportH) <==> i < total && NearViewport(i, scrollTop, viewportH)
  {
    var h := LOG_LINE_H as real;
    assert (i - LOG_BUFFER) as real < (scrollTop + viewportH) / h <==> (LOG_LINE_H * (i - LOG_BUFFER)) as real < scrollTop + viewportH;
  }

  /** Every row that intersects the viewport is mounted. */
  lemma VisibleRowsMounted(i: nat, total: nat, scrollTop: real, viewportH: real)
    requires i < total && InViewport(i, scrollTop, viewportH)
    ensures Mounted(i, total, scrollTop, viewportH)
  {
    MountedExactly(i, total, scrollTop, viewportH);
  }

  /** For every log the viewer can hold, at most ceil(viewportH / 19) + 17 rows are mounted, unless
      the view is scrolled so far above the top that nothing but margin is left: then slice gets a
      negative end and mounts a prefix of the log, which for the longest log exceeds that bound until
      the end lies before it. */
  lemma MountedBounded(scrollTop: real, viewportH: real)
    requires viewportH >= 0.0
    ensures var h := LOG_LINE_H as real;
            (forall total: nat | total <= LOG_MAX :: MountedRows(total, scrollTop, viewportH) <= Ceil(viewportH / h) + 17) <==>
              scrollTop + viewportH > -171.0 || LOG_MAX + Ceil((scrollTop + viewportH) / h) <= Ceil(viewportH / h) + 9
  {
    var h := LOG_LINE_H as real;
    var bound := Ceil(viewportH / h) + 17;
    var end := Ceil((scrollTop + viewportH) / h) + LOG_BUFFER;
    assert (scrollTop + viewportH) / h == scrollTop / h + viewportH / h;
    if scrollTop + viewportH > -171.0 {
      assert (scrollTop + viewportH) / h > -9.0;
      assert end >= 0;
      assert Ceil(scrollTop / h + viewportH / h) <= Floor(scrollTop / h) + 1 + Ceil(viewportH / h);
    } else {
      assert (scrollTop + viewportH) / h <= -9.0;
      assert end < 0;
      assert scrollTop / h <= -9.0;
      assert MountedRows(LOG_MAX, scrollTop, viewportH) == Max(0, LOG_MAX + end);
    }
  }
}
