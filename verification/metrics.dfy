/** Metrics (internal/metrics/metrics.go): the recording functions over global maps, and the text
    the handler prints against a parser of the Prometheus text exposition format 0.0.4. */
module Metrics {
  import opened Common
  import opened Decimal

  type Counts = map<string, map<string, nat>>

  function At(m: Counts, key: string, status: string): nat {
    Look(Look(m, key, map[]), status, 0)
  }

  /** How often a pair occurs in a history of calls. */
  function Times(calls: seq<(string, string)>, key: string, status: string): nat {
    multiset(calls)[(key, status)]
  }

  /** One more occurrence of a pair. */
  function Bump(m: Counts, key: string, status: string): Counts {
    m[key := Look(m, key, map[])[status := At(m, key, status) + 1]]
  }

  /** m counts the calls, and holds no key without a status under it. */
  ghost predicate Tally(m: Counts, calls: seq<(string, string)>) {
    && (forall key, status :: At(m, key, status) == Times(calls, key, status))
    && (forall key | key in m :: m[key] != map[])
  }

  lemma BumpAt(m: Counts, key: string, status: string)
    ensures forall k, st :: At(Bump(m, key, status), k, st) == At(m, k, st) + if (k, st) == (key, status) then 1 else 0
  {
  }

  lemma TallyStep(m: Counts, calls: seq<(string, string)>, key: string, status: string)
    requires Tally(m, calls)
    ensures Tally(Bump(m, key, status), calls + [(key, status)])
  {
    BumpAt(m, key, status);
    assert status in Bump(m, key, status)[key];
  }

  /** The duration counter and the last-sync timestamps follow the successes. */
  ghost predicate FollowsSuccess(m: Counts, durations: map<string, nat>, timestamps: map<string, int>) {
    forall r :: Look(durations, r, 0) == At(m, r, "success") && (r in timestamps <==> At(m, r, "success") > 0)
  }

  lemma SuccessStep(m: Counts, durations: map<string, nat>, timestamps: map<string, int>, repo: string, status: string, now: int)
    requires FollowsSuccess(m, durations, timestamps)
    ensures status == "success" ==>
              FollowsSuccess(Bump(m, repo, status), durations[repo := Look(durations, repo, 0) + 1], timestamps[repo := now])
    ensures status != "success" ==> FollowsSuccess(Bump(m, repo, status), durations, timestamps)
  {
    BumpAt(m, repo, status);
  }

  /** The durations of a repository's successful syncs, added in order with floating-point addition `add`. */
  function Spent(add: (real, real) -> real, durations: seq<(string, real)>, repo: string): real {
    if durations == [] then 0.0
    else
      var before := Spent(add, DropLast(durations), repo);
      if Last(durations).0 == repo then add(before, Last(durations).1) else before
  }

  ghost predicate SumsUp(add: (real, real) -> real, sums: map<string, real>, durations: seq<(string, real)>) {
    forall r :: Look(sums, r, 0.0) == Spent(add, durations, r)
  }

  lemma SumStep(add: (real, real) -> real, sums: map<string, real>, durations: seq<(string, real)>, repo: string, duration: real)
    requires SumsUp(add, sums, durations)
    ensures SumsUp(add, sums[repo := add(Look(sums, repo, 0.0), duration)], durations + [(repo, duration)])
  {
    AppendLast(durations, (repo, duration));
    var sums' := sums[repo := add(Look(sums, repo, 0.0), duration)];
    forall r
      ensures Look(sums', r, 0.0) == Spent(add, durations + [(repo, duration)], r)
    {
      assert Look(sums, r, 0.0) == Spent(add, durations, r);
    }
  }

  /** The nil check and the increment both recording functions start with. */
  method Increment(m: Counts, key: string, status: string) returns (m': Counts)
    ensures m' == Bump(m, key, status)
  {
    m' := m;
    if key !in m' {
      m' := m'[key := map[]];
    }
    m' := m'[key := m'[key][status := Look(m'[key], status, 0) + 1]];
  }

  /** `add` is float64 addition, rounding included. */
  class Registry {
    const add: (real, real) -> real
    var syncTotal: Counts
    var applyTotal: Counts
    var lastSyncTS: map<string, int>
    var syncDurationSum: map<string, real>
    var syncDurationCount: map<string, nat>
    ghost var durations: seq<(string, real)>
    ghost var syncs: seq<(string, string)>
    ghost var applies: seq<(string, string)>

    /** The counters count the calls so far; the duration counter and the duration sum are those of
        the successful syncs, whose durations are `durations`. */
    ghost predicate Valid()
      reads this
    {
      && Tally(syncTotal, syncs) && Tally(applyTotal, applies)
      && FollowsSuccess(syncTotal, syncDurationCount, lastSyncTS)
      && SumsUp(add, syncDurationSum, durations)
    }

    constructor (add: (real, real) -> real)
      ensures Valid() && this.add == add && syncs == [] && applies == [] && durations == []
    {
      this.add := add;
      syncTotal, applyTotal, lastSyncTS, syncDurationCount, syncDurationSum := map[], map[], map[], map[], map[];
      syncs, applies, durations := [], [], [];
    }

    method RecordSync(repo: string, status: string, duration: real, now: int)
      requires Valid()
      modifies this
      ensures Valid() && syncs == old(syncs) + [(repo, status)] && applies == old(applies)
      ensures durations == if status == "success" then old(durations) + [(repo, duration)] else old(durations)
      ensures applyTotal == old(applyTotal)
      ensures lastSyncTS == if status == "success" then old(lastSyncTS)[repo := now] else old(lastSyncTS)
    {
      hide Tally, FollowsSuccess, SumsUp, Bump;
      ghost var total, counts, timestamps, calls := syncTotal, syncDurationCount, lastSyncTS, syncs;
      syncTotal := Increment(syncTotal, repo, status);
      if status == "success" {
        SumStep(add, syncDurationSum, durations, repo, duration);
        lastSyncTS := lastSyncTS[repo := now];
        syncDurationSum := syncDurationSum[repo := add(Look(syncDurationSum, repo, 0.0), duration)];
        syncDurationCount := syncDurationCount[repo := Look(syncDurationCount, repo, 0) + 1];
        durations := durations + [(repo, duration)];
      }
      syncs := syncs + [(repo, status)];
      TallyStep(total, calls, repo, status);
      SuccessStep(total, counts, timestamps, repo, status, now);
    }

    method RecordApply(stack: string, status: string)
      requires Valid()
      modifies this
      ensures Valid() && applies == old(applies) + [(stack, status)] && syncs == old(syncs)
      ensures syncTotal == old(syncTotal) && lastSyncTS == old(lastSyncTS) && durations == old(durations)
    {
      applyTotal := Increment(applyTotal, stack, status);
      applies := applies + [(stack, status)];
      TallyStep(old(applyTotal), old(applies), stack, status);
    }
  }

  // ---- Printing ------------------------------------------------------------------------------------

  function EscapeChar(c: char): string {
    match c case '\\' => "\\\\" case '"' => "\\\"" case '\n' => "\\n" case _ => [c]
  }

  function EscapeLabel(v: string): string {
    if v == "" then "" else EscapeChar(v[0]) + EscapeLabel(v[1..])
  }

  datatype Sample = Sample(metric: string, labels: seq<(string, string)>, value: nat)

  /** The labels and the closing brace, printed before `after`. */
  function PrintLabels(labels: seq<(string, string)>, after: string): string {
    if labels == [] then "}" + after
    else
      var rest := if |labels| == 1 then "}" + after else "," + PrintLabels(labels[1..], after);
      labels[0].0 + ("=\"" + (EscapeLabel(labels[0].1) + ("\"" + rest)))
  }

  /** A sample's line, printed before `after`. */
  function PrintSample(x: Sample, after: string): string {
    x.metric + ("{" + PrintLabels(x.labels, " " + (Digits(x.value) + ("\n" + after))))
  }

  function PrintAll(xs: seq<Sample>): string {
    if xs == [] then "" else PrintSample(xs[0], PrintAll(xs[1..]))
  }

  function Header(metric: string, help: string): string {
    "# HELP " + metric + " " + help + "\n" + "# TYPE " + metric + " counter\n"
  }

  predicate NameChar(c: char) {
    'a' <= c <= 'z' || 'A' <= c <= 'Z' || '0' <= c <= '9' || c == '_' || c == ':'
  }

  predicate Name(s: string) {
    s != "" && forall i | 0 <= i < |s| :: NameChar(s[i])
  }

  predicate Printable(x: Sample) {
    Name(x.metric) && x.labels != [] && forall i | 0 <= i < |x.labels| :: Name(x.labels[i].0)
  }

  function EntryOf(metric: string, labelName: string, m: Counts, key: string, status: string): Sample
    requires key in m && status in m[key]
  {
    Sample(metric, [(labelName, key), ("status", status)], m[key][status])
  }

  /** The samples are the entries of a two-level counter map, each once, in some order. */
  ghost predicate Covers(xs: seq<Sample>, metric: string, labelName: string, m: Counts) {
    && (forall i, j | 0 <= i < j < |xs| :: xs[i] != xs[j])
    && (forall x :: x in xs <==> exists key, status :: key in m && status in m[key] && x == EntryOf(metric, labelName, m, key, status))
  }

  lemma Regroup(a: string, b: string, c: string, d: string, e: string, f: string)
    ensures a + (b + (c + (d + (e + f)))) == (a + (b + (c + (d + e)))) + f
  {
    assert d + (e + f) == (d + e) + f;
    assert c + ((d + e) + f) == (c + (d + e)) + f;
    assert b + ((c + (d + e)) + f) == (b + (c + (d + e))) + f;
  }

  lemma {:induction false} LabelsThen(labels: seq<(string, string)>, a: string, b: string)
    ensures PrintLabels(labels, a + b) == PrintLabels(labels, a) + b
  {
    assert "}" + (a + b) == ("}" + a) + b;
    if |labels| == 1 {
      Regroup(labels[0].0, "=\"", EscapeLabel(labels[0].1), "\"", "}" + a, b);
    } else if |labels| > 1 {
      var rest := PrintLabels(labels[1..], a);
      LabelsThen(labels[1..], a, b);
      assert "," + (rest + b) == ("," + rest) + b;
      Regroup(labels[0].0, "=\"", EscapeLabel(labels[0].1), "\"", "," + rest, b);
    }
  }

  lemma SampleThen(x: Sample, after: string)
    ensures PrintSample(x, after) == PrintSample(x, "") + after
  {
    var d, a := Digits(x.value), " " + (Digits(x.value) + ("\n" + ""));
    assert "\n" + "" == "\n";
    assert " " + (d + ("\n" + after)) == a + after;
    LabelsThen(x.labels, a, after);
    var l := PrintLabels(x.labels, a);
    assert "{" + (l + after) == ("{" + l) + after;
  }

  lemma {:induction false} PrintAllConcat(xs: seq<Sample>, ys: seq<Sample>)
    ensures PrintAll(xs + ys) == PrintAll(xs) + PrintAll(ys)
  {
    if xs == [] {
      assert xs + ys == ys;
    } else {
      assert (xs + ys)[1..] == xs[1..] + ys;
      PrintAllConcat(xs[1..], ys);
      var line, a, b := PrintSample(xs[0], ""), PrintAll(xs[1..]), PrintAll(ys);
      SampleThen(xs[0], a + b);
      SampleThen(xs[0], a);
      Associative(line, a, b);
    }
  }

  lemma PrintAllAppend(xs: seq<Sample>, x: Sample)
    ensures PrintAll(xs + [x]) == PrintAll(xs) + PrintSample(x, "")
  {
    PrintAllConcat(xs, [x]);
    assert [x][1..] == [];
  }

  /** What the handler's format string prints for one counter, piece by piece. */
  function Line(metric: string, labelName: string, key: string, status: string, count: nat): string {
    metric + ("{" + (labelName + ("=\"" + (EscapeLabel(key) + ("\"" + ("," +
      ("status" + ("=\"" + (EscapeLabel(status) + ("\"" + ("}" + (" " + (Digits(count) + "\n")))))))))))))
  }

  lemma LineIsSample(metric: string, labelName: string, m: Counts, key: string, status: string)
    requires key in m && status in m[key]
    ensures PrintSample(EntryOf(metric, labelName, m, key, status), "") == Line(metric, labelName, key, status, m[key][status])
  {
    var labels := [(labelName, key), ("status", status)];
    var after := " " + (Digits(m[key][status]) + ("\n" + ""));
    assert labels[1..] == [("status", status)];
    assert PrintLabels(labels[1..], after) == "status" + ("=\"" + (EscapeLabel(status) + ("\"" + ("}" + after))));
    assert "\n" + "" == "\n";
  }

  /** The samples written so far are the entries `done`. */
  ghost predicate Written(xs: seq<Sample>, done: set<(string, string)>, metric: string, labelName: string, m: Counts) {
    && (forall p | p in done :: p.0 in m && p.1 in m[p.0])
    && (forall i, j | 0 <= i < j < |xs| :: xs[i] != xs[j])
    && (forall x :: x in xs <==> exists p :: p in done && x == EntryOf(metric, labelName, m, p.0, p.1))
  }

  lemma WrittenStep(xs: seq<Sample>, done: set<(string, string)>, metric: string, labelName: string, m: Counts, p: (string, string))
    requires Written(xs, done, metric, labelName, m) && p.0 in m && p.1 in m[p.0] && p !in done
    ensures Written(xs + [EntryOf(metric, labelName, m, p.0, p.1)], done + {p}, metric, labelName, m)
  {
    var x := EntryOf(metric, labelName, m, p.0, p.1);
    forall q | q in done && q != p
      ensures EntryOf(metric, labelName, m, q.0, q.1) != x
    {
      assert EntryOf(metric, labelName, m, q.0, q.1).labels[0].1 == q.0;
      assert EntryOf(metric, labelName, m, q.0, q.1).labels[1].1 == q.1;
    }
    assert x !in xs;
    forall y
      ensures y in xs + [x] <==> exists q :: q in done + {p} && y == EntryOf(metric, labelName, m, q.0, q.1)
    {
      if y in xs {
        var q :| q in done && y == EntryOf(metric, labelName, m, q.0, q.1);
        assert q in done + {p};
      } else if y == x {
        assert p in done + {p};
      }
    }
  }

  /** The statuses of one key. */
  method WriteStatuses(metric: string, labelName: string, m: Counts, key: string, ghost before: seq<Sample>, ghost done0: set<(string, string)>)
    returns (text: string, ghost xs: seq<Sample>, ghost done: set<(string, string)>)
    requires key in m && Written(before, done0, metric, labelName, m) && forall st :: (key, st) !in done0
    ensures Written(xs, done, metric, labelName, m) && before <= xs && text == PrintAll(xs[|before|..])
    ensures forall p :: p in done <==> p in done0 || (p.0 == key && p.1 in m[key])
  {
    text := "";
    xs, done := before, done0;
    var statuses := m[key].Keys;
    while statuses != {}
      invariant statuses <= m[key].Keys
      invariant Written(xs, done, metric, labelName, m) && before <= xs && text == PrintAll(xs[|before|..])
      invariant forall p :: p in done <==> p in done0 || (p.0 == key && p.1 in m[key] && p.1 !in statuses)
    {
      var status :| status in statuses;
      statuses := statuses - {status};
      ghost var x := EntryOf(metric, labelName, m, key, status);
      text := text + Line(metric, labelName, key, status, m[key][status]);
      LineIsSample(metric, labelName, m, key, status);
      PrintAllAppend(xs[|before|..], x);
      WrittenStep(xs, done, metric, labelName, m, (key, status));
      assert (xs + [x])[|before|..] == xs[|before|..] + [x];
      xs, done := xs + [x], done + {(key, status)};
    }
  }

  /** One counter family of the page: the two map iterations may take any order. */
  method WriteTotals(metric: string, help: string, labelName: string, m: Counts) returns (text: string, ghost xs: seq<Sample>)
    ensures Covers(xs, metric, labelName, m) && text == Header(metric, help) + PrintAll(xs)
    ensures Name(metric) && Name(labelName) && '\n' !in help ==>
              && ParsePage(text).Some? && Covers(ParsePage(text).value.samples, metric, labelName, m)
              && ParsePage(text).value.comments == [Help(metric, help), Type(metric, "counter")]
  {
    text := Header(metric, help);
    xs := [];
    ghost var done: set<(string, string)> := {};
    var keys := m.Keys;
    while keys != {}
      invariant keys <= m.Keys
      invariant Written(xs, done, metric, labelName, m)
      invariant forall p :: p in done <==> p.0 in m && p.0 !in keys && p.1 in m[p.0]
      invariant text == Header(metric, help) + PrintAll(xs)
    {
      var key :| key in keys;
      keys := keys - {key};
      var lines, xs', done' := WriteStatuses(metric, labelName, m, key, xs, done);
      LinesAppended(Header(metric, help), xs, xs');
      text := text + lines;
      xs, done := xs', done';
    }
    WrittenCovers(xs, done, metric, labelName, m);
    if Name(metric) && Name(labelName) && '\n' !in help {
      TotalsParseBack(metric, help, labelName, m, xs);
    }
  }

  lemma LinesAppended(header: string, xs: seq<Sample>, xs': seq<Sample>)
    requires xs <= xs'
    ensures (header + PrintAll(xs)) + PrintAll(xs'[|xs|..]) == header + PrintAll(xs')
  {
    assert xs' == xs + xs'[|xs|..];
    PrintAllConcat(xs, xs'[|xs|..]);
    Associative(header, PrintAll(xs), PrintAll(xs'[|xs|..]));
  }

  lemma WrittenCovers(xs: seq<Sample>, done: set<(string, string)>, metric: string, labelName: string, m: Counts)
    requires Written(xs, done, metric, labelName, m) && forall p :: p in done <==> p.0 in m && p.1 in m[p.0]
    ensures Covers(xs, metric, labelName, m)
  {
    forall key, status | key in m && status in m[key]
      ensures EntryOf(metric, labelName, m, key, status) in xs
    {
      assert (key, status) in done;
    }
  }

  // ---- Parsing, as the section "Line format" describes it ---------------------------------------------

  function NameRun(s: string): (k: nat)
    ensures k <= |s|
  {
    if s == "" || !NameChar(s[0]) then 0 else 1 + NameRun(s[1..])
  }

  /** A label value up to its closing quote, unescaped, and what follows. */
  function ParseQuoted(s: string): (r: Option<(string, string)>)
    ensures r.Some? ==> |r.value.1| < |s|
  {
    if s == "" || s[0] == '\n' then None
    else if s[0] == '"' then Some(("", s[1..]))
    else if s[0] == '\\' then
      if |s| < 2 || s[1] !in "\\\"n" then None
      else
        var r := ParseQuoted(s[2..]);
        if r.None? then None else Some(([if s[1] == 'n' then '\n' else s[1]] + r.value.0, r.value.1))
    else
      var r := ParseQuoted(s[1..]);
      if r.None? then None else Some(([s[0]] + r.value.0, r.value.1))
  }

  /** Labels after the opening brace, through the closing one. */
  function ParseLabels(s: string): (r: Option<(seq<(string, string)>, string)>)
    ensures r.Some? ==> |r.value.1| < |s|
    decreases |s|
  {
    var k := NameRun(s);
    if k == 0 then if s != "" && s[0] == '}' then Some(([], s[1..])) else None
    else if |s| < k + 2 || s[k..k + 2] != "=\"" then None
    else
      var v := ParseQuoted(s[k + 2..]);
      if v.None? || v.value.1 == "" then None
      else
        var after := v.value.1;
        if after[0] == '}' then Some(([(s[..k], v.value.0)], after[1..]))
        else if after[0] != ',' then None
        else
          var r := ParseLabels(after[1..]);
          if r.None? then None else Some(([(s[..k], v.value.0)] + r.value.0, r.value.1))
  }

  function ParseSample(s: string): (r: Option<(Sample, string)>)
    ensures r.Some? ==> |r.value.1| < |s|
  {
    var k := NameRun(s);
    if k == 0 || k == |s| || s[k] != '{' then None
    else
      var l := ParseLabels(s[k + 1..]);
      if l.None? || l.value.1 == "" || l.value.1[0] != ' ' then None
      else
        var number := l.value.1[1..];
        var d := DigitRun(number);
        if d == 0 || d == |number| || number[d] != '\n' then None
        else Some((Sample(s[..k], l.value.0, Value(number[..d])), number[d + 1..]))
  }

  function LineLength(s: string): (k: nat)
    ensures k <= |s|
  {
    if s == "" || s[0] == '\n' then 0 else 1 + LineLength(s[1..])
  }

  /** What a line that starts with # says. */
  datatype Comment = Help(metric: string, text: string) | Type(metric: string, kind: string) | Other

  function ParseComment(line: string): Comment {
    if |line| < 7 || (line[..7] != "# HELP " && line[..7] != "# TYPE ") then Other
    else
      var said := line[7..];
      var k := NameRun(said);
      if k == 0 || k == |said| || said[k] != ' ' then Other
      else if line[..7] == "# HELP " then Help(said[..k], said[k + 1..])
      else Type(said[..k], said[k + 1..])
  }

  datatype Page = Page(comments: seq<Comment>, samples: seq<Sample>)

  /** The comments and samples of a page. */
  function ParsePage(s: string): Option<Page>
    decreases |s|
  {
    if s == "" then Some(Page([], []))
    else if s[0] == '#' then
      var k := LineLength(s);
      var r := if k == |s| then Some(Page([], [])) else ParsePage(s[k + 1..]);
      if r.None? then None else Some(Page([ParseComment(s[..k])] + r.value.comments, r.value.samples))
    else
      var x := ParseSample(s);
      if x.None? then None
      else
        var r := ParsePage(x.value.1);
        if r.None? then None else Some(Page(r.value.comments, [x.value.0] + r.value.samples))
  }

  // ---- Round trip ---------------------------------------------------------------------------------------

  lemma {:induction false} NameRunAt(name: string, rest: string)
    requires forall i | 0 <= i < |name| :: NameChar(name[i])
    requires rest != "" && !NameChar(rest[0])
    ensures NameRun(name + rest) == |name|
  {
    if name == "" {
      assert name + rest == rest;
    } else {
      assert (name + rest)[1..] == name[1..] + rest;
      NameRunAt(name[1..], rest);
    }
  }

  lemma QuotedStep(c: char, tail: string, v: string, rest: string)
    requires ParseQuoted(tail) == Some((v, rest))
    ensures ParseQuoted(EscapeChar(c) + tail) == Some(([c] + v, rest))
  {
    var s := EscapeChar(c) + tail;
    if c == '\\' || c == '"' || c == '\n' {
      assert s[0] == '\\' && s[2..] == tail;
      assert s[1] in "\\\"n";
    } else {
      assert s[0] == c && s[1..] == tail;
    }
  }

  lemma {:induction false} QuotedBack(v: string, rest: string)
    ensures ParseQuoted(EscapeLabel(v) + "\"" + rest) == Some((v, rest))
  {
    if v == "" {
      assert EscapeLabel(v) + "\"" + rest == "\"" + rest;
    } else {
      var first, more := EscapeChar(v[0]), EscapeLabel(v[1..]);
      assert EscapeLabel(v) == first + more;
      hide EscapeLabel, EscapeChar, ParseQuoted;
      QuotedBack(v[1..], rest);
      QuotedStep(v[0], more + "\"" + rest, v[1..], rest);
      assert (first + more) + "\"" + rest == first + (more + "\"" + rest);
      assert [v[0]] + v[1..] == v;
    }
  }

  lemma FirstLabelBack(name: string, v: string, after: string)
    requires Name(name)
    ensures var s := name + ("=\"" + (EscapeLabel(v) + ("\"" + after)));
            && NameRun(s) == |name| && s[..|name|] == name && |s| >= |name| + 2 && s[|name|..|name| + 2] == "=\""
            && ParseQuoted(s[|name| + 2..]) == Some((v, after))
  {
    hide EscapeLabel, ParseQuoted;
    var quoted := EscapeLabel(v) + ("\"" + after);
    var s := name + ("=\"" + quoted);
    NameRunAt(name, "=\"" + quoted);
    assert s[|name| + 2..] == quoted;
    assert quoted == EscapeLabel(v) + "\"" + after;
    QuotedBack(v, after);
  }

  lemma {:induction false} LabelsBack(labels: seq<(string, string)>, rest: string)
    requires labels != [] && forall i | 0 <= i < |labels| :: Name(labels[i].0)
    ensures ParseLabels(PrintLabels(labels, rest)) == Some((labels, rest))
    decreases |labels|
  {
    var name, v, more := labels[0].0, labels[0].1, labels[1..];
    var after := if more == [] then "}" + rest else "," + PrintLabels(more, rest);
    FirstLabelBack(name, v, after);
    var s := name + ("=\"" + (EscapeLabel(v) + ("\"" + after)));
    assert s == PrintLabels(labels, rest);
    assert labels == [(name, v)] + more && after != "";
    if more == [] {
      assert after[1..] == rest && labels == [(name, v)];
      assert ParseLabels(s) == Some(([(name, v)], rest));
    } else {
      LabelsBack(more, rest);
      assert after[1..] == PrintLabels(more, rest);
      assert ParseLabels(s) == Some(([(name, v)] + more, rest));
    }
  }

  lemma NumberBack(n: nat, rest: string)
    ensures var s := Digits(n) + ("\n" + rest); var d := DigitRun(s);
            0 < d < |s| && s[d] == '\n' && Value(s[..d]) == n && s[d + 1..] == rest
  {
    var d := Digits(n);
    var s := d + ("\n" + rest);
    DigitRunAppend(d, "\n" + rest);
    assert s[..|d|] == d && s[|d| + 1..] == rest;
    ValueOfDigits(n);
  }

  lemma LabelsAt(name: string, labels: seq<(string, string)>, after: string)
    requires Name(name)
    ensures var s := name + ("{" + PrintLabels(labels, after));
            && NameRun(s) == |name| && |s| > |name| && s[|name|] == '{'
            && s[..|name|] == name && s[|name| + 1..] == PrintLabels(labels, after)
  {
    hide PrintLabels;
    NameRunAt(name, "{" + PrintLabels(labels, after));
  }

  lemma SampleBack(x: Sample, rest: string)
    requires Printable(x)
    ensures ParseSample(PrintSample(x, rest)) == Some((x, rest))
  {
    var number := Digits(x.value) + ("\n" + rest);
    LabelsAt(x.metric, x.labels, " " + number);
    LabelsBack(x.labels, " " + number);
    NumberBack(x.value, rest);
    hide PrintLabels, ParseLabels, NameRun, DigitRun, Digits, Value;
    assert (" " + number)[1..] == number;
  }

  lemma SampleStarts(x: Sample, rest: string)
    requires Printable(x)
    ensures PrintSample(x, rest) != "" && PrintSample(x, rest)[0] != '#'
  {
    hide PrintLabels;
    assert PrintSample(x, rest)[0] == x.metric[0];
    assert NameChar(x.metric[0]);
  }

  lemma PageStep(x: Sample, rest: string, xs: seq<Sample>)
    requires Printable(x) && ParsePage(rest) == Some(Page([], xs))
    ensures ParsePage(PrintSample(x, rest)) == Some(Page([], [x] + xs))
  {
    SampleBack(x, rest);
    SampleStarts(x, rest);
    hide PrintSample, ParseSample, Printable;
  }

  lemma {:induction false} SamplesBack(xs: seq<Sample>)
    requires forall x | x in xs :: Printable(x)
    ensures ParsePage(PrintAll(xs)) == Some(Page([], xs))
  {
    if xs != [] {
      hide ParsePage, PrintSample, Printable;
      assert xs[0] in xs;
      SamplesBack(xs[1..]);
      PageStep(xs[0], PrintAll(xs[1..]), xs[1..]);
      assert xs == [xs[0]] + xs[1..];
    }
  }

  lemma {:induction false} LineLengthAt(line: string, rest: string)
    requires '\n' !in line
    ensures LineLength(line + "\n" + rest) == |line|
  {
    var s := line + "\n" + rest;
    if line != "" {
      assert s[1..] == line[1..] + "\n" + rest;
      LineLengthAt(line[1..], rest);
    }
  }

  lemma CommentRead(line: string, rest: string, page: Page)
    requires line != "" && line[0] == '#' && '\n' !in line && ParsePage(rest) == Some(page)
    ensures ParsePage(line + "\n" + rest) == Some(Page([ParseComment(line)] + page.comments, page.samples))
  {
    var s := line + "\n" + rest;
    LineLengthAt(line, rest);
    assert s[..|line|] == line && s[|line| + 1..] == rest;
    hide ParseComment;
  }

  lemma SaidOf(metric: string, said: string)
    requires Name(metric)
    ensures var tail := metric + (" " + said); var k := NameRun(tail);
            0 < k < |tail| && tail[k] == ' ' && tail[..k] == metric && tail[k + 1..] == said
  {
    NameRunAt(metric, " " + said);
    hide NameRun;
    var tail := metric + (" " + said);
    assert tail[..|metric|] == metric && tail[|metric| + 1..] == said;
  }

  lemma CommentOf(head: string, tail: string)
    requires |head| == 7
    ensures (head + tail)[..7] == head && (head + tail)[7..] == tail
  {
  }

  lemma CommentBack(metric: string, said: string)
    requires Name(metric)
    ensures ParseComment("# HELP " + metric + " " + said) == Help(metric, said)
    ensures ParseComment("# TYPE " + metric + " " + said) == Type(metric, said)
  {
    var tail := metric + (" " + said);
    SaidOf(metric, said);
    CommentOf("# HELP ", tail);
    CommentOf("# TYPE ", tail);
    hide NameRun, Name;
    Associative("# HELP ", metric, " " + said);
    Associative("# HELP " + metric, " ", said);
    Associative("# TYPE ", metric, " " + said);
    Associative("# TYPE " + metric, " ", said);
  }

  lemma CoversPrintable(metric: string, labelName: string, m: Counts, xs: seq<Sample>)
    requires Covers(xs, metric, labelName, m) && Name(metric) && Name(labelName)
    ensures forall x | x in xs :: Printable(x)
  {
    assert Name("status");
  }

  lemma NamesInLine(metric: string)
    requires Name(metric)
    ensures '\n' !in metric
  {
  }

  /** What the page of one counter family holds. */
  function Family(metric: string, help: string, xs: seq<Sample>): Page {
    Page([Help(metric, help), Type(metric, "counter")], xs)
  }

  /** Whatever order the map iterations take, a printed counter family parses back to its help text,
      its type, counter, and exactly the entries of the map, each once, for arbitrary keys: quotes,
      backslashes and newlines included. */
  lemma {:induction false} TotalsParseBack(metric: string, help: string, labelName: string, m: Counts, xs: seq<Sample>)
    requires Covers(xs, metric, labelName, m) && Name(metric) && Name(labelName) && '\n' !in help
    ensures ParsePage(Header(metric, help) + PrintAll(xs)) == Some(Family(metric, help, xs))
  {
    CoversPrintable(metric, labelName, m, xs);
    SamplesBack(xs);
    CommentBack(metric, help);
    CommentBack(metric, "counter");
    HeaderLines(metric, help, PrintAll(xs));
    LinesWhole(metric, help);
    hide ParsePage, ParseComment, PrintAll, Covers, Name, Printable;
    TwoComments("# HELP " + metric + " " + help, "# TYPE " + metric + " " + "counter", PrintAll(xs), xs);
  }

  lemma TwoComments(first: string, second: string, rest: string, xs: seq<Sample>)
    requires first != "" && first[0] == '#' && '\n' !in first && second != "" && second[0] == '#' && '\n' !in second
    requires ParsePage(rest) == Some(Page([], xs))
    ensures ParsePage(first + "\n" + (second + "\n" + rest)) == Some(Page([ParseComment(first), ParseComment(second)], xs))
  {
    hide ParsePage, ParseComment;
    CommentRead(second, rest, Page([], xs));
    CommentRead(first, second + "\n" + rest, Page([ParseComment(second)] + [], xs));
    assert [ParseComment(first)] + ([ParseComment(second)] + []) == [ParseComment(first), ParseComment(second)];
  }

  lemma LinesWhole(metric: string, help: string)
    requires Name(metric) && '\n' !in help
    ensures '\n' !in "# HELP " + metric + " " + help && '\n' !in "# TYPE " + metric + " " + "counter"
  {
    NamesInLine(metric);
  }

  lemma HeaderLines(metric: string, help: string, after: string)
    ensures Header(metric, help) + after ==
            "# HELP " + metric + " " + help + "\n" + ("# TYPE " + metric + " " + "counter" + "\n" + after)
  {
    assert " " + "counter" + "\n" == " counter\n";
  }

  lemma SameEntries(metric: string, labelName: string, m: Counts, m': Counts, xs: seq<Sample>, key: string, status: string)
    requires Covers(xs, metric, labelName, m) && Covers(xs, metric, labelName, m') && key in m && status in m[key]
    ensures key in m' && status in m'[key] && m'[key][status] == m[key][status]
  {
    var x := EntryOf(metric, labelName, m, key, status);
    assert x in xs;
    var k, st :| k in m' && st in m'[k] && x == EntryOf(metric, labelName, m', k, st);
    assert x.labels[0].1 == k && x.labels[1].1 == st;
  }

  /** The printed samples determine the map: no two counter maps print the same family. */
  lemma OneMapOnly(metric: string, labelName: string, m: Counts, m': Counts, xs: seq<Sample>)
    requires Covers(xs, metric, labelName, m) && Covers(xs, metric, labelName, m')
    requires (forall key | key in m :: m[key] != map[]) && (forall key | key in m' :: m'[key] != map[])
    ensures m == m'
  {
    HalfMap(metric, labelName, m, m', xs);
    HalfMap(metric, labelName, m', m, xs);
    assert forall key | key in m :: m[key] == m'[key];
  }

  lemma HalfMap(metric: string, labelName: string, m: Counts, m': Counts, xs: seq<Sample>)
    requires Covers(xs, metric, labelName, m) && Covers(xs, metric, labelName, m')
    requires forall key | key in m :: m[key] != map[]
    ensures forall key | key in m :: key in m' && forall status | status in m[key] :: status in m'[key] && m'[key][status] == m[key][status]
  {
    forall key | key in m
      ensures key in m' && forall status | status in m[key] :: status in m'[key] && m'[key][status] == m[key][status]
    {
      forall status | status in m[key]
        ensures key in m' && status in m'[key] && m'[key][status] == m[key][status]
      {
        SameEntries(metric, labelName, m, m', xs, key, status);
      }
      var status :| status in m[key].Keys;
    }
  }
}
