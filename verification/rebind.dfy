/** Placeholder rewriting for Postgres (internal/db/db.go, Rebind). */
module Rebind {
  import opened Decimal

  /** The query with its placeholders numbered from n. */
  function Rebound(query: string, n: nat): string {
    if query == "" then ""
    else if query[0] == '?' then "$" + Digits(n) + Rebound(query[1..], n + 1)
    else [query[0]] + Rebound(query[1..], n)
  }

  method Rebind(driverName: string, query: string) returns (r: string)
    ensures r == if driverName != "postgres" then query else Rebound(query, 1)
  {
    if driverName != "postgres" {
      return query;
    }
    var b := "";
    var n := 1;
    for i := 0 to |query|
      invariant n >= 1
      invariant b + Rebound(query[i..], n) == Rebound(query, 1)
    {
      ghost var rest := query[i..];
      assert rest[1..] == query[i + 1..];
      if query[i] == '?' {
        assert b + Rebound(rest, n) == (b + "$" + Digits(n)) + Rebound(rest[1..], n + 1);
        b := b + "$" + Digits(n);
        n := n + 1;
      } else {
        assert b + Rebound(rest, n) == (b + [query[i]]) + Rebound(rest[1..], n);
        b := b + [query[i]];
      }
    }
    r := b;
  }

  // ---- Reading the rewritten query -------------------------------------------------------------

  predicate AtPlaceholder(s: string) {
    |s| > 1 && s[0] == '$' && IsDigit(s[1])
  }

  /** Every $ with digits after it is read as one placeholder. */
  function Unbound(s: string): string
    decreases |s|
  {
    if s == "" then ""
    else if AtPlaceholder(s) then "?" + Unbound(s[1 + DigitRun(s[1..])..])
    else [s[0]] + Unbound(s[1..])
  }

  /** The rewritten query, read back. */
  function ReadBackOf(query: string, n: nat): string {
    Unbound(Rebound(query, n))
  }

  /** The placeholder numbers, in order. */
  function Numbers(s: string): seq<nat>
    decreases |s|
  {
    if s == "" then []
    else if AtPlaceholder(s) then
      var k := DigitRun(s[1..]);
      [Value(s[1..][..k])] + Numbers(s[1 + k..])
    else Numbers(s[1..])
  }

  function Placeholders(query: string): nat {
    if query == "" then 0 else (if query[0] == '?' then 1 else 0) + Placeholders(query[1..])
  }

  /** n, n + 1, ..., n + k - 1. */
  function From(n: nat, k: nat): seq<nat>
    decreases k
  {
    if k == 0 then [] else [n] + From(n + 1, k - 1)
  }

  /** No ? and no $ stands directly before a digit. */
  predicate Recoverable(query: string) {
    forall i | 0 <= i < |query| - 1 && (query[i] == '?' || query[i] == '$') :: !IsDigit(query[i + 1])
  }

  /** Rewriting copies leading digits. */
  lemma {:induction false} LeadingDigits(query: string, n: nat)
    ensures DigitRun(Rebound(query, n)) == DigitRun(query)
    ensures Rebound(query, n)[DigitRun(query)..] == Rebound(query[DigitRun(query)..], n)
    decreases |query|
  {
    if query != "" && IsDigit(query[0]) {
      LeadingDigits(query[1..], n);
      assert Rebound(query, n)[1..] == Rebound(query[1..], n);
      var k := DigitRun(query[1..]);
      assert Rebound(query, n)[1 + k..] == Rebound(query, n)[1..][k..];
      assert query[1 + k..] == query[1..][k..];
    } else if query != "" && query[0] == '?' {
      assert Rebound(query, n)[0] == '$';
    }
  }

  lemma SplitPlaceholder(d: string, tail: string)
    requires d != "" && AllDigits(d)
    ensures var s := "$" + d + tail;
            && AtPlaceholder(s) && DigitRun(s[1..]) == |d| + DigitRun(tail)
            && s[1 + |d| + DigitRun(tail)..] == tail[DigitRun(tail)..]
            && s[1..][..|d|] == d
  {
    var s := "$" + d + tail;
    assert s[1..] == d + tail;
    DigitRunAppend(d, tail);
  }

  lemma ReadAt(s: string, run: nat, after: string)
    requires AtPlaceholder(s) && DigitRun(s[1..]) == run && s[1 + run..] == after
    ensures Unbound(s) == "?" + Unbound(after)
  {
  }

  lemma NumberAt(s: string, d: string, after: string)
    requires AtPlaceholder(s) && DigitRun(s[1..]) == |d| && AllDigits(d) && s[1..][..|d|] == d && s[1 + |d|..] == after
    ensures Numbers(s) == [Value(d)] + Numbers(after)
  {
  }

  /** A placeholder reads as itself together with the digits that stood behind it in the query. */
  lemma ReadPlaceholder(query: string, n: nat)
    requires query != "" && query[0] == '?'
    ensures var s := Rebound(query, n); var k := DigitRun(query[1..]);
            && Unbound(s) == "?" + Unbound(Rebound(query[1 + k..], n + 1))
            && (k == 0 ==> Numbers(s) == [n] + Numbers(Rebound(query[1..], n + 1)))
  {
    var d, rest := Digits(n), query[1..];
    var tail, k := Rebound(rest, n + 1), DigitRun(rest);
    LeadingDigits(rest, n + 1);
    assert rest[k..] == query[1 + k..];
    SplitPlaceholder(d, tail);
    ReadAt("$" + d + tail, |d| + k, tail[k..]);
    if k == 0 {
      assert tail[0..] == tail && rest[0..] == rest;
      NumberAt("$" + d + tail, d, tail);
      ValueOfDigits(n);
    }
  }

  /** A literal $ swallows the digits behind it; any other character is read as itself. */
  lemma ReadOther(query: string, n: nat)
    requires query != "" && query[0] != '?'
    ensures var s := Rebound(query, n); var k := DigitRun(query[1..]);
            if query[0] == '$' && k > 0 then Unbound(s) == "?" + Unbound(Rebound(query[1 + k..], n))
            else Unbound(s) == [query[0]] + Unbound(Rebound(query[1..], n)) && Numbers(s) == Numbers(Rebound(query[1..], n))
  {
    var s, tail := Rebound(query, n), Rebound(query[1..], n);
    var k := DigitRun(query[1..]);
    assert s[1..] == tail;
    LeadingDigits(query[1..], n);
    assert s[1 + k..] == tail[k..];
    assert query[1..][k..] == query[1 + k..];
  }

  lemma RecoverableTail(query: string)
    requires query != ""
    ensures Recoverable(query) <==>
            Recoverable(query[1..]) && ((query[0] == '?' || query[0] == '$') ==> DigitRun(query[1..]) == 0)
  {
    var tail := query[1..];
    assert forall i | 0 <= i < |tail| :: tail[i] == query[i + 1];
    if Recoverable(query) {
      forall i | 0 <= i < |tail| - 1 && (tail[i] == '?' || tail[i] == '$')
        ensures !IsDigit(tail[i + 1])
      {
        assert query[i + 1] == tail[i];
      }
    }
    if Recoverable(tail) && ((query[0] == '?' || query[0] == '$') ==> DigitRun(tail) == 0) {
      forall i | 0 <= i < |query| - 1 && (query[i] == '?' || query[i] == '$')
        ensures !IsDigit(query[i + 1])
      {
        if i > 0 {
          assert tail[i - 1] == query[i];
        }
      }
    }
  }

  /** What reading back makes of the first character, in lengths: `k` digits behind it are swallowed. */
  lemma FirstLength(query: string, n: nat, k: nat)
    requires query != "" && k == DigitRun(query[1..])
    ensures query[0] == '?' ==> |ReadBackOf(query, n)| == 1 + |ReadBackOf(query[1 + k..], n + 1)|
    ensures query[0] == '$' && k > 0 ==> |ReadBackOf(query, n)| == 1 + |ReadBackOf(query[1 + k..], n)|
    ensures query[0] != '?' && !(query[0] == '$' && k > 0) ==> |ReadBackOf(query, n)| == 1 + |ReadBackOf(query[1..], n)|
  {
    if query[0] == '?' {
      ReadPlaceholder(query, n);
    } else {
      ReadOther(query, n);
    }
    hide Unbound, Rebound, Numbers, DigitRun;
  }

  /** Reading back never gives a longer query, and one of the same length only when nothing
      was swallowed. */
  lemma {:induction false} ReadBackLength(query: string, n: nat)
    ensures |ReadBackOf(query, n)| <= |query|
    ensures |ReadBackOf(query, n)| == |query| ==> Recoverable(query)
    decreases |query|
  {
    if query != "" {
      hide ReadBackOf, Recoverable, DigitRun;
      var k := DigitRun(query[1..]);
      RecoverableTail(query);
      FirstLength(query, n, k);
      if query[0] == '?' || (query[0] == '$' && k > 0) {
        var m := if query[0] == '?' then n + 1 else n;
        ReadBackLength(query[1 + k..], m);
        assert k == 0 ==> query[1 + k..] == query[1..];
      } else {
        ReadBackLength(query[1..], n);
      }
    }
  }

  lemma FromStep(n: nat, k: nat)
    ensures From(n, 1 + k) == [n] + From(n + 1, k)
  {
  }

  lemma ReadBackPlaceholder(query: string, rest: string, n: nat)
    requires query == "?" + rest && DigitRun(rest) == 0
    requires ReadBackOf(rest, n + 1) == rest && Numbers(Rebound(rest, n + 1)) == From(n + 1, Placeholders(rest))
    ensures ReadBackOf(query, n) == query && Numbers(Rebound(query, n)) == From(n, Placeholders(query))
  {
    assert query[1..] == rest;
    PlaceholderCount(query, n);
    ReadPlaceholder(query, n);
    hide Unbound, Rebound, Numbers, DigitRun, From, Placeholders;
  }

  lemma PlaceholderCount(query: string, n: nat)
    requires query != ""
    ensures From(n, Placeholders(query)) ==
            if query[0] == '?' then [n] + From(n + 1, Placeholders(query[1..])) else From(n, Placeholders(query[1..]))
  {
    FromStep(n, Placeholders(query[1..]));
  }

  lemma ReadBackOther(query: string, rest: string, n: nat)
    requires query != "" && query == [query[0]] + rest && query[0] != '?' && (query[0] == '$' ==> DigitRun(rest) == 0)
    requires ReadBackOf(rest, n) == rest && Numbers(Rebound(rest, n)) == From(n, Placeholders(rest))
    ensures ReadBackOf(query, n) == query && Numbers(Rebound(query, n)) == From(n, Placeholders(query))
  {
    assert query[1..] == rest;
    PlaceholderCount(query, n);
    ReadOther(query, n);
    hide Unbound, Rebound, Numbers, DigitRun, From, Placeholders;
  }

  lemma {:induction false} ReadBack(query: string, n: nat)
    requires Recoverable(query)
    ensures ReadBackOf(query, n) == query
    ensures Numbers(Rebound(query, n)) == From(n, Placeholders(query))
    decreases |query|
  {
    if query != "" {
      hide ReadBackOf, Rebound, Numbers, Recoverable, DigitRun, From, Placeholders;
      RecoverableTail(query);
      var rest := query[1..];
      assert query == [query[0]] + rest;
      if query[0] == '?' {
        ReadBack(rest, n + 1);
        ReadBackPlaceholder(query, rest, n);
      } else {
        ReadBack(rest, n);
        ReadBackOther(query, rest, n);
      }
    }
  }

  /** The Postgres query reads back as the original exactly when no ? and no $ stands directly
      before a digit; then its placeholders are numbered 1 to k in order. */
  lemma RebindUndone(query: string)
    ensures ReadBackOf(query, 1) == query <==> Recoverable(query)
    ensures Recoverable(query) ==> Numbers(Rebound(query, 1)) == From(1, Placeholders(query))
  {
    ReadBackLength(query, 1);
    if Recoverable(query) {
      ReadBack(query, 1);
    }
  }
}
