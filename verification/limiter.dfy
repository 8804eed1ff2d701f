/** The per-key rate limiter of POST /api/sync (internal/server/server.go, rateLimiter). */
module RateLimiter {
  import opened Common

  /** One call of Allow: the key, and the two clock readings the method takes under its lock. */
  datatype Call = Call(key: string, checked: int, stored: int)

  predicate Allows(lastTime: map<string, int>, window: int, c: Call) {
    !(c.key in lastTime && c.checked - lastTime[c.key] < window)
  }

  function After(lastTime: map<string, int>, window: int, c: Call): map<string, int> {
    if Allows(lastTime, window, c) then lastTime[c.key := c.stored] else lastTime
  }

  class Limiter {
    var lastTime: map<string, int>
    const window: int

    constructor (window: int)
      ensures this.window == window && lastTime == map[]
    {
      this.window := window;
      lastTime := map[];
    }

    method Allow(key: string, checked: int, stored: int) returns (ok: bool)
      modifies this`lastTime
      ensures ok <==> Allows(old(lastTime), window, Call(key, checked, stored))
      ensures lastTime == After(old(lastTime), window, Call(key, checked, stored))
    {
      if key in lastTime && checked - lastTime[key] < window {
        return false;
      }
      lastTime := lastTime[key := stored];
      return true;
    }
  }

  function Exec(window: int, calls: seq<Call>): map<string, int> {
    if calls == [] then map[] else After(Exec(window, DropLast(calls)), window, Last(calls))
  }

  predicate AllowedAt(window: int, calls: seq<Call>, i: nat)
    requires i < |calls|
  {
    Allows(Exec(window, calls[..i]), window, calls[i])
  }

  /** Calls are serialised by the mutex and the clock is monotone. */
  predicate Monotone(calls: seq<Call>) {
    && (forall i | 0 <= i < |calls| :: calls[i].checked <= calls[i].stored)
    && (forall i, j | 0 <= i < j < |calls| :: calls[i].stored <= calls[j].checked)
  }

  /** The position of the last allowed call of `key`, if there is one. */
  function LastAllowed(window: int, calls: seq<Call>, key: string): Option<nat> {
    if calls == [] then None
    else if Last(calls).key == key && Allows(Exec(window, DropLast(calls)), window, Last(calls)) then Some(|calls| - 1)
    else LastAllowed(window, DropLast(calls), key)
  }

  /** The stored time of a key is that of its last allowed call. */
  lemma {:induction false} StoredTime(window: int, calls: seq<Call>, key: string)
    ensures var i := LastAllowed(window, calls, key); var m := Exec(window, calls);
            (key in m <==> i.Some?) && (i.Some? ==> i.value < |calls| && m[key] == calls[i.value].stored)
  {
    if calls != [] {
      StoredTime(window, DropLast(calls), key);
    }
  }

  lemma {:induction false} NoneLater(window: int, calls: seq<Call>, key: string, i: nat)
    requires i < |calls| && calls[i].key == key && AllowedAt(window, calls, i)
    ensures LastAllowed(window, calls, key).Some? && i <= LastAllowed(window, calls, key).value
  {
    var rest := DropLast(calls);
    if i < |rest| {
      assert calls[..i] == rest[..i];
      NoneLater(window, rest, key, i);
    } else {
      assert calls[..i] == rest;
    }
  }

  /** Two allowed calls of one key are at least a window apart. */
  lemma Spacing(window: int, calls: seq<Call>, i: nat, j: nat)
    requires Monotone(calls) && i < j < |calls| && calls[i].key == calls[j].key
    requires AllowedAt(window, calls, i) && AllowedAt(window, calls, j)
    ensures calls[j].checked >= calls[i].stored + window
  {
    var before, key := calls[..j], calls[j].key;
    assert before[..i] == calls[..i];
    NoneLater(window, before, key, i);
    StoredTime(window, before, key);
  }

  /** A call is allowed exactly when every earlier allowed call of its key is a window away. */
  lemma AllowedExactly(window: int, calls: seq<Call>, j: nat)
    requires Monotone(calls) && j < |calls|
    ensures AllowedAt(window, calls, j) <==>
            forall i: nat | i < j && calls[i].key == calls[j].key && AllowedAt(window, calls, i) ::
              calls[j].checked - calls[i].stored >= window
  {
    var before, key := calls[..j], calls[j].key;
    StoredTime(window, before, key);
    if AllowedAt(window, calls, j) {
      forall i: nat | i < j && calls[i].key == key && AllowedAt(window, calls, i)
        ensures calls[j].checked - calls[i].stored >= window
      {
        Spacing(window, calls, i, j);
      }
    } else {
      var i := LastAllowed(window, before, key).value;
      LastIsAllowed(window, before, key);
      assert before[..i] == calls[..i];
    }
  }

  lemma {:induction false} LastIsAllowed(window: int, calls: seq<Call>, key: string)
    ensures LastAllowed(window, calls, key).Some? ==>
              var i := LastAllowed(window, calls, key).value; i < |calls| && calls[i].key == key && AllowedAt(window, calls, i)
  {
    if calls != [] {
      var rest := DropLast(calls);
      LastIsAllowed(window, rest, key);
      assert calls[..|rest|] == rest;
      if LastAllowed(window, rest, key).Some? {
        assert calls[..LastAllowed(window, rest, key).value] == rest[..LastAllowed(window, rest, key).value];
      }
    }
  }

  /** Allowed calls of `key` made entirely within the time span from..upto. */
  function Count(window: int, calls: seq<Call>, n: nat, key: string, from: int, upto: int): nat
    requires n <= |calls|
  {
    if n == 0 then 0
    else Count(window, calls, n - 1, key, from, upto) + if Counts(window, calls, n - 1, key, from, upto) then 1 else 0
  }

  predicate Counts(window: int, calls: seq<Call>, i: nat, key: string, from: int, upto: int)
    requires i < |calls|
  {
    calls[i].key == key && from <= calls[i].checked && calls[i].stored <= upto && AllowedAt(window, calls, i)
  }

  /** The last counted call is at least (count - 1) windows after the start of the span. */
  lemma {:induction false} LatestCounted(window: int, calls: seq<Call>, n: nat, key: string, from: int, upto: int) returns (i: nat)
    requires Monotone(calls) && n <= |calls| && Count(window, calls, n, key, from, upto) > 0
    ensures i < n && Counts(window, calls, i, key, from, upto)
    ensures calls[i].checked >= from + (Count(window, calls, n, key, from, upto) - 1) * window
    decreases n
  {
    var c := Count(window, calls, n - 1, key, from, upto);
    if !Counts(window, calls, n - 1, key, from, upto) {
      i := LatestCounted(window, calls, n - 1, key, from, upto);
    } else if c == 0 {
      i := n - 1;
    } else {
      var k := LatestCounted(window, calls, n - 1, key, from, upto);
      i := n - 1;
      Spacing(window, calls, k, i);
      OneWindowMore(c, window);
    }
  }

  lemma OneWindowMore(c: int, window: int)
    ensures c * window == (c - 1) * window + window
  {
  }

  /** For any history over any keys: in a time span of length L at most floor(L / window) + 1
      calls of one key are allowed. */
  lemma WindowBound(window: int, calls: seq<Call>, key: string, from: int, upto: int)
    requires window > 0 && Monotone(calls) && from <= upto
    ensures Count(window, calls, |calls|, key, from, upto) <= (upto - from) / window + 1
  {
    var c := Count(window, calls, |calls|, key, from, upto);
    if c > 0 {
      var i := LatestCounted(window, calls, |calls|, key, from, upto);
      assert (c - 1) * window <= upto - from;
      DivideBound(c - 1, window, upto - from);
    }
  }

  lemma CancelFactor(a: int, b: int, d: int)
    requires d > 0 && a * d < b * d
    ensures a < b
  {
    assert (b - a) * d > 0;
  }

  lemma DivideBound(n: int, d: int, x: int)
    requires d > 0 && n * d <= x
    ensures n <= x / d
  {
    assert x < (x / d + 1) * d;
    CancelFactor(n, x / d + 1, d);
  }

  // ---- Each key behaves as if it had its own limiter ------------------------------------------------

  function Only(calls: seq<Call>, key: string): seq<Call> {
    if calls == [] then []
    else Only(DropLast(calls), key) + if Last(calls).key == key then [Last(calls)] else []
  }

  /** What is stored for a key depends on that key's calls alone. */
  lemma {:induction false} StoredIndependent(window: int, calls: seq<Call>, key: string)
    ensures key in Exec(window, calls) <==> key in Exec(window, Only(calls, key))
    ensures Look(Exec(window, calls), key, 0) == Look(Exec(window, Only(calls, key)), key, 0)
  {
    if calls != [] {
      StoredIndependent(window, DropLast(calls), key);
      if Last(calls).key == key {
        AppendLast(Only(DropLast(calls), key), Last(calls));
      } else {
        assert Only(calls, key) == Only(DropLast(calls), key);
      }
    }
  }

  /** The verdict on a call is the one its key's own limiter would give. */
  lemma KeysIndependent(window: int, calls: seq<Call>, next: Call)
    ensures Allows(Exec(window, calls), window, next) <==> Allows(Exec(window, Only(calls, next.key)), window, next)
  {
    StoredIndependent(window, calls, next.key);
  }
}
