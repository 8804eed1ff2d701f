/** Small shared vocabulary: optional values, defaulted map lookup, sequence idioms. */
module Common {
  datatype Option<+T> = None | Some(value: T)

  /** A Go map or sync.Map read: the stored value, or the zero value `default`. */
  function Look<K, V>(m: map<K, V>, k: K, default: V): V {
    if k in m then m[k] else default
  }

  function Last<T>(s: seq<T>): T
    requires s != []
  {
    s[|s| - 1]
  }

  function DropLast<T>(s: seq<T>): seq<T>
    requires s != []
  {
    s[..|s| - 1]
  }

  lemma AppendLast<T>(s: seq<T>, x: T)
    ensures DropLast(s + [x]) == s && Last(s + [x]) == x
  {
  }

  lemma Associative<T>(a: seq<T>, b: seq<T>, c: seq<T>)
    ensures a + (b + c) == (a + b) + c
  {
  }

  /** `xs` is obtained from `ys` by leaving elements out, order kept. */
  predicate IsSubsequence<T(==)>(xs: seq<T>, ys: seq<T>) {
    if xs == [] then true
    else if ys == [] then false
    else if Last(xs) == Last(ys) then IsSubsequence(DropLast(xs), DropLast(ys))
    else IsSubsequence(xs, DropLast(ys))
  }

  lemma SubsequenceAppend<T>(xs: seq<T>, ys: seq<T>, y: T)
    requires IsSubsequence(xs, ys)
    ensures IsSubsequence(xs, ys + [y]) && IsSubsequence(xs + [y], ys + [y])
  {
    AppendLast(ys, y);
    AppendLast(xs, y);
    if xs != [] && Last(xs) == y {
      SubsequenceDrop(xs, ys);
    }
  }

  lemma {:induction false} SubsequenceDrop<T>(xs: seq<T>, ys: seq<T>)
    requires xs != [] && IsSubsequence(xs, ys)
    ensures IsSubsequence(DropLast(xs), ys)
  {
    if DropLast(xs) != [] {
      if Last(xs) == Last(ys) {
        var zs := DropLast(ys);
        assert IsSubsequence(DropLast(xs), zs);
        assert ys == zs + [Last(ys)];
        if Last(DropLast(xs)) == Last(ys) {
          SubsequenceDrop(DropLast(xs), zs);
        }
      } else {
        SubsequenceDrop(xs, DropLast(ys));
        if Last(DropLast(xs)) == Last(ys) {
          SubsequenceDrop(DropLast(xs), DropLast(ys));
        }
      }
    }
  }

  lemma {:induction false} SubsequencePrepend<T>(x: T, xs: seq<T>, ys: seq<T>)
    requires IsSubsequence(xs, ys)
    ensures IsSubsequence(xs, [x] + ys) && IsSubsequence([x] + xs, [x] + ys)
    decreases |ys|
  {
    if ys == [] {
      assert DropLast([x] + ys) == [] && DropLast([x]) == [];
    } else {
      var zs := DropLast(ys);
      assert DropLast([x] + ys) == [x] + zs && Last([x] + ys) == Last(ys);
      if xs == [] {
        assert DropLast([x] + xs) == [];
        SubsequencePrepend(x, [], zs);
      } else {
        assert DropLast([x] + xs) == [x] + DropLast(xs) && Last([x] + xs) == Last(xs);
        SubsequencePrepend(x, if Last(xs) == Last(ys) then DropLast(xs) else xs, zs);
      }
    }
  }

  /** strings.Split with a separator of one character or byte. */
  function Split<T(==)>(s: seq<T>, sep: T): (pieces: seq<seq<T>>)
    ensures pieces != []
  {
    if s == [] then [[]]
    else
      var rest := Split(s[1..], sep);
      if s[0] == sep then [[]] + rest else [[s[0]] + rest[0]] + rest[1..]
  }

  lemma SplitFirst<T>(x: T, s: seq<T>, sep: T)
    ensures var rest := Split(s, sep);
            Split([x] + s, sep) == if x == sep then [[]] + rest else [[x] + rest[0]] + rest[1..]
  {
    assert ([x] + s)[1..] == s;
  }

  lemma {:induction false} SplitJoin<T>(a: seq<T>, sep: T, b: seq<T>)
    ensures Split(a + [sep] + b, sep) == Split(a, sep) + Split(b, sep)
  {
    if a == [] {
      assert a + [sep] + b == [sep] + b;
    } else {
      SplitFirst(a[0], a[1..] + [sep] + b, sep);
      SplitFirst(a[0], a[1..], sep);
      assert a + [sep] + b == [a[0]] + (a[1..] + [sep] + b) && a == [a[0]] + a[1..];
      SplitJoin(a[1..], sep, b);
      hide Split;
    }
  }

  lemma {:induction false} SplitWithout<T>(s: seq<T>, sep: T)
    requires sep !in s
    ensures Split(s, sep) == [s]
  {
    if s != [] {
      SplitWithout(s[1..], sep);
      assert [s[0]] + s[1..] == s;
    }
  }

  /** strings.Join with a separator of one character or byte. */
  function Joined<T>(pieces: seq<seq<T>>, sep: T): seq<T>
    requires pieces != []
  {
    if |pieces| == 1 then pieces[0] else pieces[0] + [sep] + Joined(pieces[1..], sep)
  }

  /** Splitting is undone by joining. */
  lemma {:induction false} SplitJoined<T>(s: seq<T>, sep: T)
    ensures Joined(Split(s, sep), sep) == s
  {
    if s != [] {
      var rest := Split(s[1..], sep);
      SplitJoined(s[1..], sep);
      if s[0] == sep {
        assert ([[]] + rest)[1..] == rest;
      } else {
        var pieces := [[s[0]] + rest[0]] + rest[1..];
        assert pieces[1..] == rest[1..];
        assert Joined(pieces, sep) == [s[0]] + Joined(rest, sep);
      }
      assert [s[0]] + s[1..] == s;
    }
  }
}
