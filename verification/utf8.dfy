/** UTF-8: encoding, and the decoder of the WHATWG Encoding standard, which replaces what is not
    UTF-8 by U+FFFD. */
module Utf8 {
  import opened Common

  type Byte = b: int | 0 <= b < 0x100

  const REPLACEMENT: char := 0xFFFD as char

  /** How long a sequence that starts with this byte is, 0 when none does. */
  function Width(lead: Byte): nat {
    if lead < 0x80 then 1
    else if 0xC2 <= lead <= 0xDF then 2
    else if 0xE0 <= lead <= 0xEF then 3
    else if 0xF0 <= lead <= 0xF4 then 4
    else 0
  }

  /** b can stand at position k of a sequence that starts with `lead`. */
  predicate Continues(lead: Byte, k: nat, b: Byte) {
    var lower := if k == 1 && lead == 0xE0 then 0xA0 else if k == 1 && lead == 0xF0 then 0x90 else 0x80;
    var upper := if k == 1 && lead == 0xED then 0x9F else if k == 1 && lead == 0xF4 then 0x8F else 0xBF;
    lower <= b <= upper
  }

  /** How far the sequence at the start of bs is well formed, from position k. */
  function GoodRun(bs: seq<Byte>, k: nat): (n: nat)
    requires bs != [] && 1 <= k <= Width(bs[0]) && k <= |bs|
    ensures k <= n <= Width(bs[0]) && n <= |bs|
    ensures forall i | k <= i < n :: Continues(bs[0], i, bs[i])
    decreases Width(bs[0]) - k
  {
    if k == Width(bs[0]) || k == |bs| || !Continues(bs[0], k, bs[k]) then k else GoodRun(bs, k + 1)
  }

  function CodePoint(bs: seq<Byte>): int {
    var b: seq<int> := bs;
    match |b|
    case 1 => b[0]
    case 2 => (b[0] - 0xC0) * 0x40 + (b[1] - 0x80)
    case 3 => (b[0] - 0xE0) * 0x1000 + (b[1] - 0x80) * 0x40 + (b[2] - 0x80)
    case 4 => (b[0] - 0xF0) * 0x40000 + (b[1] - 0x80) * 0x1000 + (b[2] - 0x80) * 0x40 + (b[3] - 0x80)
    case _ => 0
  }

  /** The first character and the number of bytes it takes; a broken sequence is replaced as far as it
      is well formed. */
  function First(bs: seq<Byte>): (r: (char, nat))
    requires bs != []
    ensures 1 <= r.1 <= |bs|
  {
    if Width(bs[0]) == 0 then (REPLACEMENT, 1)
    else
      var n := GoodRun(bs, 1);
      if n == Width(bs[0]) then (CodePoint(bs[..n]) as char, n) else (REPLACEMENT, n)
  }

  function Decode(bs: seq<Byte>): string {
    if bs == [] then "" else [First(bs).0] + Decode(bs[First(bs).1..])
  }

  /** The decoder of a byte stream drops a byte order mark at its start. */
  function DecodeStream(bs: seq<Byte>): string {
    Decode(if [0xEF, 0xBB, 0xBF] <= bs then bs[3..] else bs)
  }

  function EncodeChar(c: char): (bs: seq<Byte>)
    ensures bs != []
  {
    var n := c as int;
    if n < 0x80 then [n]
    else if n < 0x800 then [0xC0 + n / 0x40, 0x80 + n % 0x40]
    else if n < 0x10000 then [0xE0 + n / 0x1000, 0x80 + n / 0x40 % 0x40, 0x80 + n % 0x40]
    else [0xF0 + n / 0x40000, 0x80 + n / 0x1000 % 0x40, 0x80 + n / 0x40 % 0x40, 0x80 + n % 0x40]
  }

  function Encode(s: string): seq<Byte> {
    if s == "" then [] else EncodeChar(s[0]) + Encode(s[1..])
  }

  /** bs is the encoding of some text. */
  ghost predicate IsUtf8(bs: seq<Byte>) {
    exists s :: Encode(s) == bs
  }

  // ---- Round trip --------------------------------------------------------------------------------

  lemma {:induction false} GoodRunAll(bs: seq<Byte>, k: nat)
    requires bs != [] && 1 <= k <= Width(bs[0]) <= |bs|
    requires forall i | k <= i < Width(bs[0]) :: Continues(bs[0], i, bs[i])
    ensures GoodRun(bs, k) == Width(bs[0])
    decreases Width(bs[0]) - k
  {
    if k < Width(bs[0]) {
      GoodRunAll(bs, k + 1);
    }
  }

  // A number in base 64.

  lemma TwoDigits(n: nat)
    ensures n == n / 0x40 * 0x40 + n % 0x40
  {
  }

  lemma ThreeDigits(n: nat)
    ensures n == n / 0x1000 * 0x1000 + n / 0x40 % 0x40 * 0x40 + n % 0x40
  {
    assert n / 0x1000 == n / 0x40 / 0x40;
  }

  lemma FourDigits(n: nat)
    ensures n == n / 0x40000 * 0x40000 + n / 0x1000 % 0x40 * 0x1000 + n / 0x40 % 0x40 * 0x40 + n % 0x40
  {
    ThreeDigits(n);
    assert n / 0x40000 == n / 0x1000 / 0x40;
  }

  /** bs is a well-formed sequence for code point n. */
  predicate WellFormed(bs: seq<Byte>, n: int) {
    && bs != [] && Width(bs[0]) == |bs| && CodePoint(bs) == n
    && forall i | 1 <= i < |bs| :: Continues(bs[0], i, bs[i])
  }

  lemma TwoWell(n: nat, a: nat, b: nat)
    requires 0x80 <= n < 0x800 && n == a * 0x40 + b && b < 0x40
    ensures 0xC0 + a <= 0xFF && WellFormed([0xC0 + a, 0x80 + b], n)
  {
  }

  lemma ThreeWell(n: nat, a: nat, b: nat, c: nat)
    requires 0x800 <= n < 0x10000 && !(0xD800 <= n < 0xE000) && n == a * 0x1000 + b * 0x40 + c && b < 0x40 && c < 0x40
    ensures 0xE0 + a <= 0xFF && WellFormed([0xE0 + a, 0x80 + b, 0x80 + c], n)
  {
  }

  lemma FourWell(n: nat, a: nat, b: nat, c: nat, d: nat)
    requires 0x10000 <= n < 0x110000 && n == a * 0x40000 + b * 0x1000 + c * 0x40 + d && b < 0x40 && c < 0x40 && d < 0x40
    ensures 0xF0 + a <= 0xFF && WellFormed([0xF0 + a, 0x80 + b, 0x80 + c, 0x80 + d], n)
  {
  }

  lemma EncodedThree(c: char)
    requires 0x800 <= c as int < 0x10000
    ensures WellFormed(EncodeChar(c), c as int)
  {
    hide WellFormed;
    ThreeDigits(c as int);
    ThreeWell(c as int, c as int / 0x1000, c as int / 0x40 % 0x40, c as int % 0x40);
  }

  lemma EncodedFour(c: char)
    requires 0x10000 <= c as int
    ensures WellFormed(EncodeChar(c), c as int)
  {
    hide WellFormed;
    FourDigits(c as int);
    FourWell(c as int, c as int / 0x40000, c as int / 0x1000 % 0x40, c as int / 0x40 % 0x40, c as int % 0x40);
  }

  lemma EncodedWell(c: char)
    ensures WellFormed(EncodeChar(c), c as int)
  {
    if 0x80 <= c as int < 0x800 {
      hide WellFormed;
      TwoDigits(c as int);
      TwoWell(c as int, c as int / 0x40, c as int % 0x40);
    } else if 0x800 <= c as int < 0x10000 {
      hide WellFormed, EncodeChar;
      EncodedThree(c);
    } else if 0x10000 <= c as int {
      hide WellFormed, EncodeChar;
      EncodedFour(c);
    }
  }

  lemma FirstEncoded(c: char, rest: seq<Byte>)
    ensures First(EncodeChar(c) + rest) == (c, |EncodeChar(c)|)
  {
    EncodedWell(c);
    var e := EncodeChar(c);
    hide EncodeChar, CodePoint, Continues;
    var bs := e + rest;
    assert bs[..|e|] == e;
    GoodRunAll(bs, 1);
  }

  lemma {:induction false} DecodeEncode(s: string)
    ensures Decode(Encode(s)) == s
  {
    if s != "" {
      DecodeOne(s[0], Encode(s[1..]));
      DecodeEncode(s[1..]);
      assert [s[0]] + s[1..] == s;
    }
  }

  /** What follows a text does not change how it is decoded. */
  lemma {:induction false} DecodeAfter(s: string, rest: seq<Byte>)
    ensures Decode(Encode(s) + rest) == s + Decode(rest)
  {
    if s == "" {
      assert [] + rest == rest;
    } else {
      EncodeStep(s);
      hide Decode, Encode, EncodeChar;
      var e, more := EncodeChar(s[0]), Encode(s[1..]);
      DecodeOne(s[0], more + rest);
      DecodeAfter(s[1..], rest);
      Associative(e, more, rest);
      Associative([s[0]], s[1..], Decode(rest));
      assert [s[0]] + s[1..] == s;
    }
  }

  lemma EncodeStep(s: string)
    requires s != ""
    ensures Encode(s) == EncodeChar(s[0]) + Encode(s[1..])
  {
  }

  lemma DecodeOne(c: char, rest: seq<Byte>)
    ensures Decode(EncodeChar(c) + rest) == [c] + Decode(rest)
  {
    FirstEncoded(c, rest);
    hide EncodeChar, First;
    assert (EncodeChar(c) + rest)[|EncodeChar(c)|..] == rest;
  }

  /** Decoding and encoding again gives the bytes back exactly when they are UTF-8. */
  lemma EncodeDecodeIff(bs: seq<Byte>)
    ensures Encode(Decode(bs)) == bs <==> IsUtf8(bs)
  {
    if s :| Encode(s) == bs {
      DecodeEncode(s);
    }
  }

  lemma TwoBack(bs: seq<Byte>)
    requires |bs| == 2 && WellFormed(bs, CodePoint(bs))
    ensures 0x80 <= CodePoint(bs) < 0x800 && EncodeChar(CodePoint(bs) as char) == bs
  {
    var b: seq<int> := bs;
    assert Continues(bs[0], 1, bs[1]);
    assert CodePoint(bs) == (b[0] - 0xC0) * 0x40 + (b[1] - 0x80);
  }

  lemma ThreeBack(bs: seq<Byte>)
    requires |bs| == 3 && WellFormed(bs, CodePoint(bs))
    ensures var n := CodePoint(bs);
            0x800 <= n < 0x10000 && !(0xD800 <= n < 0xE000) && EncodeChar(n as char) == bs
  {
    var b: seq<int> := bs;
    assert Continues(bs[0], 1, bs[1]) && Continues(bs[0], 2, bs[2]);
    var n := CodePoint(bs);
    assert n == (b[0] - 0xE0) * 0x1000 + (b[1] - 0x80) * 0x40 + (b[2] - 0x80);
    Divide1000(n, b[0] - 0xE0, (b[1] - 0x80) * 0x40 + (b[2] - 0x80));
    Divide40(n, (b[0] - 0xE0) * 0x40 + (b[1] - 0x80), b[2] - 0x80);
    Divide40((b[0] - 0xE0) * 0x40 + (b[1] - 0x80), b[0] - 0xE0, b[1] - 0x80);
  }

  lemma FourBack(bs: seq<Byte>)
    requires |bs| == 4 && WellFormed(bs, CodePoint(bs))
    ensures var n := CodePoint(bs); 0x10000 <= n < 0x110000 && EncodeChar(n as char) == bs
  {
    var b: seq<int> := bs;
    assert Continues(bs[0], 1, bs[1]) && Continues(bs[0], 2, bs[2]) && Continues(bs[0], 3, bs[3]);
    var n := CodePoint(bs);
    assert n == (b[0] - 0xF0) * 0x40000 + (b[1] - 0x80) * 0x1000 + (b[2] - 0x80) * 0x40 + (b[3] - 0x80);
    Divide40000(n, b[0] - 0xF0, (b[1] - 0x80) * 0x1000 + (b[2] - 0x80) * 0x40 + (b[3] - 0x80));
    Divide1000(n, (b[0] - 0xF0) * 0x40 + (b[1] - 0x80), (b[2] - 0x80) * 0x40 + (b[3] - 0x80));
    Divide40(n, (b[0] - 0xF0) * 0x1000 + (b[1] - 0x80) * 0x40 + (b[2] - 0x80), b[3] - 0x80);
    Divide40((b[0] - 0xF0) * 0x40 + (b[1] - 0x80), b[0] - 0xF0, b[1] - 0x80);
    Divide40((b[0] - 0xF0) * 0x1000 + (b[1] - 0x80) * 0x40 + (b[2] - 0x80), (b[0] - 0xF0) * 0x40 + (b[1] - 0x80), b[2] - 0x80);
  }

  lemma Divide40(n: int, q: int, r: int)
    requires 0 <= r < 0x40 && n == q * 0x40 + r
    ensures n / 0x40 == q && n % 0x40 == r
  {
  }

  lemma Divide1000(n: int, q: int, r: int)
    requires 0 <= r < 0x1000 && n == q * 0x1000 + r
    ensures n / 0x1000 == q
  {
  }

  lemma Divide40000(n: int, q: int, r: int)
    requires 0 <= r < 0x40000 && n == q * 0x40000 + r
    ensures n / 0x40000 == q
  {
  }

  /** A first character that is not the replacement is encoded by the bytes it was read from. */
  lemma FirstBack(bs: seq<Byte>)
    requires bs != [] && First(bs).0 != REPLACEMENT
    ensures EncodeChar(First(bs).0) == bs[..First(bs).1]
  {
    var n := GoodRun(bs, 1);
    var e := bs[..n];
    assert n == Width(bs[0]) && WellFormed(e, CodePoint(e));
    if n == 2 {
      TwoBack(e);
    } else if n == 3 {
      ThreeBack(e);
    } else if n == 4 {
      FourBack(e);
    }
  }

  /** Bytes that decode without a replacement character are UTF-8. */
  lemma {:induction false} NoReplacement(bs: seq<Byte>)
    requires REPLACEMENT !in Decode(bs)
    ensures IsUtf8(bs)
    decreases |bs|
  {
    if bs == [] {
      assert Encode("") == bs;
    } else {
      var (c, n) := First(bs);
      var rest := Decode(bs[n..]);
      assert Decode(bs) == [c] + rest;
      FirstBack(bs);
      hide First, Decode, EncodeChar;
      NoReplacement(bs[n..]);
      EncodeDecodeIff(bs[n..]);
      EncodeStep([c] + rest);
      assert ([c] + rest)[1..] == rest;
      assert Encode([c] + rest) == bs[..n] + bs[n..] == bs;
    }
  }

  /** A character that is cut off decodes to one replacement character. */
  lemma CutCharacter(c: char, n: nat)
    requires 1 <= n < |EncodeChar(c)|
    ensures Decode(EncodeChar(c)[..n]) == [REPLACEMENT]
  {
    EncodedWell(c);
    var e := EncodeChar(c);
    hide EncodeChar, CodePoint, Continues;
    var bs := e[..n];
    assert bs[0] == e[0];
    GoodRunCut(bs, 1);
    assert First(bs) == (REPLACEMENT, n);
    assert bs[n..] == [] && Decode([]) == "";
    assert Decode(bs) == [REPLACEMENT] + Decode(bs[n..]);
  }

  lemma {:induction false} GoodRunCut(bs: seq<Byte>, k: nat)
    requires bs != [] && 1 <= k <= |bs| < Width(bs[0])
    requires forall i | k <= i < |bs| :: Continues(bs[0], i, bs[i])
    ensures GoodRun(bs, k) == |bs|
    decreases |bs| - k
  {
    if k < |bs| {
      GoodRunCut(bs, k + 1);
    }
  }

  // ---- ASCII bytes delimit -----------------------------------------------------------------------

  lemma {:induction false} GoodRunStops(bs: seq<Byte>, x: Byte, rest: seq<Byte>, k: nat)
    requires bs != [] && x < 0x80 && 1 <= k <= Width(bs[0]) && k <= |bs|
    ensures GoodRun(bs + [x] + rest, k) == GoodRun(bs, k)
    decreases Width(bs[0]) - k
  {
    var all := bs + [x] + rest;
    assert all[0] == bs[0];
    if k == |bs| {
      assert all[k] == x;
    } else {
      assert all[k] == bs[k];
      if k < Width(bs[0]) && Continues(bs[0], k, bs[k]) {
        GoodRunStops(bs, x, rest, k + 1);
      }
    }
  }

  lemma FirstStops(bs: seq<Byte>, x: Byte, rest: seq<Byte>)
    requires bs != [] && x < 0x80
    ensures First(bs + [x] + rest) == First(bs)
  {
    var all := bs + [x] + rest;
    assert all[0] == bs[0];
    if Width(bs[0]) != 0 {
      GoodRunStops(bs, x, rest, 1);
      var n := GoodRun(bs, 1);
      assert all[..n] == bs[..n];
    }
  }

  lemma DecodeAscii(x: Byte, rest: seq<Byte>)
    requires x < 0x80
    ensures Decode([x] + rest) == [x as char] + Decode(rest)
  {
    var bs := [x] + rest;
    assert bs[0] == x && bs[1..] == rest && bs[..1] == [x];
  }

  lemma FirstOfSplit(a: seq<Byte>, x: Byte, b: seq<Byte>)
    requires a != [] && x < 0x80
    ensures Decode(a + [x] + b) == [First(a).0] + Decode(a[First(a).1..] + [x] + b)
  {
    FirstStops(a, x, b);
    hide First;
    var n := First(a).1;
    assert (a + [x] + b)[n..] == a[n..] + [x] + b;
  }

  lemma Prepend(c: char, p: string, x: char, q: string)
    ensures [c] + (p + [x] + q) == ([c] + p) + [x] + q
  {
  }

  /** Whatever the bytes before it, an ASCII byte is read as itself and decoding starts afresh. */
  lemma {:induction false} DecodeSplit(a: seq<Byte>, x: Byte, b: seq<Byte>)
    requires x < 0x80
    ensures Decode(a + [x] + b) == Decode(a) + [x as char] + Decode(b)
    decreases |a|
  {
    if a == [] {
      assert a + [x] + b == [x] + b;
      DecodeAscii(x, b);
    } else {
      FirstOfSplit(a, x, b);
      var rest := a[First(a).1..];
      assert Decode(a) == [First(a).0] + Decode(rest);
      hide First, Decode;
      DecodeSplit(rest, x, b);
      Prepend(First(a).0, Decode(rest), x as char, Decode(b));
    }
  }

  lemma FirstAscii(bs: seq<Byte>, x: Byte)
    requires bs != [] && x < 0x80
    ensures First(bs).0 == x as char <==> bs[0] == x
    ensures forall i | 1 <= i < First(bs).1 :: bs[i] >= 0x80
  {
    if Width(bs[0]) != 0 {
      var n := GoodRun(bs, 1);
      if n == Width(bs[0]) && n > 1 {
        LongCode(bs[..n]);
      }
    }
  }

  /** Sequences of more than one byte are for characters beyond ASCII. */
  lemma LongCode(bs: seq<Byte>)
    requires |bs| > 1 && |bs| == Width(bs[0]) && forall i | 1 <= i < |bs| :: Continues(bs[0], i, bs[i])
    ensures CodePoint(bs) >= 0x80
  {
    assert Continues(bs[0], 1, bs[1]);
    assert |bs| > 2 ==> Continues(bs[0], 2, bs[2]);
    assert |bs| > 3 ==> Continues(bs[0], 3, bs[3]);
  }

  /** An ASCII character is in the text exactly when its byte is in the bytes. */
  lemma {:induction false} DecodeHas(bs: seq<Byte>, x: Byte)
    requires x < 0x80
    ensures x as char in Decode(bs) <==> x in bs
    decreases |bs|
  {
    if bs != [] {
      var n := First(bs).1;
      FirstAscii(bs, x);
      DecodeHas(bs[n..], x);
      assert bs == [bs[0]] + bs[1..n] + bs[n..];
      assert x !in bs[1..n];
    }
  }

  lemma {:induction false} EncodeHas(s: string, x: Byte)
    requires x < 0x80
    ensures x in Encode(s) <==> x as char in s
  {
    DecodeEncode(s);
    DecodeHas(Encode(s), x);
  }
}
