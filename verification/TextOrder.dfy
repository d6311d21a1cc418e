/**
 The order of texts: byte by byte on the encoded text, which is the order of the characters.
 */
module TextOrder {

  import opened Bytes
  import opened Utf8

  predicate BytesLe(a: seq<Byte>, b: seq<Byte>) {
    if a == [] then true
    else if b == [] then false
    else a[0] < b[0] || (a[0] == b[0] && BytesLe(a[1..], b[1..]))
  }

  /** `str::cmp` answers `Less` or `Equal`. */
  predicate TextLe(s: string, t: string) {
    BytesLe(Encode(s), Encode(t))
  }

  /** Dictionary order on characters. */
  predicate CharsLe(s: string, t: string) {
    if s == [] then true
    else if t == [] then false
    else s[0] < t[0] || (s[0] == t[0] && CharsLe(s[1..], t[1..]))
  }

  lemma {:induction false} BytesTotal(a: seq<Byte>, b: seq<Byte>)
    ensures BytesLe(a, b) || BytesLe(b, a)
  {
    if a != [] && b != [] {
      BytesTotal(a[1..], b[1..]);
    }
  }

  lemma {:induction false} BytesAntisymmetric(a: seq<Byte>, b: seq<Byte>)
    requires BytesLe(a, b) && BytesLe(b, a)
    ensures a == b
  {
    if a != [] && b != [] {
      BytesAntisymmetric(a[1..], b[1..]);
      assert a == [a[0]] + a[1..] && b == [b[0]] + b[1..];
    }
  }

  lemma {:induction false} BytesTransitive(a: seq<Byte>, b: seq<Byte>, c: seq<Byte>)
    requires BytesLe(a, b) && BytesLe(b, c)
    ensures BytesLe(a, c)
  {
    if a != [] && b[0] == c[0] && a[0] == b[0] {
      BytesTransitive(a[1..], b[1..], c[1..]);
    }
  }

  lemma {:induction false} TextLeIsOrder(s: string, t: string, u: string)
    ensures TextLe(s, t) || TextLe(t, s)
    ensures TextLe(s, t) && TextLe(t, s) ==> s == t
    ensures TextLe(s, t) && TextLe(t, u) ==> TextLe(s, u)
  {
    BytesTotal(Encode(s), Encode(t));
    if TextLe(s, t) && TextLe(t, s) {
      BytesAntisymmetric(Encode(s), Encode(t));
      EncodeInjective(s, t);
    }
    if TextLe(s, t) && TextLe(t, u) {
      BytesTransitive(Encode(s), Encode(t), Encode(u));
    }
  }

  // ----- byte order is character order -----

  lemma {:induction false} DecidedAt(a: seq<Byte>, b: seq<Byte>, i: nat)
    requires i < |a| && i < |b| && a[..i] == b[..i] && a[i] < b[i]
    ensures BytesLe(a, b) && !BytesLe(b, a)
  {
    if i > 0 {
      assert a[..i][0] == b[..i][0] && a[1..][..i - 1] == a[..i][1..] && b[1..][..i - 1] == b[..i][1..];
      DecidedAt(a[1..], b[1..], i - 1);
    }
  }

  lemma {:induction false} SamePrefix(p: seq<Byte>, a: seq<Byte>, b: seq<Byte>)
    ensures BytesLe(p + a, p + b) == BytesLe(a, b)
  {
    if p == [] {
      assert p + a == a && p + b == b;
    } else {
      assert (p + a)[1..] == p[1..] + a && (p + b)[1..] == p[1..] + b;
      SamePrefix(p[1..], a, b);
    }
  }

  lemma DigitOrder(v: nat, w: nat)
    requires v < w
    ensures v / 64 < w / 64 || (v / 64 == w / 64 && Continuation(v) < Continuation(w))
    ensures v / 64 / 64 == v / 4096 && v / 4096 / 64 == v / 262144
    ensures w / 64 / 64 == w / 4096 && w / 4096 / 64 == w / 262144
  {
  }

  /** `i` is the first difference of the bytes, and there `c` has the smaller byte. */
  ghost predicate FirstDifference(c: char, d: char, i: nat) {
    var a, b := EncodeChar(c), EncodeChar(d);
    i < |a| && i < |b| && a[..i] == b[..i] && a[i] < b[i]
  }

  lemma ShortCharOrder(c: char, d: char) returns (i: nat)
    requires c < d && |EncodeChar(c)| == |EncodeChar(d)| <= 2
    ensures FirstDifference(c, d, i)
  {
    var v, w := c as int, d as int;
    DigitOrder(v, w);
    i := if |EncodeChar(c)| == 1 || v / 64 < w / 64 then 0 else 1;
  }

  lemma ThreeByteCharOrder(c: char, d: char) returns (i: nat)
    requires c < d && |EncodeChar(c)| == |EncodeChar(d)| == 3
    ensures FirstDifference(c, d, i)
  {
    var v, w := c as int, d as int;
    DigitOrder(v, w);
    if v / 64 < w / 64 {
      DigitOrder(v / 64, w / 64);
      i := if v / 4096 < w / 4096 then 0 else 1;
    } else {
      i := 2;
    }
  }

  lemma FourByteCharOrder(c: char, d: char) returns (i: nat)
    requires c < d && |EncodeChar(c)| == |EncodeChar(d)| == 4
    ensures FirstDifference(c, d, i)
  {
    var v, w := c as int, d as int;
    DigitOrder(v, w);
    if v / 64 < w / 64 {
      DigitOrder(v / 64, w / 64);
      if v / 4096 < w / 4096 {
        DigitOrder(v / 4096, w / 4096);
        i := if v / 262144 < w / 262144 then 0 else 1;
      } else {
        i := 2;
      }
    } else {
      i := 3;
    }
  }

  /** The first byte in which a smaller character differs from a greater one is smaller. */
  lemma EncodeCharOrder(c: char, d: char) returns (i: nat)
    requires c < d
    ensures FirstDifference(c, d, i)
  {
    if |EncodeChar(c)| != |EncodeChar(d)| {
      i := 0;
    } else if |EncodeChar(c)| <= 2 {
      i := ShortCharOrder(c, d);
    } else if |EncodeChar(c)| == 3 {
      i := ThreeByteCharOrder(c, d);
    } else {
      i := FourByteCharOrder(c, d);
    }
  }

  lemma {:induction false} SmallerCharacterFirst(c: char, d: char, x: seq<Byte>, y: seq<Byte>)
    requires c < d
    ensures BytesLe(EncodeChar(c) + x, EncodeChar(d) + y) && !BytesLe(EncodeChar(d) + y, EncodeChar(c) + x)
  {
    var i := EncodeCharOrder(c, d);
    var a, b := EncodeChar(c) + x, EncodeChar(d) + y;
    assert a[..i] == EncodeChar(c)[..i] && b[..i] == EncodeChar(d)[..i];
    DecidedAt(a, b, i);
  }

  lemma {:induction false} TextOrderIsCharacterOrder(s: string, t: string)
    ensures TextLe(s, t) == CharsLe(s, t)
  {
    EncodeStartsCharacter(s);
    EncodeStartsCharacter(t);
    if s != [] && t != [] {
      if s[0] < t[0] {
        SmallerCharacterFirst(s[0], t[0], Encode(s[1..]), Encode(t[1..]));
      } else if t[0] < s[0] {
        SmallerCharacterFirst(t[0], s[0], Encode(t[1..]), Encode(s[1..]));
      } else {
        SamePrefix(EncodeChar(s[0]), Encode(s[1..]), Encode(t[1..]));
        TextOrderIsCharacterOrder(s[1..], t[1..]);
      }
    }
  }
}
