/**
 UTF-8 (section 3 of RFC 3629) as far as the telemetry truncation and the signed update manifest
 depend on it: where characters begin, and that different texts have different encodings.
 */
module Utf8 {

  import opened Bytes

  function Continuation(v: int): (b: Byte) { (0x80 + v % 64) as Byte }

  function EncodeChar(c: char): (bytes: seq<Byte>)
    ensures 1 <= |bytes| <= 4
    ensures !IsContinuation(bytes[0])
    ensures forall i | 0 < i < |bytes| :: IsContinuation(bytes[i])
  {
    var v := c as int;
    if v < 0x80 then [v as Byte]
    else if v < 0x800 then [(0xC0 + v / 64) as Byte, Continuation(v)]
    else if v < 0x10000 then [(0xE0 + v / 4096) as Byte, Continuation(v / 64), Continuation(v)]
    else [(0xF0 + v / 262144) as Byte, Continuation(v / 4096), Continuation(v / 64), Continuation(v)]
  }

  /** The character number that the bytes of one character stand for (the table of section 3 of RFC 3629). */
  function CharacterNumber(bytes: seq<Byte>): (v: int)
    requires 1 <= |bytes| <= 4
  {
    var lead := bytes[0] as int;
    match |bytes|
    case 1 => lead
    case 2 => (lead - 0xC0) * 64 + Tail(bytes[1])
    case 3 => (lead - 0xE0) * 4096 + Tail(bytes[1]) * 64 + Tail(bytes[2])
    case _ => (lead - 0xF0) * 262144 + Tail(bytes[1]) * 4096 + Tail(bytes[2]) * 64 + Tail(bytes[3])
  }

  function Tail(b: Byte): (v: int) { b as int - 0x80 }

  /** A character is written in the fewest bytes that hold its number, and can be read back. */
  lemma CharacterRoundTrip(c: char)
    ensures CharacterNumber(EncodeChar(c)) == c as int
    ensures var n := |EncodeChar(c)|;
            c as int < if n == 1 then 0x80 else if n == 2 then 0x800 else if n == 3 then 0x10000 else 0x110000
    ensures |EncodeChar(c)| > 1 ==>
              c as int >= if |EncodeChar(c)| == 2 then 0x80 else if |EncodeChar(c)| == 3 then 0x800 else 0x10000
  {
    var v := c as int;
    assert v == v / 64 * 64 + v % 64 && v / 64 == v / 4096 * 64 + v / 64 % 64;
    assert v / 4096 == v / 262144 * 64 + v / 4096 % 64;
  }

  predicate IsContinuation(b: Byte) { 0x80 <= b < 0xC0 }

  function Encode(s: string): (bytes: seq<Byte>) {
    if s == [] then [] else EncodeChar(s[0]) + Encode(s[1..])
  }

  /** `str::is_char_boundary` */
  predicate IsBoundary(bytes: seq<Byte>, i: nat) {
    i == 0 || i == |bytes| || (i < |bytes| && !IsContinuation(bytes[i]))
  }

  lemma {:induction false} EncodeConcat(s: string, t: string)
    ensures Encode(s + t) == Encode(s) + Encode(t)
  {
    if s == [] {
      assert s + t == t;
    } else {
      assert (s + t)[0] == s[0] && (s + t)[1..] == s[1..] + t;
      EncodeConcat(s[1..], t);
      assert EncodeChar(s[0]) + (Encode(s[1..]) + Encode(t)) == (EncodeChar(s[0]) + Encode(s[1..])) + Encode(t);
    }
  }

  /** An encoding is empty or starts at a character. */
  lemma EncodeStartsCharacter(s: string)
    ensures Encode(s) == [] <==> s == []
    ensures s != [] ==> !IsContinuation(Encode(s)[0])
  {
  }

  /** Byte positions between characters are boundaries. */
  lemma {:induction false} PrefixIsBoundary(s: string, k: nat)
    requires k <= |s|
    ensures |Encode(s[..k])| <= |Encode(s)|
    ensures Encode(s[..k]) == Encode(s)[..|Encode(s[..k])|]
    ensures IsBoundary(Encode(s), |Encode(s[..k])|)
  {
    EncodeConcat(s[..k], s[k..]);
    assert s == s[..k] + s[k..];
    EncodeStartsCharacter(s[k..]);
    if k < |s| {
      assert Encode(s)[|Encode(s[..k])|] == Encode(s[k..])[0];
    } else {
      assert s[k..] == [];
    }
  }

  /** The bytes after the first of a character are not boundaries. */
  lemma {:induction false} InsideIsNoBoundary(s: string, k: nat, i: nat)
    requires k < |s| && |Encode(s[..k])| < i < |Encode(s[..k + 1])|
    ensures |Encode(s[..k + 1])| <= |Encode(s)| && !IsBoundary(Encode(s), i)
  {
    PrefixIsBoundary(s, k + 1);
    var start := |Encode(s[..k])|;
    OneMoreCharacter(s, k);
    assert Encode(s)[i] == Encode(s[..k + 1])[i] == EncodeChar(s[k])[i - start];
  }

  lemma {:induction false} OneMoreCharacter(s: string, k: nat)
    requires k < |s|
    ensures Encode(s[..k + 1]) == Encode(s[..k]) + EncodeChar(s[k])
  {
    assert s[..k + 1] == s[..k] + [s[k]];
    EncodeConcat(s[..k], [s[k]]);
    assert [s[k]][1..] == [];
    assert Encode([s[k]]) == EncodeChar(s[k]) + [];
  }

  // ----- different texts have different encodings -----

  /** The bytes of a character determine it. */
  lemma EncodeCharInjective(c: char, d: char)
    requires EncodeChar(c) == EncodeChar(d)
    ensures c == d
  {
    var v, w := c as int, d as int;
    var e, f := EncodeChar(c), EncodeChar(d);
    if |e| == 2 {
      SameDigits(v, w);
    } else if |e| == 3 {
      SameDigits(v / 64, w / 64);
      SameDigits(v, w);
    } else if |e| == 4 {
      SameDigits(v / 4096, w / 4096);
      SameDigits(v / 64, w / 64);
      SameDigits(v, w);
    }
  }

  lemma SameDigits(v: int, w: int)
    requires v / 64 == w / 64 && Continuation(v) == Continuation(w)
    ensures v == w
  {
  }

  /** The first byte of a character tells its length. */
  lemma EncodeCharLength(c: char, d: char)
    requires EncodeChar(c)[0] == EncodeChar(d)[0]
    ensures |EncodeChar(c)| == |EncodeChar(d)|
  {
  }

  lemma {:induction false} EncodeInjective(s: string, t: string)
    requires Encode(s) == Encode(t)
    ensures s == t
  {
    EncodeStartsCharacter(s);
    EncodeStartsCharacter(t);
    if s != [] {
      var e, f := EncodeChar(s[0]), EncodeChar(t[0]);
      assert e[0] == Encode(s)[0] == Encode(t)[0] == f[0];
      EncodeCharLength(s[0], t[0]);
      var n := |e|;
      assert e == Encode(s)[..n] == Encode(t)[..n] == f;
      EncodeCharInjective(s[0], t[0]);
      assert Encode(s[1..]) == Encode(s)[n..] == Encode(t)[n..] == Encode(t[1..]);
      EncodeInjective(s[1..], t[1..]);
      assert s == [s[0]] + s[1..] && t == [t[0]] + t[1..];
    }
  }
}
