/** Removing blanks around a text. */
module Trimming {

  /** The characters that `str::trim` removes. */
  predicate White(c: char) {
    var v := c as int;
    9 <= v <= 13 || v == 32 || v == 0x85 || v == 0xA0 || v == 0x1680 || 0x2000 <= v <= 0x200A
    || v == 0x2028 || v == 0x2029 || v == 0x202F || v == 0x205F || v == 0x3000
  }

  function TrimStart(s: string): (r: string)
    ensures r == [] || !White(r[0])
    ensures |r| <= |s| && r == s[|s| - |r|..]
  {
    if s != [] && White(s[0]) then TrimStart(s[1..]) else s
  }

  function TrimEnd(s: string): (r: string)
    ensures r == [] || !White(r[|r| - 1])
    ensures r <= s
  {
    if s != [] && White(s[|s| - 1]) then TrimEnd(s[..|s| - 1]) else s
  }

  function Trim(s: string): (r: string)
    ensures r == [] || (!White(r[0]) && !White(r[|r| - 1]))
  {
    TrimEnd(TrimStart(s))
  }

  ghost predicate All(p: char -> bool, s: string) { forall i | 0 <= i < |s| :: p(s[i]) }

  ghost predicate Blank(s: string) { All(White, s) }

  lemma {:induction false} AllOneMore(p: char -> bool, c: char, s: string)
    requires p(c) && All(p, s)
    ensures All(p, [c] + s) && All(p, s + [c])
  {
  }

  lemma {:induction false} TrimStartDropsBlanks(s: string)
    ensures Blank(s[..|s| - |TrimStart(s)|])
  {
    if s != [] && White(s[0]) {
      TrimStartDropsBlanks(s[1..]);
      var r := TrimStart(s[1..]);
      AllOneMore(White, s[0], s[1..][..|s| - 1 - |r|]);
      assert [s[0]] + s[1..][..|s| - 1 - |r|] == s[..|s| - |r|];
    }
  }

  lemma {:induction false} TrimEndDropsBlanks(s: string)
    ensures Blank(s[|TrimEnd(s)|..])
  {
    var n := |s| - 1;
    if s != [] && White(s[n]) {
      TrimEndDropsBlanks(s[..n]);
      var r := TrimEnd(s[..n]);
      AllOneMore(White, s[n], s[..n][|r|..]);
      assert s[..n][|r|..] + [s[n]] == s[|r|..];
    }
  }

  lemma Rejoined(s: string, t: string, u: string)
    requires |t| <= |s| && t == s[|s| - |t|..] && u <= t
    ensures s == s[..|s| - |t|] + u + t[|u|..]
  {
  }

  /** Trimming takes blanks from both ends, all of them and nothing else. */
  lemma {:induction false} TrimRemovesBlanks(s: string) returns (before: string, after: string)
    ensures s == before + Trim(s) + after && Blank(before) && Blank(after)
  {
    var t, u := TrimStart(s), Trim(s);
    before, after := s[..|s| - |t|], t[|u|..];
    assert Blank(before) by { TrimStartDropsBlanks(s); }
    assert Blank(after) by { TrimEndDropsBlanks(t); }
    assert s == before + u + after by { Rejoined(s, t, u); }
  }

  lemma TrimIsIdempotent(s: string)
    ensures Trim(Trim(s)) == Trim(s)
  {
    var t := Trim(s);
    assert TrimStart(t) == t && TrimEnd(t) == t;
  }
}
