/** Shortening a telemetry body to a byte limit without splitting a character. */
module Truncation {

  import opened Bytes
  import opened Utf8

  const MARKER := "...(truncated)"

  /** `k` is the largest number of whole characters that fit in the limit. */
  ghost predicate Fits(text: string, limit: nat, k: nat) {
    && k <= |text| && |Encode(text[..k])| <= limit
    && forall j | k < j <= |text| :: |Encode(text[..j])| > limit
  }

  lemma {:induction false} LongerPrefixIsLonger(text: string, j: nat, k: nat)
    requires j < k <= |text|
    ensures |Encode(text[..j])| < |Encode(text[..k])|
    decreases k - j
  {
    OneMoreCharacter(text, k - 1);
    if j < k - 1 {
      LongerPrefixIsLonger(text, j, k - 1);
    }
  }

  /** Every position in the text falls on or inside the character after some prefix. */
  lemma {:induction false} PositionInText(text: string, i: nat, k: nat) returns (at: nat)
    requires k < |text| && |Encode(text[..k])| <= i < |Encode(text)|
    ensures at < |text| && |Encode(text[..at])| <= i < |Encode(text[..at + 1])|
    decreases |text| - k
  {
    if i < |Encode(text[..k + 1])| {
      at := k;
    } else {
      assert text[..|text|] == text;
      at := PositionInText(text, i, k + 1);
    }
  }

  /** The character boundary at or below a position inside the text. */
  lemma {:induction false} BoundaryBelow(text: string, limit: nat) returns (k: nat)
    requires limit < |Encode(text)|
    ensures Fits(text, limit, k) && k < |text|
    ensures limit - 3 <= |Encode(text[..k])| && IsBoundary(Encode(text), |Encode(text[..k])|)
    ensures Encode(text)[..|Encode(text[..k])|] == Encode(text[..k])
    ensures forall i | |Encode(text[..k])| < i <= limit :: !IsBoundary(Encode(text), i)
  {
    EncodeStartsCharacter(text);
    assert text[..0] == [];
    k := PositionInText(text, limit, 0);
    OneMoreCharacter(text, k);
    PrefixIsBoundary(text, k);
    forall i | |Encode(text[..k])| < i <= limit ensures !IsBoundary(Encode(text), i) {
      InsideIsNoBoundary(text, k, i);
    }
    forall j | k < j <= |text| ensures |Encode(text[..j])| > limit {
      if j > k + 1 {
        LongerPrefixIsLonger(text, k + 1, j);
      }
    }
  }

  /** `text` is the text that the bytes encode. */
  method TruncateUtf8String(value: seq<Byte>, maxBytes: nat, ghost text: string) returns (r: seq<Byte>)
    requires value == Encode(text)
    ensures |value| <= maxBytes ==> r == value
    ensures |value| > maxBytes ==>
              exists k: nat :: Fits(text, maxBytes, k) && maxBytes - 3 <= |Encode(text[..k])|
                               && r == Encode(text[..k] + MARKER)
  {
    if |value| <= maxBytes {
      return value;
    }
    ghost var k := BoundaryBelow(text, maxBytes);
    ghost var start := |Encode(text[..k])|;
    var end := maxBytes;
    while !IsBoundary(value, end) && end > 0
      invariant start <= end <= maxBytes
    {
      end := end - 1;
    }
    assert end == start;
    EncodeConcat(text[..k], MARKER);
    r := value[..end] + Encode(MARKER);
    assert Fits(text, maxBytes, k) && r == Encode(text[..k] + MARKER);
  }
}
