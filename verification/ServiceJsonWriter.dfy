/**
 The log writer that adds a service field to JSON records: it replaces the opening brace of a
 record by a prefix. Callers hand it a record in arbitrary chunks, and the writer behind it may
 accept any part of what it is given.
 */
module ServiceJsonWriter {

  import opened Bytes

  const BRACE: Byte := 123

  /** The bytes written in place of the opening brace: `{"service":"verdictan-cli",` */
  const SERVICE_PREFIX: seq<Byte> :=
    [123, 34, 115, 101, 114, 118, 105, 99, 101, 34, 58,
     34, 118, 101, 114, 100, 105, 99, 116, 97, 110, 45, 99, 108, 105, 34, 44]

  lemma PrefixText(i: nat)
    ensures |SERVICE_PREFIX| == |"{\"service\":\"verdictan-cli\","|
    ensures i < |SERVICE_PREFIX| ==> SERVICE_PREFIX[i] as int == "{\"service\":\"verdictan-cli\","[i] as int
  {
  }

  // ----- specification -----

  /** `pieces` are the parts of the record taken by successive calls, none empty. */
  ghost predicate Pieces(pieces: seq<seq<Byte>>) {
    forall i | 0 <= i < |pieces| :: pieces[i] != []
  }

  function Joined(pieces: seq<seq<Byte>>): (r: seq<Byte>) {
    if pieces == [] then [] else pieces[0] + Joined(pieces[1..])
  }

  /** What one call writes for the piece it takes. */
  function Rewritten(prefix: seq<Byte>, done: bool, piece: seq<Byte>): (r: seq<Byte>) {
    if !done && piece != [] && piece[0] == BRACE then prefix + piece[1..] else piece
  }

  predicate DoneAfter(done: bool, piece: seq<Byte>) {
    done || (piece != [] && piece[0] == BRACE)
  }

  /** What a sequence of calls writes. */
  function Output(prefix: seq<Byte>, done: bool, pieces: seq<seq<Byte>>): (r: seq<Byte>)
    decreases pieces
  {
    if pieces == [] then []
    else Rewritten(prefix, done, pieces[0]) + Output(prefix, DoneAfter(done, pieces[0]), pieces[1..])
  }

  lemma {:induction false} OutputWhenDone(prefix: seq<Byte>, pieces: seq<seq<Byte>>)
    ensures Output(prefix, true, pieces) == Joined(pieces)
  {
    if pieces != [] {
      OutputWhenDone(prefix, pieces[1..]);
    }
  }

  /** A record that starts with a brace gets the prefix once, however it is split. */
  lemma {:induction false} RecordGetsPrefixOnce(prefix: seq<Byte>, record: seq<Byte>, pieces: seq<seq<Byte>>)
    requires Pieces(pieces) && Joined(pieces) == record && record != [] && record[0] == BRACE
    ensures Output(prefix, false, pieces) == prefix + record[1..]
  {
    OutputWhenDone(prefix, pieces[1..]);
    assert pieces[0][0] == record[0];
    assert record[1..] == pieces[0][1..] + Joined(pieces[1..]);
  }

  lemma {:induction false} NoBraceNoPrefix(prefix: seq<Byte>, pieces: seq<seq<Byte>>)
    requires BRACE !in Joined(pieces)
    ensures Output(prefix, false, pieces) == Joined(pieces)
  {
    if pieces != [] {
      assert forall b | b in pieces[0] || b in Joined(pieces[1..]) :: b in Joined(pieces);
      NoBraceNoPrefix(prefix, pieces[1..]);
    }
  }

  predicate DoneAfterAll(done: bool, pieces: seq<seq<Byte>>)
    decreases pieces
  {
    if pieces == [] then done else DoneAfterAll(DoneAfter(done, pieces[0]), pieces[1..])
  }

  lemma {:induction false} JoinedConcat(ps: seq<seq<Byte>>, qs: seq<seq<Byte>>)
    ensures Joined(ps + qs) == Joined(ps) + Joined(qs)
  {
    if ps == [] {
      assert ps + qs == qs;
    } else {
      assert (ps + qs)[0] == ps[0] && (ps + qs)[1..] == ps[1..] + qs;
      JoinedConcat(ps[1..], qs);
      assert ps[0] + (Joined(ps[1..]) + Joined(qs)) == (ps[0] + Joined(ps[1..])) + Joined(qs);
    }
  }

  lemma {:induction false} DoneConcat(done: bool, ps: seq<seq<Byte>>, qs: seq<seq<Byte>>)
    ensures DoneAfterAll(done, ps + qs) == DoneAfterAll(DoneAfterAll(done, ps), qs)
    decreases ps
  {
    if ps == [] {
      assert ps + qs == qs;
    } else {
      assert (ps + qs)[0] == ps[0] && (ps + qs)[1..] == ps[1..] + qs;
      DoneConcat(DoneAfter(done, ps[0]), ps[1..], qs);
    }
  }

  lemma {:induction false} MorePieces(prefix: seq<Byte>, done: bool, ps: seq<seq<Byte>>, qs: seq<seq<Byte>>)
    ensures Output(prefix, done, ps + qs) == Output(prefix, done, ps) + Output(prefix, DoneAfterAll(done, ps), qs)
    decreases ps
  {
    if ps == [] {
      assert ps + qs == qs;
    } else {
      assert (ps + qs)[0] == ps[0] && (ps + qs)[1..] == ps[1..] + qs;
      var after := DoneAfter(done, ps[0]);
      MorePieces(prefix, after, ps[1..], qs);
      Regroup(Rewritten(prefix, done, ps[0]), Output(prefix, after, ps[1..]),
              Output(prefix, DoneAfterAll(after, ps[1..]), qs));
    }
  }

  lemma Regroup(a: seq<Byte>, b: seq<Byte>, c: seq<Byte>)
    ensures (a + b) + c == a + (b + c) && a <= a + b
  {
  }

  lemma {:induction false} OnePiece(prefix: seq<Byte>, done: bool, piece: seq<Byte>)
    ensures Joined([piece]) == piece
    ensures Output(prefix, done, [piece]) == Rewritten(prefix, done, piece)
    ensures DoneAfterAll(done, [piece]) == DoneAfter(done, piece)
  {
    assert [piece][1..] == [];
  }

  /** The output is the same for every way of splitting the record. */
  ghost predicate SplitIndependent(prefix: seq<Byte>, record: seq<Byte>) {
    forall ps, qs | Pieces(ps) && Pieces(qs) && Joined(ps) == record && Joined(qs) == record ::
      Output(prefix, false, ps) == Output(prefix, false, qs)
  }

  lemma {:induction false} SplitIndependentIf(prefix: seq<Byte>, record: seq<Byte>, pieces: seq<seq<Byte>>)
    requires Pieces(pieces) && Joined(pieces) == record
    requires record == [] || record[0] == BRACE || BRACE !in record
    ensures Output(prefix, false, pieces)
         == if record != [] && record[0] == BRACE then prefix + record[1..] else record
  {
    if record != [] && record[0] == BRACE {
      RecordGetsPrefixOnce(prefix, record, pieces);
    } else {
      NoBraceNoPrefix(prefix, pieces);
    }
  }

  /** A split before a later brace puts the prefix there; the record in one piece does not. */
  lemma {:induction false} SplitBeforeBrace(prefix: seq<Byte>, record: seq<Byte>, i: nat)
    returns (whole: seq<seq<Byte>>, split: seq<seq<Byte>>)
    requires 0 < i < |record| && record[i] == BRACE && record[0] != BRACE && |prefix| != 1
    ensures Pieces(whole) && Joined(whole) == record && Output(prefix, false, whole) == record
    ensures Pieces(split) && Joined(split) == record && |Output(prefix, false, split)| == |record| + |prefix| - 1
  {
    whole, split := [record], [record[..i]] + [record[i..]];
    OnePiece(prefix, false, record);
    OnePiece(prefix, false, record[..i]);
    OnePiece(prefix, false, record[i..]);
    JoinedConcat([record[..i]], [record[i..]]);
    MorePieces(prefix, false, [record[..i]], [record[i..]]);
    assert record[..i] + record[i..] == record;
  }

  /**
   The output does not depend on the split exactly when the record is empty, starts with a brace,
   or has no brace.
   */
  lemma {:induction false} SplitIndependentIff(prefix: seq<Byte>, record: seq<Byte>)
    requires |prefix| != 1
    ensures SplitIndependent(prefix, record) <==> record == [] || record[0] == BRACE || BRACE !in record
  {
    if record == [] || record[0] == BRACE || BRACE !in record {
      forall ps | Pieces(ps) && Joined(ps) == record
        ensures Output(prefix, false, ps) == if record != [] && record[0] == BRACE then prefix + record[1..] else record
      {
        SplitIndependentIf(prefix, record, ps);
      }
    } else {
      var i :| 0 <= i < |record| && record[i] == BRACE;
      var whole, split := SplitBeforeBrace(prefix, record, i);
      assert |Output(prefix, false, whole)| != |Output(prefix, false, split)|;
    }
  }

  lemma {:induction false} ChunksUpTo(chunks: seq<seq<Byte>>, i: nat)
    requires i < |chunks|
    ensures Joined(chunks[..i + 1]) == Joined(chunks[..i]) + chunks[i]
  {
    assert chunks[..i + 1] == chunks[..i] + [chunks[i]];
    JoinedConcat(chunks[..i], [chunks[i]]);
    OnePiece([], false, chunks[i]);
  }

  lemma {:induction false} ChunksFrom(chunks: seq<seq<Byte>>, i: nat)
    requires i <= |chunks|
    ensures Joined(chunks) == Joined(chunks[..i]) + Joined(chunks[i..])
  {
    assert chunks == chunks[..i] + chunks[i..];
    JoinedConcat(chunks[..i], chunks[i..]);
  }

  /** Calls that write `ps`, then calls that write `qs` or, after an error, a part of it. */
  lemma {:induction false} Extend(prefix: seq<Byte>, done: bool, ps: seq<seq<Byte>>, qs: seq<seq<Byte>>,
                                  before: seq<Byte>, mid: seq<Byte>, out: seq<Byte>)
    requires Pieces(ps) && Pieces(qs) && mid == before + Output(prefix, done, ps)
    requires mid <= out <= mid + Output(prefix, DoneAfterAll(done, ps), qs)
    ensures Pieces(ps + qs) && Joined(ps + qs) == Joined(ps) + Joined(qs)
    ensures before <= out <= before + Output(prefix, done, ps + qs)
    ensures out == mid + Output(prefix, DoneAfterAll(done, ps), qs) ==> out == before + Output(prefix, done, ps + qs)
    ensures DoneAfterAll(done, ps + qs) == DoneAfterAll(DoneAfterAll(done, ps), qs)
  {
    JoinedConcat(ps, qs);
    DoneConcat(done, ps, qs);
    MorePieces(prefix, done, ps, qs);
    Regroup(before, Output(prefix, done, ps), Output(prefix, DoneAfterAll(done, ps), qs));
  }

  /** One more call takes `piece`, or, after an error, writes a part of what it stands for. */
  lemma {:induction false} OneMorePiece(prefix: seq<Byte>, done: bool, pieces: seq<seq<Byte>>, piece: seq<Byte>,
                                        before: seq<Byte>, mid: seq<Byte>, out: seq<Byte>)
    requires Pieces(pieces) && piece != [] && mid == before + Output(prefix, done, pieces)
    requires mid <= out <= mid + Rewritten(prefix, DoneAfterAll(done, pieces), piece)
    ensures Pieces(pieces + [piece]) && Joined(pieces + [piece]) == Joined(pieces) + piece
    ensures before <= out <= before + Output(prefix, done, pieces + [piece])
    ensures out == mid + Rewritten(prefix, DoneAfterAll(done, pieces), piece) ==>
              out == before + Output(prefix, done, pieces + [piece])
    ensures DoneAfterAll(done, pieces + [piece]) == DoneAfter(DoneAfterAll(done, pieces), piece)
  {
    OnePiece(prefix, DoneAfterAll(done, pieces), piece);
    Extend(prefix, done, pieces, [piece], before, mid, out);
  }

  /** The pieces of the chunks written so far, completed by what was not written after an error. */
  lemma {:induction false} CompletePieces(prefix: seq<Byte>, done: bool, chunks: seq<seq<Byte>>, i: nat,
                                          pieces: seq<seq<Byte>>, before: seq<Byte>, out: seq<Byte>)
    returns (all: seq<seq<Byte>>)
    requires i <= |chunks| && Pieces(pieces) && Joined(pieces) == Joined(chunks[..i])
    requires before <= out <= before + Output(prefix, done, pieces)
    ensures Pieces(all) && Joined(all) == Joined(chunks) && before <= out <= before + Output(prefix, done, all)
    ensures i == |chunks| ==> all == pieces
    ensures !done && Joined(chunks) != [] && Joined(chunks)[0] == BRACE ==>
              Output(prefix, done, all) == prefix + Joined(chunks)[1..]
  {
    var rest := Joined(chunks[i..]);
    ChunksFrom(chunks, i);
    all := pieces;
    if rest != [] {
      OnePiece(prefix, DoneAfterAll(done, pieces), rest);
      JoinedConcat(pieces, [rest]);
      MorePieces(prefix, done, pieces, [rest]);
      Regroup(before, Output(prefix, done, pieces), Rewritten(prefix, DoneAfterAll(done, pieces), rest));
      all := pieces + [rest];
    }
    if !done && Joined(chunks) != [] && Joined(chunks)[0] == BRACE {
      RecordGetsPrefixOnce(prefix, Joined(chunks), all);
    }
  }

  // ----- the writer -----

  /** The writer behind: takes any part of what it is given, or fails. */
  class Sink {
    var out: seq<Byte>
    const reliable: bool      // takes at least one byte, and never fails

    constructor (reliable: bool)
      ensures out == [] && this.reliable == reliable
    {
      out := [];
      this.reliable := reliable;
    }

    method Write(buf: seq<Byte>) returns (ok: bool, n: nat)
      modifies this
      ensures n <= |buf| && out == old(out) + buf[..n]
      ensures !ok ==> n == 0
      ensures reliable ==> ok && (buf != [] ==> n > 0)
    {
      var k: int := *;
      n := if 0 <= k <= |buf| then k else 0;
      ok := *;
      if reliable {
        ok := true;
        if n == 0 && buf != [] { n := 1; }
      }
      if !ok { n := 0; }
      out := out + buf[..n];
    }

    /** `write_all`: stops at an error, or when nothing is taken. */
    method WriteAll(buf: seq<Byte>) returns (ok: bool)
      modifies this
      ensures old(out) <= out <= old(out) + buf
      ensures ok ==> out == old(out) + buf
      ensures reliable ==> ok
    {
      var done := 0;
      while done < |buf|
        invariant 0 <= done <= |buf| && out == old(out) + buf[..done]
      {
        var written, n := Write(buf[done..]);
        assert buf[..done] + buf[done..][..n] == buf[..done + n];
        done := done + n;
        if !written || n == 0 { return false; }
      }
      ok := true;
    }
  }

  class Writer {
    const inner: Sink
    const prefix: seq<Byte>
    var prefixWritten: bool

    constructor (inner: Sink)
      ensures this.inner == inner && !prefixWritten && prefix == SERVICE_PREFIX
    {
      this.inner := inner;
      prefix := SERVICE_PREFIX;
      prefixWritten := false;
    }

    /** One call takes a piece of the buffer and writes that piece as specified. */
    method Write(buf: seq<Byte>) returns (ok: bool, n: nat)
      modifies this, inner
      ensures n <= |buf|
      ensures prefixWritten == DoneAfter(old(prefixWritten), buf)
      ensures ok ==> inner.out == old(inner.out) + Rewritten(prefix, old(prefixWritten), buf[..n])
      ensures !ok ==> old(inner.out) <= inner.out <= old(inner.out) + Rewritten(prefix, old(prefixWritten), buf)
      ensures inner.reliable ==> ok && (buf != [] ==> n > 0)
    {
      if buf == [] { return true, 0; }
      if !prefixWritten && buf[0] == BRACE {
        prefixWritten := true;
        ok := inner.WriteAll(prefix);
        if ok {
          ghost var mid := inner.out;
          ok := inner.WriteAll(buf[1..]);
          assert old(inner.out) + (prefix + buf[1..]) == mid + buf[1..];
        }
        n := if ok then |buf| else 0;
        assert ok ==> buf[..n] == buf;
      } else {
        ok, n := inner.Write(buf);
        assert !ok ==> inner.out == old(inner.out);
      }
    }

    /** `write_all`: writes the buffer in the pieces that the calls take; after an error the last piece is cut off. */
    method WriteAll(buf: seq<Byte>) returns (ok: bool, ghost pieces: seq<seq<Byte>>)
      modifies this, inner
      ensures Pieces(pieces) && Joined(pieces) == buf
      ensures old(inner.out) <= inner.out <= old(inner.out) + Output(prefix, old(prefixWritten), pieces)
      ensures ok ==> inner.out == old(inner.out) + Output(prefix, old(prefixWritten), pieces)
      ensures prefixWritten == DoneAfterAll(old(prefixWritten), pieces)
      ensures inner.reliable ==> ok
    {
      var done := 0;
      pieces := [];
      while done < |buf|
        invariant 0 <= done <= |buf| && Pieces(pieces) && Joined(pieces) == buf[..done]
        invariant inner.out == old(inner.out) + Output(prefix, old(prefixWritten), pieces)
        invariant prefixWritten == DoneAfterAll(old(prefixWritten), pieces)
      {
        ghost var mid := inner.out;
        var written, n := Write(buf[done..]);
        ghost var piece := if !written || n == 0 then buf[done..] else buf[done..][..n];
        OneMorePiece(prefix, old(prefixWritten), pieces, piece, old(inner.out), mid, inner.out);
        assert buf[..done] + piece == if !written || n == 0 then buf else buf[..done + n];
        pieces := pieces + [piece];
        if !written || n == 0 { return false, pieces; }
        done := done + n;
      }
      assert buf[..done] == buf;
      ok := true;
    }

    /**
     A caller writes a record in chunks. Whatever the chunks, and whatever parts of them are taken, a
     record that starts with a brace comes out with the prefix in place of that brace, once, or, after
     an error, as a part of this from the start.
     */
    method WriteRecord(chunks: seq<seq<Byte>>) returns (ok: bool, ghost pieces: seq<seq<Byte>>)
      modifies this, inner
      ensures Pieces(pieces) && Joined(pieces) == Joined(chunks)
      ensures old(inner.out) <= inner.out <= old(inner.out) + Output(prefix, old(prefixWritten), pieces)
      ensures ok ==> inner.out == old(inner.out) + Output(prefix, old(prefixWritten), pieces)
      ensures !old(prefixWritten) && Joined(chunks) != [] && Joined(chunks)[0] == BRACE ==>
                Output(prefix, old(prefixWritten), pieces) == prefix + Joined(chunks)[1..]
      ensures inner.reliable ==> ok
    {
      var i := 0;
      pieces := [];
      ok := true;
      while i < |chunks| && ok
        invariant 0 <= i <= |chunks| && Pieces(pieces) && Joined(pieces) == Joined(chunks[..i])
        invariant old(inner.out) <= inner.out <= old(inner.out) + Output(prefix, old(prefixWritten), pieces)
        invariant ok ==> inner.out == old(inner.out) + Output(prefix, old(prefixWritten), pieces)
        invariant prefixWritten == DoneAfterAll(old(prefixWritten), pieces)
        invariant inner.reliable ==> ok
        decreases |chunks| - i
      {
        ghost var mid, more := inner.out, [];
        ok, more := WriteAll(chunks[i]);
        Extend(prefix, old(prefixWritten), pieces, more, old(inner.out), mid, inner.out);
        ChunksUpTo(chunks, i);
        pieces := pieces + more;
        i := i + 1;
      }
      pieces := CompletePieces(prefix, old(prefixWritten), chunks, i, pieces, old(inner.out), inner.out);
    }
  }
}
