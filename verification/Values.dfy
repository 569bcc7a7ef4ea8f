/** Value types shared by all parts of the model. */
module Values {
  datatype Option<+T> = None | Some(value: T)

  type Byte = b: int | 0 <= b < 256

  type Bytes = seq<Byte>

  /** TARGET_PAGE_SIZE: the flags of a stream word fit below a page, and a page's length in a delta. */
  type PageSize = n: nat | 256 <= n < 0x4000 witness 256
  const PAGE_SIZE: PageSize

  /** The bytes stand in s from position `at` on. */
  ghost predicate Piece(s: Bytes, at: nat, bytes: Bytes) {
    at + |bytes| <= |s| && s[at..at + |bytes|] == bytes
  }

  lemma PieceMore(s: Bytes, more: Bytes, at: nat, bytes: Bytes)
    requires Piece(s, at, bytes)
    ensures Piece(s + more, at, bytes)
  {
    assert (s + more)[at..at + |bytes|] == s[at..at + |bytes|];
  }

  lemma PieceEnd(s: Bytes, more: Bytes)
    ensures Piece(s + more, |s|, more)
  {
  }

  lemma PieceSplit(s: Bytes, at: nat, a: Bytes, b: Bytes)
    requires Piece(s, at, a + b)
    ensures Piece(s, at, a) && Piece(s, at + |a|, b)
  {
    var whole := s[at..at + |a + b|];
    assert whole[..|a|] == a && whole[|a|..] == b;
    assert s[at..at + |a|] == whole[..|a|] && s[at + |a|..at + |a| + |b|] == whole[|a|..];
  }

  /** Three runs of bytes stand in s one after the other from position `at` on. */
  ghost predicate Pieces(s: Bytes, at: nat, a: Bytes, b: Bytes, c: Bytes) {
    Piece(s, at, a) && Piece(s, at + |a|, b) && Piece(s, at + |a| + |b|, c)
  }

  lemma PiecesMore(s: Bytes, more: Bytes, at: nat, a: Bytes, b: Bytes, c: Bytes)
    requires Pieces(s, at, a, b, c)
    ensures Pieces(s + more, at, a, b, c)
  {
    PieceMore(s, more, at, a);
    PieceMore(s, more, at + |a|, b);
    PieceMore(s, more, at + |a| + |b|, c);
  }

  lemma PiecesEnd(s: Bytes, a: Bytes, b: Bytes, c: Bytes)
    ensures Pieces(s + (a + b + c), |s|, a, b, c)
  {
    PieceEnd(s, a + b + c);
    PieceSplit(s + (a + b + c), |s|, a + b, c);
    PieceSplit(s + (a + b + c), |s|, a, b);
  }
}
