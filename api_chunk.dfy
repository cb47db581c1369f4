/** api/app.py, `_chunk_text`: the text cut into consecutive pieces of
    `chunk_size` characters (the last one shorter), as a comprehension over
    `range(0, len(text), chunk_size)`. */
module ApiChunk {
  import opened Lists

  /** `len(range(0, n, size))` for size > 0. */
  function PieceCount(n: nat, size: int): nat
    requires size > 0
  {
    (n + size - 1) / size
  }

  function ChunkText(text: string, size: int): (r: seq<string>)
  {
    if size <= 0 then [text]
    else
      seq(PieceCount(|text|, size), j requires 0 <= j < PieceCount(|text|, size) =>
        PieceAt(text, size, j))
  }

  /** `text[j*size : j*size + size]`. */
  function PieceAt(text: string, size: int, j: nat): string
    requires size > 0 && j < PieceCount(|text|, size)
  {
    PieceBounds(|text|, size, j);
    text[j * size .. Min(j * size + size, |text|)]
  }

  /** Where the j-th piece starts and ends: the starts stay inside the text, and
      the pieces together reach its end. */
  lemma PieceBounds(n: nat, size: int, j: nat)
    requires size > 0 && j < PieceCount(n, size)
    ensures j * size < n
    ensures j + 1 == PieceCount(n, size) ==> n <= j * size + size
    ensures j + 1 < PieceCount(n, size) ==> j * size + size < n
  {
    var q := PieceCount(n, size);
    var m := n + size - 1;
    assert m == q * size + m % size;
    assert j * size <= (q - 1) * size by {
      MulMono(j, q - 1, size);
    }
    assert (q - 1) * size == q * size - size;
    if j + 1 < q {
      MulMono(j + 1, q - 1, size);
      assert (j + 1) * size == j * size + size;
    }
    if j + 1 == q {
      assert j * size + size == q * size;
    }
  }

  lemma MulMono(a: nat, b: nat, c: nat)
    requires a <= b
    ensures a * c <= b * c
  {
    assert b * c == a * c + (b - a) * c;
  }

  /** The first j pieces together are the text up to j*size. */
  lemma {:induction false} ChunkPrefix(text: string, size: int, j: nat)
    requires size > 0 && j <= PieceCount(|text|, size)
    ensures Flatten(ChunkText(text, size)[..j]) == text[..Min(j * size, |text|)]
  {
    var pieces := ChunkText(text, size);
    if j > 0 {
      ChunkPrefix(text, size, j - 1);
      PieceBounds(|text|, size, j - 1);
      var a := (j - 1) * size;
      var b := Min(a + size, |text|);
      MulStep(j, size);
      assert pieces[j - 1] == text[a..b];
      assert pieces[..j] == pieces[..j - 1] + [pieces[j - 1]];
      FlattenSnoc(pieces[..j - 1], pieces[j - 1]);
      assert text[..a] + text[a..b] == text[..b];
    }
  }

  lemma MulStep(j: int, size: int)
    ensures (j - 1) * size + size == j * size
  {
  }

  lemma PieceCountZero(n: nat, size: int)
    requires size > 0
    ensures PieceCount(n, size) == 0 <==> n == 0
  {
    var m := n + size - 1;
    assert m == (m / size) * size + m % size;
    if n > 0 {
      assert m >= size;
      assert m / size >= 1;
    }
  }

  /** Concatenating the pieces gives back the text. */
  lemma ChunkTextConcat(text: string, size: int)
    ensures Flatten(ChunkText(text, size)) == text
  {
    var pieces := ChunkText(text, size);
    if size <= 0 {
      assert pieces == [text];
      assert pieces[..0] == [];
      FlattenSnoc([], text);
    } else {
      var q := PieceCount(|text|, size);
      ChunkPrefix(text, size, q);
      assert pieces[..q] == pieces;
      PieceCountZero(|text|, size);
      if q > 0 {
        PieceBounds(|text|, size, q - 1);
        MulStep(q, size);
      }
      assert Min(q * size, |text|) == |text|;
      assert text[..|text|] == text;
    }
  }

  /** With a positive size, no piece is empty or longer than size, and every
      piece but the last has exactly size characters; otherwise the text comes
      back whole. */
  lemma ChunkTextSizes(text: string, size: int)
    ensures size <= 0 ==> ChunkText(text, size) == [text]
    ensures size > 0 ==> forall j :: 0 <= j < |ChunkText(text, size)| ==>
      0 < |ChunkText(text, size)[j]| <= size
      && (j + 1 < |ChunkText(text, size)| ==> |ChunkText(text, size)[j]| == size)
  {
    if size > 0 {
      forall j | 0 <= j < |ChunkText(text, size)|
        ensures 0 < |ChunkText(text, size)[j]| <= size
        ensures j + 1 < |ChunkText(text, size)| ==> |ChunkText(text, size)[j]| == size
      {
        PieceBounds(|text|, size, j);
      }
    }
  }

  /** The empty text has no pieces when the size is positive. */
  lemma ChunkTextEmpty(size: int)
    requires size > 0
    ensures ChunkText("", size) == []
  {
    assert PieceCount(0, size) == (size - 1) / size;
    assert size - 1 < size;
  }
}
