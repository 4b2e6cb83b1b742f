/** Fixed-width text chunking (`chunk_text`) and the chunk ids handed to the
    vector store (`save_chroma`). */
module PdfExtractor {
  import opened Wrappers
  import opened Text

  /** The default chunk width. */
  const ChunkSize := 120

  /** What `range(0, n, 0)` raises. */
  const ZeroStep := "range() arg 3 must not be zero"

  function Min(a: int, b: int): int { if a <= b then a else b }

  /** The number of starts `range(0, n, size)` yields for a positive `size`. */
  function StartCount(n: nat, size: nat): nat
    requires size > 0
  {
    (n + size - 1) / size
  }

  /** The `k`-th value `range(0, n, size)` yields. */
  function Start(k: nat, size: nat): nat
  {
    k * size
  }

  lemma MulMono(a: nat, b: nat, c: nat)
    requires a <= b
    ensures a * c <= b * c
  {
    assert b * c == a * c + (b - a) * c;
  }

  /** The starts cover `[0, n)` and the last one lies inside it. */
  lemma StartCountBounds(n: nat, size: nat)
    requires size > 0
    ensures n <= StartCount(n, size) * size
    ensures StartCount(n, size) > 0 ==> (StartCount(n, size) - 1) * size < n
    ensures StartCount(n, size) == 0 <==> n == 0
  {
    var x := n + size - 1;
    var q, r := x / size, x % size;
    assert x == q * size + r && 0 <= r < size;
    if q > 0 {
      assert (q - 1) * size == q * size - size;
    }
  }

  /** Every start lies inside `[0, n)`. */
  lemma StartsInside(n: nat, size: nat)
    requires size > 0
    ensures forall k :: 0 <= k < StartCount(n, size) ==> Start(k, size) < n
  {
    StartCountBounds(n, size);
    forall k | 0 <= k < StartCount(n, size) ensures Start(k, size) < n {
      MulMono(k, StartCount(n, size) - 1, size);
    }
  }

  /** `[text[i:i+size] for i in range(0, len(text), size)]`: a step of zero
      raises, a negative step yields no starts. */
  function ChunkText(text: string, size: int := ChunkSize): (r: Result<seq<string>, string>)
    ensures r.Failure? <==> size == 0
    ensures r.Failure? ==> r.error == ZeroStep
    ensures size < 0 ==> r == Success([])
  {
    if size == 0 then Failure(ZeroStep)
    else if size < 0 then Success([])
    else
      var n := StartCount(|text|, size);
      StartsInside(|text|, size);
      Success(seq(n, k requires 0 <= k < n => text[Start(k, size) .. Min(Start(k, size) + size, |text|)]))
  }

  /** The number of chunks is the length divided by the width, rounded up:
      the chunks cover the text, the last one starts inside it, and empty
      text, and only empty text, gives no chunks. */
  lemma ChunkCount(text: string, size: int)
    requires size > 0
    ensures var n := |ChunkText(text, size).value|;
      |text| <= n * size && (n > 0 ==> (n - 1) * size < |text|) && (n == 0 <==> text == [])
  {
    assert |ChunkText(text, size).value| == StartCount(|text|, size);
    StartCountBounds(|text|, size);
  }

  /** Chunk `k` is the text from `k` widths up to `k + 1` widths, cut at the
      end of the text. */
  lemma ChunkAt(text: string, size: int, k: nat)
    requires size > 0 && k < |ChunkText(text, size).value|
    ensures k * size < |text|
    ensures ChunkText(text, size).value[k] == text[k * size .. Min(k * size + size, |text|)]
  {
    StartsInside(|text|, size);
    var chunks := ChunkText(text, size).value;
    assert Start(k, size) < |text|;
    assert chunks[k] == text[Start(k, size) .. Min(Start(k, size) + size, |text|)];
  }

  /** Every chunk is non-empty and at most `size` long; every chunk but the
      last is exactly `size` long. */
  lemma ChunkLengths(text: string, size: int)
    requires size > 0
    ensures var chunks := ChunkText(text, size).value;
      forall k :: 0 <= k < |chunks| ==> 0 < |chunks[k]| <= size && (k < |chunks| - 1 ==> |chunks[k]| == size)
  {
    var chunks := ChunkText(text, size).value;
    var n := |chunks|;
    ChunkCount(text, size);
    forall k | 0 <= k < n
      ensures 0 < |chunks[k]| <= size && (k < n - 1 ==> |chunks[k]| == size)
    {
      ChunkAt(text, size, k);
      if k < n - 1 {
        MulMono(k + 1, n - 1, size);
        assert (k + 1) * size == k * size + size;
      }
    }
  }

  /** The first `m` chunks, written one after the other, are the text up to
      `m` widths. */
  lemma {:induction false} ConcatPrefix(text: string, size: int, m: nat)
    requires size > 0
    requires m <= |ChunkText(text, size).value|
    ensures Concat(ChunkText(text, size).value[..m]) == text[..Min(m * size, |text|)]
  {
    var chunks := ChunkText(text, size).value;
    if m == 0 {
      assert chunks[..0] == [];
    } else {
      ConcatPrefix(text, size, m - 1);
      assert chunks[..m][..m - 1] == chunks[..m - 1];
      var lo := (m - 1) * size;
      ChunkAt(text, size, m - 1);
      assert m * size == lo + size;
      var hi := Min(lo + size, |text|);
      assert Concat(chunks[..m]) == text[..lo] + text[lo..hi];
      assert text[..lo] + text[lo..hi] == text[..hi];
    }
  }

  /** Writing the chunks one after the other gives back the text. */
  lemma ChunkRoundTrip(text: string, size: int)
    requires size > 0
    ensures Concat(ChunkText(text, size).value) == text
  {
    var chunks := ChunkText(text, size).value;
    ConcatPrefix(text, size, |chunks|);
    assert chunks[..|chunks|] == chunks;
    ChunkCount(text, size);
    assert Min(|chunks| * size, |text|) == |text|;
  }

  /** The id of the chunk at `i`. */
  function ChunkId(i: nat): (id: string)
    ensures |id| > 6 && id[..6] == "chunk_"
  {
    "chunk_" + Decimal(i)
  }

  /** The `ids` list of `save_chroma`: one id per chunk, pairwise distinct. */
  function ChunkIds(chunks: seq<string>): (ids: seq<string>)
    ensures |ids| == |chunks|
    ensures forall i, j :: 0 <= i < j < |ids| ==> ids[i] != ids[j]
  {
    var ids := seq(|chunks|, i requires 0 <= i < |chunks| => ChunkId(i));
    assert forall i, j :: 0 <= i < j < |ids| ==> ids[i] != ids[j] by {
      forall i, j | 0 <= i < j < |ids| ensures ids[i] != ids[j] {
        if ids[i] == ids[j] {
          assert ids[i][6..] == Decimal(i) && ids[j][6..] == Decimal(j);
          DecimalInjective(i, j);
        }
      }
    }
    ids
  }

  /** The digits after `chunk_` read back as the chunk's position. */
  lemma ChunkIdIndex(chunks: seq<string>, i: nat)
    requires i < |chunks|
    ensures var id := ChunkIds(chunks)[i];
      id[..6] == "chunk_" && (forall k :: 6 <= k < |id| ==> IsDigit(id[k])) && DigitsValue(id[6..]) == i
  {
    var id := ChunkIds(chunks)[i];
    assert id[6..] == Decimal(i);
    DecimalRoundTrip(i);
  }
}
