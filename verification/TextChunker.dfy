/** The indexer's overlapping chunker: a sliding window whose last chunk is dropped again when it repeats
    the end of the one before it. */
module TextChunker {
  import Text

  const DEFAULT_CHUNK_SIZE := 500
  const DEFAULT_CHUNK_OVERLAP := 50

  /** Python's `text[start:start + size]`. */
  function Window(text: string, start: nat, size: nat): string {
    if start >= |text| then "" else if start + size >= |text| then text[start..] else text[start..start + size]
  }

  /** The tiles at `start`, `start + stride`, and so on below `length`. */
  function Tiles(length: nat, stride: nat, start: nat, tile: nat -> string): seq<string>
    requires stride > 0
    decreases length - start
  {
    if start >= length then [] else [tile(start)] + Tiles(length, stride, start + stride, tile)
  }

  function WindowOf(text: string, size: nat): nat -> string {
    (start: nat) => Window(text, start, size)
  }

  /** The windows of `size` characters that start at `start`, `start + stride`, and so on. */
  function Windows(text: string, size: nat, stride: nat, start: nat): seq<string>
    requires stride > 0
  {
    Tiles(|text|, stride, start, WindowOf(text, size))
  }

  /** `before[-len(last):] == last` */
  predicate EndsAlike(before: string, last: string) {
    |last| <= |before| && last == before[|before| - |last|..]
  }

  /** Whether the last chunk equals the end of the one before it. */
  predicate Repeats(chunks: seq<string>) {
    |chunks| > 1 && EndsAlike(chunks[|chunks| - 2], chunks[|chunks| - 1])
  }

  function WithoutRepeat(chunks: seq<string>): seq<string> {
    if Repeats(chunks) then chunks[..|chunks| - 1] else chunks
  }

  function Chunks(text: string, size: nat, overlap: nat): seq<string>
    requires overlap < size || |text| <= size
  {
    if |text| <= size then [text] else WithoutRepeat(Windows(text, size, size - overlap, 0))
  }

  /** The loop of `_chunk_text`. */
  method Slide(text: string, size: nat, stride: nat) returns (chunks: seq<string>)
    requires stride > 0
    ensures chunks == Windows(text, size, stride, 0)
  {
    chunks := [];
    var start := 0;
    while start < |text|
      invariant chunks + Windows(text, size, stride, start) == Windows(text, size, stride, 0)
      decreases |text| - start
    {
      Text.Regroup(chunks, [Window(text, start, size)], Windows(text, size, stride, start + stride));
      chunks := chunks + [Window(text, start, size)];
      start := start + stride;
    }
  }

  /** `_chunk_text`. On a longer text its loop would never advance with an overlap of `size` or more. */
  method ChunkText(text: string, size: nat, overlap: nat) returns (chunks: seq<string>)
    requires overlap < size || |text| <= size
    ensures chunks == Chunks(text, size, overlap)
  {
    if |text| <= size {
      return [text];
    }
    chunks := Slide(text, size, size - overlap);
    if Repeats(chunks) {
      chunks := chunks[..|chunks| - 1];
    }
  }

  // ---------------------------------------------------------------- reading the chunks back

  function Drop(chunk: string, n: nat): string {
    if |chunk| <= n then "" else chunk[n..]
  }

  /** Every chunk without its first `overlap` characters, one after the other. */
  function NewText(chunks: seq<string>, overlap: nat): string {
    if chunks == [] then "" else Drop(chunks[0], overlap) + NewText(chunks[1..], overlap)
  }

  /** The first chunk, followed by what each later chunk adds to it. */
  function Rebuild(chunks: seq<string>, overlap: nat): string {
    if chunks == [] then "" else chunks[0] + NewText(chunks[1..], overlap)
  }

  /** A window without its overlap, and the text behind the window, make up the text behind the overlap. */
  lemma DropWindow(text: string, size: nat, overlap: nat, start: nat, end: nat)
    requires overlap < size && start < |text| && end == start + size
    ensures Drop(Window(text, start, size), overlap) + Drop(text, end) == Drop(text, start + overlap)
  {
    if end < |text| {
      DropSlice(text, start, end, overlap);
    } else if start + overlap < |text| {
      DropSlice(text, start, |text|, overlap);
    }
  }

  lemma DropSlice(text: string, lo: nat, hi: nat, n: nat)
    requires lo + n <= hi <= |text|
    ensures text[lo..hi][n..] + text[hi..] == text[lo + n..]
    ensures hi == |text| ==> text[lo..hi] == text[lo..] && text[lo..][n..] == text[lo + n..]
  {
  }

  lemma NewTextFirst(first: string, rest: seq<string>, overlap: nat, back: string, whole: string)
    requires NewText(rest, overlap) == back && Drop(first, overlap) + back == whole
    ensures NewText([first] + rest, overlap) == whole
  {
    assert ([first] + rest)[1..] == rest;
  }

  /** Each tile completes what the tiles behind it add up to; `whole` says what they add up to. */
  lemma {:induction false} NewTextOfTiles(length: nat, stride: nat, start: nat, overlap: nat, tile: nat -> string,
                                          whole: nat -> string)
    requires stride > 0
    requires forall p: nat :: p >= length ==> whole(p) == ""
    requires forall p: nat, next: nat :: p < length && next == p + stride ==>
               Drop(tile(p), overlap) + whole(next) == whole(p)
    ensures NewText(Tiles(length, stride, start, tile), overlap) == whole(start)
    decreases length - start
  {
    if start < length {
      NewTextOfTiles(length, stride, start + stride, overlap, tile, whole);
      NewTextFirst(tile(start), Tiles(length, stride, start + stride, tile), overlap, whole(start + stride),
                   whole(start));
    }
  }

  function Behind(text: string, overlap: nat): nat -> string {
    (start: nat) => Drop(text, start + overlap)
  }

  lemma WindowCompletes(text: string, size: nat, overlap: nat, p: nat, next: nat)
    requires overlap < size && p < |text| && next == p + size - overlap
    ensures Drop(WindowOf(text, size)(p), overlap) + Behind(text, overlap)(next) == Behind(text, overlap)(p)
  {
    DropWindow(text, size, overlap, p, next + overlap);
    assert WindowOf(text, size)(p) == Window(text, p, size);
    assert Behind(text, overlap)(next) == Drop(text, next + overlap);
  }

  lemma NothingBehindEnd(text: string, overlap: nat, p: nat)
    requires p >= |text|
    ensures Behind(text, overlap)(p) == ""
  {
    assert Behind(text, overlap)(p) == Drop(text, p + overlap);
  }

  lemma NewTextOfWindows(text: string, size: nat, overlap: nat, stride: nat, start: nat)
    requires stride > 0 && size == overlap + stride
    ensures NewText(Windows(text, size, stride, start), overlap) == Behind(text, overlap)(start)
  {
    var tile, whole := WindowOf(text, size), Behind(text, overlap);
    forall p: nat | p >= |text|
      ensures whole(p) == ""
    {
      NothingBehindEnd(text, overlap, p);
    }
    forall p: nat, next: nat | p < |text| && next == p + stride
      ensures Drop(tile(p), overlap) + whole(next) == whole(p)
    {
      WindowCompletes(text, size, overlap, p, next);
    }
    NewTextOfTiles(|text|, stride, start, overlap, tile, whole);
  }

  lemma RebuildFirst(first: string, rest: seq<string>, overlap: nat, back: string)
    requires NewText(rest, overlap) == back
    ensures Rebuild([first] + rest, overlap) == first + back
  {
    assert ([first] + rest)[1..] == rest;
  }

  lemma RebuildOfWindows(text: string, size: nat, overlap: nat, stride: nat)
    requires stride > 0 && size == overlap + stride && size < |text|
    ensures Rebuild(Windows(text, size, stride, 0), overlap) == text
  {
    NewTextOfWindows(text, size, overlap, stride, stride);
    assert Behind(text, overlap)(stride) == text[size..];
    RebuildFirst(Window(text, 0, size), Windows(text, size, stride, stride), overlap, text[size..]);
    assert text == text[..size] + text[size..];
  }

  lemma {:induction false} NewTextLast(chunks: seq<string>, last: string, overlap: nat)
    ensures NewText(chunks + [last], overlap) == NewText(chunks, overlap) + Drop(last, overlap)
  {
    if chunks == [] {
      assert ([] + [last])[1..] == [];
    } else {
      NewTextLast(chunks[1..], last, overlap);
      assert (chunks + [last])[1..] == chunks[1..] + [last];
      Text.Regroup(Drop(chunks[0], overlap), NewText(chunks[1..], overlap), Drop(last, overlap));
    }
  }

  lemma RebuildLast(chunks: seq<string>, last: string, overlap: nat)
    requires chunks != []
    ensures Rebuild(chunks + [last], overlap) == Rebuild(chunks, overlap) + Drop(last, overlap)
  {
    NewTextLast(chunks[1..], last, overlap);
    assert (chunks + [last])[1..] == chunks[1..] + [last];
    Text.Regroup(chunks[0], NewText(chunks[1..], overlap), Drop(last, overlap));
  }

  // ---------------------------------------------------------------- where the last two windows lie

  /** The position of the last window. */
  function LastStart(length: nat, stride: nat, start: nat): (s: nat)
    requires stride > 0 && start < length
    ensures start <= s < length <= s + stride
    decreases length - start
  {
    if start + stride >= length then start else LastStart(length, stride, start + stride)
  }

  predicate EndsWithTwo(chunks: seq<string>, before: string, last: string) {
    |chunks| > 1 && chunks[|chunks| - 2] == before && chunks[|chunks| - 1] == last
  }

  lemma EndsWithTwoBehind(first: string, rest: seq<string>, before: string, last: string)
    requires EndsWithTwo(rest, before, last)
    ensures EndsWithTwo([first] + rest, before, last)
  {
  }

  lemma {:induction false} LastTwo(length: nat, stride: nat, start: nat, tile: nat -> string)
    requires stride > 0 && start + stride < length
    ensures LastStart(length, stride, start) >= stride
    ensures EndsWithTwo(Tiles(length, stride, start, tile), tile(LastStart(length, stride, start) - stride),
                        tile(LastStart(length, stride, start)))
    decreases length - start
  {
    var second := start + stride;
    var next, s := Tiles(length, stride, second, tile), LastStart(length, stride, second);
    if second + stride < length {
      LastTwo(length, stride, second, tile);
      EndsWithTwoBehind(tile(start), next, tile(s - stride), tile(s));
    } else {
      assert Tiles(length, stride, second + stride, tile) == [];
      assert next == [tile(second)];
    }
  }

  /** The text behind `s` has more than `overlap` characters and repeats as many in front of `s + overlap`. */
  predicate RepeatsBefore(text: string, size: nat, overlap: nat, s: nat)
    requires s <= |text|
  {
    var n := |text| - s;
    overlap < n && n <= size && s + overlap >= n && text[s..] == text[s + overlap - n..s + overlap]
  }

  /** The text beyond `size` ends in a window of more than `overlap` characters that repeats the same
      number of characters just before it: this is the text whose end the chunker drops. */
  predicate LosesEnd(text: string, size: nat, overlap: nat)
    requires overlap < size
  {
    |text| > size && RepeatsBefore(text, size, overlap, LastStart(|text|, size - overlap, 0))
  }

  lemma RepeatedWindow(text: string, size: nat, overlap: nat, stride: nat, w: seq<string>, s: nat)
    requires overlap < size < |text| && stride == size - overlap && stride <= s < |text| <= s + stride
    requires EndsWithTwo(w, Window(text, s - stride, size), Window(text, s, size))
    ensures w[|w| - 1] == text[s..]
    ensures Repeats(w) == (|text| - s <= overlap || RepeatsBefore(text, size, overlap, s))
  {
    LastWindowIsRest(text, size, stride, s);
    CompareWindows(text, size, overlap, stride, s);
  }

  lemma LastWindowIsRest(text: string, size: nat, stride: nat, s: nat)
    requires 0 < stride <= size && s < |text| <= s + stride
    ensures Window(text, s, size) == text[s..]
  {
  }

  lemma CompareWindows(text: string, size: nat, overlap: nat, stride: nat, s: nat)
    requires overlap < size && stride == size - overlap && stride <= s < |text| <= s + stride
    ensures EndsAlike(Window(text, s - stride, size), text[s..])
            == (|text| - s <= overlap || RepeatsBefore(text, size, overlap, s))
  {
    var p, n := s - stride, |text| - s;
    if n <= overlap {
      assert Window(text, p, size) == text[p..];
      TailOfSlice(text, p, |text|, n);
    } else {
      assert Window(text, p, size) == text[p..s + overlap];
      if n <= size {
        TailOfSlice(text, p, s + overlap, n);
      }
    }
  }

  lemma TailOfSlice(text: string, lo: nat, hi: nat, n: nat)
    requires lo <= hi <= |text| && n <= hi - lo
    ensures text[lo..hi][hi - lo - n..] == text[hi - n..hi]
    ensures text[hi..] == [] ==> text[lo..hi] == text[lo..] && text[hi - n..hi] == text[hi - n..]
  {
  }

  /** The windows of a long text before any is dropped: their end, and what they rebuild. */
  lemma LongText(text: string, size: nat, overlap: nat, stride: nat, w: seq<string>, s: nat)
    requires overlap < size < |text| && stride == size - overlap
    requires w == Windows(text, size, stride, 0) && s == LastStart(|text|, stride, 0)
    ensures |w| > 1 && w[|w| - 1] == text[s..] && Rebuild(w, overlap) == text
    ensures Repeats(w) == (|text| - s <= overlap || RepeatsBefore(text, size, overlap, s))
  {
    RebuildOfWindows(text, size, overlap, stride);
    LastTwo(|text|, stride, 0, WindowOf(text, size));
    RepeatedWindow(text, size, overlap, stride, w, s);
  }

  lemma LongTextRebuild(text: string, size: nat, overlap: nat, stride: nat, w: seq<string>, s: nat)
    requires overlap < size < |text| && stride == size - overlap
    requires w == Windows(text, size, stride, 0) && s == LastStart(|text|, stride, 0)
    ensures Rebuild(WithoutRepeat(w), overlap) ==
            if RepeatsBefore(text, size, overlap, s) then text[..s + overlap] else text
    ensures Rebuild(WithoutRepeat(w), overlap) == text <==> !RepeatsBefore(text, size, overlap, s)
  {
    LongText(text, size, overlap, stride, w, s);
    RebuildKept(text, w, overlap, s, RepeatsBefore(text, size, overlap, s));
  }

  /** Reading the chunks back gives the whole text, unless the text is one of those described by
      `LosesEnd`; then exactly the characters past the last window's overlap are missing. */
  lemma ChunksRebuild(text: string, size: nat, overlap: nat)
    requires overlap < size
    ensures Rebuild(Chunks(text, size, overlap), overlap) ==
            if LosesEnd(text, size, overlap) then text[..LastStart(|text|, size - overlap, 0) + overlap] else text
    ensures Rebuild(Chunks(text, size, overlap), overlap) == text <==> !LosesEnd(text, size, overlap)
  {
    if |text| > size {
      var stride := size - overlap;
      LongTextRebuild(text, size, overlap, stride, Windows(text, size, stride, 0), LastStart(|text|, stride, 0));
    }
  }

  lemma RebuildKept(text: string, w: seq<string>, overlap: nat, s: nat, loses: bool)
    requires |w| > 1 && s < |text| && w[|w| - 1] == text[s..] && Rebuild(w, overlap) == text
    requires Repeats(w) == (|text| - s <= overlap || loses) && (loses ==> |text| - s > overlap)
    ensures Rebuild(WithoutRepeat(w), overlap) == if loses then text[..s + overlap] else text
    ensures Rebuild(WithoutRepeat(w), overlap) == text <==> !loses
  {
    var kept := w[..|w| - 1];
    assert w == kept + [text[s..]];
    DroppedWindow(text, kept, overlap, s);
  }

  /** Dropping the last window `text[s..]` costs exactly what it adds to the text. */
  lemma DroppedWindow(text: string, kept: seq<string>, overlap: nat, s: nat)
    requires kept != [] && s < |text| && Rebuild(kept + [text[s..]], overlap) == text
    ensures Rebuild(kept, overlap) == if |text| - s > overlap then text[..s + overlap] else text
  {
    RebuildLast(kept, text[s..], overlap);
    var front, back := Rebuild(kept, overlap), Drop(text[s..], overlap);
    assert text == front + back;
    assert |text| - s > overlap ==> |front| == s + overlap;
  }

  /** A last window of at most `overlap` characters is always dropped, and costs nothing. */
  lemma ShortLastWindowIsDropped(text: string, size: nat, overlap: nat)
    requires overlap < size < |text| && |text| - LastStart(|text|, size - overlap, 0) <= overlap
    ensures |Chunks(text, size, overlap)| == |Windows(text, size, size - overlap, 0)| - 1
    ensures Rebuild(Chunks(text, size, overlap), overlap) == text
  {
    var stride := size - overlap;
    LongText(text, size, overlap, stride, Windows(text, size, stride, 0), LastStart(|text|, stride, 0));
    ChunksRebuild(text, size, overlap);
  }

  /** The witness, with the default sizes: of 600 equal characters only 500 can be read back. */
  lemma SixHundredEqualCharacters()
    ensures var text := seq(600, _ => 'a');
            Rebuild(Chunks(text, DEFAULT_CHUNK_SIZE, DEFAULT_CHUNK_OVERLAP), DEFAULT_CHUNK_OVERLAP)
            == seq(500, _ => 'a')
  {
    var text := seq(600, _ => 'a');
    assert LastStart(600, 450, 0) == 450;
    assert text[450..] == text[350..500];
    assert LosesEnd(text, DEFAULT_CHUNK_SIZE, DEFAULT_CHUNK_OVERLAP);
    ChunksRebuild(text, DEFAULT_CHUNK_SIZE, DEFAULT_CHUNK_OVERLAP);
    assert text[..500] == seq(500, _ => 'a');
  }
}
