/** Android's serialised nine-patch chunk (`Res_png_9patch`), as far as the
    library writes it: four header bytes (a version byte of 1, the number
    of x-divs, of y-divs and of colours), two zero offset words, the four
    paddings, a zero colour-offset word, then the x-divs, the y-divs and the
    colours, every word 32 bits little-endian. This module holds the byte
    layout and a reader for it, so that what `CornerSet` writes can be read
    back. */
module NinePatchChunk {
  import opened Java
  import opened Numbers
  import opened Graphics

  /** `Res_png_9patch::NO_COLOR`: the region is not a single colour. */
  const NoColor: Int := 1

  /** Words written one after another, little-endian. */
  function Words(ws: seq<int>): (r: seq<Byte>)
    ensures |r| == 4 * |ws|
  {
    if ws == [] then [] else Le(ws[0]) + Words(ws[1..])
  }

  lemma {:induction false} WordsAppend(a: seq<int>, b: seq<int>)
    ensures Words(a + b) == Words(a) + Words(b)
  {
    if a != [] {
      assert (a + b)[0] == a[0];
      assert (a + b)[1..] == a[1..] + b;
      WordsAppend(a[1..], b);
    } else {
      assert a + b == b;
    }
  }

  /** Word `i` occupies bytes `4i .. 4i+4`. */
  lemma {:induction false} WordAt(ws: seq<int>, i: nat)
    requires i < |ws|
    ensures Words(ws)[4 * i..4 * i + 4] == Le(ws[i])
  {
    if i > 0 {
      WordAt(ws[1..], i - 1);
      assert Words(ws)[4 * i..4 * i + 4] == Words(ws[1..])[4 * (i - 1)..4 * (i - 1) + 4];
    }
  }

  /** The words after the header bytes: offsets 4..47 hold two zero
      offsets, the paddings, a zero colour offset and the two div pairs. */
  function FixedWords(paddings: Rect, xDiv: int, yDiv: int): seq<int>
  {
    [0, 0, paddings.left, paddings.right, paddings.top, paddings.bottom, 0,
     xDiv, xDiv + 1, yDiv, yDiv + 1]
  }

  /** The chunk for one stretchable column `xDiv .. xDiv+1`, one
      stretchable row `yDiv .. yDiv+1` and the given region colours. */
  function ChunkBytes(paddings: Rect, xDiv: int, yDiv: int, colors: seq<int>): (r: seq<Byte>)
    requires |colors| < 256
    ensures |r| == 48 + 4 * |colors|
  {
    [1, 2, 2, |colors|] + Words(FixedWords(paddings, xDiv, yDiv) + colors)
  }

  /** What a reader of the chunk sees. */
  datatype Chunk = Chunk(
    version: Byte,
    xDivsOffset: nat, yDivsOffset: nat, colorsOffset: nat,
    paddings: Rect,
    xDivs: seq<Int>, yDivs: seq<Int>, colors: seq<nat>)

  function WordAtOffset(s: seq<Byte>, at: nat): seq<Byte>
    requires at + 4 <= |s|
  {
    s[at..at + 4]
  }

  /** `n` signed words starting at byte `at`. */
  function ReadInts(s: seq<Byte>, at: nat, n: nat): (r: seq<Int>)
    requires at + 4 * n <= |s|
    ensures |r| == n
    decreases n
  {
    if n == 0 then [] else [S32(WordAtOffset(s, at))] + ReadInts(s, at + 4, n - 1)
  }

  /** `n` unsigned words starting at byte `at`. */
  function ReadColors(s: seq<Byte>, at: nat, n: nat): (r: seq<nat>)
    requires at + 4 * n <= |s|
    ensures |r| == n
    decreases n
  {
    if n == 0 then [] else [U32(WordAtOffset(s, at))] + ReadColors(s, at + 4, n - 1)
  }

  /** Reads a serialised chunk; `None` when the length does not match the
      counts in its header. */
  function Decode(s: seq<Byte>): Option<Chunk>
  {
    if |s| < 32 then None
    else
      // the paddings are stored left, right, top, bottom
      var nx: nat, ny: nat, nc: nat := s[1], s[2], s[3];
      if |s| != 32 + 4 * (nx + ny + nc) then None
      else
        Some(Chunk(s[0],
          U32(WordAtOffset(s, 4)), U32(WordAtOffset(s, 8)), U32(WordAtOffset(s, 28)),
          Rect(S32(WordAtOffset(s, 12)), S32(WordAtOffset(s, 20)),
               S32(WordAtOffset(s, 16)), S32(WordAtOffset(s, 24))),
          ReadInts(s, 32, nx), ReadInts(s, 32 + 4 * nx, ny),
          ReadColors(s, 32 + 4 * (nx + ny), nc)))
  }

  lemma {:induction false} ReadIntsWords(s: seq<Byte>, ws: seq<int>, from: nat, n: nat)
    requires from + n <= |ws| && s == Words(ws)
    ensures forall i :: 0 <= i < n ==> ReadInts(s, 4 * from, n)[i] == Wrap32(ws[from + i])
    decreases n
  {
    if n > 0 {
      WordAt(ws, from);
      ReadIntsWords(s, ws, from + 1, n - 1);
      var r := ReadInts(s, 4 * from, n);
      var rest := ReadInts(s, 4 * (from + 1), n - 1);
      assert r == [S32(WordAtOffset(s, 4 * from))] + rest;
      forall i | 0 <= i < n
        ensures r[i] == Wrap32(ws[from + i])
      {
        if i > 0 {
          assert r[i] == rest[i - 1];
        }
      }
    }
  }

  lemma {:induction false} ReadColorsWords(s: seq<Byte>, ws: seq<int>, from: nat, n: nat)
    requires from + n <= |ws| && s == Words(ws)
    ensures forall i :: 0 <= i < n ==> ReadColors(s, 4 * from, n)[i] == Unsigned(ws[from + i])
    decreases n
  {
    if n > 0 {
      WordAt(ws, from);
      ReadColorsWords(s, ws, from + 1, n - 1);
      var r := ReadColors(s, 4 * from, n);
      var rest := ReadColors(s, 4 * (from + 1), n - 1);
      assert r == [U32(WordAtOffset(s, 4 * from))] + rest;
      forall i | 0 <= i < n
        ensures r[i] == Unsigned(ws[from + i])
      {
        if i > 0 {
          assert r[i] == rest[i - 1];
        }
      }
    }
  }

  /** Reading a shifted byte string: dropping the 4 header bytes shifts
      every word offset by 4. */
  lemma ReadShift(h: seq<Byte>, s: seq<Byte>, at: nat, n: nat)
    requires |h| == 4 && at + 4 * n <= |s|
    ensures ReadInts(h + s, at + 4, n) == ReadInts(s, at, n)
    ensures ReadColors(h + s, at + 4, n) == ReadColors(s, at, n)
    decreases n
  {
    if n > 0 {
      SliceAfter(h, s, at, at + 4);
      assert WordAtOffset(h + s, at + 4) == WordAtOffset(s, at);
      ReadShift(h, s, at + 4, n - 1);
    }
  }

  /** Reading the div words of header bytes followed by words `ws`. */
  lemma ReadDivs(h: seq<Byte>, ws: seq<int>)
    requires |h| == 4 && |ws| >= 11
    ensures var s := h + Words(ws);
            ReadInts(s, 32, 2) == [Wrap32(ws[7]), Wrap32(ws[8])] &&
            ReadInts(s, 40, 2) == [Wrap32(ws[9]), Wrap32(ws[10])]
  {
    var s := h + Words(ws);
    ReadPair(s, 32);
    ReadPair(s, 40);
    ReadWord(h, ws, 7);
    ReadWord(h, ws, 8);
    ReadWord(h, ws, 9);
    ReadWord(h, ws, 10);
  }

  lemma ReadPair(s: seq<Byte>, at: nat)
    requires at + 8 <= |s|
    ensures ReadInts(s, at, 2) == [S32(WordAtOffset(s, at)), S32(WordAtOffset(s, at + 4))]
  {
    assert ReadInts(s, at + 8, 0) == [];
  }

  /** Reading the colour words of header bytes followed by words `ws`. */
  lemma ReadColorWords(h: seq<Byte>, ws: seq<int>, n: nat)
    requires |h| == 4 && |ws| == 11 + n
    ensures var r := ReadColors(h + Words(ws), 48, n);
            forall i :: 0 <= i < n ==> r[i] == Unsigned(ws[11 + i])
  {
    var w := Words(ws);
    ReadShift(h, w, 44, n);
    var r := ReadColors(w, 44, n);
    assert ReadColors(h + w, 48, n) == r;
    ReadColorsWords(w, ws, 11, n);
    assert 4 * 11 == 44;
    assert forall i :: 0 <= i < n ==> ReadColors(w, 4 * 11, n)[i] == Unsigned(ws[11 + i]);
  }

  /** Reading header word `i` of header bytes followed by words `ws`. */
  lemma ReadWord(h: seq<Byte>, ws: seq<int>, i: nat)
    requires |h| == 4 && i < |ws|
    ensures WordAtOffset(h + Words(ws), 4 + 4 * i) == Le(ws[i])
  {
    var w := Words(ws);
    SliceAfter(h, w, 4 * i, 4 * i + 4);
    assert WordAtOffset(h + w, 4 + 4 * i) == w[4 * i..4 * i + 4];
    WordAt(ws, i);
  }

  lemma SliceAfter<T>(h: seq<T>, w: seq<T>, a: nat, b: nat)
    requires a <= b <= |w|
    ensures (h + w)[|h| + a..|h| + b] == w[a..b]
  {
    var l, r := (h + w)[|h| + a..|h| + b], w[a..b];
    assert |l| == |r|;
    forall i | 0 <= i < |l| ensures l[i] == r[i] {
      assert l[i] == (h + w)[|h| + a + i];
    }
  }

  /** `Decode` on a byte string with two x-divs and two y-divs. */
  lemma DecodeTwoDivs(s: seq<Byte>)
    requires |s| >= 4 && s[1] == 2 && s[2] == 2 && |s| == 48 + 4 * (s[3] as int)
    ensures Decode(s) == Some(Chunk(s[0],
          U32(WordAtOffset(s, 4)), U32(WordAtOffset(s, 8)), U32(WordAtOffset(s, 28)),
          Rect(S32(WordAtOffset(s, 12)), S32(WordAtOffset(s, 20)),
               S32(WordAtOffset(s, 16)), S32(WordAtOffset(s, 24))),
          ReadInts(s, 32, 2), ReadInts(s, 40, 2), ReadColors(s, 48, s[3])))
  {
  }

  /** The fixed words of a chunk as a reader sees them. */
  lemma ChunkFixedWords(paddings: Rect, xDiv: int, yDiv: int, colors: seq<int>)
    requires |colors| < 256
    ensures var s := ChunkBytes(paddings, xDiv, yDiv, colors);
      U32(WordAtOffset(s, 4)) == 0 && U32(WordAtOffset(s, 8)) == 0 && U32(WordAtOffset(s, 28)) == 0 &&
      S32(WordAtOffset(s, 12)) == Wrap32(paddings.left) && S32(WordAtOffset(s, 16)) == Wrap32(paddings.right) &&
      S32(WordAtOffset(s, 20)) == Wrap32(paddings.top) && S32(WordAtOffset(s, 24)) == Wrap32(paddings.bottom)
  {
    var ws := FixedWords(paddings, xDiv, yDiv) + colors;
    var h: seq<Byte> := [1, 2, 2, |colors|];
    assert ChunkBytes(paddings, xDiv, yDiv, colors) == h + Words(ws);
    assert ws[0] == 0 && ws[1] == 0 && ws[6] == 0;
    assert ws[2] == paddings.left && ws[3] == paddings.right;
    assert ws[4] == paddings.top && ws[5] == paddings.bottom;
    ReadWord(h, ws, 0);
    ReadWord(h, ws, 1);
    ReadWord(h, ws, 2);
    ReadWord(h, ws, 3);
    ReadWord(h, ws, 4);
    ReadWord(h, ws, 5);
    ReadWord(h, ws, 6);
  }

  /** The div pairs of a chunk as a reader sees them. */
  lemma ChunkDivWords(paddings: Rect, xDiv: int, yDiv: int, colors: seq<int>)
    requires |colors| < 256
    ensures var s := ChunkBytes(paddings, xDiv, yDiv, colors);
      ReadInts(s, 32, 2) == [Wrap32(xDiv), Wrap32(xDiv + 1)] &&
      ReadInts(s, 40, 2) == [Wrap32(yDiv), Wrap32(yDiv + 1)]
  {
    var ws := FixedWords(paddings, xDiv, yDiv) + colors;
    var h: seq<Byte> := [1, 2, 2, |colors|];
    assert ChunkBytes(paddings, xDiv, yDiv, colors) == h + Words(ws);
    assert ws[7] == xDiv && ws[8] == xDiv + 1 && ws[9] == yDiv && ws[10] == yDiv + 1;
    ReadDivs(h, ws);
  }

  /** The colours of a chunk as a reader sees them. */
  lemma ChunkColorWords(paddings: Rect, xDiv: int, yDiv: int, colors: seq<int>)
    requires |colors| < 256
    ensures var s := ChunkBytes(paddings, xDiv, yDiv, colors);
      forall i :: 0 <= i < |colors| ==> ReadColors(s, 48, |colors|)[i] == Unsigned(colors[i])
  {
    var ws := FixedWords(paddings, xDiv, yDiv) + colors;
    var h: seq<Byte> := [1, 2, 2, |colors|];
    assert ChunkBytes(paddings, xDiv, yDiv, colors) == h + Words(ws);
    assert forall i :: 0 <= i < |colors| ==> ws[11 + i] == colors[i];
    ReadColorWords(h, ws, |colors|);
  }

  /** Round trip: the chunk reads back as version 1, zero offsets, the
      paddings, the div pairs `[x, x+1]` and `[y, y+1]`, and the colours,
      each as the 32-bit value Java would have written. */
  lemma ChunkRoundTrip(paddings: Rect, xDiv: int, yDiv: int, colors: seq<int>)
    requires |colors| < 256
    ensures var d := Decode(ChunkBytes(paddings, xDiv, yDiv, colors));
      d.Some? &&
      d.value.version == 1 &&
      d.value.xDivsOffset == 0 && d.value.yDivsOffset == 0 && d.value.colorsOffset == 0 &&
      d.value.paddings ==
        Rect(Wrap32(paddings.left), Wrap32(paddings.top), Wrap32(paddings.right), Wrap32(paddings.bottom)) &&
      d.value.xDivs == [Wrap32(xDiv), Wrap32(xDiv + 1)] &&
      d.value.yDivs == [Wrap32(yDiv), Wrap32(yDiv + 1)] &&
      |d.value.colors| == |colors| &&
      forall i :: 0 <= i < |colors| ==> d.value.colors[i] == Unsigned(colors[i])
  {
    var s := ChunkBytes(paddings, xDiv, yDiv, colors);
    assert s[0] == 1 && s[1] == 2 && s[2] == 2 && s[3] == |colors|;
    DecodeTwoDivs(s);
    var d := Decode(s).value;
    assert d.version == 1;
    assert d.colors == ReadColors(s, 48, |colors|);
    ChunkFixedWords(paddings, xDiv, yDiv, colors);
    ChunkDivWords(paddings, xDiv, yDiv, colors);
    ChunkColorWords(paddings, xDiv, yDiv, colors);
  }
}
