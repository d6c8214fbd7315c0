/**
 * The worker that `MemoryCulling` builds from an embedded script: it scans
 * an RGBA read-back buffer four bytes at a time and collects the `"r-g-b"`
 * key of every pixel into a set, ignoring alpha.
 */
module PixelDecoder {
  import opened Decimal
  import opened ColorCodes

  /** An element of the `Uint8Array` read-back buffer. */
  type Byte = x: int | 0 <= x < 256

  /** The key of pixel `k`: its red, green and blue bytes; the alpha byte is not read. */
  function PixelKey(buffer: seq<Byte>, k: nat): string
    requires 4 * k + 3 <= |buffer|
  {
    Key(buffer[4 * k], buffer[4 * k + 1], buffer[4 * k + 2])
  }

  /** The keys of the first `n` pixels. */
  function ColorsUpTo(buffer: seq<Byte>, n: nat): set<string>
    requires 4 * n <= |buffer|
  {
    set k | 0 <= k < n :: PixelKey(buffer, k)
  }

  /** The keys of all pixels of a buffer of whole pixels. */
  function PixelColors(buffer: seq<Byte>): set<string>
    requires |buffer| % 4 == 0
  {
    ColorsUpTo(buffer, |buffer| / 4)
  }

  lemma ColorsUpToStep(buffer: seq<Byte>, n: nat)
    requires 4 * n + 4 <= |buffer|
    ensures ColorsUpTo(buffer, n + 1) == ColorsUpTo(buffer, n) + {PixelKey(buffer, n)}
  {
  }

  /** The worker's message handler: one pass over the buffer in strides of four. */
  method DecodePixels(buffer: seq<Byte>) returns (colors: set<string>)
    requires |buffer| % 4 == 0
    ensures colors == PixelColors(buffer)
  {
    colors := {};
    var i := 0;
    ghost var pixels := 0;
    while i < |buffer|
      invariant 0 <= i <= |buffer| && i == 4 * pixels
      invariant colors == ColorsUpTo(buffer, pixels)
    {
      var r := buffer[i];
      var g := buffer[i + 1];
      var b := buffer[i + 2];
      var code := Key(r, g, b);
      ColorsUpToStep(buffer, pixels);
      colors := colors + {code};
      i := i + 4;
      pixels := pixels + 1;
    }
    assert pixels == |buffer| / 4;
  }

  /** An empty buffer has no colours. */
  lemma EmptyBufferNoColors()
    ensures PixelColors([]) == {}
  {
  }

  /** Only the red, green and blue bytes matter: two buffers that differ in alpha alone decode alike. */
  lemma AlphaIgnored(buffer: seq<Byte>, other: seq<Byte>)
    requires |buffer| == |other| && |buffer| % 4 == 0
    requires forall i :: 0 <= i < |buffer| && i % 4 != 3 ==> buffer[i] == other[i]
    ensures PixelColors(buffer) == PixelColors(other)
  {
    forall k | 0 <= k < |buffer| / 4 ensures PixelKey(buffer, k) == PixelKey(other, k) {
      assert buffer[4 * k] == other[4 * k];
      assert buffer[4 * k + 1] == other[4 * k + 1];
      assert buffer[4 * k + 2] == other[4 * k + 2];
    }
  }

  /** Pixel `k` of two buffers laid end to end is a pixel of the first or of the second. */
  lemma PixelKeyConcat(front: seq<Byte>, back: seq<Byte>, k: nat)
    requires |front| % 4 == 0 && 4 * k + 3 <= |front| + |back|
    ensures k < |front| / 4 ==> PixelKey(front + back, k) == PixelKey(front, k)
    ensures k >= |front| / 4 ==>
              (4 * (k - |front| / 4) + 3 <= |back| && PixelKey(front + back, k) == PixelKey(back, k - |front| / 4))
  {
    var whole := front + back;
    var n := |front| / 4;
    if k < n {
      assert whole[4 * k] == front[4 * k] && whole[4 * k + 1] == front[4 * k + 1] && whole[4 * k + 2] == front[4 * k + 2];
    } else {
      var j := k - n;
      assert whole[4 * k] == back[4 * j] && whole[4 * k + 1] == back[4 * j + 1] && whole[4 * k + 2] == back[4 * j + 2];
    }
  }

  /** Decoding two buffers laid end to end gives the union of their colours. */
  lemma ConcatColors(front: seq<Byte>, back: seq<Byte>)
    requires |front| % 4 == 0 && |back| % 4 == 0
    ensures PixelColors(front + back) == PixelColors(front) + PixelColors(back)
  {
    var whole := front + back;
    var n := |front| / 4;
    assert |whole| / 4 == n + |back| / 4;
    forall k | 0 <= k < |whole| / 4 ensures PixelKey(whole, k) in PixelColors(front) + PixelColors(back) {
      PixelKeyConcat(front, back, k);
    }
    forall k | 0 <= k < n ensures PixelKey(front, k) in PixelColors(whole) {
      PixelKeyConcat(front, back, k);
    }
    forall k | 0 <= k < |back| / 4 ensures PixelKey(back, k) in PixelColors(whole) {
      PixelKeyConcat(front, back, k + n);
    }
  }

  /** Repeated pixels collapse: a buffer repeated twice decodes as the buffer itself. */
  lemma DuplicatesCollapse(buffer: seq<Byte>)
    requires |buffer| % 4 == 0
    ensures PixelColors(buffer + buffer) == PixelColors(buffer)
  {
    ConcatColors(buffer, buffer);
  }

  /**
   * A pixel whose red, green and blue bytes are the channels of a counter
   * state decodes to exactly that state's code, whatever its alpha. That the
   * renderer writes a box's colour into such bytes is not part of this model.
   */
  lemma CounterPixelDecodesToCode(c: Counter, alpha: Byte)
    requires c.r < 256 && c.g < 256 && c.b < 256
    ensures PixelColors([c.r, c.g, c.b, alpha]) == {CodeOf(c)}
  {
    assert PixelKey([c.r, c.g, c.b, alpha], 0) == CodeOf(c);
  }

  /** Pixels (1,2,3,255), (1,2,3,0) and (4,5,6,10) decode to the two keys "1-2-3" and "4-5-6". */
  lemma ThreePixelExample()
    ensures PixelColors([1, 2, 3, 255, 1, 2, 3, 0, 4, 5, 6, 10]) == {"1-2-3", "4-5-6"}
  {
    var buffer: seq<Byte> := [1, 2, 3, 255, 1, 2, 3, 0, 4, 5, 6, 10];
    assert Key(1, 2, 3) == "1-2-3" by {
      assert NatToString(1) == "1" && NatToString(2) == "2" && NatToString(3) == "3";
    }
    assert Key(4, 5, 6) == "4-5-6" by {
      assert NatToString(4) == "4" && NatToString(5) == "5" && NatToString(6) == "6";
    }
    assert PixelKey(buffer, 0) == "1-2-3";
    assert PixelKey(buffer, 1) == "1-2-3";
    assert PixelKey(buffer, 2) == "4-5-6";
  }
}
