/** Colour-channel helpers and the vertex and texture records of the renderer.
    Colours are arrays of unsigned bytes in which the helpers swap red and blue
    (channel 0 and channel 2); every byte store wraps modulo 256. */
module Geometry {

  newtype byte = b: int | 0 <= b < 256

  /** The unsigned char a C++ int converts to. */
  function Wrap(i: int): (b: byte)
    ensures b as int == i % 256
  {
    (i % 256) as byte
  }

  /** C++ integer division, which truncates toward zero. */
  function TruncDiv(a: int, n: int): (q: int)
    requires n != 0
    ensures 0 <= a && 0 < n ==> q == a / n
  {
    if (a >= 0) == (n > 0) then IntAbs(a) / IntAbs(n) else -(IntAbs(a) / IntAbs(n))
  }

  function IntAbs(i: int): nat { if i < 0 then -i else i }

  /** A truncated quotient has the magnitude of the quotient of the magnitudes, which never
      exceeds the dividend's, and the sign of the product of the signs. */
  lemma TruncDivShrinks(a: int, n: int)
    requires n != 0
    ensures IntAbs(TruncDiv(a, n)) == IntAbs(a) / IntAbs(n) <= IntAbs(a)
    ensures TruncDiv(a, n) < 0 ==> (a < 0) != (n < 0)
  {
    var q := IntAbs(a) / IntAbs(n);
    NatDivShrinks(IntAbs(a), IntAbs(n));
    if (a >= 0) == (n > 0) {
      assert TruncDiv(a, n) == q;
    } else {
      assert TruncDiv(a, n) == -q;
    }
  }

  lemma NatDivShrinks(a: nat, n: nat)
    requires n >= 1
    ensures 0 <= a / n <= a
  {
    var q := a / n;
    assert a == q * n + a % n;
    assert q * n == q + q * (n - 1);
    assert 0 <= q * (n - 1);
  }

  // ---------------------------------------------------------------------------
  // colorDiv, colorAdd, colorCpy
  // ---------------------------------------------------------------------------

  /** colorDiv: channels 0..2 of dst are each divided by num. */
  method ColorDiv(dst: array<byte>, num: int)
    requires dst.Length >= 3
    requires num != 0
    modifies dst
    ensures forall i :: 0 <= i < 3 ==> dst[i] == Wrap(TruncDiv(old(dst[i]) as int, num))
    ensures forall i :: 3 <= i < dst.Length ==> dst[i] == old(dst[i])
    ensures num > 0 ==> forall i :: 0 <= i < 3 ==> dst[i] <= old(dst[i])
  {
    ghost var before := dst[..];
    dst[2] := Wrap(TruncDiv(dst[2] as int, num));
    dst[1] := Wrap(TruncDiv(dst[1] as int, num));
    dst[0] := Wrap(TruncDiv(dst[0] as int, num));
    if num > 0 {
      DividedByteShrinks(before[0], num);
      DividedByteShrinks(before[1], num);
      DividedByteShrinks(before[2], num);
    }
  }

  /** A byte divided by a positive number is no larger than before. */
  lemma DividedByteShrinks(b: byte, num: int)
    requires num > 0
    ensures Wrap(TruncDiv(b as int, num)) <= b
  {
    TruncDivShrinks(b as int, num);
  }

  /** colorAdd: src is added into dst with red and blue swapped. When dst and src are the
      same array the stores happen in the source's order, so channel 0 adds the new channel 2. */
  method ColorAdd(dst: array<byte>, src: array<byte>)
    requires dst.Length >= 3 && src.Length >= 3
    modifies dst
    ensures dst[2] == Wrap(old(dst[2]) as int + old(src[0]) as int)
    ensures dst[1] == Wrap(old(dst[1]) as int + old(src[1]) as int)
    ensures dst[0] == Wrap(old(dst[0]) as int + (if dst == src then dst[2] else old(src[2])) as int)
    ensures forall i :: 3 <= i < dst.Length ==> dst[i] == old(dst[i])
  {
    dst[2] := Wrap(dst[2] as int + src[0] as int);
    dst[1] := Wrap(dst[1] as int + src[1] as int);
    dst[0] := Wrap(dst[0] as int + src[2] as int);
  }

  /** The channels colorCpy leaves in dst when dst and src are different arrays. */
  function Copied(dst: seq<byte>, src: seq<byte>, flip: bool, alpha: bool): (r: seq<byte>)
    requires |dst| >= 3 && |src| >= 3
    requires alpha ==> |dst| >= 4 && |src| >= 4
    ensures |r| == |dst|
  {
    var rgb := if flip then [src[2], src[1], src[0]] else src[..3];
    rgb + (if alpha then [src[3]] + dst[4..] else dst[3..])
  }

  /** Copying without flip takes the three colour channels verbatim, copying with flip
      takes them in reverse order, and the alpha channel is taken exactly when asked for. */
  lemma CopiedChannels(dst: seq<byte>, src: seq<byte>, flip: bool, alpha: bool)
    requires |dst| >= 3 && |src| >= 3
    requires alpha ==> |dst| >= 4 && |src| >= 4
    ensures var r := Copied(dst, src, flip, alpha);
            && (!flip ==> r[..3] == src[..3])
            && (flip ==> r[0] == src[2] && r[1] == src[1] && r[2] == src[0])
            && (alpha ==> r[3] == src[3])
            && (!alpha ==> r[3..] == dst[3..])
            && (alpha ==> r[4..] == dst[4..])
  {
  }

  /** Flip-copying twice gives back the original order of the colour channels. */
  lemma FlipTwice(d1: seq<byte>, d2: seq<byte>, src: seq<byte>, a1: bool, a2: bool)
    requires |d1| >= 4 && |d2| >= 4 && |src| >= 4
    ensures Copied(d2, Copied(d1, src, true, a1), true, a2)[..3] == src[..3]
  {
    var mid := Copied(d1, src, true, a1);
    var r := Copied(d2, mid, true, a2);
    CopiedChannels(d1, src, true, a1);
    CopiedChannels(d2, mid, true, a2);
    assert r[..3] == [r[0], r[1], r[2]];
    assert src[..3] == [src[0], src[1], src[2]];
  }

  /** colorCpy (the unscaled overload). The stores happen in the source's order, which
      matters only when dst and src are the same array. */
  method ColorCpy(dst: array<byte>, src: array<byte>, flip: bool, alpha: bool)
    requires dst.Length >= 3 && src.Length >= 3
    requires alpha ==> dst.Length >= 4 && src.Length >= 4
    modifies dst
    ensures dst != src ==> dst[..] == Copied(old(dst[..]), old(src[..]), flip, alpha)
    ensures dst == src ==>
              if flip then dst[..] == old(dst[..])[0 := old(dst[0])][2 := old(dst[0])]
              else dst[..] == old(dst[..])
  {
    if flip {
      dst[2] := src[0];
      dst[1] := src[1];
      dst[0] := src[2];
    } else {
      dst[0] := src[0];
      dst[1] := src[1];
      dst[2] := src[2];
    }
    if alpha {
      dst[3] := src[3];
    }
  }

  // ---------------------------------------------------------------------------
  // Records
  // ---------------------------------------------------------------------------

  /** A vertex: position, texture coordinate and a four-byte colour. */
  class Vertice {
    var color: seq<byte>
    var position: (real, real, real)
    var texCoord: (real, real)

    /** The default vertex is opaque black. */
    constructor ()
      ensures color == [0, 0, 0, 255]
    {
      color := [0, 0, 0, 255];
      position := (0.0, 0.0, 0.0);
      texCoord := (0.0, 0.0);
    }

    /** A vertex with a given position and a colour whose channels are converted from
        float to unsigned char; the conversion is defined only for values in [0, 256). */
    constructor WithColor(pos: (real, real, real), r: real, g: real, b: real, a: real)
      requires 0.0 <= r < 256.0 && 0.0 <= g < 256.0 && 0.0 <= b < 256.0 && 0.0 <= a < 256.0
      ensures color == [r.Floor as byte, g.Floor as byte, b.Floor as byte, a.Floor as byte]
      ensures position == pos
    {
      color := [r.Floor as byte, g.Floor as byte, b.Floor as byte, a.Floor as byte];
      position := pos;
      texCoord := (0.0, 0.0);
    }
  }

  /** A decoded image: height rows of width pixels of channel bytes each. */
  class Texture {
    const image: seq<byte>
    const width: int
    const height: int
    const channel: int
    const size: int

    constructor (image: seq<byte>, width: int, height: int, channel: int)
      ensures this.image == image && this.width == width && this.height == height
      ensures this.channel == channel
      ensures size == height * width * channel
    {
      this.image := image;
      this.width := width;
      this.height := height;
      this.channel := channel;
      size := height * width * channel;
    }
  }
}
