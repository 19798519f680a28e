/** `rgb8_to_rgb565` of the graphics crate: album art arrives as 8-bit RGB
    and is repacked, pixel by pixel, into the two-byte format the display
    takes. */
module ColorConvert {
  import opened Common

  /** `ImageBuffer<Rgb<u8>, Vec<u8>>`: width * height pixels of three bytes
      (r, g, b) each, row-major. */
  datatype RgbImage = RgbImage(width: nat, height: nat, raw: seq<byte>) {
    predicate Valid() {
      |raw| == 3 * (width * height)
    }
  }

  /** `rgb565::Rgb565::from_rgb888_components(c0, c1, c2).to_bgr565_be()`:
      the per-pixel packing of the rgb565 crate, which this model takes as given. */
  type Packer = (byte, byte, byte) -> (byte, byte)

  /** The byte pair for pixel k of `raw`. The packer receives the channels in
      the order (b, g, r): this reversal matches the display's layout. */
  function PixelPair(raw: seq<byte>, pack: Packer, k: nat): (byte, byte)
    requires 3 * k + 2 < |raw|
  {
    pack(raw[3 * k + 2], raw[3 * k + 1], raw[3 * k])
  }

  /** The converted buffer, pixel by pixel: each pixel's pair followed by the
      rest. */
  function Rgb565Bytes(raw: seq<byte>, pack: Packer): (out: seq<byte>)
    requires |raw| % 3 == 0
    ensures |out| == 2 * (|raw| / 3)
    decreases |raw|
  {
    if raw == [] then []
    else
      var pair := PixelPair(raw, pack, 0);
      [pair.0, pair.1] + Rgb565Bytes(raw[3..], pack)
  }

  /** Pixel k is written to bytes 2k and 2k + 1, and to no other byte. */
  lemma {:induction false} Rgb565BytesAt(raw: seq<byte>, pack: Packer, k: nat)
    requires |raw| % 3 == 0 && k < |raw| / 3
    ensures Rgb565Bytes(raw, pack)[2 * k] == PixelPair(raw, pack, k).0
    ensures Rgb565Bytes(raw, pack)[2 * k + 1] == PixelPair(raw, pack, k).1
    decreases |raw|
  {
    if k > 0 {
      Rgb565BytesAt(raw[3..], pack, k - 1);
      assert PixelPair(raw[3..], pack, k - 1) == PixelPair(raw, pack, k);
    }
  }

  /** Each output pair depends only on its own pixel: two images that agree on
      pixel k agree on bytes 2k and 2k + 1, whatever their other pixels. */
  lemma PixelLocality(raw1: seq<byte>, raw2: seq<byte>, pack: Packer, k: nat)
    requires |raw1| % 3 == 0 && |raw2| % 3 == 0
    requires k < |raw1| / 3 && k < |raw2| / 3
    requires raw1[3 * k..3 * k + 3] == raw2[3 * k..3 * k + 3]
    ensures Rgb565Bytes(raw1, pack)[2 * k] == Rgb565Bytes(raw2, pack)[2 * k]
    ensures Rgb565Bytes(raw1, pack)[2 * k + 1] == Rgb565Bytes(raw2, pack)[2 * k + 1]
  {
    Rgb565BytesAt(raw1, pack, k);
    Rgb565BytesAt(raw2, pack, k);
    assert PixelPair(raw1, pack, k) == PixelPair(raw2, pack, k) by {
      assert raw1[3 * k] == raw1[3 * k..3 * k + 3][0] == raw2[3 * k];
      assert raw1[3 * k + 1] == raw1[3 * k..3 * k + 3][1] == raw2[3 * k + 1];
      assert raw1[3 * k + 2] == raw1[3 * k..3 * k + 3][2] == raw2[3 * k + 2];
    }
  }

  /** Converting two concatenated pixel runs is converting each of them. */
  lemma {:induction false} Rgb565BytesAppend(a: seq<byte>, b: seq<byte>, pack: Packer)
    requires |a| % 3 == 0 && |b| % 3 == 0
    ensures Rgb565Bytes(a + b, pack) == Rgb565Bytes(a, pack) + Rgb565Bytes(b, pack)
    decreases |a|
  {
    if a != [] {
      assert (a + b)[3..] == a[3..] + b;
      Rgb565BytesAppend(a[3..], b, pack);
    } else {
      assert a + b == b;
    }
  }

  /** `rgb8_to_rgb565`: allocate a zeroed buffer of two thirds the input
      length and write each pixel's pair at its place. */
  method Rgb8ToRgb565(image: RgbImage, pack: Packer) returns (result: seq<byte>)
    requires image.Valid()
    ensures |result| == RoundDiv(2 * |image.raw|, 3) == 2 * (image.width * image.height)
    ensures result == Rgb565Bytes(image.raw, pack)
  {
    var n := image.width * image.height;
    // the length is computed as `round(len * 2/3)`
    var len := RoundDiv(|image.raw| * 2, 3);
    RoundDivExact(2 * n, 3);
    assert |image.raw| * 2 == (2 * n) * 3;
    var buf := new byte[len](_ => 0);
    ghost var out := Rgb565Bytes(image.raw, pack);
    var i := 0;
    while i < n
      invariant 0 <= i <= n
      invariant forall j :: 0 <= j < 2 * i ==> buf[j] == out[j]
    {
      Rgb565BytesAt(image.raw, pack, i);
      var first, second := PixelPair(image.raw, pack, i).0, PixelPair(image.raw, pack, i).1;
      buf[i * 2] := first;
      buf[(i * 2) + 1] := second;
      i := i + 1;
    }
    result := buf[..];
  }
}
