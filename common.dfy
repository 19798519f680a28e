/** Values shared by every part of the display: an option type, bytes, exact
    rounding, and the track metadata the data source delivers. */
module Common {

  datatype Option<+T> = None | Some(value: T) {
    /** `unwrap_or`: the value, or `default` when absent. */
    function GetOr(default: T): T {
      match this
      case Some(v) => v
      case None => default
    }
  }

  newtype byte = x: int | 0 <= x < 256

  /** Album art as it travels to the renderer: big-endian RGB565 bytes. */
  type Image = seq<byte>

  /** `f32::round` of n / d for non-negative operands, computed exactly:
      the nearest integer, halves rounded up (away from zero). */
  function RoundDiv(n: nat, d: nat): (r: nat)
    requires d > 0
    ensures r * (2 * d) <= 2 * n + d < r * (2 * d) + 2 * d
  {
    (2 * n + d) / (2 * d)
  }

  /** Rounding is monotonic in the numerator. */
  lemma RoundDivMonotonic(n: nat, m: nat, d: nat)
    requires d > 0 && n <= m
    ensures RoundDiv(n, d) <= RoundDiv(m, d)
  {
    DivMonotonic(2 * n + d, 2 * m + d, 2 * d);
  }

  /** Rounding a whole multiple of d gives back the multiplier. */
  lemma RoundDivExact(k: nat, d: nat)
    requires d > 0
    ensures RoundDiv(k * d, d) == k
  {
    assert 2 * (k * d) + d == k * (2 * d) + d;
    DivUnique(2 * (k * d) + d, k, d, 2 * d);
  }

  lemma MulAtLeast(x: int, c: int)
    requires x >= 1 && c > 0
    ensures x * c >= c
  {
  }

  /** Euclidean division is determined by its quotient-remainder equation. */
  lemma DivUnique(n: int, q: int, r: int, c: int)
    requires c > 0 && 0 <= r < c && n == q * c + r
    ensures n / c == q && n % c == r
  {
    var q', r' := n / c, n % c;
    if q' < q {
      assert (q - q') * c == r' - r;
      MulAtLeast(q - q', c);
    } else if q' > q {
      assert (q' - q) * c == r - r';
      MulAtLeast(q' - q, c);
    }
  }

  lemma DivMonotonic(a: int, b: int, c: int)
    requires c > 0 && a <= b
    ensures a / c <= b / c
  {
    var qa, qb := a / c, b / c;
    if qa > qb {
      assert a - b == (qa - qb) * c + a % c - b % c;
      MulAtLeast(qa - qb, c);
    }
  }

  /** `SimpleArtist`: only the name is used by the display. */
  datatype Artist = Artist(name: string)

  /** `SimpleTrack`: the fields the display reads. `duration` is whole seconds. */
  datatype Track = Track(name: string, artists: seq<Artist>, imageUrl: Option<string>, duration: nat)

  /** `Playing`: the currently playing track and the elapsed seconds. */
  datatype Playing = Playing(track: Track, progressSecs: nat)
}
