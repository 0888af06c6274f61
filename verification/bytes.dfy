/**
 * Byte strings: big-endian integers (`int.from_bytes(b, "big")`, `n.to_bytes(w, "big")`),
 * lower-case hexadecimal text (`bytes.hex()`, `bytes.fromhex`, `int(s, 16)`) and the
 * lexicographic order Python uses to compare `bytes` values, and Python's clamped slices.
 */
module Bytes {
  import opened Wrappers

  type byte = x: int | 0 <= x < 256

  /** `256^n`; being positive keeps the largest `n`-byte value, `256^n - 1`, a natural number. */
  function Pow256(n: nat): (r: nat)
    ensures r >= 1
  {
    if n == 0 then 1 else 256 * Pow256(n - 1)
  }

  /** Largest value a big-endian field of `w` bytes can hold. */
  function MaxValue(w: nat): nat
  {
    Pow256(w) - 1
  }

  /** `int.from_bytes(s, "big")` */
  function FromBE(s: seq<byte>): nat
  {
    if |s| == 0 then 0 else FromBE(s[..|s| - 1]) * 256 + s[|s| - 1]
  }

  /** `n.to_bytes(w, "big")`, defined when `n` fits in `w` bytes (Python raises otherwise). */
  function ToBE(n: nat, w: nat): (r: seq<byte>)
    requires n < Pow256(w)
    ensures |r| == w
    ensures FromBE(r) == n
  {
    if w == 0 then []
    else
      var r := ToBE(n / 256, w - 1) + [n % 256];
      assert r[..|r| - 1] == ToBE(n / 256, w - 1);
      r
  }

  lemma {:induction false} FromBEBound(s: seq<byte>)
    ensures FromBE(s) < Pow256(|s|)
  {
    if |s| > 0 {
      FromBEBound(s[..|s| - 1]);
    }
  }

  /** The other direction of the big-endian round trip: a field re-encodes to itself. */
  lemma {:induction false} ToBEFromBE(s: seq<byte>)
    ensures FromBE(s) < Pow256(|s|)
    ensures ToBE(FromBE(s), |s|) == s
  {
    FromBEBound(s);
    if |s| > 0 {
      var p := s[..|s| - 1];
      ToBEFromBE(p);
      assert FromBE(s) / 256 == FromBE(p);
      assert FromBE(s) % 256 == s[|s| - 1];
      assert s == p + [s[|s| - 1]];
    }
  }

  /** Big-endian value read from the front: the first byte is the most significant. */
  lemma {:induction false} FromBEFront(s: seq<byte>)
    requires |s| > 0
    ensures FromBE(s) == s[0] * Pow256(|s| - 1) + FromBE(s[1..])
  {
    if |s| > 1 {
      var p := s[..|s| - 1];
      var y := s[|s| - 1];
      FromBEFront(p);
      var k := Pow256(|s| - 2);
      var t := FromBE(p[1..]);
      assert p[1..] == s[1..][..|s| - 2];
      assert FromBE(s[1..]) == t * 256 + y;
      assert FromBE(s) == (s[0] * k + t) * 256 + y;
      assert Pow256(|s| - 1) == 256 * k;
      ShiftDigit(s[0], k, t, y);
    } else {
      assert s[..0] == [];
    }
  }

  /** Shifting a big-endian prefix by one byte distributes over its leading digit. */
  lemma ShiftDigit(a: int, k: int, t: int, y: int)
    ensures (a * k + t) * 256 + y == a * (256 * k) + (t * 256 + y)
  {
  }

  // ---------------------------------------------------------------------------------------
  // Lexicographic order of `bytes` values (Python's `a <= b`)

  /** Python `a <= b` on `bytes`: lexicographic, a proper prefix is smaller. */
  predicate LexLe(a: seq<byte>, b: seq<byte>)
  {
    if |a| == 0 then true
    else if |b| == 0 then false
    else if a[0] != b[0] then a[0] < b[0]
    else LexLe(a[1..], b[1..])
  }

  /** For equal-width fields the byte order is the numeric order of their big-endian values. */
  lemma {:induction false} LexLeIsNumeric(a: seq<byte>, b: seq<byte>)
    requires |a| == |b|
    ensures LexLe(a, b) <==> FromBE(a) <= FromBE(b)
  {
    if |a| > 0 {
      FromBEFront(a);
      FromBEFront(b);
      FromBEBound(a[1..]);
      FromBEBound(b[1..]);
      var k := Pow256(|a| - 1);
      if a[0] < b[0] {
        DigitDominates(a[0], b[0], k, FromBE(a[1..]), FromBE(b[1..]));
      } else if a[0] > b[0] {
        DigitDominates(b[0], a[0], k, FromBE(b[1..]), FromBE(a[1..]));
      } else {
        LexLeIsNumeric(a[1..], b[1..]);
      }
    }
  }

  /** A larger leading digit outweighs any tail below the digit's weight. */
  lemma DigitDominates(x: nat, y: nat, k: nat, tx: nat, ty: nat)
    requires x < y && tx < k
    ensures x * k + tx < y * k + ty
  {
    assert (y - x) * k >= k by {
      assert y - x >= 1;
    }
    assert y * k == x * k + (y - x) * k;
  }

  // ---------------------------------------------------------------------------------------
  // Hexadecimal text

  function HexDigit(v: nat): char
    requires v < 16
  {
    "0123456789abcdef"[v]
  }

  /** Value of one hexadecimal digit, either case (as `fromhex` and `int(_, 16)` accept). */
  function DigitValue(c: char): Option<nat>
  {
    if '0' <= c <= '9' then Some(c as int - '0' as int)
    else if 'a' <= c <= 'f' then Some(c as int - 'a' as int + 10)
    else if 'A' <= c <= 'F' then Some(c as int - 'A' as int + 10)
    else None
  }

  /** `bytes.hex()`: two lower-case digits per byte, most significant nibble first. */
  function ToHex(s: seq<byte>): (t: string)
    ensures |t| == 2 * |s|
  {
    if |s| == 0 then ""
    else ToHex(s[..|s| - 1]) + [HexDigit(s[|s| - 1] / 16), HexDigit(s[|s| - 1] % 16)]
  }

  /** `bytes.fromhex(t)` on digit pairs; `None` where Python raises `ValueError`. */
  function FromHex(t: string): Option<seq<byte>>
  {
    if |t| == 0 then Some([])
    else if |t| == 1 then None
    else
      match (FromHex(t[..|t| - 2]), DigitValue(t[|t| - 2]), DigitValue(t[|t| - 1]))
      case (Some(p), Some(hi), Some(lo)) => Some(p + [hi * 16 + lo])
      case _ => None
  }

  lemma DigitOfHexDigit(v: nat)
    requires v < 16
    ensures DigitValue(HexDigit(v)) == Some(v)
  {
  }

  /** The two digits `hex()` writes for a byte read back as its high and low nibble. */
  lemma ByteDigits(x: byte)
    ensures x / 16 < 16 && x % 16 < 16 && (x / 16) * 16 + x % 16 == x
    ensures DigitValue(HexDigit(x / 16)) == Some(x / 16) && DigitValue(HexDigit(x % 16)) == Some(x % 16)
  {
    DigitOfHexDigit(x / 16);
    DigitOfHexDigit(x % 16);
  }

  /** `hex()` of one more byte appends that byte's two digits. */
  lemma ToHexSnoc(p: seq<byte>, x: byte)
    ensures ToHex(p + [x]) == ToHex(p) + [HexDigit(x / 16), HexDigit(x % 16)]
  {
    assert (p + [x])[..|p + [x]| - 1] == p;
  }

  /** `fromhex` of two more digits appends the byte they spell. */
  lemma FromHexSnoc(t: string, a: char, b: char, q: seq<byte>, hi: nat, lo: nat)
    requires FromHex(t) == Some(q) && DigitValue(a) == Some(hi) && DigitValue(b) == Some(lo)
    requires hi < 16 && lo < 16
    ensures FromHex(t + [a, b]) == Some(q + [hi * 16 + lo])
  {
    var u := t + [a, b];
    assert u[..|u| - 2] == t;
  }

  /** Reading back what `hex()` wrote returns the original bytes. */
  lemma {:induction false} HexRoundTrip(s: seq<byte>)
    ensures FromHex(ToHex(s)) == Some(s)
  {
    if |s| > 0 {
      var p := s[..|s| - 1];
      var x := s[|s| - 1];
      assert s == p + [x];
      ByteDigits(x);
      var hi, lo := x / 16, x % 16;
      ToHexSnoc(p, x);
      HexRoundTrip(p);
      FromHexSnoc(ToHex(p), HexDigit(hi), HexDigit(lo), p, hi, lo);
      assert hi * 16 + lo == x;
    }
  }

  /** Value of a string of hexadecimal digits, most significant first. */
  function DigitsValue(t: string): Option<nat>
  {
    if |t| == 0 then Some(0)
    else
      match (DigitsValue(t[..|t| - 1]), DigitValue(t[|t| - 1]))
      case (Some(p), Some(d)) => Some(p * 16 + d)
      case _ => None
  }

  /** `int(t, 16)` on a non-empty digit string; `None` where Python raises `ValueError`. */
  function HexValue(t: string): Option<nat>
  {
    if |t| == 0 then None else DigitsValue(t)
  }

  /** One more digit multiplies the value by sixteen and adds the digit. */
  lemma DigitsSnoc(t: string, a: char, v: nat, d: nat)
    requires DigitsValue(t) == Some(v) && DigitValue(a) == Some(d)
    ensures DigitsValue(t + [a]) == Some(v * 16 + d)
  {
    var u := t + [a];
    assert u[..|u| - 1] == t;
  }

  /** Two more digits shift the value by one byte and add the byte they spell. */
  lemma TwoDigitsValue(t: string, v: nat, hi: nat, lo: nat)
    requires DigitsValue(t) == Some(v) && hi < 16 && lo < 16
    ensures DigitsValue(t + [HexDigit(hi), HexDigit(lo)]) == Some(v * 256 + (hi * 16 + lo))
  {
    DigitOfHexDigit(hi);
    DigitOfHexDigit(lo);
    DigitsSnoc(t, HexDigit(hi), v, hi);
    DigitsSnoc(t + [HexDigit(hi)], HexDigit(lo), v * 16 + hi, lo);
    assert t + [HexDigit(hi)] + [HexDigit(lo)] == t + [HexDigit(hi), HexDigit(lo)];
  }

  lemma {:induction false} DigitsOfHex(s: seq<byte>)
    ensures DigitsValue(ToHex(s)) == Some(FromBE(s))
  {
    if |s| > 0 {
      var p := s[..|s| - 1];
      var x := s[|s| - 1];
      assert s == p + [x];
      ToHexSnoc(p, x);
      DigitsOfHex(p);
      assert FromBE(s) == FromBE(p) * 256 + x;
      ByteDigits(x);
      TwoDigitsValue(ToHex(p), FromBE(p), x / 16, x % 16);
    }
  }

  /** `int(b.hex(), 16)` is the big-endian value of a non-empty `b`; on `b''` Python raises. */
  lemma HexValueOfHex(s: seq<byte>)
    ensures |s| > 0 ==> HexValue(ToHex(s)) == Some(FromBE(s))
    ensures |s| == 0 ==> HexValue(ToHex(s)) == None
  {
    DigitsOfHex(s);
  }

  /** Python's `s[lo:hi]` for `0 <= lo <= hi`: both bounds are clamped to the length. */
  function Slice<T>(s: seq<T>, lo: nat, hi: nat): (r: seq<T>)
    requires lo <= hi
    ensures |r| == (if hi <= |s| then hi - lo else if lo <= |s| then |s| - lo else 0)
    ensures forall i :: 0 <= i < |r| ==> r[i] == s[lo + i]
  {
    if hi <= |s| then s[lo..hi] else if lo <= |s| then s[lo..] else []
  }

  /** Adjacent clamped slices join into one. */
  lemma SliceSplit<T>(s: seq<T>, lo: nat, mid: nat, hi: nat)
    requires lo <= mid <= hi
    ensures Slice(s, lo, mid) + Slice(s, mid, hi) == Slice(s, lo, hi)
  {
    if hi <= |s| {
      assert s[lo..mid] + s[mid..hi] == s[lo..hi];
    } else if mid <= |s| {
      assert s[lo..mid] + s[mid..] == s[lo..];
    } else if lo <= |s| {
      assert s[lo..] + [] == s[lo..];
    }
  }
}
