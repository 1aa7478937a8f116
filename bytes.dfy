/**
 * Bytes and `stuffBytes` (www/js/ble-ftp.js), which writes an integer
 * big-endian into a Uint8Array in place.
 */
module Bytes {

  /** One cell of a Uint8Array. */
  type Byte = b: int | 0 <= b < 256

  /** JavaScript's ToInt32: the value modulo 2^32, read as a signed 32-bit integer. */
  function ToInt32(v: int): (r: int)
    ensures -0x8000_0000 <= r < 0x8000_0000
    ensures (r - v) % 0x1_0000_0000 == 0
    ensures -0x8000_0000 <= v < 0x8000_0000 ==> r == v
  {
    var m := v % 0x1_0000_0000;
    if m >= 0x8000_0000 then m - 0x1_0000_0000 else m
  }

  /** The value of `value` after `k` rounds of `value >>= 8` (an arithmetic shift of ToInt32). */
  function Shifted(v: int, k: nat): int
  {
    if k == 0 then v else ToInt32(Shifted(v, k - 1)) / 256
  }

  /** `value & 0xFF` after `k` shifts: byte `k` of the value, counting from the least significant. */
  function ByteAt(v: int, k: nat): Byte
  {
    Shifted(v, k) % 256
  }

  /**
   * What `stuffBytes(value, bytes, pos, array)` leaves in an array that held `s`:
   * byte k of the value at index pos + bytes - 1 - k, every other cell as it was.
   * Writes outside the array are dropped, as a typed array drops them.
   */
  function Stuffed(s: seq<Byte>, value: int, bytes: int, pos: int): seq<Byte>
  {
    seq(|s|, k requires 0 <= k < |s| =>
      if pos <= k < pos + bytes then ByteAt(value, pos + bytes - 1 - k) else s[k])
  }

  /** A byte string read as a big-endian unsigned number. */
  function BigEndian(s: seq<Byte>): nat
  {
    if s == [] then 0 else BigEndian(s[..|s| - 1]) * 256 + s[|s| - 1]
  }

  function Pow256(n: nat): (r: nat)
    ensures r >= 1
  {
    if n == 0 then 1 else 256 * Pow256(n - 1)
  }

  /** A shift peeled from the outside: k + 1 shifts of v are k shifts of one shift of v. */
  lemma {:induction false} ShiftedOuter(v: int, k: nat)
    ensures Shifted(v, k + 1) == Shifted(ToInt32(v) / 256, k)
  {
    if k > 0 {
      ShiftedOuter(v, k - 1);
    }
  }

  lemma {:induction false} MulBounds(d: int, k: int)
    requires d >= 0
    ensures k >= 1 ==> d * k >= d
    ensures k <= -1 ==> d * k <= -d
    decreases if k >= 0 then k else -k
  {
    if k > 1 {
      MulBounds(d, k - 1);
      assert d * k == d * (k - 1) + d;
    } else if k < -1 {
      MulBounds(d, k + 1);
      assert d * k == d * (k + 1) - d;
    }
  }

  lemma ModUnique(v: int, d: int, q: int, r: int)
    requires d > 0 && v == d * q + r && 0 <= r < d
    ensures v % d == r && v / d == q
  {
    var q', r' := v / d, v % d;
    assert v == d * q' + r';
    assert d * (q - q') == r' - r;
    MulBounds(d, q - q');
  }

  lemma ModOfQuotient(v: nat, m: nat)
    requires m > 0
    ensures (v / 256 % m) * 256 + v % 256 == v % (256 * m)
  {
    var q, r := v / 256, v % 256;
    var a, b := q / m, q % m;
    assert v == 256 * m * a + (256 * b + r) by {
      assert q == m * a + b;
      assert v == 256 * q + r;
    }
    assert 256 * b + r < 256 * m by {
      assert b <= m - 1;
      assert 256 * b <= 256 * (m - 1);
    }
    ModUnique(v, 256 * m, a, 256 * b + r);
  }

  /** The `bytes` cells that `stuffBytes` writes, in array order. */
  function Block(v: int, n: nat): seq<Byte>
  {
    seq(n, i requires 0 <= i < n => ByteAt(v, n - 1 - i))
  }

  lemma {:induction false} BlockIsBigEndian(v: int, n: nat)
    requires 0 <= v < 0x8000_0000
    ensures BigEndian(Block(v, n)) == v % Pow256(n)
  {
    if n > 0 {
      var b := Block(v, n);
      var v' := v / 256;
      forall j | 0 <= j < n - 1
        ensures ByteAt(v', j) == ByteAt(v, j + 1)
      {
        ShiftedOuter(v, j);
      }
      assert b[..n - 1] == Block(v', n - 1);
      assert ByteAt(v, 0) == v % 256;
      assert b[n - 1] == v % 256;
      BlockIsBigEndian(v', n - 1);
      var m := Pow256(n - 1);
      assert BigEndian(b) == (v' % m) * 256 + v % 256;
      ModOfQuotient(v, m);
      assert Pow256(n) == 256 * m;
    }
  }

  /**
   * stuffBytes is big-endian: for a value that ToInt32 leaves alone, the cells it writes read
   * back, most significant first, as the value reduced to `bytes` bytes.
   */
  lemma StuffedIsBigEndian(s: seq<Byte>, value: int, bytes: nat, pos: nat)
    requires pos + bytes <= |s|
    requires 0 <= value < 0x8000_0000
    ensures BigEndian(Stuffed(s, value, bytes, pos)[pos..pos + bytes]) == value % Pow256(bytes)
  {
    assert Stuffed(s, value, bytes, pos)[pos..pos + bytes] == Block(value, bytes);
    BlockIsBigEndian(value, bytes);
  }

  /** A single stuffed byte is `value & 0xFF`, whatever the value. */
  lemma StuffedOneByte(s: seq<Byte>, value: int, pos: nat)
    requires pos < |s|
    ensures Stuffed(s, value, 1, pos)[pos] == value % 256
    ensures forall k :: 0 <= k < |s| && k != pos ==> Stuffed(s, value, 1, pos)[k] == s[k]
  {
    assert ByteAt(value, 0) == value % 256;
  }

  /**
   * stuffBytes: writes `value` big-endian into `bytes` cells starting at `pos` and returns the
   * same array; when no array is passed it stuffs a fresh zeroed one of `fallbackLength` cells
   * (the source uses the current chunk size there).
   */
  method StuffBytes(value: int, bytes: int, pos: int, a: array?<Byte>, fallbackLength: nat)
    returns (r: array<Byte>)
    modifies a
    ensures a != null ==> r == a && r[..] == Stuffed(old(a[..]), value, bytes, pos)
    ensures a == null ==> fresh(r) && r[..] == Stuffed(seq(fallbackLength, _ => 0), value, bytes, pos)
  {
    if a == null {
      r := new Byte[fallbackLength](_ => 0);
    } else {
      r := a;
    }
    ghost var orig := r[..];
    var to := pos - 1 + bytes;
    var from := 0;
    var v := value;
    while from < bytes
      invariant 0 <= from <= if bytes < 0 then 0 else bytes
      invariant to == pos - 1 + bytes - from
      invariant v == Shifted(value, from)
      invariant forall k :: 0 <= k < r.Length ==>
        r[k] == if pos + bytes - from <= k < pos + bytes then ByteAt(value, pos + bytes - 1 - k) else orig[k]
    {
      if 0 <= to < r.Length {
        r[to] := v % 256;
      }
      v := ToInt32(v) / 256;
      to := to - 1;
      from := from + 1;
    }
  }
}
