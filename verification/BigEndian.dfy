/** binary.BigEndian on unsigned integers: keys whose byte order is numeric order. */
module BigEndian {
  import opened GoStrings

  const TWO_TO_64 := 0x1_0000_0000_0000_0000
  const TWO_TO_63 := 0x8000_0000_0000_0000
  const TWO_TO_32 := 0x1_0000_0000

  function Pow256(w: nat): (p: nat)
    ensures p >= 1
  {
    if w == 0 then 1 else 256 * Pow256(w - 1)
  }

  /** The low w bytes of n, most significant first. */
  function Encode(n: nat, w: nat): (s: Str)
    ensures |s| == w
  {
    if w == 0 then [] else Encode(n / 256, w - 1) + [(n % 256) as char]
  }

  function Decode(s: Str): nat {
    if s == [] then 0 else Decode(s[..|s| - 1]) * 256 + s[|s| - 1] as int
  }

  /** Go's conversion of an int64 to uint64, and back. */
  function ToUint64(x: int): (u: nat)
    ensures u < TWO_TO_64
  {
    x % TWO_TO_64
  }

  function ToInt64(u: nat): int {
    if u % TWO_TO_64 >= TWO_TO_63 then u % TWO_TO_64 - TWO_TO_64 else u % TWO_TO_64
  }

  predicate IsInt64(x: int) {
    -TWO_TO_63 <= x < TWO_TO_63
  }

  lemma Int64RoundTrip(x: int)
    requires IsInt64(x)
    ensures ToInt64(ToUint64(x)) == x
    ensures x >= 0 ==> ToUint64(x) == x
    ensures x < 0 ==> ToUint64(x) == x + TWO_TO_64
  {
  }

  lemma {:induction false} RoundTrip(n: nat, w: nat)
    requires n < Pow256(w)
    ensures Decode(Encode(n, w)) == n
  {
    if w > 0 {
      RoundTrip(n / 256, w - 1);
      assert Encode(n, w)[..w - 1] == Encode(n / 256, w - 1);
    }
  }

  /** Byte order of equal-width encodings is numeric order. */
  lemma {:induction false} Order(m: nat, n: nat, w: nat)
    requires m < Pow256(w) && n < Pow256(w)
    ensures Less(Encode(m, w), Encode(n, w)) <==> m < n
    ensures Encode(m, w) == Encode(n, w) <==> m == n
  {
    if w > 0 {
      var a, b := Encode(m / 256, w - 1), Encode(n / 256, w - 1);
      var x, y := (m % 256) as char, (n % 256) as char;
      Order(m / 256, n / 256, w - 1);
      assert Encode(m, w) == a + [x] && Encode(n, w) == b + [y];
      assert (a + [x])[..w - 1] == a && (b + [y])[..w - 1] == b;
      assert (a + [x])[w - 1] == x && (b + [y])[w - 1] == y;
      if a == b {
        LessSamePrefix(a, [x], [y]);
      } else {
        LessExtend(a, b, [x], [y]);
      }
    }
  }

  lemma Width8()
    ensures Pow256(8) == TWO_TO_64
  {
    assert Pow256(4) == TWO_TO_32;
    assert Pow256(6) == 65536 * Pow256(4);
  }
}
