/**
 base64.URLEncoding: the URL-safe alphabet with padding (section 5 of RFC 4648),
 with the leniency of Go's decoder: carriage returns and line feeds are skipped
 anywhere, and the unused bits before the padding are not checked.
 */
module Base64 {
  import opened Wrappers
  import opened GoStrings

  /** A six-bit value, as the URL-safe alphabet writes it. */
  function Symbol(d: nat): (c: Byte)
    requires d < 64
    ensures SymbolValue(c) == Some(d)
  {
    if d < 26 then (d + 'A' as int) as char
    else if d < 52 then (d - 26 + 'a' as int) as char
    else if d < 62 then (d - 52 + '0' as int) as char
    else if d == 62 then '-'
    else '_'
  }

  function SymbolValue(c: Byte): (d: Option<nat>)
    ensures d.Some? ==> d.value < 64
    ensures c in {'=', '\r', '\n'} ==> d == None
  {
    if 'A' <= c <= 'Z' then Some(c as int - 'A' as int)
    else if 'a' <= c <= 'z' then Some(c as int - 'a' as int + 26)
    else if '0' <= c <= '9' then Some(c as int - '0' as int + 52)
    else if c == '-' then Some(62)
    else if c == '_' then Some(63)
    else None
  }

  /** Three bytes as one 24-bit number. */
  function Word(x: Byte, y: Byte, z: Byte): (n: nat)
    ensures n < 16777216
  {
    x as int * 65536 + y as int * 256 + z as int
  }

  /** The four six-bit values of a word, from the top. */
  function Six(n: nat, place: nat): (d: nat)
    requires n < 16777216 && place < 4
    ensures d < 64
  {
    if place == 0 then n / 262144 else if place == 1 then n / 4096 % 64 else if place == 2 then n / 64 % 64 else n % 64
  }

  function Encode(s: Str): Str {
    if s == [] then []
    else if |s| == 1 then
      var n := Word(s[0], '\0', '\0');
      [Symbol(Six(n, 0)), Symbol(Six(n, 1)), '=', '=']
    else if |s| == 2 then
      var n := Word(s[0], s[1], '\0');
      [Symbol(Six(n, 0)), Symbol(Six(n, 1)), Symbol(Six(n, 2)), '=']
    else
      var n := Word(s[0], s[1], s[2]);
      [Symbol(Six(n, 0)), Symbol(Six(n, 1)), Symbol(Six(n, 2)), Symbol(Six(n, 3))] + Encode(s[3..])
  }

  function Decode(s: Str): Option<Str> {
    DecodeQuanta(DropNewlines(s))
  }

  function DropNewlines(s: Str): Str {
    if s == [] then []
    else if s[0] == '\r' || s[0] == '\n' then DropNewlines(s[1..])
    else [s[0]] + DropNewlines(s[1..])
  }

  function DecodeQuanta(s: Str): Option<Str> {
    if s == [] then Some([])
    else if |s| < 4 then None
    else
      var a, b := SymbolValue(s[0]), SymbolValue(s[1]);
      var c, d := SymbolValue(s[2]), SymbolValue(s[3]);
      if a == None || b == None then None
      else if c == None then
        if s[2..] == "==" then Some(Bytes(a.value, b.value, 0, 0)[..1]) else None
      else if d == None then
        if s[3..] == "=" then Some(Bytes(a.value, b.value, c.value, 0)[..2]) else None
      else
        var rest := DecodeQuanta(s[4..]);
        if rest == None then None
        else Some(Bytes(a.value, b.value, c.value, d.value) + rest.value)
  }

  /** The three bytes four six-bit values stand for. */
  function Bytes(a: nat, b: nat, c: nat, d: nat): (r: Str)
    requires a < 64 && b < 64 && c < 64 && d < 64
    ensures |r| == 3
  {
    var n := a * 262144 + b * 4096 + c * 64 + d;
    [(n / 65536) as char, (n / 256 % 256) as char, (n % 256) as char]
  }

  // ------------------------------------------------------------------

  lemma {:induction false} EncodeHasNoNewlines(s: Str)
    ensures DropNewlines(Encode(s)) == Encode(s)
    decreases |s|
  {
    if |s| > 2 {
      var n := Word(s[0], s[1], s[2]);
      var q := [Symbol(Six(n, 0)), Symbol(Six(n, 1)), Symbol(Six(n, 2)), Symbol(Six(n, 3))];
      EncodeHasNoNewlines(s[3..]);
      DropNewlinesPrefix(q, Encode(s[3..]));
    } else if s != [] {
      DropNewlinesPrefix(Encode(s), []);
      assert Encode(s) + [] == Encode(s);
    }
  }

  lemma {:induction false} DropNewlinesPrefix(q: Str, rest: Str)
    requires '\r' !in q && '\n' !in q
    ensures DropNewlines(q + rest) == q + DropNewlines(rest)
  {
    if q == [] {
      assert q + rest == rest && q + DropNewlines(rest) == DropNewlines(rest);
    } else {
      assert q == [q[0]] + q[1..];
      DropNewlinesPrefix(q[1..], rest);
      assert (q + rest)[1..] == q[1..] + rest;
    }
  }

  /** Cutting 24 bits into four sixes and joining them again loses nothing. */
  lemma Sixes(n: nat)
    requires n < 16777216
    ensures n / 262144 < 64
    ensures n / 262144 * 262144 + n / 4096 % 64 * 4096 + n / 64 % 64 * 64 + n % 64 == n
  {
    assert n / 64 / 64 == n / 4096 && n / 4096 / 64 == n / 262144;
  }

  /** Cutting 24 bits into three bytes gives back the bytes they were made of. */
  lemma Eights(x: nat, y: nat, z: nat)
    requires x < 256 && y < 256 && z < 256
    ensures var n := x * 65536 + y * 256 + z;
      n < 16777216 && n / 65536 == x && n / 256 % 256 == y && n % 256 == z
  {
    assert (x * 65536 + y * 256 + z) / 256 == x * 256 + y;
  }

  lemma SixesRoundTrip(x: Byte, y: Byte, z: Byte)
    ensures var n := Word(x, y, z); Bytes(Six(n, 0), Six(n, 1), Six(n, 2), Six(n, 3)) == [x, y, z]
  {
    Eights(x as int, y as int, z as int);
    Sixes(Word(x, y, z));
  }

  lemma OnePadded(a: nat, b: nat, c: nat)
    requires a < 64 && b < 64 && c < 64
    ensures DecodeQuanta([Symbol(a), Symbol(b), Symbol(c), '=']) == Some(Bytes(a, b, c, 0)[..2])
  {
    var e := [Symbol(a), Symbol(b), Symbol(c), '='];
    assert e[3..] == "=";
  }

  lemma TwoPadded(a: nat, b: nat)
    requires a < 64 && b < 64
    ensures DecodeQuanta([Symbol(a), Symbol(b), '=', '=']) == Some(Bytes(a, b, 0, 0)[..1])
  {
    var e := [Symbol(a), Symbol(b), '=', '='];
    assert e[2..] == "==";
  }

  lemma FullQuantum(a: nat, b: nat, c: nat, d: nat, rest: Str)
    requires a < 64 && b < 64 && c < 64 && d < 64 && DecodeQuanta(rest).Some?
    ensures DecodeQuanta([Symbol(a), Symbol(b), Symbol(c), Symbol(d)] + rest)
      == Some(Bytes(a, b, c, d) + DecodeQuanta(rest).value)
  {
    var e := [Symbol(a), Symbol(b), Symbol(c), Symbol(d)] + rest;
    assert e[4..] == rest;
  }

  /** The sixes that padding stands for are zero. */
  lemma PaddedSixes(x: Byte, y: Byte)
    ensures Six(Word(x, '\0', '\0'), 2) == 0 && Six(Word(x, y, '\0'), 3) == 0
  {
    assert x as int * 65536 == (x as int * 16) * 64 * 64;
  }

  lemma DecodeOneByte(x: Byte)
    ensures DecodeQuanta(Encode([x])) == Some([x])
  {
    var n := Word(x, '\0', '\0');
    SixesRoundTrip(x, '\0', '\0');
    PaddedSixes(x, '\0');
    TwoPadded(Six(n, 0), Six(n, 1));
    var bytes: Str := [x, '\0', '\0'];
    assert Encode([x]) == [Symbol(Six(n, 0)), Symbol(Six(n, 1)), '=', '='];
    assert bytes[..1] == [x];
  }

  lemma DecodeTwoBytes(x: Byte, y: Byte)
    ensures DecodeQuanta(Encode([x, y])) == Some([x, y])
  {
    var n := Word(x, y, '\0');
    SixesRoundTrip(x, y, '\0');
    PaddedSixes(x, y);
    OnePadded(Six(n, 0), Six(n, 1), Six(n, 2));
    var bytes: Str := [x, y, '\0'];
    assert Encode([x, y]) == [Symbol(Six(n, 0)), Symbol(Six(n, 1)), Symbol(Six(n, 2)), '='];
    assert bytes[..2] == [x, y];
  }

  function Quantum(x: Byte, y: Byte, z: Byte): (q: Str)
    ensures |q| == 4
  {
    var n := Word(x, y, z);
    [Symbol(Six(n, 0)), Symbol(Six(n, 1)), Symbol(Six(n, 2)), Symbol(Six(n, 3))]
  }

  lemma DecodeThreeBytes(x: Byte, y: Byte, z: Byte, rest: Str, code: Str)
    requires DecodeQuanta(code) == Some(rest)
    ensures DecodeQuanta(Quantum(x, y, z) + code) == Some([x, y, z] + rest)
  {
    var n := Word(x, y, z);
    SixesRoundTrip(x, y, z);
    FullQuantum(Six(n, 0), Six(n, 1), Six(n, 2), Six(n, 3), code);
  }

  lemma EncodeStep(s: Str)
    requires |s| > 2
    ensures Encode(s) == Quantum(s[0], s[1], s[2]) + Encode(s[3..])
  {
  }

  lemma DecodeShort(s: Str)
    requires 1 <= |s| <= 2
    ensures DecodeQuanta(Encode(s)) == Some(s)
  {
    if |s| == 1 {
      DecodeOneByte(s[0]);
      assert s == [s[0]];
    } else {
      DecodeTwoBytes(s[0], s[1]);
      assert s == [s[0], s[1]];
    }
  }

  lemma {:induction false} DecodeQuantaRoundTrip(s: Str)
    ensures DecodeQuanta(Encode(s)) == Some(s)
    decreases |s|
  {
    if 1 <= |s| <= 2 {
      DecodeShort(s);
    } else if |s| > 2 {
      var rest := s[3..];
      DecodeQuantaRoundTrip(rest);
      DecodeThreeBytes(s[0], s[1], s[2], rest, Encode(rest));
      EncodeStep(s);
      assert s == [s[0], s[1], s[2]] + rest;
    }
  }

  /** Every byte string survives the round trip. */
  lemma RoundTrip(s: Str)
    ensures Decode(Encode(s)) == Some(s)
  {
    EncodeHasNoNewlines(s);
    DecodeQuantaRoundTrip(s);
  }

  /** A token is empty only for the empty key, so an issued token is never mistaken for an absent one. */
  lemma EncodeEmpty(s: Str)
    ensures Encode(s) == [] <==> s == []
  {
  }

  // ------------------------------------------------------------------
  // The shape of an encoding.

  /** Table 2 in section 5 of RFC 4648: capitals, small letters, digits, the minus sign and the underline. */
  lemma SymbolTable(d: nat)
    requires d < 64
    ensures Symbol(0) == 'A' && Symbol(26) == 'a' && Symbol(52) == '0' && Symbol(62) == '-' && Symbol(63) == '_'
    ensures d !in {25, 51, 61, 62, 63} ==> Symbol(d + 1) as int == Symbol(d) as int + 1
  {
  }

  /** How many padding characters an encoding ends in. */
  function Padding(s: Str): nat {
    if |s| % 3 == 1 then 2 else if |s| % 3 == 2 then 1 else 0
  }

  predicate WellPadded(e: Str, padding: nat) {
    padding <= |e| &&
    (forall i :: 0 <= i < |e| - padding ==> SymbolValue(e[i]).Some?) &&
    forall i :: |e| - padding <= i < |e| ==> e[i] == '='
  }

  lemma MorePadded(head: Str, rest: Str, padding: nat)
    requires WellPadded(rest, padding) && forall i :: 0 <= i < |head| ==> SymbolValue(head[i]).Some?
    ensures WellPadded(head + rest, padding)
  {
  }

  lemma QuantumIsSymbols(x: Byte, y: Byte, z: Byte)
    ensures forall i :: 0 <= i < 4 ==> SymbolValue(Quantum(x, y, z)[i]).Some?
  {
  }

  /** Four characters for every three bytes begun, the last of them padding for the bytes that are missing. */
  lemma {:induction false} EncodingShape(s: Str)
    ensures |Encode(s)| == (|s| + 2) / 3 * 4 && WellPadded(Encode(s), Padding(s))
    decreases |s|
  {
    if |s| > 2 {
      EncodingShape(s[3..]);
      LongShape(s, s[3..], Encode(s[3..]));
    } else if s != [] {
      ShortShape(s);
    }
  }

  lemma LongShape(s: Str, rest: Str, code: Str)
    requires |s| > 2 && rest == s[3..] && code == Encode(rest)
    requires |code| == (|rest| + 2) / 3 * 4 && WellPadded(code, Padding(rest))
    ensures |Encode(s)| == (|s| + 2) / 3 * 4 && WellPadded(Encode(s), Padding(s))
  {
    var head := Quantum(s[0], s[1], s[2]);
    EncodeStep(s);
    QuantumIsSymbols(s[0], s[1], s[2]);
    MorePadded(head, code, Padding(rest));
    ThreeMore(|rest|);
    assert Padding(s) == Padding(rest) && Encode(s) == head + code;
  }

  lemma ThreeMore(n: nat)
    ensures (n + 3 + 2) / 3 * 4 == 4 + (n + 2) / 3 * 4 && (n + 3) % 3 == n % 3
  {
  }

  lemma ShortShape(s: Str)
    requires 1 <= |s| <= 2
    ensures |Encode(s)| == 4 && WellPadded(Encode(s), Padding(s))
  {
  }

  /** A carriage return or a line feed anywhere in a token is ignored. */
  lemma {:induction false} NewlinesIgnored(a: Str, c: Byte, b: Str)
    requires c == '\r' || c == '\n'
    ensures Decode(a + [c] + b) == Decode(a + b)
  {
    DropInside(a, c, b);
  }

  lemma {:induction false} DropInside(a: Str, c: Byte, b: Str)
    requires c == '\r' || c == '\n'
    ensures DropNewlines(a + [c] + b) == DropNewlines(a + b)
  {
    var long, short := a + [c] + b, a + b;
    if a == [] {
      assert long[1..] == b && short == b;
    } else {
      assert long[1..] == a[1..] + [c] + b && short[1..] == a[1..] + b;
      DropInside(a[1..], c, b);
    }
  }
}
