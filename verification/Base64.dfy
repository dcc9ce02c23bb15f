// stu_base64.c: the Base 64 encoding of section 4 of RFC 4648.
module Base64 {
  import opened Bytes

  const PAD: Byte := '=' as int
  const INVALID: nat := 77

  // ----- The alphabet -----------------------------------------------------------------

  function Basis(v: nat): Byte
    requires v < 64
  {
    if v < 26 then 'A' as int + v
    else if v < 52 then 'a' as int + v - 26
    else if v < 62 then '0' as int + v - 52
    else if v == 62 then '+' as int
    else '/' as int
  }

  function Value(c: Byte): (v: nat)
    ensures v < 64 || v == INVALID
  {
    if 'A' as int <= c <= 'Z' as int then c - 'A' as int
    else if 'a' as int <= c <= 'z' as int then c - 'a' as int + 26
    else if '0' as int <= c <= '9' as int then c - '0' as int + 52
    else if c == '+' as int then 62
    else if c == '/' as int then 63
    else INVALID
  }

  lemma BasisValue(v: nat)
    requires v < 64
    ensures Value(Basis(v)) == v && Basis(v) != PAD
  {
  }

  lemma ValueBasis(c: Byte)
    requires Value(c) != INVALID
    ensures Basis(Value(c)) == c && c != PAD
  {
  }

  // The characters: A-Z, a-z, 0-9, + and /, in this order.
  lemma BasisIs(v: nat)
    requires v < 64
    ensures v < 26 ==> Basis(v) == 65 + v
    ensures 26 <= v < 52 ==> Basis(v) == 97 + (v - 26)
    ensures 52 <= v < 62 ==> Basis(v) == 48 + (v - 52)
    ensures v == 62 ==> Basis(v) == 43
    ensures v == 63 ==> Basis(v) == 47
  {
  }

  // No other character has a value.
  lemma ValueIs(c: Byte)
    ensures Value(c) < 64 ==> c == Basis(Value(c))
    ensures Value(c) >= 64 <==> !(65 <= c <= 90 || 97 <= c <= 122 || 48 <= c <= 57 || c == 43 || c == 47)
  {
  }

  predicate AllValid(s: seq<Byte>) {
    forall i :: 0 <= i < |s| ==> Value(s[i]) != INVALID
  }

  // ----- Encoding ---------------------------------------------------------------------

  function Group(a: Byte, b: Byte, c: Byte): (r: seq<Byte>)
    ensures |r| == 4
  {
    [Basis(a / 4), Basis(a % 4 * 16 + b / 16), Basis(b % 16 * 4 + c / 64), Basis(c % 64)]
  }

  // The last group may be short; it is filled up with zero bits and padded.
  function Encode(s: seq<Byte>): (r: seq<Byte>)
    ensures |r| == (|s| + 2) / 3 * 4
  {
    if s == [] then []
    else if |s| == 1 then Group(s[0], 0, 0)[..2] + [PAD, PAD]
    else if |s| == 2 then Group(s[0], s[1], 0)[..3] + [PAD]
    else Group(s[0], s[1], s[2]) + Encode(s[3..])
  }

  // A group is the number of 24 bits that its bytes are, written in base 64.
  lemma GroupIsNumber(a: Byte, b: Byte, c: Byte)
    ensures var v := (a as int * 256 + b) * 256 + c;
      Group(a, b, c) == [Basis(v / 262144), Basis(v / 4096 % 64), Basis(v / 64 % 64), Basis(v % 64)]
  {
    var v := (a as int * 256 + b) * 256 + c;
    assert v / 262144 == a / 4;
    assert v / 4096 % 64 == a % 4 * 16 + b / 16 by {
      assert v / 4096 == a * 16 + b / 16;
      Mod64(v / 4096, a / 4, a % 4 * 16 + b / 16);
    }
    assert v / 64 % 64 == b % 16 * 4 + c / 64 by {
      assert v / 64 == a * 1024 + b * 4 + c / 64;
      Mod64(v / 64, a * 16 + b / 16, b % 16 * 4 + c / 64);
    }
    assert v % 64 == c % 64 by {
      Mod64(v, a * 1024 + b * 4 + c / 64, c % 64);
    }
  }

  lemma Mod64(x: int, k: int, r: int)
    requires x == 64 * k + r && 0 <= r < 64
    ensures x % 64 == r
  {
  }

  // ----- Decoding ---------------------------------------------------------------------

  // The number of characters in front of the padding.
  function Body(s: seq<Byte>): (n: nat)
    ensures n <= |s| && (forall i :: 0 <= i < n ==> s[i] != PAD) && (n < |s| ==> s[n] == PAD)
  {
    if s == [] || s[0] == PAD then 0 else 1 + Body(s[1..])
  }

  // Four characters are three bytes; of a short last group the whole bytes count.
  function Octets(s: seq<Byte>): (r: seq<Byte>)
    requires AllValid(s)
  {
    if |s| < 2 then []
    else if |s| == 2 then [First(s[0], s[1])]
    else if |s| == 3 then [First(s[0], s[1]), Second(s[1], s[2])]
    else [First(s[0], s[1]), Second(s[1], s[2]), Third(s[2], s[3])] + Octets(s[4..])
  }

  function First(a: Byte, b: Byte): Byte
    requires Value(a) != INVALID && Value(b) != INVALID
  {
    Value(a) * 4 + Value(b) / 16
  }

  function Second(b: Byte, c: Byte): Byte
    requires Value(b) != INVALID && Value(c) != INVALID
  {
    Value(b) % 16 * 16 + Value(c) / 4
  }

  function Third(c: Byte, d: Byte): Byte
    requires Value(c) != INVALID && Value(d) != INVALID
  {
    Value(c) % 4 * 64 + Value(d)
  }

  // What follows the first padding character is not looked at.
  function Decode(s: seq<Byte>): Option<seq<Byte>> {
    var n := Body(s);
    if AllValid(s[..n]) && n % 4 != 1 then Some(Octets(s[..n])) else None
  }

  // ----- Both ways --------------------------------------------------------------------

  lemma GroupBack(a: Byte, b: Byte, c: Byte)
    ensures var g := Group(a, b, c);
      |g| == 4 && AllValid(g) && First(g[0], g[1]) == a && Second(g[1], g[2]) == b && Third(g[2], g[3]) == c
  {
    var v0, v1, v2, v3 := a / 4, a % 4 * 16 + b / 16, b % 16 * 4 + c / 64, c % 64;
    BasisValue(v0);
    BasisValue(v1);
    BasisValue(v2);
    BasisValue(v3);
    assert v0 * 4 + v1 / 16 == a && v1 % 16 * 16 + v2 / 4 == b && v2 % 4 * 64 + v3 == c by {
      Pieces(a, b, c);
    }
  }

  lemma Pieces(a: Byte, b: Byte, c: Byte)
    ensures a / 4 * 4 + (a % 4 * 16 + b / 16) / 16 == a
    ensures (a % 4 * 16 + b / 16) % 16 * 16 + (b % 16 * 4 + c / 64) / 4 == b
    ensures (b % 16 * 4 + c / 64) % 4 * 64 + c % 64 == c
  {
    assert (a % 4 * 16 + b / 16) / 16 == a % 4 && (a % 4 * 16 + b / 16) % 16 == b / 16;
    assert (b % 16 * 4 + c / 64) / 4 == b % 16 && (b % 16 * 4 + c / 64) % 4 == c / 64;
  }

  // The text without its padding.
  function Digits(s: seq<Byte>): seq<Byte> {
    if s == [] then []
    else if |s| == 1 then Group(s[0], 0, 0)[..2]
    else if |s| == 2 then Group(s[0], s[1], 0)[..3]
    else Group(s[0], s[1], s[2]) + Digits(s[3..])
  }

  lemma {:induction false} DigitsOctets(s: seq<Byte>)
    ensures AllValid(Digits(s)) && |Digits(s)| % 4 != 1 && Octets(Digits(s)) == s
    decreases |s|
  {
    if 1 <= |s| <= 2 {
      ShortBack(s);
    } else if |s| > 2 {
      var g, t := Group(s[0], s[1], s[2]), Digits(s[3..]);
      GroupBack(s[0], s[1], s[2]);
      DigitsOctets(s[3..]);
      BytesGroup(g, t);
      assert s == [s[0], s[1], s[2]] + s[3..];
      FourMore(|t|);
    }
  }

  lemma {:induction false} DigitsBody(s: seq<Byte>)
    ensures Digits(s) <= Encode(s) && Body(Encode(s)) == |Digits(s)|
    decreases |s|
  {
    if 1 <= |s| <= 2 {
      ShortBack(s);
    } else if |s| > 2 {
      GroupBack(s[0], s[1], s[2]);
      DigitsBody(s[3..]);
      BodyOf(Group(s[0], s[1], s[2]), Encode(s[3..]));
    }
  }

  lemma FourMore(n: nat)
    ensures (n + 4) % 4 == n % 4
  {
  }

  lemma ShortBack(s: seq<Byte>)
    requires 1 <= |s| <= 2
    ensures AllValid(Digits(s)) && |Digits(s)| == |s| + 1 && Octets(Digits(s)) == s
    ensures Digits(s) <= Encode(s) && Body(Encode(s)) == |s| + 1
  {
    var b := if |s| == 2 then s[1] else 0;
    var g := Group(s[0], b, 0);
    GroupBack(s[0], b, 0);
    if |s| == 1 {
      assert Digits(s) == [g[0], g[1]];
      assert Encode(s) == [g[0], g[1]] + [PAD, PAD];
      BodyOf([g[0], g[1]], [PAD, PAD]);
    } else {
      assert Digits(s) == [g[0], g[1], g[2]];
      assert Encode(s) == [g[0], g[1], g[2]] + [PAD];
      BodyOf([g[0], g[1], g[2]], [PAD]);
    }
  }

  lemma BytesGroup(g: seq<Byte>, t: seq<Byte>)
    requires |g| == 4 && AllValid(g) && AllValid(t)
    ensures Octets(g + t) == [First(g[0], g[1]), Second(g[1], g[2]), Third(g[2], g[3])] + Octets(t)
  {
    assert (g + t)[4..] == t;
  }

  lemma {:induction false} BodyOf(a: seq<Byte>, b: seq<Byte>)
    requires AllValid(a)
    ensures Body(a + b) == |a| + Body(b)
    decreases |a|
  {
    if a == [] {
      assert a + b == b;
    } else {
      assert (a + b)[1..] == a[1..] + b;
      ValueBasis(a[0]);
      BodyOf(a[1..], b);
    }
  }

  // Decoding undoes encoding, for all byte strings.
  lemma DecodeEncode(s: seq<Byte>)
    ensures Decode(Encode(s)) == Some(s)
  {
    DigitsOctets(s);
    DigitsBody(s);
    assert Encode(s)[..|Digits(s)|] == Digits(s);
  }

  // Group by group: the four characters for three bytes, with `=` where there is no byte.
  lemma EncodeAt(s: seq<Byte>, j: nat)
    requires 3 * j < |s|
    ensures var b, c := if 3 * j + 1 < |s| then s[3 * j + 1] else 0, if 3 * j + 2 < |s| then s[3 * j + 2] else 0;
      var v, e := (s[3 * j] as int * 256 + b) * 256 + c, Encode(s);
      && 4 * j + 4 <= |e| && e[4 * j] == Basis(v / 262144) && e[4 * j + 1] == Basis(v / 4096 % 64)
      && e[4 * j + 2] == (if 3 * j + 1 < |s| then Basis(v / 64 % 64) else 61)
      && e[4 * j + 3] == (if 3 * j + 2 < |s| then Basis(v % 64) else 61)
  {
    EncodeSkip(s, j);
    var t := s[3 * j..];
    EncodeFirst(t);
    var e, g := Encode(s), Encode(t);
    assert e[4 * j] == g[0] && e[4 * j + 1] == g[1] && e[4 * j + 2] == g[2] && e[4 * j + 3] == g[3];
  }

  lemma EncodeFirst(s: seq<Byte>)
    requires s != []
    ensures var b, c := if 1 < |s| then s[1] else 0, if 2 < |s| then s[2] else 0;
      var v, e := (s[0] as int * 256 + b) * 256 + c, Encode(s);
      && 4 <= |e| && e[0] == Basis(v / 262144) && e[1] == Basis(v / 4096 % 64)
      && e[2] == (if 1 < |s| then Basis(v / 64 % 64) else 61) && e[3] == (if 2 < |s| then Basis(v % 64) else 61)
  {
    GroupIsNumber(s[0], if 1 < |s| then s[1] else 0, if 2 < |s| then s[2] else 0);
  }

  lemma {:induction false} EncodeSkip(s: seq<Byte>, j: nat)
    requires 3 * j <= |s|
    ensures 4 * j <= |Encode(s)| && Encode(s)[4 * j..] == Encode(s[3 * j..])
    decreases j
  {
    if j > 0 {
      var t := s[3..];
      EncodeSkip(t, j - 1);
      assert t[3 * (j - 1)..] == s[3 * j..];
      assert Encode(s) == Group(s[0], s[1], s[2]) + Encode(t);
      assert Encode(s)[4 * j..] == Encode(t)[4 * (j - 1)..];
    }
  }

  // What is in front of the first `=` is decoded; it must be of valid characters, and not one
  // more than a multiple of four.
  lemma DecodeNeeds(t: seq<Byte>, n: nat)
    requires n <= |t| && (forall i :: 0 <= i < n ==> t[i] != 61) && (n < |t| ==> t[n] == 61)
    ensures Decode(t) == None <==> n % 4 == 1 || exists i :: 0 <= i < n && Value(t[i]) >= 64
    ensures Decode(t).Some? ==> |Decode(t).value| == n / 4 * 3 + (if n % 4 == 0 then 0 else n % 4 - 1)
  {
    BodyIs(t, n);
    if Decode(t).Some? {
      OctetsSize(t[..n]);
    }
    if AllValid(t[..n]) {
      forall i | 0 <= i < n ensures Value(t[i]) < 64 {
        assert t[..n][i] == t[i];
      }
    }
  }

  lemma {:induction false} BodyIs(t: seq<Byte>, n: nat)
    requires n <= |t| && (forall i :: 0 <= i < n ==> t[i] != 61) && (n < |t| ==> t[n] == 61)
    ensures Body(t) == n
  {
    if n > 0 {
      BodyIs(t[1..], n - 1);
    }
  }

  lemma {:induction false} OctetsSize(s: seq<Byte>)
    requires AllValid(s) && |s| % 4 != 1
    ensures |Octets(s)| == |s| / 4 * 3 + (if |s| % 4 == 0 then 0 else |s| % 4 - 1)
    decreases |s|
  {
    if |s| > 4 {
      OctetsSize(s[4..]);
      assert |s| / 4 == |s[4..]| / 4 + 1;
    }
  }

  // Group by group: the 24 bits of four characters; a part of a group gives its whole bytes.
  lemma OctetsAt(s: seq<Byte>, j: nat)
    requires AllValid(s) && 4 * j + 1 < |s| && |s| % 4 != 1
    ensures var x, y := Value(s[4 * j]), Value(s[4 * j + 1]);
      var z, w := if 4 * j + 2 < |s| then Value(s[4 * j + 2]) else 0, if 4 * j + 3 < |s| then Value(s[4 * j + 3]) else 0;
      var v, o := ((x * 64 + y) * 64 + z) * 64 + w, Octets(s);
      && 3 * j < |o| && o[3 * j] == v / 65536
      && (4 * j + 2 < |s| ==> 3 * j + 1 < |o| && o[3 * j + 1] == v / 256 % 256)
      && (4 * j + 3 < |s| ==> 3 * j + 2 < |o| && o[3 * j + 2] == v % 256)
  {
    OctetsSkip(s, j);
    OctetsFirst(s[4 * j..]);
    var o := Octets(s);
    assert forall i :: 0 <= i < |o| - 3 * j ==> o[3 * j..][i] == o[3 * j + i];
  }

  lemma OctetsFirst(s: seq<Byte>)
    requires AllValid(s) && 1 < |s|
    ensures var x, y := Value(s[0]), Value(s[1]);
      var z, w := if 2 < |s| then Value(s[2]) else 0, if 3 < |s| then Value(s[3]) else 0;
      var v, o := ((x * 64 + y) * 64 + z) * 64 + w, Octets(s);
      && 0 < |o| && o[0] == v / 65536
      && (2 < |s| ==> 1 < |o| && o[1] == v / 256 % 256)
      && (3 < |s| ==> 2 < |o| && o[2] == v % 256)
  {
    OctetsNumber(Value(s[0]), Value(s[1]), if 2 < |s| then Value(s[2]) else 0, if 3 < |s| then Value(s[3]) else 0);
  }

  lemma {:induction false} OctetsSkip(s: seq<Byte>, j: nat)
    requires AllValid(s) && 4 * j <= |s|
    ensures AllValid(s[4 * j..]) && 3 * j <= |Octets(s)| && Octets(s)[3 * j..] == Octets(s[4 * j..])
    decreases j
  {
    if j > 0 {
      var t := s[4..];
      OctetsSkip(t, j - 1);
      assert t[4 * (j - 1)..] == s[4 * j..];
      assert Octets(s)[3 * j..] == Octets(t)[3 * (j - 1)..];
    }
  }

  lemma OctetsNumber(x: nat, y: nat, z: nat, w: nat)
    requires x < 64 && y < 64 && z < 64 && w < 64
    ensures var v := ((x * 64 + y) * 64 + z) * 64 + w;
      v / 65536 == x * 4 + y / 16 && v / 256 % 256 == y % 16 * 16 + z / 4 && v % 256 == z % 4 * 64 + w
  {
    var a, b, c := x * 4 + y / 16, y % 16 * 16 + z / 4, z % 4 * 64 + w;
    assert ((x * 64 + y) * 64 + z) * 64 + w == (a * 256 + b) * 256 + c;
    Quotient(a * 256 + b, c);
    Quotient(a, b);
  }

  lemma Quotient(h: nat, l: nat)
    requires l < 256
    ensures (h * 256 + l) / 256 == h && (h * 256 + l) % 256 == l && (h * 256 + l) / 65536 == h / 256
  {
  }

  // The text that encoding gives: whole groups, padding at the end only, and no bit set that
  // the padding cuts off.
  predicate Canonical(t: seq<Byte>) {
    var n := Body(t);
    && |t| % 4 == 0 && |t| - n < 3 && AllValid(t[..n]) && (forall i :: n <= i < |t| ==> t[i] == PAD)
    && (|t| - n == 2 ==> Value(t[n - 1]) % 16 == 0)
    && (|t| - n == 1 ==> Value(t[n - 1]) % 4 == 0)
  }

  // Canonical text without its first group.
  lemma CanonicalTail(t: seq<Byte>)
    requires Canonical(t) && |t| > 4
    ensures Canonical(t[4..]) && AllValid(t[..4]) && Body(t) == 4 + Body(t[4..])
  {
    assert |t| == |t[4..]| + 4;
    WholeGroup(|t[4..]|);
    BodyTail(t, Body(t));
    PadsTail(t, Body(t), t[4..]);
  }

  lemma BodyTail(t: seq<Byte>, n: nat)
    requires n == Body(t) && 4 <= n && AllValid(t[..n])
    ensures AllValid(t[..4]) && Body(t[4..]) == n - 4 && AllValid(t[4..][..n - 4])
  {
    var body, g, r := t[..n], t[..4], t[4..];
    ValidPart(body, 0, 4);
    ValidPart(body, 4, n);
    assert g == body[0..4];
    forall i | 0 <= i < n - 4 ensures r[..n - 4][i] == body[4..n][i] {
    }
    assert r[..n - 4] == body[4..n];
    assert t == g + r;
    BodyOf(g, r);
  }

  lemma PadsTail(t: seq<Byte>, n: nat, r: seq<Byte>)
    requires 5 <= n <= |t| && r == t[4..] && forall i :: n <= i < |t| ==> t[i] == PAD
    ensures r[n - 5] == t[n - 1] && forall i :: n - 4 <= i < |r| ==> r[i] == PAD
  {
    forall i | n - 4 <= i < |r| ensures r[i] == PAD {
      assert r[i] == t[i + 4];
    }
  }

  lemma WholeGroup(n: nat)
    requires (n + 4) % 4 == 0 && n > 0
    ensures n % 4 == 0 && n >= 4
  {
  }

  lemma ValidPart(s: seq<Byte>, i: nat, j: nat)
    requires AllValid(s) && i <= j <= |s|
    ensures AllValid(s[i..j])
  {
  }

  lemma ValidBoth(a: seq<Byte>, b: seq<Byte>)
    requires AllValid(a) && AllValid(b)
    ensures AllValid(a + b)
  {
  }

  lemma CanonicalCons(g: seq<Byte>, r: seq<Byte>)
    requires |g| == 4 && AllValid(g) && Canonical(r)
    ensures Canonical(g + r)
  {
    var t, n := g + r, Body(r);
    BodyOf(g, r);
    FourMore(|r|);
    ValidBoth(g, r[..n]);
    assert t[..n + 4] == g + r[..n];
    if |r| - n > 0 {
      assert |r| >= 4 && n >= 1;
      assert t[n + 3] == r[n - 1];
    }
  }

  // Four digits in base 64, from the three bytes that they make.
  lemma Digits4(v0: nat, v1: nat, v2: nat, v3: nat)
    requires v0 < 64 && v1 < 64 && v2 < 64 && v3 < 64
    ensures (v0 * 4 + v1 / 16) / 4 == v0 && (v0 * 4 + v1 / 16) % 4 * 16 == v1 / 16 * 16
    ensures (v1 % 16 * 16 + v2 / 4) / 16 == v1 % 16 && (v1 % 16 * 16 + v2 / 4) % 16 * 4 == v2 / 4 * 4
    ensures (v2 % 4 * 64 + v3) / 64 == v2 % 4 && (v2 % 4 * 64 + v3) % 64 == v3
    ensures v1 / 16 * 16 + v1 % 16 == v1 && v2 / 4 * 4 + v2 % 4 == v2
  {
  }

  // The characters that three bytes decoded from four encode to.
  lemma GroupForth(t0: Byte, t1: Byte, t2: Byte, t3: Byte)
    requires Value(t0) != INVALID && Value(t1) != INVALID && Value(t2) != INVALID && Value(t3) != INVALID
    ensures Group(First(t0, t1), Second(t1, t2), Third(t2, t3)) == [t0, t1, t2, t3]
    ensures Value(t1) % 16 == 0 ==> Group(First(t0, t1), 0, 0)[..2] == [t0, t1]
    ensures Value(t2) % 4 == 0 ==> Group(First(t0, t1), Second(t1, t2), 0)[..3] == [t0, t1, t2]
  {
    ValueBasis(t0);
    ValueBasis(t1);
    ValueBasis(t2);
    ValueBasis(t3);
    Digits4(Value(t0), Value(t1), Value(t2), Value(t3));
  }

  lemma EncodeCons(a: Byte, b: Byte, c: Byte, rest: seq<Byte>)
    ensures Encode([a, b, c] + rest) == Group(a, b, c) + Encode(rest)
  {
    assert ([a, b, c] + rest)[3..] == rest;
  }

  // Decoding the first group apart.
  lemma DecodeCons(t: seq<Byte>)
    requires |t| > 4 && AllValid(t[..Body(t)]) && Body(t) == 4 + Body(t[4..]) && Decode(t[4..]).Some?
    ensures forall i :: 0 <= i < 4 ==> Value(t[i]) != INVALID
    ensures Decode(t) == Some([First(t[0], t[1]), Second(t[1], t[2]), Third(t[2], t[3])] + Decode(t[4..]).value)
  {
    var n := Body(t);
    var g, r := t[..4], t[4..][..n - 4];
    forall i | 0 <= i < 4 ensures Value(t[i]) != INVALID {
      assert t[..n][i] == t[i];
    }
    assert t[..n] == g + r;
    BytesGroup(g, r);
    FourMore(n - 4);
  }

  // Encoding undoes decoding on canonical text.
  lemma {:induction false} EncodeDecode(t: seq<Byte>)
    requires Canonical(t)
    ensures Decode(t).Some? && Encode(Decode(t).value) == t
    decreases |t|
  {
    if |t| > 4 {
      CanonicalTail(t);
      EncodeDecode(t[4..]);
      DecodeCons(t);
      GroupForth(t[0], t[1], t[2], t[3]);
      EncodeCons(First(t[0], t[1]), Second(t[1], t[2]), Third(t[2], t[3]), Decode(t[4..]).value);
      assert t == [t[0], t[1], t[2], t[3]] + t[4..];
    } else if t != [] {
      LastGroup(t);
    }
  }

  lemma LastGroup(t: seq<Byte>)
    requires Canonical(t) && |t| == 4
    ensures Decode(t).Some? && Encode(Decode(t).value) == t
  {
    var n := Body(t);
    forall i | 0 <= i < n ensures Value(t[i]) != INVALID {
      assert t[..n][i] == t[i];
    }
    var a: Byte := 'A' as int;
    GroupForth(t[0], t[1], if n > 2 then t[2] else a, if n > 3 then t[3] else a);
    if n == 2 {
      assert t[..n] == [t[0], t[1]] && t == [t[0], t[1], PAD, PAD];
    } else if n == 3 {
      assert t[..n] == [t[0], t[1], t[2]] && t == [t[0], t[1], t[2], PAD];
    } else {
      assert t[..n] == [t[0], t[1], t[2], t[3]] && t[..n][4..] == [];
      var v := [First(t[0], t[1]), Second(t[1], t[2]), Third(t[2], t[3])];
      assert Octets(t[..n]) == v && v[3..] == [];
    }
  }

  lemma {:induction false} EncodeCanonical(s: seq<Byte>)
    ensures Canonical(Encode(s))
    decreases |s|
  {
    if 1 <= |s| <= 2 {
      ShortBack(s);
      BasisValue(s[0] % 4 * 16);
      if |s| == 2 { BasisValue(s[1] % 16 * 4); }
    } else if |s| > 2 {
      GroupBack(s[0], s[1], s[2]);
      EncodeCanonical(s[3..]);
      CanonicalCons(Group(s[0], s[1], s[2]), Encode(s[3..]));
    }
  }

  // Canonical text is exactly the text that encoding gives.
  lemma CanonicalIff(t: seq<Byte>)
    ensures Canonical(t) <==> Decode(t).Some? && Encode(Decode(t).value) == t
  {
    if Canonical(t) {
      EncodeDecode(t);
    } else if Decode(t).Some? && Encode(Decode(t).value) == t {
      EncodeCanonical(Decode(t).value);
    }
  }

  // ----- The program ------------------------------------------------------------------

  // stu_encode_base64_internal with the usual alphabet and padding.
  method EncodeBase64(dst: array<Byte>, src: seq<Byte>) returns (length: nat)
    requires dst.Length >= (|src| + 2) / 3 * 4
    modifies dst
    ensures length == (|src| + 2) / 3 * 4 && dst[..length] == Encode(src)
    ensures forall k {:trigger dst[k]} :: length <= k < dst.Length ==> dst[k] == old(dst[k])
  {
    var s, d := 0, 0;
    assert src[0..] == src;
    while |src| - s > 2
      invariant 0 <= s <= |src| && d + |Encode(src[s..])| == |Encode(src)|
      invariant dst[..d] + Encode(src[s..]) == Encode(src)
      invariant forall k {:trigger dst[k]} :: d <= k < dst.Length ==> dst[k] == old(dst[k])
    {
      EncodeNext(src, s);
      ghost var done, g := dst[..d], Group(src[s], src[s + 1], src[s + 2]);
      PutGroup(dst, d, src[s], src[s + 1], src[s + 2], 4);
      assert dst[..d + 4] == done + g;
      Regroup(done, g, Encode(src[s + 3..]));
      s, d := s + 3, d + 4;
    }
    if |src| - s > 0 {
      EncodeRest(dst, d, src[s..]);
      d := d + 4;
    }
    length := d;
  }

  lemma EncodeNext(src: seq<Byte>, s: nat)
    requires s + 2 < |src|
    ensures Encode(src[s..]) == Group(src[s], src[s + 1], src[s + 2]) + Encode(src[s + 3..])
  {
    assert src[s..][3..] == src[s + 3..];
  }

  // Lines 67-84.
  method EncodeRest(dst: array<Byte>, d: nat, rest: seq<Byte>)
    requires 1 <= |rest| <= 2 && d + 4 <= dst.Length
    modifies dst
    ensures dst[..d + 4] == old(dst[..d]) + Encode(rest)
    ensures forall k {:trigger dst[k]} :: d + 4 <= k < dst.Length ==> dst[k] == old(dst[k])
  {
    ghost var g := Group(rest[0], if |rest| == 2 then rest[1] else 0, 0);
    if |rest| == 1 {
      PutGroup(dst, d, rest[0], 0, 0, 2);
      dst[d + 2] := PAD;
      assert Encode(rest) == [g[0], g[1], PAD, PAD];
    } else {
      PutGroup(dst, d, rest[0], rest[1], 0, 3);
      assert Encode(rest) == [g[0], g[1], g[2], PAD];
    }
    dst[d + 3] := PAD;
    assert dst[d..d + 4] == Encode(rest);
    assert dst[..d + 4] == dst[..d] + dst[d..d + 4];
  }

  // The first n characters of a group.
  method PutGroup(dst: array<Byte>, d: nat, a: Byte, b: Byte, c: Byte, n: nat)
    requires 2 <= n <= 4 && d + n <= dst.Length
    modifies dst
    ensures forall k {:trigger dst[k]} :: 0 <= k < dst.Length ==>
      dst[k] == if d <= k < d + n then Group(a, b, c)[k - d] else old(dst[k])
  {
    Masked(a);
    dst[d] := Basis(a / 4 % 64);
    dst[d + 1] := Basis(a % 4 * 16 + b / 16);
    if n > 2 {
      dst[d + 2] := Basis(b % 16 * 4 + c / 64);
    }
    if n > 3 {
      dst[d + 3] := Basis(c % 64);
    }
  }

  lemma Masked(a: Byte)
    ensures a / 4 % 64 == a / 4
  {
  }

  // stu_decode_base64_internal.
  method DecodeBase64(dst: array<Byte>, src: seq<Byte>) returns (ok: bool, length: nat)
    requires dst.Length >= (|src| + 3) / 4 * 3
    modifies dst
    ensures ok == Decode(src).Some?
    ensures if ok then length == |Decode(src).value| <= dst.Length && dst[..length] == Decode(src).value
      else dst[..] == old(dst[..])
  {
    var len := 0;
    while len < |src|
      invariant 0 <= len <= Body(src) && AllValid(src[..len])
    {
      if src[len] == PAD {
        break;
      }
      if Value(src[len]) == INVALID {
        assert src[..Body(src)][len] == src[len];
        return false, 0;
      }
      assert src[..len + 1] == src[..len] + [src[len]];
      len := len + 1;
    }
    assert len == Body(src);
    if len % 4 == 1 {
      return false, 0;
    }
    ok := true;
    length := PutBytes(dst, src[..len]);
  }

  // Lines 108-128.
  method PutBytes(dst: array<Byte>, src: seq<Byte>) returns (length: nat)
    requires AllValid(src) && |src| % 4 != 1 && dst.Length >= (|src| + 3) / 4 * 3
    modifies dst
    ensures length == |Octets(src)| <= dst.Length && dst[..length] == Octets(src)
  {
    var s, d := 0, 0;
    assert src[0..] == src;
    BytesLength(src);
    while |src| - s > 3
      invariant 0 <= s <= |src| && AllValid(src[s..]) && d + |Octets(src[s..])| == |Octets(src)|
      invariant dst[..d] + Octets(src[s..]) == Octets(src) && (|src| - s) % 4 != 1
    {
      OctetsNext(src, s);
      ghost var done := dst[..d];
      dst[d] := First(src[s], src[s + 1]);
      dst[d + 1] := Second(src[s + 1], src[s + 2]);
      dst[d + 2] := Third(src[s + 2], src[s + 3]);
      assert dst[..d + 3] == done + [dst[d], dst[d + 1], dst[d + 2]];
      Regroup(done, [dst[d], dst[d + 1], dst[d + 2]], Octets(src[s + 4..]));
      FourMore(|src| - s - 4);
      s, d := s + 4, d + 3;
    }
    if |src| - s > 1 {
      dst[d] := First(src[s], src[s + 1]);
      d := d + 1;
      if |src| - s > 2 {
        dst[d] := Second(src[s + 1], src[s + 2]);
        d := d + 1;
      }
    }
    length := d;
  }

  lemma OctetsNext(src: seq<Byte>, s: nat)
    requires s + 4 <= |src| && AllValid(src[s..])
    ensures AllValid(src[s + 4..])
    ensures forall i :: s <= i < s + 4 ==> Value(src[i]) != INVALID
    ensures Octets(src[s..]) ==
      [First(src[s], src[s + 1]), Second(src[s + 1], src[s + 2]), Third(src[s + 2], src[s + 3])] + Octets(src[s + 4..])
  {
    var rest := src[s..];
    forall i | s <= i < s + 4 ensures Value(src[i]) != INVALID {
      assert src[i] == rest[i - s];
    }
    assert rest[4..] == src[s + 4..];
    ValidPart(rest, 4, |rest|);
    assert rest[4..|rest|] == rest[4..];
  }

  lemma {:induction false} BytesLength(s: seq<Byte>)
    requires AllValid(s)
    ensures |Octets(s)| <= (|s| + 3) / 4 * 3
    decreases |s|
  {
    if |s| >= 4 {
      BytesLength(s[4..]);
    }
  }
}
