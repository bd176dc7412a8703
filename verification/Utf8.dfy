/** UTF-8 validity as Rust's `str::from_utf8` decides it, after section 4 of RFC 3629, with the
    encoding of section 3 as the independent reference. */
module Utf8 {
  import opened Machine

  // ---------- The byte grammar (section 4) ----------

  predicate Tail(s: seq<byte>, k: nat) {
    k < |s| && 0x80 <= s[k] <= 0xBF
  }

  /** The length of the well-formed character that `s` starts with, or 0 if there is none. */
  function CharLen(s: seq<byte>): (n: nat)
    ensures n <= |s| && n <= 4
    ensures forall k :: 0 < k < n ==> s[k] >= 0x80
  {
    if s == [] then 0
    else if s[0] <= 0x7F then 1
    else if 0xC2 <= s[0] <= 0xDF then
      if Tail(s, 1) then 2 else 0
    else if 0xE0 <= s[0] <= 0xEF then
      if Tail(s, 1) && Tail(s, 2)
         && (s[0] == 0xE0 ==> s[1] >= 0xA0) && (s[0] == 0xED ==> s[1] <= 0x9F)
      then 3 else 0
    else if 0xF0 <= s[0] <= 0xF4 then
      if Tail(s, 1) && Tail(s, 2) && Tail(s, 3)
         && (s[0] == 0xF0 ==> s[1] >= 0x90) && (s[0] == 0xF4 ==> s[1] <= 0x8F)
      then 4 else 0
    else 0
  }

  predicate Valid(s: seq<byte>) {
    s == [] || (CharLen(s) > 0 && Valid(s[CharLen(s)..]))
  }

  // ---------- The encoding (section 3) ----------

  /** A Unicode scalar value: a code point that is not a surrogate. */
  predicate Scalar(c: int) {
    0 <= c <= 0x10FFFF && !(0xD800 <= c <= 0xDFFF)
  }

  function Encode(c: int): (s: seq<byte>)
    requires Scalar(c)
  {
    if c < 0x80 then [c]
    else if c < 0x800 then [0xC0 + c / 0x40, 0x80 + c % 0x40]
    else if c < 0x1_0000 then [0xE0 + c / 0x1000, 0x80 + c / 0x40 % 0x40, 0x80 + c % 0x40]
    else [0xF0 + c / 0x4_0000, 0x80 + c / 0x1000 % 0x40, 0x80 + c / 0x40 % 0x40, 0x80 + c % 0x40]
  }

  ghost predicate Scalars(cs: seq<int>) {
    forall i :: 0 <= i < |cs| ==> Scalar(cs[i])
  }

  function EncodeAll(cs: seq<int>): seq<byte>
    requires Scalars(cs)
  {
    if cs == [] then [] else Encode(cs[0]) + EncodeAll(cs[1..])
  }

  // ---------- The two agree ----------

  /** Appending one six-bit group to a number, and taking it off again. */
  lemma SixBits(hi: int, lo: int)
    requires 0 <= lo < 0x40
    ensures (hi * 0x40 + lo) / 0x40 == hi && (hi * 0x40 + lo) % 0x40 == lo
  {
  }

  lemma TwoGroups(c: int)
    ensures c / 0x1000 == c / 0x40 / 0x40
  {
  }

  lemma ThreeGroups(c: int)
    ensures c / 0x4_0000 == c / 0x1000 / 0x40
  {
  }

  /** The bytes of a character of three, from its groups of bits. */
  lemma EncodeThree(h: int, g1: int, g2: int)
    requires 0 <= h < 0x10 && 0 <= g1 < 0x40 && 0 <= g2 < 0x40
    requires (h == 0 ==> g1 >= 0x20) && (h == 0xD ==> g1 < 0x20)
    ensures var c := (h * 0x40 + g1) * 0x40 + g2;
      Scalar(c) && Encode(c) == [0xE0 + h, 0x80 + g1, 0x80 + g2]
  {
    var c1 := h * 0x40 + g1;
    var c := c1 * 0x40 + g2;
    SixBits(h, g1);
    SixBits(c1, g2);
    TwoGroups(c);
    assert 0x800 <= c < 0x1_0000;
  }

  lemma EncodeFour(h: int, g1: int, g2: int, g3: int)
    requires 0 <= h <= 4 && 0 <= g1 < 0x40 && 0 <= g2 < 0x40 && 0 <= g3 < 0x40
    requires (h == 0 ==> g1 >= 0x10) && (h == 4 ==> g1 < 0x10)
    ensures var c := ((h * 0x40 + g1) * 0x40 + g2) * 0x40 + g3;
      Scalar(c) && Encode(c) == [0xF0 + h, 0x80 + g1, 0x80 + g2, 0x80 + g3]
  {
    var c1 := h * 0x40 + g1;
    var c2 := c1 * 0x40 + g2;
    var c := c2 * 0x40 + g3;
    SixBits(h, g1);
    SixBits(c1, g2);
    SixBits(c2, g3);
    TwoGroups(c);
    ThreeGroups(c);
    assert 0x1_0000 <= c <= 0x10FFFF;
  }

  lemma ThreeIsOneChar(c: int, rest: seq<byte>)
    requires Scalar(c) && 0x800 <= c < 0x1_0000
    ensures CharLen(Encode(c) + rest) == 3
  {
    var h, g1, g2 := c / 0x1000, c / 0x40 % 0x40, c % 0x40;
    TwoGroups(c);
    assert c == h * 0x1000 + g1 * 0x40 + g2;
    var s := Encode(c) + rest;
    assert s[0] == 0xE0 + h && s[1] == 0x80 + g1 && s[2] == 0x80 + g2;
  }

  lemma FourIsOneChar(c: int, rest: seq<byte>)
    requires Scalar(c) && 0x1_0000 <= c
    ensures CharLen(Encode(c) + rest) == 4
  {
    var h, g1, g2, g3 := c / 0x4_0000, c / 0x1000 % 0x40, c / 0x40 % 0x40, c % 0x40;
    TwoGroups(c);
    ThreeGroups(c);
    assert c == h * 0x4_0000 + g1 * 0x1000 + g2 * 0x40 + g3;
    var s := Encode(c) + rest;
    assert s[0] == 0xF0 + h && s[1] == 0x80 + g1 && s[2] == 0x80 + g2 && s[3] == 0x80 + g3;
  }

  lemma EncodeIsOneChar(c: int, rest: seq<byte>)
    requires Scalar(c)
    ensures CharLen(Encode(c) + rest) == |Encode(c)|
  {
    if c < 0x80 {
      assert (Encode(c) + rest)[0] == c;
    } else if c < 0x800 {
      var s := Encode(c) + rest;
      assert s[0] == 0xC0 + c / 0x40 && s[1] == 0x80 + c % 0x40;
    } else if c < 0x1_0000 {
      ThreeIsOneChar(c, rest);
    } else {
      FourIsOneChar(c, rest);
    }
  }

  lemma CharIsEncoding(s: seq<byte>) returns (c: int)
    requires CharLen(s) > 0
    ensures Scalar(c) && Encode(c) == s[..CharLen(s)]
  {
    var n := CharLen(s);
    var lead: int := s[0];
    if n == 1 {
      c := lead;
    } else if n == 2 {
      var g1: int := s[1] as int - 0x80;
      c := (lead - 0xC0) * 0x40 + g1;
      SixBits(lead - 0xC0, g1);
    } else if n == 3 {
      var g1: int, g2: int := s[1] as int - 0x80, s[2] as int - 0x80;
      c := ((lead - 0xE0) * 0x40 + g1) * 0x40 + g2;
      EncodeThree(lead - 0xE0, g1, g2);
    } else {
      var g1: int, g2: int, g3: int := s[1] as int - 0x80, s[2] as int - 0x80, s[3] as int - 0x80;
      c := (((lead - 0xF0) * 0x40 + g1) * 0x40 + g2) * 0x40 + g3;
      EncodeFour(lead - 0xF0, g1, g2, g3);
    }
  }

  /** Every encoded text is accepted. */
  lemma {:induction false} EncodedIsValid(cs: seq<int>)
    requires Scalars(cs)
    ensures Valid(EncodeAll(cs))
  {
    if cs != [] {
      var rest := EncodeAll(cs[1..]);
      EncodeIsOneChar(cs[0], rest);
      EncodedIsValid(cs[1..]);
      assert (Encode(cs[0]) + rest)[|Encode(cs[0])|..] == rest;
    }
  }

  lemma {:induction false} ValidDecodes(s: seq<byte>) returns (cs: seq<int>)
    requires Valid(s)
    ensures Scalars(cs) && EncodeAll(cs) == s
    decreases |s|
  {
    if s == [] {
      cs := [];
    } else {
      var n := CharLen(s);
      var c := CharIsEncoding(s);
      var rest := ValidDecodes(s[n..]);
      cs := [c] + rest;
      EncodeJoins(c, rest, s, n);
    }
  }

  lemma EncodeJoins(c: int, rest: seq<int>, s: seq<byte>, n: nat)
    requires Scalar(c) && Scalars(rest) && n <= |s| && Encode(c) == s[..n] && EncodeAll(rest) == s[n..]
    ensures Scalars([c] + rest) && EncodeAll([c] + rest) == s
  {
    EncodeCons(c, rest);
    assert s == s[..n] + s[n..];
  }

  lemma EncodeCons(c: int, rest: seq<int>)
    requires Scalar(c) && Scalars(rest)
    ensures Scalars([c] + rest) && EncodeAll([c] + rest) == Encode(c) + EncodeAll(rest)
  {
    assert ([c] + rest)[1..] == rest;
  }

  /** The byte grammar accepts exactly the encodings of sequences of Unicode scalar values. */
  lemma ValidIffEncoded(s: seq<byte>)
    ensures Valid(s) <==> exists cs :: Scalars(cs) && EncodeAll(cs) == s
  {
    if Valid(s) {
      var cs := ValidDecodes(s);
    }
    forall cs | Scalars(cs) && EncodeAll(cs) == s
      ensures Valid(s)
    {
      EncodedIsValid(cs);
    }
  }

  // ---------- Zero bytes ----------

  lemma CharLenOfPrefix(a: seq<byte>, b: seq<byte>)
    requires CharLen(a) > 0 || (b != [] && b[0] == 0 && a != [])
    ensures CharLen(a + b) == CharLen(a)
  {
    assert forall k :: 0 <= k < |a| ==> (a + b)[k] == a[k];
    if b != [] {
      assert (a + b)[|a|] == b[0];
    }
  }

  /** No multi-byte sequence contains a zero byte, so a text splits at a zero byte into two
      texts that are valid or not on their own. */
  lemma {:induction false} ValidSplitsAtNul(a: seq<byte>, b: seq<byte>)
    ensures Valid(a + [0] + b) <==> Valid(a) && Valid(b)
    decreases |a|
  {
    var s := a + [0] + b;
    if a == [] {
      assert s[0] == 0 && s[1..] == b;
    } else {
      assert s == a + ([0] + b);
      CharLenOfPrefix(a, [0] + b);
      var n := CharLen(a);
      if n > 0 {
        assert s[n..] == a[n..] + [0] + b;
        ValidSplitsAtNul(a[n..], b);
      }
    }
  }
}
