/** UTF-8 validation against the encoding that RFC 3629 defines in section 3. */
module Utf8 {
  import opened Words

  /** Unicode scalar values other than zero. */
  predicate Scalar(c: nat) {
    0 < c <= 0x10FFFF && !(0xD800 <= c <= 0xDFFF)
  }

  function Continuation(x: nat): byte {
    0x80 + x % 64
  }

  /** The bytes of one scalar value. */
  function EncodeOne(c: nat): (r: seq<byte>)
    requires Scalar(c)
    ensures 1 <= |r| <= 4
  {
    if c < 0x80 then [c]
    else if c < 0x800 then [0xC0 + c / 64, Continuation(c)]
    else if c < 0x10000 then [0xE0 + c / 4096, Continuation(c / 64), Continuation(c)]
    else [0xF0 + c / 262144, Continuation(c / 4096), Continuation(c / 64), Continuation(c)]
  }

  ghost predicate Scalars(cs: seq<nat>) {
    forall i :: 0 <= i < |cs| ==> Scalar(cs[i])
  }

  function Encode(cs: seq<nat>): seq<byte>
    requires Scalars(cs)
  {
    if cs == [] then [] else EncodeOne(cs[0]) + Encode(cs[1..])
  }

  /** `s` is the encoding of some sequence of non-zero scalar values. */
  ghost predicate IsUtf8(s: seq<byte>) {
    exists cs :: Scalars(cs) && Encode(cs) == s
  }

  // ------------------------------------------------------------------ the checks on one character

  /** The number of bytes that follow a lead byte; 99 if there is no such lead byte. */
  function Extra(c: byte): nat {
    if 0xC2 <= c <= 0xDF then 1 else if 0xE0 <= c <= 0xEF then 2 else if 0xF0 <= c <= 0xF4 then 3 else 99
  }

  /** The upper two bits are 10. */
  predicate IsContinuation(b: byte) {
    b / 64 == 2
  }

  /** Overlong forms, surrogates and values beyond 0x10FFFF show in the first continuation byte. */
  predicate BadFirst(c: byte, first: byte) {
    (c == 0xE0 && first < 0xA0) || (c == 0xED && first >= 0xA0) || (c == 0xF0 && first < 0x90) ||
      (c == 0xF4 && first >= 0x90)
  }

  /** The length of the character at `i`, or zero if the checks reject it. */
  ghost function CharLen(s: seq<byte>, i: nat): (n: nat)
    requires i < |s|
    ensures i + n <= |s|
  {
    var c := s[i];
    if c == 0 then 0
    else if c < 0x80 then 1
    else
      var extra := Extra(c);
      if extra == 99 || i + 1 + extra > |s| || BadFirst(c, s[i + 1]) then 0
      else if forall j :: i < j <= i + extra ==> IsContinuation(s[j]) then 1 + extra
      else 0
  }

  /** The checks accept from position `i` on. */
  ghost predicate Accepted(s: seq<byte>, i: nat)
    requires i <= |s|
    decreases |s| - i
  {
    i == |s| || (CharLen(s, i) > 0 && Accepted(s, i + CharLen(s, i)))
  }

  // ------------------------------------------------------------------ one character

  /** The six bits of a continuation byte. */
  function Tail(b: byte): (r: nat)
    ensures r < 64 && (IsContinuation(b) ==> (b as int) == 0x80 + r)
  {
    (b as int) % 64
  }

  function Lead(b: byte, base: nat): nat
    requires base <= b as int
  {
    (b as int) - base
  }

  function Value(s: seq<byte>): nat
    requires 1 <= |s| <= 4 && (|s| > 1 ==> s[0] >= 0xC0) && (|s| > 2 ==> s[0] >= 0xE0) && (|s| > 3 ==> s[0] >= 0xF0)
  {
    if |s| == 1 then s[0] as int
    else if |s| == 2 then Lead(s[0], 0xC0) * 64 + Tail(s[1])
    else if |s| == 3 then Lead(s[0], 0xE0) * 4096 + Tail(s[1]) * 64 + Tail(s[2])
    else Lead(s[0], 0xF0) * 262144 + Tail(s[1]) * 4096 + Tail(s[2]) * 64 + Tail(s[3])
  }

  lemma Digit(hi: nat, lo: nat)
    requires lo < 64
    ensures (hi * 64 + lo) / 64 == hi && (hi * 64 + lo) % 64 == lo
  {
  }

  lemma Three(a: nat, y: nat, z: nat, c: nat)
    requires a < 16 && y < 64 && z < 64 && (a == 0 ==> y >= 0x20) && c == a * 4096 + y * 64 + z
    ensures 0x800 <= c < 0x10000 && c / 4096 == a && c / 64 % 64 == y && c % 64 == z
    ensures 0xD800 <= c <= 0xDFFF <==> a == 13 && y >= 0x20
  {
    var u := a * 64 + y;
    assert c == u * 64 + z;
    Digit(u, z);
    Digit(a, y);
  }

  lemma Four(a: nat, x: nat, y: nat, z: nat, c: nat)
    requires a <= 4 && x < 64 && y < 64 && z < 64 && (a == 0 ==> x >= 0x10) && (a == 4 ==> x < 0x10)
    requires c == a * 262144 + x * 4096 + y * 64 + z
    ensures 0x10000 <= c <= 0x10FFFF && c / 262144 == a && c / 4096 % 64 == x && c / 64 % 64 == y && c % 64 == z
  {
    var v := a * 64 + x;
    var u := v * 64 + y;
    assert c == u * 64 + z;
    Digit(u, z);
    Digit(v, y);
    Digit(a, x);
    assert c / 4096 == v;
  }

  /** What the checks accept is the encoding of a scalar value. */
  lemma AcceptedIsEncoded(s: seq<byte>, i: nat)
    requires i < |s| && CharLen(s, i) > 0
    ensures var n := CharLen(s, i);
      1 <= n <= 4 && (n > 1 ==> s[i] >= 0xC0) && (n > 2 ==> s[i] >= 0xE0) && (n > 3 ==> s[i] >= 0xF0) &&
      Scalar(Value(s[i..i + n])) && EncodeOne(Value(s[i..i + n])) == s[i..i + n]
  {
    var n := CharLen(s, i);
    if n > 1 {
      assert IsContinuation(s[i + 1]);
      if n == 2 {
        Digit(Lead(s[i], 0xC0), Tail(s[i + 1]));
      } else {
        assert IsContinuation(s[i + 2]);
        if n == 3 {
          Three(Lead(s[i], 0xE0), Tail(s[i + 1]), Tail(s[i + 2]), Value(s[i..i + n]));
        } else {
          assert IsContinuation(s[i + 3]);
          Four(Lead(s[i], 0xF0), Tail(s[i + 1]), Tail(s[i + 2]), Tail(s[i + 3]), Value(s[i..i + n]));
        }
      }
    }
  }

  /** The encoding of a scalar value is accepted. */
  lemma EncodedIsAccepted(s: seq<byte>, i: nat, c: nat)
    requires i < |s| && Scalar(c) && i + |EncodeOne(c)| <= |s| && s[i..i + |EncodeOne(c)|] == EncodeOne(c)
    ensures CharLen(s, i) == |EncodeOne(c)|
  {
    var r := EncodeOne(c);
    assert s[i] == s[i..i + |r|][0] == r[0];
    if |r| > 1 {
      assert s[i + 1] == s[i..i + |r|][1] == r[1];
      if |r| > 2 {
        assert s[i + 2] == s[i..i + |r|][2] == r[2];
        if |r| > 3 {
          assert s[i + 3] == s[i..i + |r|][3] == r[3];
        }
      }
    }
  }

  // ------------------------------------------------------------------ whole strings

  lemma {:induction false} AcceptedDecodes(s: seq<byte>, i: nat) returns (cs: seq<nat>)
    requires i <= |s| && Accepted(s, i)
    ensures Scalars(cs) && Encode(cs) == s[i..]
    decreases |s| - i
  {
    if i == |s| {
      cs := [];
    } else {
      var n := CharLen(s, i);
      AcceptedIsEncoded(s, i);
      var c := Value(s[i..i + n]);
      var rest := AcceptedDecodes(s, i + n);
      cs := [c] + rest;
      assert cs[1..] == rest;
      assert s[i..] == s[i..i + n] + s[i + n..];
    }
  }

  lemma Splits(s: seq<byte>, i: nat, r: seq<byte>, rest: seq<byte>)
    requires i <= |s| && s[i..] == r + rest
    ensures i + |r| <= |s| && s[i..i + |r|] == r && s[i + |r|..] == rest
  {
    assert |s| - i == |r| + |rest|;
    assert (r + rest)[..|r|] == r && (r + rest)[|r|..] == rest;
    assert s[i..][..|r|] == s[i..i + |r|];
    assert s[i..][|r|..] == s[i + |r|..];
  }

  lemma {:induction false} EncodedAccepts(s: seq<byte>, i: nat, cs: seq<nat>)
    requires i <= |s| && Scalars(cs) && Encode(cs) == s[i..]
    ensures Accepted(s, i)
    decreases |cs|
  {
    if cs != [] {
      var r, rest := EncodeOne(cs[0]), Encode(cs[1..]);
      Splits(s, i, r, rest);
      EncodedIsAccepted(s, i, cs[0]);
      EncodedAccepts(s, i + |r|, cs[1..]);
    }
  }

  /** The checks accept exactly the encodings. */
  lemma AcceptedIsUtf8(s: seq<byte>)
    ensures Accepted(s, 0) <==> IsUtf8(s)
  {
    assert s[0..] == s;
    if Accepted(s, 0) {
      var cs := AcceptedDecodes(s, 0);
    }
    if IsUtf8(s) {
      var cs :| Scalars(cs) && Encode(cs) == s;
      EncodedAccepts(s, 0, cs);
    }
  }

  /** `valid_utf8`; the array accesses stay below the length. */
  method ValidUtf8(s: array<byte>) returns (ok: bool)
    ensures ok <==> IsUtf8(s[..])
  {
    AcceptedIsUtf8(s[..]);
    var i := 0;
    while i < s.Length
      invariant i <= s.Length && (Accepted(s[..], 0) <==> Accepted(s[..], i))
    {
      ghost var at := i;
      var c := s[i];
      i := i + 1;
      if c == 0 {
        return false;
      }
      if c >= 0x80 {
        var extra := Extra(c);
        if extra == 99 || i + extra > s.Length {
          return false;
        }
        var first := s[i];
        if BadFirst(c, first) {
          return false;
        }
        var j := 0;
        while j < extra
          invariant j <= extra && i == at + 1 + j
          invariant forall k :: at < k < i ==> IsContinuation(s[..][k])
        {
          i := i + 1;
          if !IsContinuation(s[i - 1]) {
            assert !IsContinuation(s[..][i - 1]);
            return false;
          }
          j := j + 1;
        }
      }
    }
    return true;
  }
}
