/**
  UTF-8 as Rust's `str` sees it: byte sequences, the well-formedness test behind
  `str::from_utf8`, and the byte test behind `str::is_char_boundary`.
 */
module Utf8 {
  import opened Wrappers

  type byte = x: int | 0 <= x < 256

  /** A Unicode scalar value is a code point outside the surrogate range. */
  predicate IsScalar(x: int) {
    0 <= x < 0xD800 || 0xE000 <= x < 0x110000
  }

  type scalar = x: int | IsScalar(x)

  predicate Continuation(b: byte) {
    0x80 <= b < 0xC0
  }

  /** Section 3 of RFC 3629. */
  function Encode(c: scalar): (r: seq<byte>)
    ensures WellFormedChar(r)
  {
    assert IsScalar(c);
    var q1 := c / 64;
    var q2 := q1 / 64;
    var q3 := q2 / 64;
    if c < 0x80 then [c as byte]
    else if c < 0x800 then [0xC0 + q1, 0x80 + c % 64]
    else if c < 0x10000 then [0xE0 + q2, 0x80 + q1 % 64, 0x80 + c % 64]
    else [0xF0 + q3, 0x80 + q2 % 64, 0x80 + q1 % 64, 0x80 + c % 64]
  }

  /** One encoded character, by the byte ranges of section 4 of RFC 3629. */
  predicate WellFormedChar(s: seq<byte>) {
    match |s|
    case 1 => s[0] < 0x80
    case 2 => 0xC2 <= s[0] < 0xE0 && Continuation(s[1])
    case 3 =>
      && 0xE0 <= s[0] < 0xF0 && Continuation(s[1]) && Continuation(s[2])
      && (s[0] == 0xE0 ==> 0xA0 <= s[1])
      && (s[0] == 0xED ==> s[1] < 0xA0)
    case 4 =>
      && 0xF0 <= s[0] < 0xF5 && Continuation(s[1]) && Continuation(s[2]) && Continuation(s[3])
      && (s[0] == 0xF0 ==> 0x90 <= s[1])
      && (s[0] == 0xF4 ==> s[1] < 0x90)
    case _ => false
  }

  /** The length a leading byte announces; 0 for a byte that cannot lead. */
  function CharWidth(b: byte): (w: nat)
    ensures w <= 4
  {
    if b < 0x80 then 1
    else if b < 0xC0 then 0
    else if b < 0xE0 then 2
    else if b < 0xF0 then 3
    else if b < 0xF8 then 4
    else 0
  }

  predicate StartsWithChar(s: seq<byte>) {
    s != [] && 0 < CharWidth(s[0]) <= |s| && WellFormedChar(s[..CharWidth(s[0])])
  }

  predicate Valid(s: seq<byte>) {
    s == [] || (StartsWithChar(s) && Valid(s[CharWidth(s[0])..]))
  }

  /** Rust's `str::is_char_boundary`. */
  predicate IsCharBoundary(s: seq<byte>, i: nat) {
    i == 0 || i == |s| || (i < |s| && !Continuation(s[i]))
  }

  function EncodeAll(cs: seq<scalar>): seq<byte> {
    if cs == [] then [] else Encode(cs[0]) + EncodeAll(cs[1..])
  }

  /** Appending the payload of a continuation byte; dividing and reducing by 64 undo it. */
  function Shift6(high: nat, b: byte): (r: nat)
    requires Continuation(b)
    ensures r / 64 == high && r % 64 == b - 0x80
  {
    high * 64 + (b - 0x80)
  }

  function DecodeChar(s: seq<byte>): (c: scalar)
    requires WellFormedChar(s)
    ensures Encode(c) == s
  {
    match |s|
    case 1 => s[0]
    case 2 => Shift6(s[0] - 0xC0, s[1])
    case 3 => Shift6(Shift6(s[0] - 0xE0, s[1]), s[2])
    case _ => Shift6(Shift6(Shift6(s[0] - 0xF0, s[1]), s[2]), s[3])
  }

  function DecodeAll(s: seq<byte>): (cs: seq<scalar>)
    requires Valid(s)
    ensures EncodeAll(cs) == s
  {
    if s == [] then []
    else
      var n := CharWidth(s[0]);
      assert s == s[..n] + s[n..];
      [DecodeChar(s[..n])] + DecodeAll(s[n..])
  }

  lemma WellFormedCharIsValid(s: seq<byte>)
    requires WellFormedChar(s)
    ensures s != [] && CharWidth(s[0]) == |s| && Valid(s)
  {
    assert s[..|s|] == s && s[|s|..] == [];
  }

  lemma {:induction false} AsciiIsValid(s: seq<byte>)
    requires forall i :: 0 <= i < |s| ==> s[i] < 0x80
    ensures Valid(s)
  {
    if s != [] {
      AsciiIsValid(s[1..]);
    }
  }

  lemma {:induction false} ValidConcat(a: seq<byte>, b: seq<byte>)
    requires Valid(a) && Valid(b)
    ensures Valid(a + b)
  {
    if a == [] {
      assert a + b == b;
    } else {
      var n := CharWidth(a[0]);
      assert (a + b)[..n] == a[..n] && (a + b)[n..] == a[n..] + b;
      ValidConcat(a[n..], b);
    }
  }

  lemma {:induction false} EncodeAllValid(cs: seq<scalar>)
    ensures Valid(EncodeAll(cs))
  {
    if cs != [] {
      WellFormedCharIsValid(Encode(cs[0]));
      EncodeAllValid(cs[1..]);
      ValidConcat(Encode(cs[0]), EncodeAll(cs[1..]));
    }
  }

  /** `Valid` is what RFC 3629 means by it: the encoding of some sequence of scalar values. */
  lemma ValidIffEncodes(s: seq<byte>)
    ensures Valid(s) <==> exists cs :: EncodeAll(cs) == s
  {
    if Valid(s) {
      assert EncodeAll(DecodeAll(s)) == s;
    }
    forall cs | EncodeAll(cs) == s ensures Valid(s) {
      EncodeAllValid(cs);
    }
  }

  /** Comes `a` before `b`, byte by byte? */
  predicate Below(a: seq<byte>, b: seq<byte>) {
    if a == [] || b == [] then a == [] && b != []
    else a[0] < b[0] || (a[0] == b[0] && Below(a[1..], b[1..]))
  }

  /**
    Encoding keeps the order of the scalar values. It is the only way of writing them as well-formed
    characters that does: by `DecodeChar` all of those are used.
   */
  lemma EncodeOrdered(c: scalar, d: scalar)
    requires c < d
    ensures Below(Encode(c), Encode(d))
  {
    assert IsScalar(c) && IsScalar(d);
    var a, b := Encode(c), Encode(d);
    DivOrdered(c, d);
    DivOrdered(c / 64, d / 64);
    DivOrdered(c / 64 / 64, d / 64 / 64);
    assert |a| <= |b|;
    if |a| == |b| {
      BelowAt(a, b);
    }
  }

  lemma DivOrdered(x: int, y: int)
    requires 0 <= x <= y
    ensures x / 64 <= y / 64 && (x / 64 == y / 64 ==> x % 64 <= y % 64 && (x < y ==> x % 64 < y % 64))
  {
  }

  lemma BelowAt(a: seq<byte>, b: seq<byte>)
    requires |a| == |b| && exists i :: 0 <= i < |a| && a[i] < b[i] && a[..i] == b[..i]
    ensures Below(a, b)
  {
    var i :| 0 <= i < |a| && a[i] < b[i] && a[..i] == b[..i];
    if i > 0 {
      assert a[..i][0] == b[..i][0];
      assert a[1..][..i - 1] == a[..i][1..] && b[1..][..i - 1] == b[..i][1..];
      BelowAt(a[1..], b[1..]);
    }
  }

  lemma {:induction false} ValidSuffix(a: seq<byte>, b: seq<byte>)
    requires Valid(a) && Valid(a + b)
    ensures Valid(b)
  {
    if a == [] {
      assert a + b == b;
    } else {
      var n := CharWidth(a[0]);
      assert (a + b)[n..] == a[n..] + b;
      ValidSuffix(a[n..], b);
    }
  }

  lemma CutTwice(s: seq<byte>, n: nat, i: nat)
    requires n <= i <= |s|
    ensures s[..i][..n] == s[..n] && s[..i][n..] == s[n..][..i - n] && s[n..][i - n..] == s[i..]
  {
  }

  /** The one-byte boundary test finds exactly the places where cutting leaves valid text. */
  lemma {:induction false} BoundaryIffValidPrefix(s: seq<byte>, i: nat)
    requires Valid(s) && i <= |s|
    ensures IsCharBoundary(s, i) <==> Valid(s[..i])
    ensures IsCharBoundary(s, i) ==> Valid(s[i..])
  {
    if 0 < i {
      var n := CharWidth(s[0]);
      if i < n {
        assert s[..n][i] == s[i];
        assert s[..i][0] == s[0];
      } else {
        CutTwice(s, n, i);
        BoundaryIffValidPrefix(s[n..], i - n);
        assert i < |s| ==> s[n..][i - n] == s[i];
      }
    }
  }
}
