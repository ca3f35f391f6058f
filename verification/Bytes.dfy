// Bytes, little-endian integers and the UTF-16 text the on-disk formats use.
module Bytes {
  import opened Options

  type byte = x: nat | x < 256

  type word = x: nat | x < 0x1_0000_0000

  function Pow256(n: nat): nat {
    if n == 0 then 1 else 256 * Pow256(n - 1)
  }

  /** The unsigned little-endian integer that `s` spells. */
  function LE(s: seq<byte>): nat {
    if s == [] then 0 else s[0] + 256 * LE(s[1..])
  }

  function EncLE(v: nat, n: nat): (s: seq<byte>)
    ensures |s| == n
  {
    if n == 0 then [] else [v % 256] + EncLE(v / 256, n - 1)
  }

  lemma {:induction false} DecodeEncodeLE(v: nat, n: nat)
    requires v < Pow256(n)
    ensures LE(EncLE(v, n)) == v
  {
    if n > 0 {
      DecodeEncodeLE(v / 256, n - 1);
      assert EncLE(v, n)[1..] == EncLE(v / 256, n - 1);
    }
  }

  lemma {:induction false} Enc32(v: word)
    ensures LE(EncLE(v, 4)) == v
  {
    assert Pow256(4) == 0x1_0000_0000;
    DecodeEncodeLE(v, 4);
  }

  lemma {:induction false} Enc64(v: nat)
    requires v < 0x1_0000_0000_0000_0000
    ensures LE(EncLE(v, 8)) == v
  {
    assert Pow256(8) == 0x1_0000_0000_0000_0000 by { assert Pow256(4) == 0x1_0000_0000; }
    DecodeEncodeLE(v, 8);
  }

  function U32(s: seq<byte>, offset: nat): nat
    requires offset + 4 <= |s|
  {
    LE(s[offset..offset + 4])
  }

  function U64(s: seq<byte>, offset: nat): nat
    requires offset + 8 <= |s|
  {
    LE(s[offset..offset + 8])
  }

  function Zeros(n: nat): (s: seq<byte>)
    ensures |s| == n && forall i :: 0 <= i < n ==> s[i] == 0
  {
    seq(n, _ => 0)
  }

  /** The bytes of an ASCII literal. */
  function Ascii(s: string): (b: seq<byte>)
    requires forall i :: 0 <= i < |s| ==> s[i] < 128 as char
    ensures |b| == |s|
  {
    if s == [] then [] else [s[0] as nat] + Ascii(s[1..])
  }

  /** The 16-bit code units of a little-endian UTF-16 field. */
  function Units(b: seq<byte>): (u: seq<nat>)
    requires |b| % 2 == 0
    ensures |u| == |b| / 2
    ensures forall i :: 0 <= i < |u| ==> u[i] == b[2 * i] as int + 256 * b[2 * i + 1] as int
  {
    seq(|b| / 2, i requires 0 <= i < |b| / 2 => b[2 * i] as int + 256 * b[2 * i + 1] as int)
  }

  /** The code points of a run of code units, or None for a lone surrogate. */
  function CodePoints(u: seq<nat>): Option<seq<nat>> {
    if u == [] then Some([])
    else if 0xD800 <= u[0] < 0xDC00 then
      if |u| >= 2 && 0xDC00 <= u[1] < 0xE000 then
        var rest := CodePoints(u[2..]);
        if rest.None? then None
        else Some([0x10000 + 0x400 * (u[0] - 0xD800) + (u[1] - 0xDC00)] + rest.value)
      else None
    else if 0xDC00 <= u[0] < 0xE000 then None
    else
      var rest := CodePoints(u[1..]);
      if rest.None? then None else Some([u[0]] + rest.value)
  }

  function BeforeNul(s: seq<nat>): seq<nat> {
    if s == [] || s[0] == 0 then [] else [s[0]] + BeforeNul(s[1..])
  }

  /** A NUL-terminated (or full-width) UTF-16 field; None when it does not decode. */
  function Text(b: seq<byte>): Option<seq<nat>>
    requires |b| % 2 == 0
  {
    var decoded := CodePoints(Units(b));
    if decoded.None? then None else Some(BeforeNul(decoded.value))
  }

  /** Text without surrogates or NUL, such as every name the formats define. */
  predicate Plain(s: seq<nat>) {
    forall i :: 0 <= i < |s| ==> 0 < s[i] < 0xD800
  }

  function TextByte(s: seq<nat>, i: nat): byte
    requires Plain(s)
  {
    if i / 2 >= |s| then 0 else if i % 2 == 0 then s[i / 2] % 256 else s[i / 2] / 256
  }

  /** A field of `width` bytes that holds `s` and then zeros. */
  function EncText(s: seq<nat>, width: nat): (b: seq<byte>)
    requires Plain(s)
    ensures |b| == width
  {
    seq(width, i requires 0 <= i < width => TextByte(s, i))
  }

  lemma {:induction false} PlainCodePoints(u: seq<nat>)
    requires forall i :: 0 <= i < |u| ==> u[i] < 0xD800
    ensures CodePoints(u) == Some(u)
  {
    if u != [] {
      PlainCodePoints(u[1..]);
      assert u == [u[0]] + u[1..];
    }
  }

  lemma {:induction false} BeforeNulOf(s: seq<nat>, u: seq<nat>)
    requires |s| <= |u| && u[..|s|] == s && Plain(s)
    requires |s| < |u| ==> u[|s|] == 0
    ensures BeforeNul(u) == s
  {
    if s != [] {
      assert s[0] == u[0];
      assert u[1..][..|s| - 1] == s[1..];
      BeforeNulOf(s[1..], u[1..]);
    }
  }

  lemma UnitOfText(s: seq<nat>, i: nat)
    requires Plain(s)
    ensures TextByte(s, 2 * i) as int + 256 * TextByte(s, 2 * i + 1) as int == if i < |s| then s[i] else 0
  {
    assert (2 * i) / 2 == i && (2 * i + 1) / 2 == i && (2 * i) % 2 == 0 && (2 * i + 1) % 2 == 1;
  }

  lemma DecodeEncodeText(s: seq<nat>, width: nat)
    requires Plain(s) && 2 * |s| <= width && width % 2 == 0
    ensures Text(EncText(s, width)) == Some(s)
  {
    var u := Units(EncText(s, width));
    forall i | 0 <= i < |u|
      ensures u[i] == if i < |s| then s[i] else 0
    {
      UnitOfText(s, i);
    }
    assert u[..|s|] == s;
    PlainCodePoints(u);
    BeforeNulOf(s, u);
  }
}
