/**
 UTF-8 as RFC 3629 section 3 defines it. A Dafny `char` is a Unicode scalar value, like a Rust
 `char`, so `string` is the model of a Rust `str` and `Encode` of its bytes.
 */
module Utf8 {
  import opened Wrappers
  import Sequences

  type byte = b: int | 0 <= b < 256

  function EncodeChar(c: char): (bs: seq<byte>)
    ensures 1 <= |bs| <= 4
  {
    var n := c as int;
    if n < 0x80 then [n]
    else if n < 0x800 then [0xC0 + n / 0x40, 0x80 + n % 0x40]
    else if n < 0x10000 then [0xE0 + n / 0x1000, 0x80 + n / 0x40 % 0x40, 0x80 + n % 0x40]
    else [0xF0 + n / 0x40000, 0x80 + n / 0x1000 % 0x40, 0x80 + n / 0x40 % 0x40, 0x80 + n % 0x40]
  }

  function Encode(s: string): seq<byte> {
    if s == "" then [] else EncodeChar(s[0]) + Encode(s[1..])
  }

  predicate Tail(b: byte) { 0x80 <= b < 0xC0 }

  /** The payload bits of a byte whose marker bits are `marker`. */
  function Bits(b: byte, marker: int): int { b as int - marker }

  /** The scalar at the front of `bs` and its length, by the syntax of RFC 3629 section 4. */
  function DecodeChar(bs: seq<byte>): (r: Option<(char, nat)>)
    ensures r.Some? ==> 1 <= r.value.1 <= |bs|
  {
    if |bs| >= 1 && bs[0] < 0x80 then
      Some((bs[0] as char, 1))
    else if |bs| >= 2 && 0xC2 <= bs[0] < 0xE0 && Tail(bs[1]) then
      Some(((Bits(bs[0], 0xC0) * 0x40 + Bits(bs[1], 0x80)) as char, 2))
    else if |bs| >= 3 && 0xE0 <= bs[0] < 0xF0 && Tail(bs[1]) && Tail(bs[2])
            && (bs[0] == 0xE0 ==> bs[1] >= 0xA0) && (bs[0] == 0xED ==> bs[1] < 0xA0) then
      Some(((Bits(bs[0], 0xE0) * 0x1000 + Bits(bs[1], 0x80) * 0x40 + Bits(bs[2], 0x80)) as char, 3))
    else if |bs| >= 4 && 0xF0 <= bs[0] < 0xF5 && Tail(bs[1]) && Tail(bs[2]) && Tail(bs[3])
            && (bs[0] == 0xF0 ==> bs[1] >= 0x90) && (bs[0] == 0xF4 ==> bs[1] < 0x90) then
      Some(((Bits(bs[0], 0xF0) * 0x40000 + Bits(bs[1], 0x80) * 0x1000
             + Bits(bs[2], 0x80) * 0x40 + Bits(bs[3], 0x80)) as char, 4))
    else
      None
  }

  /** The text `bs` encodes, or `None` when `bs` is not well-formed UTF-8. */
  function Decode(bs: seq<byte>): Option<string> {
    if bs == [] then Some("") else
    match DecodeChar(bs)
    case None => None
    case Some((c, n)) =>
      var rest := Decode(bs[n..]);
      if rest.None? then None else Some([c] + rest.value)
  }

  lemma DecodeEncodedChar(c: char, rest: seq<byte>)
    ensures DecodeChar(EncodeChar(c) + rest) == Some((c, |EncodeChar(c)|))
  {
    var n := c as int;
    assert n / 0x1000 == n / 0x40 / 0x40;
    assert n / 0x40000 == n / 0x1000 / 0x40;
  }

  /** Base-64 digits are recovered by division. */
  lemma Digits(hi: nat, lo: nat, n: int)
    requires lo < 0x40 && n == hi * 0x40 + lo
    ensures n / 0x40 == hi && n % 0x40 == lo
  {
  }

  lemma EncodeDecodedChar(bs: seq<byte>)
    requires DecodeChar(bs).Some?
    ensures EncodeChar(DecodeChar(bs).value.0) == bs[..DecodeChar(bs).value.1]
  {
    var (c, k) := DecodeChar(bs).value;
    var n := c as int;
    if k == 2 {
      Digits(Bits(bs[0], 0xC0), Bits(bs[1], 0x80), n);
    } else if k == 3 {
      var hi := Bits(bs[0], 0xE0) * 0x40 + Bits(bs[1], 0x80);
      Digits(hi, Bits(bs[2], 0x80), n);
      Digits(Bits(bs[0], 0xE0), Bits(bs[1], 0x80), hi);
      assert n / 0x1000 == hi / 0x40;
    } else if k == 4 {
      var top := Bits(bs[0], 0xF0) * 0x40 + Bits(bs[1], 0x80);
      var hi := top * 0x40 + Bits(bs[2], 0x80);
      Digits(hi, Bits(bs[3], 0x80), n);
      Digits(top, Bits(bs[2], 0x80), hi);
      Digits(Bits(bs[0], 0xF0), Bits(bs[1], 0x80), top);
      assert n / 0x1000 == hi / 0x40;
      assert n / 0x40000 == top / 0x40;
    }
  }

  /** `Encode` is the exact inverse of `Decode`: its range is the well-formed byte strings. */
  lemma {:induction false} DecodeEncode(s: string)
    ensures Decode(Encode(s)) == Some(s)
  {
    if s != "" {
      DecodeEncodedChar(s[0], Encode(s[1..]));
      assert Encode(s)[|EncodeChar(s[0])|..] == Encode(s[1..]);
      DecodeEncode(s[1..]);
      assert [s[0]] + s[1..] == s;
    }
  }

  lemma {:induction false} EncodeDecode(bs: seq<byte>)
    requires Decode(bs).Some?
    ensures Encode(Decode(bs).value) == bs
  {
    hide DecodeChar, EncodeChar;
    if bs != [] {
      EncodeDecodedChar(bs);
      var (c, n) := DecodeChar(bs).value;
      EncodeDecode(bs[n..]);
      assert Decode(bs).value[1..] == Decode(bs[n..]).value;
      assert bs[..n] + bs[n..] == bs;
    }
  }

  lemma {:induction false} EncodeConcat(s: string, t: string)
    ensures Encode(s + t) == Encode(s) + Encode(t)
  {
    if s == "" {
      assert s + t == t;
    } else {
      hide EncodeChar;
      EncodeConcat(s[1..], t);
      assert (s + t)[1..] == s[1..] + t && (s + t)[0] == s[0];
      Sequences.Assoc(EncodeChar(s[0]), Encode(s[1..]), Encode(t));
    }
  }

  ghost predicate NoControl(s: string) {
    forall i :: 0 <= i < |s| ==> s[i] as int >= 0x20
  }

  ghost predicate NoControlByte(bs: seq<byte>) {
    forall i :: 0 <= i < |bs| ==> bs[i] >= 0x20
  }

  lemma NoControlByteConcat(a: seq<byte>, b: seq<byte>)
    ensures NoControlByte(a + b) <==> NoControlByte(a) && NoControlByte(b)
  {
    if NoControlByte(a + b) {
      assert forall i :: 0 <= i < |a| ==> a[i] == (a + b)[i];
      assert forall i :: 0 <= i < |b| ==> b[i] == (a + b)[|a| + i];
    }
  }

  /** Only a control character puts a byte below 0x20 into the encoding. */
  lemma {:induction false} ControlFreeBytes(s: string)
    ensures NoControl(s) <==> NoControlByte(Encode(s))
  {
    if s != "" {
      ControlFreeBytes(s[1..]);
      NoControlByteConcat(EncodeChar(s[0]), Encode(s[1..]));
      assert EncodeChar(s[0])[0] < 0x20 <==> s[0] as int < 0x20;
      assert NoControl(s) <==> s[0] as int >= 0x20 && NoControl(s[1..]) by {
        assert s == [s[0]] + s[1..];
      }
    }
  }
}
