/** Which byte strings are UTF-8: the table of section 4 of RFC 3629, and what it stands for. A
    byte is a character below 256. */
module Utf8 {
  import opened Outcomes

  type Scalar = r: int | 0 <= r < 0xD800 || 0xE000 <= r < 0x110000

  predicate Tail(c: char) {
    0x80 <= c as int < 0xC0
  }

  /** The length of the sequence that the string starts with, if it is well formed. */
  function SequenceLength(s: string): (n: Option<nat>)
    ensures n.Some? ==> 1 <= n.value <= |s|
  {
    if s == "" then None
    else
      var b := s[0] as int;
      if b < 0x80 then Some(1)
      else if 0xC2 <= b < 0xE0 then if |s| >= 2 && Tail(s[1]) then Some(2) else None
      else if 0xE0 <= b < 0xF0 then
        if |s| >= 3 && Tail(s[1]) && Tail(s[2])
           && (b == 0xE0 ==> s[1] as int >= 0xA0) && (b == 0xED ==> s[1] as int < 0xA0)
        then Some(3) else None
      else if 0xF0 <= b < 0xF5 then
        if |s| >= 4 && Tail(s[1]) && Tail(s[2]) && Tail(s[3])
           && (b == 0xF0 ==> s[1] as int >= 0x90) && (b == 0xF4 ==> s[1] as int < 0x90)
        then Some(4) else None
      else None
  }

  predicate ValidUtf8(s: string)
    decreases |s|
  {
    s == "" || (SequenceLength(s).Some? && ValidUtf8(s[SequenceLength(s).value..]))
  }

  // ----- what the table stands for

  function Byte(n: int): char
    requires 0 <= n < 256
  {
    n as char
  }

  function Encode(r: Scalar): (s: string)
    ensures s != ""
  {
    if r < 0x80 then [Byte(r)]
    else if r < 0x800 then [Byte(0xC0 + r / 64), Byte(0x80 + r % 64)]
    else if r < 0x10000 then [Byte(0xE0 + r / 64 / 64), Byte(0x80 + r / 64 % 64), Byte(0x80 + r % 64)]
    else [Byte(0xF0 + r / 64 / 64 / 64), Byte(0x80 + r / 64 / 64 % 64), Byte(0x80 + r / 64 % 64), Byte(0x80 + r % 64)]
  }

  function EncodeAll(runes: seq<Scalar>): string {
    if runes == [] then "" else Encode(runes[0]) + EncodeAll(runes[1..])
  }

  lemma EncodedSequence(r: Scalar, rest: string)
    ensures SequenceLength(Encode(r) + rest) == Some(|Encode(r)|)
  {
    var e, s := Encode(r), Encode(r) + rest;
    assert s[0] == e[0];
    if |e| > 1 { assert s[1] == e[1]; }
    if |e| > 2 { assert s[2] == e[2]; }
    if |e| > 3 { assert s[3] == e[3]; }
  }

  lemma {:induction false} EncodingsAreValid(runes: seq<Scalar>)
    ensures ValidUtf8(EncodeAll(runes))
    decreases |runes|
  {
    hide Encode, SequenceLength;
    if runes != [] {
      var e, rest := Encode(runes[0]), EncodeAll(runes[1..]);
      EncodedSequence(runes[0], rest);
      EncodingsAreValid(runes[1..]);
      assert (e + rest)[|e|..] == rest;
    }
  }

  function Low(c: char): int {
    c as int - 0x80
  }

  lemma LastDigit(q: nat, d: nat)
    requires d < 64
    ensures (q * 64 + d) / 64 == q && (q * 64 + d) % 64 == d
  {
  }

  lemma DecodeTwo(s: string) returns (r: Scalar)
    requires SequenceLength(s) == Some(2)
    ensures Encode(r) == s[..2]
  {
    var a, b := s[0] as int - 0xC0, Low(s[1]);
    LastDigit(a, b);
    r := a * 64 + b;
    assert Encode(r) == [s[0], s[1]];
  }

  lemma DecodeThree(s: string) returns (r: Scalar)
    requires SequenceLength(s) == Some(3)
    ensures Encode(r) == s[..3]
  {
    var a, b, c := s[0] as int - 0xE0, Low(s[1]), Low(s[2]);
    LastDigit(a, b);
    LastDigit(a * 64 + b, c);
    r := (a * 64 + b) * 64 + c;
    assert Encode(r) == [s[0], s[1], s[2]];
  }

  lemma DecodeFour(s: string) returns (r: Scalar)
    requires SequenceLength(s) == Some(4)
    ensures Encode(r) == s[..4]
  {
    var a, b, c, d := s[0] as int - 0xF0, Low(s[1]), Low(s[2]), Low(s[3]);
    LastDigit(a, b);
    LastDigit(a * 64 + b, c);
    LastDigit((a * 64 + b) * 64 + c, d);
    r := ((a * 64 + b) * 64 + c) * 64 + d;
    assert Encode(r) == [s[0], s[1], s[2], s[3]];
  }

  lemma DecodeSequence(s: string) returns (r: Scalar)
    requires SequenceLength(s).Some?
    ensures Encode(r) == s[..SequenceLength(s).value]
  {
    match SequenceLength(s).value
    case 1 => r := s[0] as int;
    case 2 => r := DecodeTwo(s);
    case 3 => r := DecodeThree(s);
    case _ => r := DecodeFour(s);
  }

  lemma {:induction false} ValidIsEncoding(s: string) returns (runes: seq<Scalar>)
    requires ValidUtf8(s)
    ensures EncodeAll(runes) == s
    decreases |s|
  {
    hide Encode, SequenceLength;
    if s == "" {
      runes := [];
    } else {
      var n := SequenceLength(s).value;
      var r := DecodeSequence(s);
      var rest := ValidIsEncoding(s[n..]);
      runes := [r] + rest;
      assert runes[1..] == rest && s == s[..n] + s[n..];
    }
  }

  /** A string is valid exactly when it encodes some sequence of scalar values. */
  lemma ValidExactlyEncodings(s: string)
    ensures ValidUtf8(s) <==> exists runes :: EncodeAll(runes) == s
  {
    hide ValidUtf8, EncodeAll;
    if ValidUtf8(s) { var runes := ValidIsEncoding(s); }
    if runes :| EncodeAll(runes) == s { EncodingsAreValid(runes); }
  }
}
