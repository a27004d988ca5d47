/** The names under which the addresses are looked up in reverse: bytes of an IPv4 address in
    decimal, half bytes of an IPv6 address in hex, the last first. */
module ReverseNames {
  import opened Decimal

  type Byte = b: int | 0 <= b < 256

  const HEX := "0123456789abcdef"
  const V4_ZONE := "in-addr.arpa."
  const V6_ZONE := "ip6.arpa."

  function Reverse4(a: seq<Byte>): string
    requires |a| == 4
  {
    FormatUint(a[3]) + "." + FormatUint(a[2]) + "." + FormatUint(a[1]) + "." + FormatUint(a[0]) + "." + V4_ZONE
  }

  /** The half bytes of the bytes, the last first, each with a dot. */
  function Nibbles(a: seq<Byte>): (name: string)
    ensures |name| == 4 * |a|
  {
    if a == [] then "" else Nibbles(a[1..]) + [HEX[a[0] % 16], '.', HEX[a[0] / 16], '.']
  }

  function NameOf(a: seq<Byte>): string
    requires |a| == 4 || |a| == 16
  {
    if |a| == 4 then Reverse4(a) else Nibbles(a) + V6_ZONE
  }

  method ReverseName(a: seq<Byte>) returns (name: string)
    requires |a| == 4 || |a| == 16
    ensures name == NameOf(a)
  {
    if |a| == 4 { return Reverse4(a); }
    name := "";
    for i := |a| downto 0
      invariant name == Nibbles(a[i..])
    {
      name := name + [HEX[a[i] % 16]] + ['.'] + [HEX[a[i] / 16]] + ['.'];
      assert a[i..][1..] == a[i + 1..];
    }
    name := name + V6_ZONE;
  }

  // ----- different addresses have different names

  lemma HexDiffers(m: nat, n: nat)
    requires m < 16 && n < 16 && HEX[m] == HEX[n]
    ensures m == n
  {
  }

  lemma {:induction false} NibblesInjective(a: seq<Byte>, b: seq<Byte>)
    requires |a| == |b| && Nibbles(a) == Nibbles(b)
    ensures a == b
    decreases |a|
  {
    if a != [] {
      var n := 4 * (|a| - 1);
      assert Nibbles(a[1..]) == Nibbles(a)[..n] && Nibbles(b[1..]) == Nibbles(b)[..n];
      NibblesInjective(a[1..], b[1..]);
      assert Nibbles(a)[n] == HEX[a[0] % 16] && Nibbles(a)[n + 2] == HEX[a[0] / 16];
      assert Nibbles(b)[n] == HEX[b[0] % 16] && Nibbles(b)[n + 2] == HEX[b[0] / 16];
      HexDiffers(a[0] % 16, b[0] % 16);
      HexDiffers(a[0] / 16, b[0] / 16);
      assert a[0] == a[0] / 16 * 16 + a[0] % 16 == b[0];
      assert a == [a[0]] + a[1..] && b == [b[0]] + b[1..];
    }
  }

  lemma FromTheLast(a: seq<Byte>)
    requires |a| == 4
    ensures Reverse4(a) == FormatUint(a[3]) + "." + (FormatUint(a[2]) + "." + (FormatUint(a[1]) + "."
                           + (FormatUint(a[0]) + "." + V4_ZONE)))
  {
    hide FormatUint;
    var p, q, r, t := FormatUint(a[3]), FormatUint(a[2]), FormatUint(a[1]), FormatUint(a[0]) + "." + V4_ZONE;
    assert p + "." + q + "." + r + "." + t == p + "." + (q + "." + (r + "." + t));
    assert Reverse4(a) == p + "." + q + "." + r + "." + t;
  }

  lemma Reverse4Injective(a: seq<Byte>, b: seq<Byte>)
    requires |a| == |b| == 4 && Reverse4(a) == Reverse4(b)
    ensures a == b
  {
    hide FormatUint, Reverse4;
    var a0, b0 := FormatUint(a[0]) + "." + V4_ZONE, FormatUint(b[0]) + "." + V4_ZONE;
    var a1, b1 := FormatUint(a[1]) + "." + a0, FormatUint(b[1]) + "." + b0;
    var a2, b2 := FormatUint(a[2]) + "." + a1, FormatUint(b[2]) + "." + b1;
    FromTheLast(a);
    FromTheLast(b);
    NumberThenMark(a[3], a2, b[3], b2, '.');
    NumberThenMark(a[2], a1, b[2], b1, '.');
    NumberThenMark(a[1], a0, b[1], b0, '.');
    NumberThenMark(a[0], V4_ZONE, b[0], V4_ZONE, '.');
  }

  lemma ReverseNamesDiffer(a: seq<Byte>, b: seq<Byte>)
    requires (|a| == 4 || |a| == 16) && (|b| == 4 || |b| == 16) && a != b
    ensures NameOf(a) != NameOf(b)
  {
    hide FormatUint, Nibbles, Reverse4;
    if |a| == |b| == 4 {
      if Reverse4(a) == Reverse4(b) { Reverse4Injective(a, b); }
    } else if |a| == |b| {
      if NameOf(a) == NameOf(b) {
        assert Nibbles(a) == NameOf(a)[..64] && Nibbles(b) == NameOf(b)[..64];
        NibblesInjective(a, b);
      }
    } else {
      Zones(a);
      Zones(b);
    }
  }

  /** The families are told apart by the zone. */
  lemma Zones(a: seq<Byte>)
    requires |a| == 4 || |a| == 16
    ensures |NameOf(a)| > 7 && NameOf(a)[|NameOf(a)| - 7] == if |a| == 4 then 'r' else '6'
  {
    hide FormatUint, Nibbles;
    if |a| == 4 {
      var head := FormatUint(a[3]) + "." + FormatUint(a[2]) + "." + FormatUint(a[1]) + "." + FormatUint(a[0]) + ".";
      assert Reverse4(a) == head + V4_ZONE;
      assert V4_ZONE[6] == 'r';
    } else {
      assert V6_ZONE[2] == '6' && |V6_ZONE| == 9;
    }
  }

  // ----- the address as a number

  /** The bytes as one number, the most significant first. */
  function Value(a: seq<Byte>): nat {
    if a == [] then 0 else Value(a[..|a| - 1]) * 256 + a[|a| - 1]
  }

  function HexDigit(d: nat): char
    requires d < 16
  {
    if d < 10 then '0' + d as char else 'a' + (d - 10) as char
  }

  lemma HexDigits(d: nat)
    requires d < 16
    ensures HEX[d] == HexDigit(d)
  {
  }

  /** The number spelled from its least significant digit, each with a dot. */
  function Spelled(n: nat, base: nat, digits: nat): string
    requires base == 16 || base == 256
  {
    if digits == 0 then ""
    else (if base == 16 then [HexDigit(n % 16)] else FormatUint(n % 256)) + "." + Spelled(n / base, base, digits - 1)
  }

  lemma {:induction false} NibblesFromTheLast(a: seq<Byte>, last: Byte)
    ensures Nibbles(a + [last]) == [HEX[last % 16], '.', HEX[last / 16], '.'] + Nibbles(a)
    decreases |a|
  {
    var t := a + [last];
    if a == [] {
      assert t[1..] == [];
    } else {
      assert t[1..] == a[1..] + [last] && t[0] == a[0];
      NibblesFromTheLast(a[1..], last);
    }
  }

  lemma HalfBytes(n: nat, last: Byte)
    ensures (n * 256 + last) % 16 == last % 16 && (n * 256 + last) / 16 % 16 == last / 16
    ensures (n * 256 + last) / 16 / 16 == n
  {
    assert n * 256 + last == (n * 16 + last / 16) * 16 + last % 16;
    assert (n * 256 + last) / 16 == n * 16 + last / 16;
  }

  lemma {:induction false} NibblesSpell(a: seq<Byte>)
    ensures Nibbles(a) == Spelled(Value(a), 16, 2 * |a|)
    decreases |a|
  {
    hide Nibbles;
    if a == [] {
      NoNibbles();
    } else {
      var init, last := a[..|a| - 1], a[|a| - 1];
      assert a == init + [last];
      NibblesSpell(init);
      NibblesFromTheLast(init, last);
      HalfBytes(Value(init), last);
      SpellTwo(Value(a), 2 * |init|);
    }
  }

  lemma NoNibbles()
    ensures Nibbles([]) == ""
  {
  }

  lemma SpellTwo(n: nat, digits: nat)
    ensures Spelled(n, 16, digits + 2) == [HEX[n % 16], '.', HEX[n / 16 % 16], '.'] + Spelled(n / 16 / 16, 16, digits)
  {
    HexDigits(n % 16);
    HexDigits(n / 16 % 16);
    assert Spelled(n, 16, digits + 2) == [HexDigit(n % 16)] + "." + Spelled(n / 16, 16, digits + 1);
  }

  lemma BytesOf(n: nat, last: Byte)
    ensures (n * 256 + last) % 256 == last && (n * 256 + last) / 256 == n
  {
  }

  lemma {:induction false} BytesSpell(a: seq<Byte>, last: Byte)
    ensures Spelled(Value(a + [last]), 256, |a| + 1) == FormatUint(last) + "." + Spelled(Value(a), 256, |a|)
  {
    hide FormatUint;
    assert (a + [last])[..|a|] == a;
    BytesOf(Value(a), last);
  }

  lemma SpellFour(a: seq<Byte>)
    requires |a| == 4
    ensures Spelled(Value(a), 256, 4) + V4_ZONE == Reverse4(a)
  {
    hide FormatUint, Spelled, Value;
    assert a == a[..3] + [a[3]] && a[..3] == a[..2] + [a[2]] && a[..2] == a[..1] + [a[1]] && a[..1] == [] + [a[0]];
    BytesSpell(a[..3], a[3]);
    BytesSpell(a[..2], a[2]);
    BytesSpell(a[..1], a[1]);
    BytesSpell([], a[0]);
    NothingSpelled(Value([]));
    var p, q, r, t := FormatUint(a[3]), FormatUint(a[2]), FormatUint(a[1]), FormatUint(a[0]);
    assert p + "." + (q + "." + (r + "." + (t + "." + ""))) == p + "." + q + "." + r + "." + t + ".";
  }

  lemma NothingSpelled(n: nat)
    ensures Spelled(n, 256, 0) == ""
  {
  }

  /** The reverse name spells the address as one number, the least significant digit first: four
      decimal bytes, or thirty-two hexadecimal digits, and the zone of its family. */
  lemma NameSpellsTheNumber(a: seq<Byte>)
    ensures |a| == 4 ==> NameOf(a) == Spelled(Value(a), 256, 4) + "in-addr.arpa."
    ensures |a| == 16 ==> NameOf(a) == Spelled(Value(a), 16, 32) + "ip6.arpa."
  {
    hide FormatUint, Reverse4, Spelled, Value, Nibbles;
    if |a| == 4 { SpellFour(a); }
    NibblesSpell(a);
  }
}
