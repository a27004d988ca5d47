/** The socket policy of a Worker: destination prefixes allowed and denied, the longest matching
    prefix deciding and a tie denying, and the denials that keep local addresses out.

    An address is the sequence of its bits, 32 or 128 of them. The named rules, whose meaning
    belongs to the runtime that applies the policy, match nothing here. */
module SocketPolicy {
  type Bits = seq<bool>

  /** A prefix as it was written: its base address, host bits and all, and its length. */
  datatype Prefix = Prefix(base: Bits, length: nat)

  datatype Rule = Named(name: string) | Cidr(prefix: Prefix)

  predicate ValidPrefix(p: Prefix) {
    (|p.base| == 32 || |p.base| == 128) && p.length <= |p.base|
  }

  predicate ValidRules(rules: seq<Rule>) {
    forall i :: 0 <= i < |rules| && rules[i].Cidr? ==> ValidPrefix(rules[i].prefix)
  }

  predicate Contains(p: Prefix, a: Bits)
    requires ValidPrefix(p)
  {
    |a| == |p.base| && a[..p.length] == p.base[..p.length]
  }

  /** The bits of a number, the most significant first. */
  function BitsOf(n: nat, width: nat): (bits: Bits)
    ensures |bits| == width
  {
    if width == 0 then [] else BitsOf(n / 2, width - 1) + [n % 2 == 1]
  }

  /** 127.0.0.0/8, ::1/128, 169.254.0.0/16 and fe80::/10. */
  const LOCAL_RANGES: seq<Prefix> := [
    Prefix(BitsOf(127, 8) + BitsOf(0, 24), 8),
    Prefix(BitsOf(1, 128), 128),
    Prefix(BitsOf(169, 8) + BitsOf(254, 8) + BitsOf(0, 16), 16),
    Prefix(BitsOf(0xfe80, 16) + BitsOf(0, 112), 10)
  ]

  lemma LocalRangesValid()
    ensures forall i :: 0 <= i < |LOCAL_RANGES| ==> ValidPrefix(LOCAL_RANGES[i])
  {
    hide BitsOf;
  }

  predicate Local(a: Bits) {
    exists i :: 0 <= i < |LOCAL_RANGES| && ValidPrefix(LOCAL_RANGES[i]) && Contains(LOCAL_RANGES[i], a)
  }

  /** The rules written as prefixes whose base is a local address. */
  function WithLocalBase(rules: seq<Rule>): seq<Rule> {
    if rules == [] then []
    else
      var last := rules[|rules| - 1];
      WithLocalBase(rules[..|rules| - 1]) + (if last.Cidr? && Local(last.prefix.base) then [last] else [])
  }

  function LocalRules(): seq<Rule> {
    seq(|LOCAL_RANGES|, i requires 0 <= i < |LOCAL_RANGES| => Cidr(LOCAL_RANGES[i]))
  }

  function EffectiveDeny(allow: seq<Rule>, deny: seq<Rule>, allowLocal: bool): seq<Rule> {
    if allowLocal then deny
    else deny + [Named("local")] + LocalRules() + WithLocalBase(allow)
  }

  method BuildDeny(allow: seq<Rule>, deny: seq<Rule>, allowLocal: bool) returns (effective: seq<Rule>)
    requires ValidRules(allow)
    ensures effective == EffectiveDeny(allow, deny, allowLocal)
  {
    hide BitsOf, LOCAL_RANGES;
    effective := deny;
    if !allowLocal {
      LocalRangesValid();
      var localRanges := LOCAL_RANGES;
      effective := effective + [Named("local")] + LocalRules();
      ghost var defaults := effective;
      for i := 0 to |allow|
        invariant effective == defaults + WithLocalBase(allow[..i])
      {
        assert allow[..i + 1][..i] == allow[..i];
        if allow[i].Cidr? {
          var base := allow[i].prefix.base;
          for j := 0 to |localRanges|
            invariant effective == defaults + WithLocalBase(allow[..i])
            invariant forall k :: 0 <= k < j ==> !Contains(localRanges[k], base)
          {
            if Contains(localRanges[j], base) {
              assert Local(base);
              effective := effective + [allow[i]];
              break;
            }
          }
        }
      }
      assert allow[..|allow|] == allow;
    }
  }

  // ----- the policy

  predicate Matches(rule: Rule, a: Bits) {
    rule.Cidr? && ValidPrefix(rule.prefix) && Contains(rule.prefix, a)
  }

  function Length(rule: Rule): nat {
    match rule case Cidr(p) => p.length case Named(_) => 0
  }

  predicate HasLocalBase(rule: Rule) {
    rule.Cidr? && Local(rule.prefix.base)
  }

  /** Some rule matches the address with at least this many bits. */
  predicate AtLeast(rules: seq<Rule>, a: Bits, length: nat) {
    exists i :: 0 <= i < |rules| && Matches(rules[i], a) && Length(rules[i]) >= length
  }

  /** The longest match is an allowed one, and longer than any denied one. */
  predicate Permits(allow: seq<Rule>, deny: seq<Rule>, a: Bits) {
    exists i :: 0 <= i < |allow| && Matches(allow[i], a) && !AtLeast(deny, a, Length(allow[i]))
  }

  /** The prefixes of one address share its bits: the longer one's base lies in the shorter. */
  lemma LongerIsInside(shorter: Prefix, longer: Prefix, a: Bits)
    requires ValidPrefix(shorter) && ValidPrefix(longer) && Contains(shorter, a) && Contains(longer, a)
    requires shorter.length <= longer.length
    ensures Contains(shorter, longer.base)
  {
    assert a[..shorter.length] == a[..longer.length][..shorter.length];
    assert longer.base[..shorter.length] == longer.base[..longer.length][..shorter.length];
  }

  lemma {:induction false} WithLocalBaseMembers(rules: seq<Rule>)
    ensures forall r :: r in WithLocalBase(rules) <==> r in rules && HasLocalBase(r)
    decreases |rules|
  {
    hide Local;
    if rules != [] {
      var init, last := rules[..|rules| - 1], rules[|rules| - 1];
      assert rules == init + [last];
      WithLocalBaseMembers(init);
    }
  }

  lemma DenyMembers(allow: seq<Rule>, deny: seq<Rule>, r: Rule)
    ensures r in EffectiveDeny(allow, deny, false) <==>
      r in deny || r == Named("local") || r in LocalRules() || r in WithLocalBase(allow)
  {
    hide LOCAL_RANGES;
  }

  lemma AtLeastBy(rules: seq<Rule>, a: Bits, r: Rule, length: nat)
    requires r in rules && Matches(r, a) && Length(r) >= length
    ensures AtLeast(rules, a, length)
  {
    var i :| 0 <= i < |rules| && rules[i] == r;
  }

  /** Unless local access is allowed, no list of allowed prefixes reaches a local address: some
      denied prefix matches it with at least as many bits as any allowed one, whatever host bits
      the allowed prefix was written with. */
  lemma LocalIsNeverPermitted(allow: seq<Rule>, deny: seq<Rule>, a: Bits)
    requires ValidRules(allow) && Local(a)
    ensures !Permits(allow, EffectiveDeny(allow, deny, false), a)
  {
    hide LOCAL_RANGES, Contains, WithLocalBase, EffectiveDeny, AtLeast;
    var denied := EffectiveDeny(allow, deny, false);
    LocalRangesValid();
    var k :| 0 <= k < |LOCAL_RANGES| && Contains(LOCAL_RANGES[k], a);
    var range := LOCAL_RANGES[k];
    forall i | 0 <= i < |allow| && Matches(allow[i], a)
      ensures AtLeast(denied, a, Length(allow[i]))
    {
      var p := allow[i].prefix;
      if p.length <= range.length {
        assert LocalRules()[k] == Cidr(range);
        DenyMembers(allow, deny, Cidr(range));
        AtLeastBy(denied, a, Cidr(range), p.length);
      } else {
        LongerIsInside(range, p, a);
        WithLocalBaseMembers(allow);
        DenyMembers(allow, deny, allow[i]);
        AtLeastBy(denied, a, allow[i], p.length);
      }
    }
  }

  // ----- what is local, and what is denied

  /** The number that the bits spell, the most significant first. */
  function Number(bits: Bits): nat {
    if bits == [] then 0 else 2 * Number(bits[..|bits| - 1]) + if bits[|bits| - 1] then 1 else 0
  }

  function Power2(n: nat): (p: nat)
    ensures p > n
  {
    if n == 0 then 1 else 2 * Power2(n - 1)
  }

  lemma {:induction false} NumberOfBits(n: nat, width: nat)
    requires n < Power2(width)
    ensures Number(BitsOf(n, width)) == n
  {
    if width > 0 {
      NumberOfBits(n / 2, width - 1);
      BitsInit(n, width);
    }
  }

  lemma BitsInit(n: nat, width: nat)
    requires width > 0
    ensures BitsOf(n, width)[..width - 1] == BitsOf(n / 2, width - 1)
  {
  }

  lemma {:induction false} NumbersDiffer(a: Bits, b: Bits)
    requires |a| == |b| && Number(a) == Number(b)
    ensures a == b
    decreases |a|
  {
    if a != [] {
      var n := |a| - 1;
      NumbersDiffer(a[..n], b[..n]);
      assert a == a[..n] + [a[n]] && b == b[..n] + [b[n]];
    }
  }

  /** Bits that are written as a number are those that spell it. */
  lemma SpelledBits(a: Bits, n: nat)
    requires n < Power2(|a|)
    ensures a == BitsOf(n, |a|) <==> Number(a) == n
  {
    NumberOfBits(n, |a|);
    if Number(a) == n { NumbersDiffer(a, BitsOf(n, |a|)); }
  }

  lemma Leading()
    ensures LOCAL_RANGES[0].base[..8] == BitsOf(127, 8) && LOCAL_RANGES[1].base[..128] == BitsOf(1, 128)
    ensures LOCAL_RANGES[2].base[..16] == BitsOf(169, 8) + BitsOf(254, 8)
    ensures LOCAL_RANGES[3].base[..10] == BitsOf(0xfe80, 16)[..10]
  {
    hide BitsOf;
  }

  lemma {:induction false} LeadingBits(n: nat, width: nat, k: nat)
    requires k < width
    ensures BitsOf(n, width)[..k] == BitsOf(n / 2, width - 1)[..k]
  {
    hide BitsOf;
    BitsInit(n, width);
    assert BitsOf(n, width)[..k] == BitsOf(n, width)[..width - 1][..k];
  }

  lemma LinkLocalBits()
    ensures BitsOf(0xfe80, 16)[..10] == BitsOf(0x3fa, 10)
  {
    hide BitsOf;
    LeadingBits(0xfe80, 16, 10);
    LeadingBits(0x7f40, 15, 10);
    LeadingBits(0x3fa0, 14, 10);
    LeadingBits(0x1fd0, 13, 10);
    LeadingBits(0xfe8, 12, 10);
    LeadingBits(0x7f4, 11, 10);
  }

  lemma LoopbackRanges(a: Bits)
    ensures |LOCAL_RANGES| == 4 && ValidPrefix(LOCAL_RANGES[0]) && ValidPrefix(LOCAL_RANGES[1])
    ensures Contains(LOCAL_RANGES[0], a) <==> |a| == 32 && Number(a[..8]) == 127
    ensures Contains(LOCAL_RANGES[1], a) <==> |a| == 128 && Number(a) == 1
  {
    hide BitsOf, LOCAL_RANGES, Number, Power2;
    RangeShapes();
    Leading();
    Powers();
    if |a| == 32 { SpelledBits(a[..8], 127); }
    if |a| == 128 {
      SpelledBits(a, 1);
      assert a[..128] == a;
    }
  }

  lemma LinkLocalRanges(a: Bits)
    ensures |LOCAL_RANGES| == 4 && ValidPrefix(LOCAL_RANGES[2]) && ValidPrefix(LOCAL_RANGES[3])
    ensures Contains(LOCAL_RANGES[2], a) <==> |a| == 32 && Number(a[..8]) == 169 && Number(a[8..16]) == 254
    ensures Contains(LOCAL_RANGES[3], a) <==> |a| == 128 && Number(a[..10]) == 0x3fa
  {
    hide BitsOf, LOCAL_RANGES, Number, Power2;
    RangeShapes();
    Leading();
    Powers();
    if |a| == 32 {
      SpelledBits(a[..8], 169);
      SpelledBits(a[8..16], 254);
      assert a[..16] == a[..8] + a[8..16];
      var first, second := BitsOf(169, 8), BitsOf(254, 8);
      assert (first + second)[..8] == first && (first + second)[8..] == second;
      assert a[..16][..8] == a[..8] && a[..16][8..] == a[8..16];
    }
    if |a| == 128 {
      LinkLocalBits();
      SpelledBits(a[..10], 0x3fa);
    }
  }

  /** The local addresses: those of IPv4 that begin with the byte 127 or with 169 and 254, the IPv6
      address 1, and those of IPv6 that begin with the ten bits 1111111010. */
  lemma LocalExactly(a: Bits)
    ensures Local(a) <==>
      || (|a| == 32 && Number(a[..8]) == 127)
      || (|a| == 32 && Number(a[..8]) == 169 && Number(a[8..16]) == 254)
      || (|a| == 128 && Number(a) == 1)
      || (|a| == 128 && Number(a[..10]) == 0x3fa)
  {
    hide LOCAL_RANGES, Number, Contains, ValidPrefix;
    LoopbackRanges(a);
    LinkLocalRanges(a);
  }

  lemma Powers()
    ensures Power2(8) == 256 && Power2(10) == 1024
  {
  }

  /** The local ranges are written without host bits. */
  lemma WrittenCanonically(i: nat, k: nat)
    requires i < |LOCAL_RANGES| && LOCAL_RANGES[i].length <= k < |LOCAL_RANGES[i].base|
    ensures !LOCAL_RANGES[i].base[k]
  {
    hide BitsOf;
    RangeShapes();
    ZeroBits(24);
    ZeroBits(16);
    ZeroBits(112);
    LinkLocalTail();
  }

  lemma {:induction false} ZeroBits(width: nat)
    ensures forall k :: 0 <= k < width ==> !BitsOf(0, width)[k]
  {
    if width > 0 { ZeroBits(width - 1); }
  }

  lemma LinkLocalTail()
    ensures forall k :: 10 <= k < 16 ==> !BitsOf(0xfe80, 16)[k]
  {
    hide BitsOf;
    EndBits(0xfe80, 16);
    EndBits(0x7f40, 15);
    EndBits(0x3fa0, 14);
    EndBits(0x1fd0, 13);
    EndBits(0xfe8, 12);
    EndBits(0x7f4, 11);
    BitsInit(0xfe80, 16);
    BitsInit(0x7f40, 15);
    BitsInit(0x3fa0, 14);
    BitsInit(0x1fd0, 13);
    BitsInit(0xfe8, 12);
    assert BitsOf(0xfe80, 16)[14] == BitsOf(0x7f40, 15)[14];
    assert BitsOf(0xfe80, 16)[13] == BitsOf(0x7f40, 15)[13] == BitsOf(0x3fa0, 14)[13];
    assert BitsOf(0xfe80, 16)[12] == BitsOf(0x7f40, 15)[12] == BitsOf(0x3fa0, 14)[12] == BitsOf(0x1fd0, 13)[12];
    assert BitsOf(0xfe80, 16)[11] == BitsOf(0x7f40, 15)[11] == BitsOf(0x3fa0, 14)[11] == BitsOf(0x1fd0, 13)[11]
        == BitsOf(0xfe8, 12)[11];
    assert BitsOf(0xfe80, 16)[10] == BitsOf(0x7f40, 15)[10] == BitsOf(0x3fa0, 14)[10] == BitsOf(0x1fd0, 13)[10]
        == BitsOf(0xfe8, 12)[10] == BitsOf(0x7f4, 11)[10];
  }

  /** What is denied in the end: the written denials, and unless local access is allowed also the
      named local rule, the local ranges, and the allowed prefixes whose written base is local. */
  lemma DeniedExactly(allow: seq<Rule>, deny: seq<Rule>, allowLocal: bool, r: Rule)
    ensures r in EffectiveDeny(allow, deny, allowLocal) <==>
      || r in deny
      || (!allowLocal && (r ==
           Named("local") || (r.Cidr? && r.prefix in LOCAL_RANGES) || (r in allow && HasLocalBase(r))))
    ensures allowLocal ==> EffectiveDeny(allow, deny, allowLocal) == deny
  {
    hide LOCAL_RANGES, WithLocalBase, Local;
    if !allowLocal {
      DenyMembers(allow, deny, r);
      WithLocalBaseMembers(allow);
      if r.Cidr? && r.prefix in LOCAL_RANGES {
        var i :| 0 <= i < |LOCAL_RANGES| && LOCAL_RANGES[i] == r.prefix;
        assert LocalRules()[i] == r;
      }
    }
  }

  // ----- what the default denials cost other addresses

  lemma {:induction false} LongestMatch(rules: seq<Rule>, a: Bits, n: nat) returns (longest: nat)
    requires n < |rules| && Matches(rules[n], a)
    ensures longest < |rules| && Matches(rules[longest], a)
    ensures forall i :: 0 <= i < |rules| && Matches(rules[i], a) ==> Length(rules[i]) <= Length(rules[longest])
  {
    hide Matches;
    longest := n;
    for i := 0 to |rules|
      invariant longest < |rules| && Matches(rules[longest], a)
      invariant forall j :: 0 <= j < i && Matches(rules[j], a) ==> Length(rules[j]) <= Length(rules[longest])
    {
      if Matches(rules[i], a) && Length(rules[i]) > Length(rules[longest]) { longest := i; }
    }
  }

  /** One of the longest allowed prefixes that match the address was written with a local base. */
  predicate LongestHasLocalBase(allow: seq<Rule>, a: Bits) {
    exists i :: 0 <= i < |allow| && Matches(allow[i], a) && HasLocalBase(allow[i])
      && forall j :: 0 <= j < |allow| && Matches(allow[j], a) ==> Length(allow[j]) <= Length(allow[i])
  }

  /** An address that is not local keeps the decision of the written rules, but for one family:
      a longest allowed prefix written with a local base is cancelled as a whole. */
  lemma OthersKeepTheirDecision(allow: seq<Rule>, deny: seq<Rule>, a: Bits)
    requires !Local(a)
    ensures Permits(allow, EffectiveDeny(allow, deny, false), a)
            <==> Permits(allow, deny, a) && !LongestHasLocalBase(allow, a)
  {
    hide LOCAL_RANGES, Contains, WithLocalBase, EffectiveDeny, Local, Matches;
    var denied := EffectiveDeny(allow, deny, false);
    if i :| 0 <= i < |allow| && Matches(allow[i], a) {
      var n := LongestMatch(allow, a, i);
      var longest := Length(allow[n]);
      assert Permits(allow, denied, a) <==> !AtLeast(denied, a, longest) by { PermitsByLongest(allow, denied, a, n); }
      assert Permits(allow, deny, a) <==> !AtLeast(deny, a, longest) by { PermitsByLongest(allow, deny, a, n); }
      DeniedAtLeast(allow, deny, a, longest);
      if AtLeast(WithLocalBase(allow), a, longest) {
        WithLocalBaseMembers(allow);
        var r :| r in WithLocalBase(allow) && Matches(r, a) && Length(r) >= longest;
        var k :| 0 <= k < |allow| && allow[k] == r;
      }
      if LongestHasLocalBase(allow, a) {
        WithLocalBaseMembers(allow);
        var k :| 0 <= k < |allow| && Matches(allow[k], a) && HasLocalBase(allow[k])
                 && forall j :: 0 <= j < |allow| && Matches(allow[j], a) ==> Length(allow[j]) <= Length(allow[k]);
        AtLeastBy(WithLocalBase(allow), a, allow[k], longest);
      }
    }
  }

  lemma PermitsByLongest(allow: seq<Rule>, deny: seq<Rule>, a: Bits, n: nat)
    requires n < |allow| && Matches(allow[n], a)
    requires forall j :: 0 <= j < |allow| && Matches(allow[j], a) ==> Length(allow[j]) <= Length(allow[n])
    ensures Permits(allow, deny, a) <==> !AtLeast(deny, a, Length(allow[n]))
  {
    hide Matches;
  }

  lemma LocalRuleIsLocal(r: Rule, a: Bits)
    requires r in LocalRules() && Matches(r, a)
    ensures Local(a)
  {
    hide LOCAL_RANGES, Contains;
    var k :| 0 <= k < |LOCAL_RANGES| && LocalRules()[k] == r;
  }

  /** To an address that is not local the default ranges do not apply. */
  lemma DeniedAtLeast(allow: seq<Rule>, deny: seq<Rule>, a: Bits, length: nat)
    requires !Local(a)
    ensures AtLeast(EffectiveDeny(allow, deny, false), a, length)
            <==> AtLeast(deny, a, length) || AtLeast(WithLocalBase(allow), a, length)
  {
    hide LOCAL_RANGES, Contains, WithLocalBase, EffectiveDeny, LocalRules;
    var denied := EffectiveDeny(allow, deny, false);
    if AtLeast(denied, a, length) {
      var i :| 0 <= i < |denied| && Matches(denied[i], a) && Length(denied[i]) >= length;
      DenyMembers(allow, deny, denied[i]);
      if denied[i] in LocalRules() {
        LocalRuleIsLocal(denied[i], a);
        assert false;
      } else if denied[i] in deny {
        AtLeastBy(deny, a, denied[i], length);
      } else {
        AtLeastBy(WithLocalBase(allow), a, denied[i], length);
      }
    }
    if AtLeast(deny, a, length) {
      var i :| 0 <= i < |deny| && Matches(deny[i], a) && Length(deny[i]) >= length;
      DenyMembers(allow, deny, deny[i]);
      AtLeastBy(denied, a, deny[i], length);
    }
    if AtLeast(WithLocalBase(allow), a, length) {
      var i :| 0 <= i < |WithLocalBase(allow)|
        && Matches(WithLocalBase(allow)[i], a) && Length(WithLocalBase(allow)[i]) >= length;
      DenyMembers(allow, deny, WithLocalBase(allow)[i]);
      AtLeastBy(denied, a, WithLocalBase(allow)[i], length);
    }
  }

  lemma EndBits(n: nat, width: nat)
    requires width > 0
    ensures width > 1 ==> BitsOf(n, width)[0] == BitsOf(n / 2, width - 1)[0]
    ensures BitsOf(n, width)[width - 1] == (n % 2 == 1)
  {
  }

  lemma SomeBits()
    ensures !BitsOf(127, 8)[0] && BitsOf(169, 8)[0] && !BitsOf(254, 8)[7]
  {
    hide BitsOf, LOCAL_RANGES;
    EndBits(127, 8); EndBits(63, 7); EndBits(31, 6); EndBits(15, 5);
    EndBits(7, 4); EndBits(3, 3); EndBits(1, 2); EndBits(0, 1);
    EndBits(169, 8); EndBits(84, 7); EndBits(42, 6); EndBits(21, 5);
    EndBits(10, 4); EndBits(5, 3); EndBits(2, 2); EndBits(1, 1);
    EndBits(254, 8);
  }

  lemma RangeShapes()
    ensures |LOCAL_RANGES| == 4
    ensures |LOCAL_RANGES[0].base| == 32 && LOCAL_RANGES[0].length == 8 && !LOCAL_RANGES[0].base[0]
    ensures |LOCAL_RANGES[1].base| == 128 && LOCAL_RANGES[1].length == 128
    ensures |LOCAL_RANGES[3].base| == 128 && LOCAL_RANGES[3].length == 10
    ensures |LOCAL_RANGES[2].base| == 32 && LOCAL_RANGES[2].length == 16
    ensures LOCAL_RANGES[2].base[0] && !LOCAL_RANGES[2].base[15]
  {
    hide BitsOf;
    SomeBits();
  }

  /** The family is not empty, even of prefixes written without host bits: allowing
      169.254.0.0/15 gives no access to 169.255.0.0. */
  lemma AllowedButCancelled()
    ensures |LOCAL_RANGES| == 4 && |LOCAL_RANGES[2].base| == 32
    ensures var base := LOCAL_RANGES[2].base;
      var allow, a := [Cidr(Prefix(base, 15))], base[15 := true];
      ValidRules(allow) && !Local(a) && Permits(allow, [], a) && !Permits(allow, EffectiveDeny(allow, [], false), a)
  {
    hide EffectiveDeny, LOCAL_RANGES;
    RangeShapes();
    var range := LOCAL_RANGES[2];
    var allow, a := [Cidr(Prefix(range.base, 15))], range.base[15 := true];
    assert a[..8][0] != LOCAL_RANGES[0].base[..8][0];
    assert a[..16][15] != range.base[..16][15];
    assert Matches(allow[0], a);
    assert Contains(range, range.base) && HasLocalBase(allow[0]);
    OthersKeepTheirDecision(allow, [], a);
  }
}
