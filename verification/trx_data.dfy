/** common/trx_data.h: the rule record and the predicates every component shares. */
module TrxData {
  import opened Seqs

  type u8 = x: int | 0 <= x < 0x100
  type u16 = x: int | 0 <= x < 0x1_0000
  type u32 = x: int | 0 <= x < 0x1_0000_0000

  const CHAIN_ALL: u8 := 1
  const CHAIN_INPUT: u8 := 2
  const CHAIN_OUTPUT: u8 := 3

  const POLICY_DROP: u8 := 0
  const POLICY_ACCEPT: u8 := 1
  const POLICY_NONE: u8 := 2

  const SW_NO: u8 := 0
  const SW_NONE: u8 := 2

  const NF_DROP: u8 := 0
  const NF_ACCEPT: u8 := 1

  /** filter_rule_base, the 15 packed bytes that identify a rule. */
  datatype Base = Base(chain: u8, proto: u16, srcPort: u16, dstPort: u16, sAddr: u32, dAddr: u32)

  /** filter_rule without its two MAC address fields. */
  datatype Rule = Rule(base: Base, off: u8, policy: u8, id: u32)

  /** All identifying fields but the chain are zero. */
  predicate PolicyRule(b: Base) {
    b.proto == 0 && b.srcPort == 0 && b.dstPort == 0 && b.dAddr == 0 && b.sAddr == 0
  }

  predicate Wild(pattern: int, value: int) { pattern == 0 || pattern == value }

  predicate FrPattern(fr: Rule, pattern: Rule) {
    && Wild(pattern.base.chain, fr.base.chain)
    && Wild(pattern.base.dstPort, fr.base.dstPort)
    && Wild(pattern.base.dAddr, fr.base.dAddr)
    && Wild(pattern.base.proto, fr.base.proto)
    && Wild(pattern.base.srcPort, fr.base.srcPort)
    && Wild(pattern.base.sAddr, fr.base.sAddr)
    && Wild(pattern.off, fr.off)
    && Wild(pattern.policy, fr.policy)
  }

  /** The C++ operator==, which leaves the chain out. */
  predicate SameBase(a: Base, b: Base) {
    a.proto == b.proto && a.srcPort == b.srcPort && a.dstPort == b.dstPort && a.sAddr == b.sAddr && a.dAddr == b.dAddr
  }

  function ApplyPolicy(p: u8): u8 {
    if p == POLICY_ACCEPT then NF_ACCEPT else NF_DROP
  }

  function ConvertPolicy(p: u8): u8 {
    if p == NF_ACCEPT then POLICY_ACCEPT else if p == NF_DROP then POLICY_DROP else POLICY_NONE
  }

  type Key = seq<u8>

  function Le16(x: u16): seq<u8> { [x % 0x100, x / 0x100] }

  function Le32(x: u32): seq<u8> { Le16(x % 0x1_0000) + Le16(x / 0x1_0000) }

  /** The number the next four bytes make, the lowest first. */
  function Value32(s: seq<u8>): u32
    requires |s| >= 4
  {
    var b0: int, b1: int, b2: int, b3: int := s[0], s[1], s[2], s[3];
    b0 + b1 * 0x100 + b2 * 0x1_0000 + b3 * 0x100_0000
  }

  /** Le32 and Value32 are each other's inverse. */
  lemma Le32Back(x: u32, rest: seq<u8>)
    ensures |Le32(x)| == 4 && Value32(Le32(x) + rest) == x && (Le32(x) + rest)[4..] == rest
  {
    var b := Le32(x) + rest;
    var lo, hi := x % 0x1_0000, x / 0x1_0000;
    assert b[0] == lo % 0x100 && b[1] == lo / 0x100 && b[2] == hi % 0x100 && b[3] == hi / 0x100;
  }

  /** The bytes memcmp compares and the hash table copies: packed, little-endian. */
  function KeyBytes(b: Base): Key {
    [b.chain] + Le16(b.proto) + Le16(b.srcPort) + Le16(b.dstPort) + Le32(b.sAddr) + Le32(b.dAddr)
  }

  lemma Le32Injective(x: u32, y: u32)
    requires Le32(x) == Le32(y)
    ensures x == y
  {
    assert Le32(x)[..2] == Le16(x % 0x1_0000) && Le32(x)[2..] == Le16(x / 0x1_0000);
    assert Le32(y)[..2] == Le16(y % 0x1_0000) && Le32(y)[2..] == Le16(y / 0x1_0000);
  }

  /** Byte comparison of two keys is comparison of every field, the chain included. */
  lemma KeyBytesInjective(a: Base, b: Base)
    ensures |KeyBytes(a)| == 15
    ensures KeyBytes(a) == KeyBytes(b) <==> a == b
  {
    if KeyBytes(a) == KeyBytes(b) {
      var k, l := KeyBytes(a), KeyBytes(b);
      assert k[0] == l[0];
      assert k[1..3] == Le16(a.proto) && l[1..3] == Le16(b.proto);
      assert k[3..5] == Le16(a.srcPort) && l[3..5] == Le16(b.srcPort);
      assert k[5..7] == Le16(a.dstPort) && l[5..7] == Le16(b.dstPort);
      assert k[7..11] == Le32(a.sAddr) && l[7..11] == Le32(b.sAddr);
      assert k[11..15] == Le32(a.dAddr) && l[11..15] == Le32(b.dAddr);
      Le32Injective(a.sAddr, b.sAddr);
      Le32Injective(a.dAddr, b.dAddr);
    }
  }

  /** A pattern asks for each field it sets, on top of what it asks for with that field
      open; a pattern that sets none selects every rule. */
  lemma FrPatternFields(fr: Rule, pattern: Rule)
    ensures var b := pattern.base;
      && (b.chain != 0 ==>
            (FrPattern(fr, pattern) <==> FrPattern(fr, pattern.(base := b.(chain := 0))) && fr.base.chain == b.chain))
      && (b.proto != 0 ==>
            (FrPattern(fr, pattern) <==> FrPattern(fr, pattern.(base := b.(proto := 0))) && fr.base.proto == b.proto))
      && (b.srcPort != 0 ==>
            (FrPattern(fr, pattern) <==>
             FrPattern(fr, pattern.(base := b.(srcPort := 0))) && fr.base.srcPort == b.srcPort))
      && (b.dstPort != 0 ==>
            (FrPattern(fr, pattern) <==>
             FrPattern(fr, pattern.(base := b.(dstPort := 0))) && fr.base.dstPort == b.dstPort))
      && (b.sAddr != 0 ==>
            (FrPattern(fr, pattern) <==> FrPattern(fr, pattern.(base := b.(sAddr := 0))) && fr.base.sAddr == b.sAddr))
      && (b.dAddr != 0 ==>
            (FrPattern(fr, pattern) <==> FrPattern(fr, pattern.(base := b.(dAddr := 0))) && fr.base.dAddr == b.dAddr))
      && (pattern.off != 0 ==>
            (FrPattern(fr, pattern) <==> FrPattern(fr, pattern.(off := 0)) && fr.off == pattern.off))
      && (pattern.policy != 0 ==>
            (FrPattern(fr, pattern) <==> FrPattern(fr, pattern.(policy := 0)) && fr.policy == pattern.policy))
    ensures FrPattern(fr, Rule(Base(0, 0, 0, 0, 0, 0), 0, 0, pattern.id))
  {
  }

  /** A rule looks like a policy record exactly when nothing but its chain byte is set. */
  lemma PolicyRuleBytes(b: Base)
    ensures |KeyBytes(b)| == 15
    ensures PolicyRule(b) <==> forall i | 1 <= i < 15 :: KeyBytes(b)[i] == 0
  {
    var z := Base(b.chain, 0, 0, 0, 0, 0);
    KeyBytesInjective(b, z);
    ZeroBytes(b.chain);
    hide KeyBytes;
    if forall i | 1 <= i < 15 :: KeyBytes(b)[i] == 0 {
      KeyBytesFirst(b);
      assert KeyBytes(b) == KeyBytes(z);
    }
  }

  lemma KeyBytesFirst(b: Base)
    ensures |KeyBytes(b)| == 15 && KeyBytes(b)[0] == b.chain
  {
  }

  lemma ZeroBytes(c: u8)
    ensures var k := KeyBytes(Base(c, 0, 0, 0, 0, 0)); |k| == 15 && k[0] == c && forall i | 1 <= i < 15 :: k[i] == 0
  {
    assert KeyBytes(Base(c, 0, 0, 0, 0, 0)) == [c, 0, 0, 0, 0, 0, 0, 0, 0, 0, 0, 0, 0, 0, 0];
  }

  /** operator== compares the packed bytes but the first, which holds the chain. */
  lemma SameBaseBytes(a: Base, b: Base)
    ensures SameBase(a, b) <==> KeyBytes(a)[1..] == KeyBytes(b)[1..]
  {
    var c := b.(chain := a.chain);
    KeyBytesInjective(a, c);
    assert KeyBytes(c)[1..] == KeyBytes(b)[1..];
    assert KeyBytes(a) == [a.chain] + KeyBytes(a)[1..] && KeyBytes(c) == [a.chain] + KeyBytes(c)[1..];
  }

  /** Only accepting rules let a packet pass, and the policy a chain reports is the one
      that sets it again. */
  lemma PolicyVerdicts(p: u8)
    ensures ApplyPolicy(p) == NF_ACCEPT <==> p == POLICY_ACCEPT
    ensures ApplyPolicy(p) == NF_DROP <==> p != POLICY_ACCEPT
    ensures p == NF_ACCEPT || p == NF_DROP ==> ApplyPolicy(ConvertPolicy(p)) == p
  {
  }
}
