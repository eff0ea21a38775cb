/**
 Unique MAC addresses for enslaved ports (internal/batman/mac.go). The port name
 is folded into the last octet through the low byte of 32-bit FNV-1a (section 2
 of draft-eastlake-fnv).
 */
module HardifMac {
  import opened Wrappers
  import opened Text

  type Octet = bv8

  const OFFSET_BASIS: bv32 := 2166136261
  const PRIME: bv32 := 16777619

  function Mix(h: bv32, b: Octet): bv32 {
    (h ^ (b as bv32)) * PRIME
  }

  // A running state over the bytes.
  function Fold<S>(step: (S, Octet) -> S, state: S, data: seq<Octet>): S {
    if data == [] then state
    else step(Fold(step, state, data[..|data| - 1]), data[|data| - 1])
  }

  function Fnv1a(data: seq<Octet>): bv32 {
    Fold(Mix, OFFSET_BASIS, data)
  }

  function LowByte(h: bv32): Octet {
    (h & 0xff) as bv8
  }

  function Discriminator(port: seq<Octet>): Octet {
    LowByte(Fnv1a(port))
  }

  // ----- folds -----

  lemma {:induction false} FoldConcat<S>(step: (S, Octet) -> S, state: S, a: seq<Octet>, b: seq<Octet>)
    ensures Fold(step, state, a + b) == Fold(step, Fold(step, state, a), b)
  {
    if b == [] {
      assert a + b == a;
    } else {
      assert (a + b)[..|a + b| - 1] == a + b[..|b| - 1];
      FoldConcat(step, state, a, b[..|b| - 1]);
    }
  }

  // A view of the state that steps on its own folds on its own.
  lemma {:induction false} FoldView<S(!new), V(!new)>(step: (S, Octet) -> S, view: S -> V, viewStep: (V, Octet) -> V, state: S, data: seq<Octet>)
    requires forall s, b :: view(step(s, b)) == viewStep(view(s), b)
    ensures view(Fold(step, state, data)) == Fold(viewStep, view(state), data)
  {
    if data != [] {
      FoldView(step, view, viewStep, state, data[..|data| - 1]);
    }
  }

  // Injective steps keep different states different.
  lemma {:induction false} FoldInjective<V(!new)>(step: (V, Octet) -> V, v: V, w: V, data: seq<Octet>)
    requires forall x, y, b :: step(x, b) == step(y, b) ==> x == y
    requires v != w
    ensures Fold(step, v, data) != Fold(step, w, data)
  {
    if data != [] {
      FoldInjective(step, v, w, data[..|data| - 1]);
    }
  }

  // ----- the low byte is a hash of its own, and a bijection at each step -----

  function MixLow(l: Octet, b: Octet): Octet {
    (l ^ b) * 0x93
  }

  lemma LowByteStep(h: bv32, b: Octet)
    ensures LowByte(Mix(h, b)) == MixLow(LowByte(h), b)
  {
  }

  // 0x9b is the inverse of 0x93, so a step loses neither the state nor the byte.
  lemma MixLowInverts(l: Octet, b: Octet)
    ensures (MixLow(l, b) * 0x9b) ^ b == l
    ensures (MixLow(l, b) * 0x9b) ^ l == b
  {
  }

  lemma DiscriminatorIsFold(port: seq<Octet>)
    ensures Discriminator(port) == Fold(MixLow, LowByte(OFFSET_BASIS), port)
  {
    forall s, b ensures LowByte(Mix(s, b)) == MixLow(LowByte(s), b) {
      LowByteStep(s, b);
    }
    FoldView(Mix, LowByte, MixLow, OFFSET_BASIS, port);
  }

  lemma MixLowInjective()
    ensures forall x, y, b :: MixLow(x, b) == MixLow(y, b) ==> x == y
  {
    forall x, y, b | MixLow(x, b) == MixLow(y, b) ensures x == y {
      MixLowInverts(x, b);
      MixLowInverts(y, b);
    }
  }

  // Names that differ in one byte, like lan1 and lan3, get different
  // discriminators, wherever the byte is.
  lemma OneByteSeparates(prefix: seq<Octet>, x: Octet, y: Octet, suffix: seq<Octet>)
    requires x != y
    ensures Discriminator(prefix + [x] + suffix) != Discriminator(prefix + [y] + suffix)
  {
    var l := Fold(MixLow, LowByte(OFFSET_BASIS), prefix);
    DiscriminatorIsFold(prefix + [x] + suffix);
    DiscriminatorIsFold(prefix + [y] + suffix);
    FoldConcat(MixLow, LowByte(OFFSET_BASIS), prefix + [x], suffix);
    FoldConcat(MixLow, LowByte(OFFSET_BASIS), prefix + [y], suffix);
    assert (prefix + [x])[..|prefix|] == prefix && (prefix + [y])[..|prefix|] == prefix;
    MixLowInverts(l, x);
    MixLowInverts(l, y);
    MixLowInjective();
    FoldInjective(MixLow, MixLow(l, x), MixLow(l, y), suffix);
  }

  lemma MixA()
    ensures Mix(0x811c9dc5, 0x61) == 0xe40c292c
  {
  }

  lemma MixF()
    ensures Mix(0x811c9dc5, 0x66) == 0xe30c2799
  {
  }

  lemma MixFo()
    ensures Mix(0xe30c2799, 0x6f) == 0x6222e842
  {
  }

  lemma MixFoo()
    ensures Mix(0x6222e842, 0x6f) == 0xa9f37ed7
  {
  }

  lemma FoldThree<S>(step: (S, Octet) -> S, state: S, a: Octet, b: Octet, c: Octet)
    ensures Fold(step, state, []) == state && Fold(step, state, [a]) == step(state, a)
    ensures Fold(step, state, [a, b]) == step(step(state, a), b)
    ensures Fold(step, state, [a, b, c]) == step(step(step(state, a), b), c)
  {
    assert [a][..0] == [] && [a, b][..1] == [a] && [a, b, c][..2] == [a, b];
  }

  // The published values of 32-bit FNV-1a for "", "a", "fo" and "foo".
  lemma PublishedValues()
    ensures Fnv1a([]) == 0x811c9dc5
    ensures Fnv1a([0x61]) == 0xe40c292c
    ensures Fnv1a([0x66, 0x6f]) == 0x6222e842
    ensures Fnv1a([0x66, 0x6f, 0x6f]) == 0xa9f37ed7
  {
    FoldThree(Mix, OFFSET_BASIS, 0x61, 0x61, 0x61);
    FoldThree(Mix, OFFSET_BASIS, 0x66, 0x6f, 0x6f);
    MixA();
    MixF();
    MixFo();
    MixFoo();
  }

  // ----- deriving an address -----

  type Mac = m: seq<Octet> | |m| == 6 witness [0, 0, 0, 0, 0, 0]

  // Locally administered and unicast, with the discriminator in the last octet.
  function Marked(m: Mac, discriminator: Octet): Mac {
    [(m[0] | 0x02) & 0xfe, m[1], m[2], m[3], m[4], m[5] ^ discriminator]
  }

  function Derived(m: Mac, port: seq<Octet>): Mac {
    Marked(m, Discriminator(port))
  }

  // The two flag bits of the first octet (clause 8 of IEEE Std 802-2014).
  predicate Unicast(m: Mac) {
    m[0] & 0x01 == 0
  }

  predicate LocallyAdministered(m: Mac) {
    m[0] & 0x02 == 0x02
  }

  function ParseOctet(s: string): Option<Octet> {
    var v := HexValue(s);
    if v.None? || v.value > 255 then None else Some(v.value as bv8)
  }

  function ParseAll(parts: seq<string>): Option<seq<Octet>> {
    if parts == [] then Some([])
    else
      var init, last := ParseAll(parts[..|parts| - 1]), ParseOctet(parts[|parts| - 1]);
      if init.None? || last.None? then None else Some(init.value + [last.value])
  }

  lemma {:induction false} ParseAllLength(parts: seq<string>)
    ensures ParseAll(parts).Some? ==> |ParseAll(parts).value| == |parts|
  {
    if parts != [] {
      ParseAllLength(parts[..|parts| - 1]);
    }
  }

  // A prefix that does not parse spoils the whole.
  lemma {:induction false} ParseAllPrefix(parts: seq<string>, k: nat)
    requires k <= |parts| && ParseAll(parts[..k]).None?
    ensures ParseAll(parts).None?
  {
    if k < |parts| {
      assert parts[..|parts| - 1][..k] == parts[..k];
      ParseAllPrefix(parts[..|parts| - 1], k);
    } else {
      assert parts[..k] == parts;
    }
  }

  function ParseMac(s: string): (r: Option<Mac>) {
    var parts := Split(TrimSpace(s), ':');
    ParseAllLength(parts);
    if |parts| != 6 || ParseAll(parts).None? then None else Some(ParseAll(parts).value)
  }

  function Digit(d: nat): char
    requires d < 16
  {
    if d < 10 then '0' + d as char else 'a' + (d - 10) as char
  }

  function PrintOctet(b: Octet): string {
    [Digit(b as int / 16), Digit(b as int % 16)]
  }

  function PrintMac(m: Mac): string {
    Joined(PrintAll(m))
  }

  method UniqueHardifMac(realMac: string, port: seq<Octet>) returns (r: Result<string, string>)
    ensures r.Ok? <==> ParseMac(realMac).Some?
    ensures r.Ok? ==> r.value == PrintMac(Derived(ParseMac(realMac).value, port))
  {
    var parts := Split(TrimSpace(realMac), ':');
    if |parts| != 6 {
      return Err("malformed MAC");
    }
    var b := new Octet[6](i => 0);
    var ok := FillOctets(parts, b);
    if !ok {
      return Err("malformed MAC octet");
    }
    var h := Sum(port);
    MarkInPlace(b, LowByte(h));
    r := Ok(PrintMac(b[..]));
  }

  method FillOctets(parts: seq<string>, b: array<Octet>) returns (ok: bool)
    requires |parts| == b.Length
    modifies b
    ensures ok <==> ParseAll(parts).Some?
    ensures ok ==> b[..] == ParseAll(parts).value
  {
    for i := 0 to b.Length
      invariant ParseAll(parts[..i]) == Some(b[..i])
    {
      assert parts[..i + 1][..i] == parts[..i];
      var v := ParseOctet(parts[i]);
      if v.None? {
        ParseAllPrefix(parts, i + 1);
        return false;
      }
      ghost var before := b[..i];
      b[i] := v.value;
      assert b[..i] == before && b[..i + 1] == before + [v.value];
    }
    assert parts[..b.Length] == parts && b[..b.Length] == b[..];
    ok := true;
  }

  method MarkInPlace(b: array<Octet>, discriminator: Octet)
    requires b.Length == 6
    modifies b
    ensures b[..] == Marked(old(b[..]), discriminator)
  {
    b[0] := (b[0] | 0x02) & 0xfe;
    b[5] := b[5] ^ discriminator;
  }

  // The hash as a running state.
  method Sum(data: seq<Octet>) returns (h: bv32)
    ensures h == Fnv1a(data)
  {
    h := OFFSET_BASIS;
    for i := 0 to |data|
      invariant h == Fnv1a(data[..i])
    {
      assert data[..i + 1][..i] == data[..i];
      h := Mix(h, data[i]);
    }
    assert data[..|data|] == data;
  }

  // ----- what the derived address promises -----

  lemma XorCancels(a: Octet, d: Octet)
    ensures (a ^ d) ^ d == a && (a ^ d) ^ a == d
  {
  }

  lemma XorZero(a: Octet, d: Octet)
    ensures a ^ d == a <==> d == 0
  {
  }

  lemma MarkedSameIff(m: Mac, d: Octet, e: Octet)
    ensures Marked(m, d) == Marked(m, e) <==> d == e
  {
    XorCancels(m[5], d);
    XorCancels(m[5], e);
    assert Marked(m, d)[5] == m[5] ^ d && Marked(m, e)[5] == m[5] ^ e;
  }

  // Octet by octet: the flags in the first, the hash's low byte in the last, and
  // the others as they are.
  lemma DerivedOctets(m: Mac, port: seq<Octet>)
    ensures var d := Derived(m, port);
      && d[0] == (m[0] | 0x02) & 0xfe && d[1..5] == m[1..5]
      && d[5] == m[5] ^ ((Fnv1a(port) & 0xff) as bv8)
  {
  }

  // Two ports over one base address collide exactly when their discriminators do.
  lemma CollideIff(m: Mac, p: seq<Octet>, q: seq<Octet>)
    ensures Derived(m, p) == Derived(m, q) <==> Discriminator(p) == Discriminator(q)
  {
    MarkedSameIff(m, Discriminator(p), Discriminator(q));
  }

  // The switch ports of one device, which share a base address and whose names
  // differ in one byte, get different addresses.
  lemma SiblingPortsDiffer(m: Mac, prefix: seq<Octet>, x: Octet, y: Octet, suffix: seq<Octet>)
    requires x != y
    ensures Derived(m, prefix + [x] + suffix) != Derived(m, prefix + [y] + suffix)
  {
    OneByteSeparates(prefix, x, y, suffix);
    CollideIff(m, prefix + [x] + suffix, prefix + [y] + suffix);
  }

  lemma FlagBits(b: Octet)
    ensures ((b | 0x02) & 0xfe) & 0x01 == 0 && ((b | 0x02) & 0xfe) & 0x02 == 0x02
    ensures ((b | 0x02) & 0xfe) & 0xfc == b & 0xfc
    ensures (((b | 0x02) & 0xfe) | 0x02) & 0xfe == (b | 0x02) & 0xfe
    ensures b & 0x03 == 0 ==> b & 0xfc == b
  {
  }

  // The result is a locally administered unicast address, so it is never the
  // globally administered address it was derived from.
  lemma DerivedIsLocalUnicast(m: Mac, port: seq<Octet>)
    ensures Unicast(Derived(m, port)) && LocallyAdministered(Derived(m, port))
    ensures !LocallyAdministered(m) ==> Derived(m, port) != m
  {
    FlagBits(m[0]);
  }

  // For a fixed port, different globally administered unicast addresses stay
  // different; the flag bits are all that is ever lost.
  lemma DerivedInjective(m: Mac, n: Mac, port: seq<Octet>)
    requires Derived(m, port) == Derived(n, port)
    ensures m[0] & 0xfc == n[0] & 0xfc && m[1..] == n[1..]
    ensures m[0] & 0x03 == 0 && n[0] & 0x03 == 0 ==> m == n
  {
    MarkedInjective(m, n, Discriminator(port));
  }

  lemma MarkedInjective(m: Mac, n: Mac, d: Octet)
    requires Marked(m, d) == Marked(n, d)
    ensures m[0] & 0xfc == n[0] & 0xfc && m[1..] == n[1..]
    ensures m[0] & 0x03 == 0 && n[0] & 0x03 == 0 ==> m == n
  {
    var a, b := Marked(m, d), Marked(n, d);
    assert a[0] == b[0] && a[1] == b[1] && a[2] == b[2] && a[3] == b[3] && a[4] == b[4] && a[5] == b[5];
    FlagBits(m[0]);
    FlagBits(n[0]);
    XorCancels(m[5], d);
    XorCancels(n[5], d);
    assert m[1..] == n[1..];
    assert m == [m[0]] + m[1..] && n == [n[0]] + n[1..];
  }

  // Deriving again from a derived address takes the discriminator out. Ports
  // that share a base address therefore collide when the addresses read back are
  // the derived ones: the derivation must read the hardware address.
  lemma DerivedTwiceCollides(m: Mac, p: seq<Octet>, q: seq<Octet>)
    ensures Derived(Derived(m, p), p) == m[0 := (m[0] | 0x02) & 0xfe]
    ensures Derived(Derived(m, p), p) == Derived(Derived(m, q), q)
  {
    MarkedTwice(m, Discriminator(p));
    MarkedTwice(m, Discriminator(q));
  }

  lemma MarkedTwice(m: Mac, d: Octet)
    ensures Marked(Marked(m, d), d) == m[0 := (m[0] | 0x02) & 0xfe]
  {
    FlagBits(m[0]);
    XorCancels(m[5], d);
  }

  lemma MarkedZero(m: Mac)
    ensures Marked(m, 0) == m[0 := (m[0] | 0x02) & 0xfe]
  {
    XorZero(m[5], 0);
  }

  lemma MarkedAgainIff(m: Mac, d: Octet)
    ensures Marked(Marked(m, d), d) == Marked(m, d) <==> d == 0
  {
    MarkedTwice(m, d);
    MarkedZero(m);
    MarkedSameIff(m, d, 0);
  }

  // ----- text -----

  lemma DigitReads(d: nat)
    requires d < 16
    ensures HexDigit(Digit(d)) == Some(d) && Digit(d) != ':' && !IsSpace(Digit(d))
  {
  }

  lemma HexPair(hi: nat, lo: nat)
    requires hi < 16 && lo < 16
    ensures HexValue([Digit(hi), Digit(lo)]) == Some(hi * 16 + lo)
  {
    DigitReads(hi);
    DigitReads(lo);
    assert [Digit(hi), Digit(lo)][..1] == [Digit(hi)];
  }

  lemma PrintOctetParses(b: Octet)
    ensures ParseOctet(PrintOctet(b)) == Some(b)
    ensures ':' !in PrintOctet(b) && !IsSpace(PrintOctet(b)[0]) && !IsSpace(PrintOctet(b)[1])
  {
    HexPair(b as int / 16, b as int % 16);
    DigitReads(b as int / 16);
    DigitReads(b as int % 16);
  }

  // An address parses exactly when it has six parts, each the hexadecimal value of
  // an octet, and those are its octets.
  lemma ParsesIff(text: string)
    ensures var parts := Split(TrimSpace(text), ':');
      && (ParseMac(text).Some? <==> |parts| == 6 && AreOctets(parts))
      && (ParseMac(text).Some? ==> forall i :: 0 <= i < 6 ==> ParseOctet(parts[i]) == Some(ParseMac(text).value[i]))
  {
    ParseAllIff(Split(TrimSpace(text), ':'));
  }

  predicate AreOctets(parts: seq<string>) {
    forall p :: p in parts ==> HexValue(p).Some? && HexValue(p).value <= 255
  }

  lemma {:induction false} ParseAllIff(parts: seq<string>)
    ensures ParseAll(parts).Some? <==> AreOctets(parts)
    ensures ParseAll(parts).Some? ==> |ParseAll(parts).value| == |parts|
    ensures ParseAll(parts).Some? ==> forall i :: 0 <= i < |parts| ==> ParseOctet(parts[i]) == Some(ParseAll(parts).value[i])
  {
    if parts != [] {
      var init, last := parts[..|parts| - 1], parts[|parts| - 1];
      assert parts == init + [last];
      ParseAllIff(init);
      assert ParseOctet(last).Some? <==> HexValue(last).Some? && HexValue(last).value <= 255;
    }
  }

  // Two lower-case digits an octet, the high one first ...
  lemma OctetForm()
    ensures PrintOctet(0x09) == "09" && PrintOctet(0xab) == "ab" && PrintOctet(0xf0) == "f0"
    ensures forall b: Octet :: |PrintOctet(b)| == 2 && forall c :: c in PrintOctet(b) ==> '0' <= c <= '9' || 'a' <= c <= 'f'
  {
  }

  // ... and the six of them with colons between.
  lemma PrintedForm(m: Mac, i: nat)
    requires i < 6
    ensures |PrintMac(m)| == 17 && PrintMac(m)[3 * i..3 * i + 2] == PrintOctet(m[i])
    ensures i < 5 ==> PrintMac(m)[3 * i + 2] == ':'
  {
    JoinedForm(PrintAll(m), i);
  }

  lemma {:induction false} JoinedForm(parts: seq<string>, i: nat)
    requires i < |parts| && forall p :: p in parts ==> |p| == 2
    ensures |Joined(parts)| == 3 * |parts| - 1 && Joined(parts)[3 * i..3 * i + 2] == parts[i]
    ensures i < |parts| - 1 ==> Joined(parts)[3 * i + 2] == ':'
    decreases |parts|
  {
    if |parts| > 1 {
      var rest, all := Joined(parts[1..]), Joined(parts);
      assert all[3..] == rest && all[..2] == parts[0] && all[2] == ':';
      if i > 0 {
        JoinedForm(parts[1..], i - 1);
        assert all[3 * i..3 * i + 2] == rest[3 * (i - 1)..3 * (i - 1) + 2];
      } else {
        JoinedForm(parts[1..], 0);
      }
    }
  }

  // A printed address reads back as itself.
  lemma PrintMacParses(m: Mac)
    ensures ParseMac(PrintMac(m)) == Some(m)
  {
    var parts := PrintAll(m);
    forall p | p in parts ensures ':' !in p {
      var i :| 0 <= i < |m| && p == PrintOctet(m[i]);
      PrintOctetParses(m[i]);
    }
    SplitJoined(parts);
    JoinedEnds(parts);
    PrintOctetParses(m[0]);
    PrintOctetParses(m[5]);
    TrimNothing(PrintMac(m), IsSpace);
    ParsePrinted(m);
  }

  lemma {:induction false} JoinedEnds(parts: seq<string>)
    requires |parts| > 0 && forall p :: p in parts ==> |p| == 2
    ensures |Joined(parts)| >= 2 && Joined(parts)[0] == parts[0][0]
    ensures Joined(parts)[|Joined(parts)| - 1] == parts[|parts| - 1][1]
  {
    if |parts| > 1 {
      JoinedEnds(parts[1..]);
    }
  }

  // Joined with colons.
  function Joined(parts: seq<string>): string
    requires |parts| > 0
  {
    if |parts| == 1 then parts[0] else parts[0] + [':'] + Joined(parts[1..])
  }

  lemma {:induction false} SplitJoined(parts: seq<string>)
    requires |parts| > 0 && forall p :: p in parts ==> ':' !in p
    ensures Split(Joined(parts), ':') == parts
  {
    if |parts| == 1 {
      SplitWhole(parts[0], ':');
    } else {
      SplitJoined(parts[1..]);
      SplitFirst(parts[0], ':', Joined(parts[1..]));
      assert [parts[0]] + parts[1..] == parts;
    }
  }

  function PrintAll(m: seq<Octet>): (r: seq<string>)
    ensures |r| == |m| && forall i :: 0 <= i < |r| ==> r[i] == PrintOctet(m[i])
  {
    seq(|m|, i requires 0 <= i < |m| => PrintOctet(m[i]))
  }

  lemma {:induction false} ParsePrinted(m: seq<Octet>)
    ensures ParseAll(PrintAll(m)) == Some(m)
  {
    if m != [] {
      var init := m[..|m| - 1];
      ParsePrinted(init);
      PrintOctetParses(m[|m| - 1]);
      assert PrintAll(m)[..|m| - 1] == PrintAll(init);
      assert m == init + [m[|m| - 1]];
    }
  }
}
