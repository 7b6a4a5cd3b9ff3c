/** Unpadded base64url of key material, and the textual ids under which skipped message keys are stored. */
module Base64 {
  import opened Sequences
  import opened Wrappers
  import opened Texts
  import opened Numerals

  type Byte = n: nat | n < 256

  type Sextet = n: nat | n < 64

  function Symbol(k: Sextet): char {
    if k < 26 then 'A' + k as char
    else if k < 52 then 'a' + (k - 26) as char
    else if k < 62 then '0' + (k - 52) as char
    else if k == 62 then '+' else '/'
  }

  function ValueOf(c: char): Option<Sextet> {
    if 'A' <= c <= 'Z' then Some((c - 'A') as nat)
    else if 'a' <= c <= 'z' then Some((c - 'a') as nat + 26)
    else if '0' <= c <= '9' then Some((c - '0') as nat + 52)
    else if c == '+' then Some(62)
    else if c == '/' then Some(63)
    else None
  }

  predicate IsSymbol(c: char) {
    ValueOf(c).Some?
  }

  predicate AllSymbols(text: string) {
    forall i :: 0 <= i < |text| ==> IsSymbol(text[i])
  }

  function Symbols(sextets: seq<Sextet>): string {
    if sextets == [] then "" else [Symbol(sextets[0])] + Symbols(sextets[1..])
  }

  function Values(text: string): seq<Sextet>
    requires AllSymbols(text)
  {
    if text == "" then []
    else
      assert IsSymbol(text[0]);
      [ValueOf(text[0]).value] + Values(text[1..])
  }

  /** The sextet between two bytes: the last two bits of the one and the first four of the other. */
  function Second(a: Byte, b: Byte): Sextet {
    a % 4 * 16 + b / 16
  }

  function Third(b: Byte, c: Byte): Sextet {
    b % 16 * 4 + c / 64
  }

  /** Three bytes in four sextets. */
  function Quad(a: Byte, b: Byte, c: Byte): seq<Sextet> {
    [a / 4, Second(a, b), Third(b, c), c % 64]
  }

  /** The bits of the bytes in groups of six, the last group filled with zeros (section 4 of RFC 4648). */
  function Sextets(bytes: seq<Byte>): seq<Sextet> {
    if bytes == [] then []
    else if |bytes| == 1 then [bytes[0] / 4, Second(bytes[0], 0)]
    else if |bytes| == 2 then [bytes[0] / 4, Second(bytes[0], bytes[1]), Third(bytes[1], 0)]
    else Quad(bytes[0], bytes[1], bytes[2]) + Sextets(bytes[3..])
  }

  function FirstByte(a: nat, b: nat): Byte
    requires a < 64 && b < 64
  {
    a * 4 + b / 16
  }

  function SecondByte(b: nat, c: nat): Byte
    requires b < 64 && c < 64
  {
    b % 16 * 16 + c / 4
  }

  function ThirdByte(c: nat, d: nat): Byte
    requires c < 64 && d < 64
  {
    c % 4 * 64 + d
  }

  /** The whole bytes in the bits of the sextets. */
  function Bytes(sextets: seq<Sextet>): seq<Byte> {
    if |sextets| < 2 then []
    else if |sextets| == 2 then [FirstByte(sextets[0], sextets[1])]
    else if |sextets| == 3 then [FirstByte(sextets[0], sextets[1]), SecondByte(sextets[1], sextets[2])]
    else [FirstByte(sextets[0], sextets[1]), SecondByte(sextets[1], sextets[2]), ThirdByte(sextets[2], sextets[3])]
         + Bytes(sextets[4..])
  }

  function Padding(length: nat): string {
    if length % 4 == 2 then "==" else if length % 4 == 3 then "=" else ""
  }

  /** `btoa`: the symbols of the sextets, padded to a multiple of four. */
  function Btoa(bytes: seq<Byte>): string {
    Symbols(Sextets(bytes)) + Padding(|Sextets(bytes)|)
  }

  function Unpadded(text: string): string {
    if |text| % 4 == 0 && |text| > 0 && text[|text| - 1] == '=' then
      if text[|text| - 2] == '=' then text[..|text| - 2] else text[..|text| - 1]
    else text
  }

  /** `atob`: up to two padding characters are dropped, any other foreign character fails. */
  function Atob(text: string): Option<seq<Byte>> {
    var core := Unpadded(text);
    if AllSymbols(core) && |core| % 4 != 1 then Some(Bytes(Values(core))) else None
  }

  function Replace(text: string, from: char, to: char): string {
    if text == "" then "" else [if text[0] == from then to else text[0]] + Replace(text[1..], from, to)
  }

  function StripEnd(text: string): string {
    if text != "" && text[|text| - 1] == '=' then StripEnd(text[..|text| - 1]) else text
  }

  function PadEnd(text: string, length: nat): string
    decreases length - |text|
  {
    if |text| >= length then text else PadEnd(text + "=", length)
  }

  function ToUrl(text: string): string {
    Replace(Replace(text, '+', '-'), '/', '_')
  }

  function FromUrl(text: string): string {
    Replace(Replace(text, '-', '+'), '_', '/')
  }

  function B64(bytes: seq<Byte>): string {
    StripEnd(ToUrl(Btoa(bytes)))
  }

  function Unb64(text: string): Option<seq<Byte>> {
    Atob(PadEnd(FromUrl(text), (|text| + 3) / 4 * 4))
  }

  // ---------------------------------------------------------------------------
  // Round trip

  lemma {:induction false} SymbolsDecode(sextets: seq<Sextet>)
    ensures |Symbols(sextets)| == |sextets| && AllSymbols(Symbols(sextets)) && Values(Symbols(sextets)) == sextets
  {
    if sextets == [] {
    } else {
      SymbolsDecode(sextets[1..]);
      assert ValueOf(Symbol(sextets[0])) == Some(sextets[0]);
      assert Symbols(sextets)[1..] == Symbols(sextets[1..]);
    }
  }

  lemma BytesMeet(a: Byte, b: Byte, c: Byte)
    ensures FirstByte(a / 4, Second(a, b)) == a && SecondByte(Second(a, b), Third(b, c)) == b
    ensures ThirdByte(Third(b, c), c % 64) == c
  {
  }

  lemma FourSextets(a: Sextet, b: Sextet, c: Sextet, d: Sextet, rest: seq<Sextet>)
    ensures Bytes([a, b, c, d] + rest) == [FirstByte(a, b), SecondByte(b, c), ThirdByte(c, d)] + Bytes(rest)
  {
    assert ([a, b, c, d] + rest)[4..] == rest;
  }

  lemma QuadDecodes(a: Byte, b: Byte, c: Byte, rest: seq<Sextet>)
    ensures Bytes(Quad(a, b, c) + rest) == [a, b, c] + Bytes(rest) && |Quad(a, b, c) + rest| == 4 + |rest|
  {
    BytesMeet(a, b, c);
    FourSextets(a / 4, Second(a, b), Third(b, c), c % 64, rest);
  }

  lemma OneByteDecodes(a: Byte)
    ensures Bytes([a / 4, Second(a, 0)]) == [a]
  {
    assert FirstByte(a / 4, Second(a, 0)) == a;
  }

  lemma TwoBytesDecode(a: Byte, b: Byte)
    ensures Bytes([a / 4, Second(a, b), Third(b, 0)]) == [a, b]
  {
    BytesMeet(a, b, 0);
  }

  lemma FirstThree(bytes: seq<Byte>)
    requires |bytes| >= 3
    ensures bytes == [bytes[0], bytes[1], bytes[2]] + bytes[3..]
  {
  }

  lemma FewBytesDecode(bytes: seq<Byte>)
    requires |bytes| < 3
    ensures Bytes(Sextets(bytes)) == bytes
  {
    if |bytes| == 2 {
      TwoBytesDecode(bytes[0], bytes[1]);
    } else if |bytes| == 1 {
      OneByteDecodes(bytes[0]);
    }
  }

  lemma {:induction false} SextetsDecode(bytes: seq<Byte>)
    ensures Bytes(Sextets(bytes)) == bytes
  {
    if |bytes| < 3 {
      FewBytesDecode(bytes);
    } else {
      SextetsDecode(bytes[3..]);
      QuadDecodes(bytes[0], bytes[1], bytes[2], Sextets(bytes[3..]));
      FirstThree(bytes);
    }
  }

  lemma FourMore(n: nat)
    ensures (4 + n) % 4 == n % 4
  {
  }

  /** No single sextet is left over. */
  lemma {:induction false} SextetsLength(bytes: seq<Byte>)
    ensures |Sextets(bytes)| % 4 != 1
  {
    if |bytes| < 3 {
    } else {
      SextetsLength(bytes[3..]);
      FourMore(|Sextets(bytes[3..])|);
      assert |Sextets(bytes)| == 4 + |Sextets(bytes[3..])|;
    }
  }

  lemma {:induction false} ReplaceAt(text: string, from: char, to: char)
    ensures |Replace(text, from, to)| == |text|
    ensures forall i :: 0 <= i < |text| ==> Replace(text, from, to)[i] == if text[i] == from then to else text[i]
  {
    if text == "" {
    } else {
      ReplaceAt(text[1..], from, to);
    }
  }

  lemma ToUrlAt(text: string)
    ensures |ToUrl(text)| == |text|
    ensures forall i :: 0 <= i < |text| ==>
              ToUrl(text)[i] == if text[i] == '+' then '-' else if text[i] == '/' then '_' else text[i]
  {
    ReplaceAt(text, '+', '-');
    ReplaceAt(Replace(text, '+', '-'), '/', '_');
  }

  lemma FromUrlInverts(text: string)
    requires AllSymbols(text)
    ensures FromUrl(ToUrl(text)) == text
  {
    ToUrlAt(text);
    var url := ToUrl(text);
    ReplaceAt(url, '-', '+');
    ReplaceAt(Replace(url, '-', '+'), '_', '/');
    forall i | 0 <= i < |text| ensures FromUrl(url)[i] == text[i] {
      assert IsSymbol(text[i]);
    }
  }

  lemma StripsToCore(core: string)
    requires AllSymbols(core)
    ensures StripEnd(ToUrl(core + Padding(|core|))) == ToUrl(core)
  {
    ToUrlAt(core);
    ToUrlAt(core + Padding(|core|));
    var url, padded := ToUrl(core), ToUrl(core + Padding(|core|));
    assert padded == url + Padding(|core|);
    assert |url| > 0 ==> IsSymbol(core[|url| - 1]) && url[|url| - 1] != '=';
    assert StripEnd(url) == url;
    if |core| % 4 == 2 {
      assert padded[..|padded| - 1] == url + "=";
      assert (url + "=")[..|url|] == url;
    } else if |core| % 4 == 3 {
      assert padded[..|padded| - 1] == url;
    }
  }

  lemma RoundUp(k: nat, r: nat)
    requires r < 4
    ensures (4 * k + r + 3) / 4 * 4 == if r == 0 then 4 * k else 4 * k + 4
  {
  }

  lemma PadTwice(core: string)
    ensures PadEnd(core, |core|) == core && PadEnd(core, |core| + 1) == core + "="
    ensures PadEnd(core, |core| + 2) == core + "=="
  {
    assert PadEnd(core + "=", |core| + 1) == core + "=";
    assert PadEnd(core + "=" + "=", |core| + 2) == core + "=" + "=";
    assert PadEnd(core + "=", |core| + 2) == core + "=" + "=";
    assert core + "=" + "=" == core + "==";
  }

  lemma RoundUpLength(n: nat)
    ensures (n + 3) / 4 * 4 == if n % 4 == 0 then n else n + 4 - n % 4
  {
    RoundUp(n / 4, n % 4);
  }

  lemma PadsCore(core: string)
    requires |core| % 4 != 1
    ensures PadEnd(core, (|core| + 3) / 4 * 4) == core + Padding(|core|)
  {
    RoundUpLength(|core|);
    PadTwice(core);
  }

  lemma UnpadsToCore(core: string)
    requires AllSymbols(core) && |core| % 4 != 1
    ensures Unpadded(core + Padding(|core|)) == core
  {
    var padded := core + Padding(|core|);
    assert |core| > 0 ==> IsSymbol(core[|core| - 1]);
    assert padded[..|core|] == core;
  }

  /** Decoding inverts encoding on every byte sequence. */
  lemma RoundTrip(bytes: seq<Byte>)
    ensures Unb64(B64(bytes)) == Some(bytes)
  {
    var core := Symbols(Sextets(bytes));
    SextetsDecode(bytes);
    SextetsLength(bytes);
    SymbolsDecode(Sextets(bytes));
    StripsToCore(core);
    FromUrlInverts(core);
    ToUrlAt(core);
    PadsCore(core);
    UnpadsToCore(core);
  }

  lemma B64IsInjective(left: seq<Byte>, right: seq<Byte>)
    requires B64(left) == B64(right)
    ensures left == right
  {
    RoundTrip(left);
    RoundTrip(right);
  }

  // ---------------------------------------------------------------------------
  // Section 5 of RFC 4648

  /** The URL and filename safe alphabet. */
  function UrlValue(c: char): Option<nat> {
    if 'A' <= c <= 'Z' then Some((c - 'A') as nat)
    else if 'a' <= c <= 'z' then Some(26 + (c - 'a') as nat)
    else if '0' <= c <= '9' then Some(52 + (c - '0') as nat)
    else if c == '-' then Some(62)
    else if c == '_' then Some(63)
    else None
  }

  /** The `width` lowest bits of a number, the highest first. */
  function Bits(n: nat, width: nat): seq<nat> {
    if width == 0 then [] else Bits(n / 2, width - 1) + [n % 2]
  }

  function GroupBits(groups: seq<nat>, width: nat): seq<nat> {
    if groups == [] then [] else Bits(groups[0], width) + GroupBits(groups[1..], width)
  }

  /** The bits of the sextets are those of the bytes, then zeros. */
  predicate Holds(sextets: seq<nat>, bytes: seq<nat>, fill: nat) {
    GroupBits(sextets, 6) == GroupBits(bytes, 8) + Bits(0, fill)
  }

  /** The characters stand for the bits of the bytes in groups of six, fewer than six zeros filling the last one. */
  ghost predicate IsBase64Url(text: string, bytes: seq<Byte>) {
    exists groups: seq<nat>, fill: nat ::
      && |groups| == |text| && fill < 6
      && (forall i :: 0 <= i < |text| ==> UrlValue(text[i]) == Some(groups[i]))
      && Holds(groups, bytes, fill)
  }

  lemma SplitTwo(n: nat, width: nat)
    ensures Bits(n, width + 2) == Bits(n / 4, width) + Bits(n % 4, 2)
  {
    assert n / 2 / 2 == n / 4 && n % 4 / 2 == n / 2 % 2 && n % 4 % 2 == n % 2;
    assert Bits(n, width + 2) == (Bits(n / 4, width) + [n / 2 % 2]) + [n % 2];
    assert Bits(n % 4, 2) == (Bits(n % 4 / 2 / 2, 0) + [n % 4 / 2 % 2]) + [n % 4 % 2];
  }

  lemma SplitFour(n: nat, width: nat)
    ensures Bits(n, width + 4) == Bits(n / 16, width) + Bits(n % 16, 4)
  {
    SplitTwo(n, width + 2);
    SplitTwo(n / 4, width);
    SplitTwo(n % 16, 2);
    assert n / 4 / 4 == n / 16 && n % 16 / 4 == n / 4 % 4 && n % 16 % 4 == n % 4;
  }

  lemma FourAndSixteen(n: Byte)
    ensures n / 16 / 4 == n / 64 && n % 64 / 16 == n / 16 % 4 && n % 64 % 16 == n % 16
  {
  }

  lemma SplitSix(n: Byte)
    ensures Bits(n, 8) == Bits(n / 64, 2) + Bits(n % 64, 6)
  {
    FourAndSixteen(n);
    SplitFour(n, 4);
    SplitTwo(n / 16, 2);
    SplitFour(n % 64, 2);
    AppendAssociates(Bits(n / 64, 2), Bits(n / 16 % 4, 2), Bits(n % 16, 4));
  }

  lemma SecondBits(a: Byte, b: Byte)
    ensures Bits(Second(a, b), 6) == Bits(a % 4, 2) + Bits(b / 16, 4)
  {
    SplitFour(Second(a, b), 2);
    assert Second(a, b) / 16 == a % 4 && Second(a, b) % 16 == b / 16;
  }

  lemma ThirdBits(b: Byte, c: Byte)
    ensures Bits(Third(b, c), 6) == Bits(b % 16, 4) + Bits(c / 64, 2)
  {
    SplitTwo(Third(b, c), 4);
    assert Third(b, c) / 4 == b % 16 && Third(b, c) % 4 == c / 64;
  }

  lemma Regroup(a: seq<nat>, b: seq<nat>, c: seq<nat>, d: seq<nat>, e: seq<nat>, f: seq<nat>, rest: seq<nat>)
    ensures a + ((b + c) + ((d + e) + (f + rest))) == (a + b) + ((c + d) + ((e + f) + rest))
  {
  }

  lemma GroupBitsStep(group: nat, groups: seq<nat>, width: nat)
    ensures GroupBits([group] + groups, width) == Bits(group, width) + GroupBits(groups, width)
  {
    assert ([group] + groups)[1..] == groups;
  }

  lemma FourGroups(a: nat, b: nat, c: nat, d: nat, groups: seq<nat>)
    ensures GroupBits([a, b, c, d] + groups, 6)
            == Bits(a, 6) + (Bits(b, 6) + (Bits(c, 6) + (Bits(d, 6) + GroupBits(groups, 6))))
  {
    GroupBitsStep(d, groups, 6);
    GroupBitsStep(c, [d] + groups, 6);
    GroupBitsStep(b, [c] + ([d] + groups), 6);
    GroupBitsStep(a, [b] + ([c] + ([d] + groups)), 6);
    assert [a, b, c, d] + groups == [a] + ([b] + ([c] + ([d] + groups)));
  }

  lemma ThreeBytes(a: Byte, b: Byte, c: Byte, bytes: seq<Byte>)
    ensures GroupBits([a, b, c] + bytes, 8) == Bits(a, 8) + (Bits(b, 8) + (Bits(c, 8) + GroupBits(bytes, 8)))
  {
    GroupBitsStep(c, bytes, 8);
    GroupBitsStep(b, [c] + bytes, 8);
    GroupBitsStep(a, [b] + ([c] + bytes), 8);
    assert [a, b, c] + bytes == [a] + ([b] + ([c] + bytes));
  }

  /** Four groups of six hold the bits of three bytes. */
  lemma QuadBits(a: Byte, b: Byte, c: Byte, rest: seq<nat>)
    ensures Bits(a / 4, 6) + (Bits(Second(a, b), 6) + (Bits(Third(b, c), 6) + (Bits(c % 64, 6) + rest)))
            == Bits(a, 8) + (Bits(b, 8) + (Bits(c, 8) + rest))
  {
    SplitTwo(a, 6);
    SplitFour(b, 4);
    SplitSix(c);
    SecondBits(a, b);
    ThirdBits(b, c);
    Regroup(Bits(a / 4, 6), Bits(a % 4, 2), Bits(b / 16, 4), Bits(b % 16, 4), Bits(c / 64, 2), Bits(c % 64, 6), rest);
  }

  function Fill(length: nat): nat {
    if length % 3 == 1 then 4 else if length % 3 == 2 then 2 else 0
  }

  lemma TwoGroups(a: nat, b: nat)
    ensures GroupBits([a, b], 6) == Bits(a, 6) + Bits(b, 6)
  {
    GroupBitsStep(b, [], 6);
    GroupBitsStep(a, [b], 6);
    AppendNothing(Bits(b, 6));
    assert [a, b] == [a] + [b] && [b] == [b] + [];
  }

  lemma ThreeGroups(a: nat, b: nat, c: nat)
    ensures GroupBits([a, b, c], 6) == Bits(a, 6) + (Bits(b, 6) + Bits(c, 6))
  {
    TwoGroups(b, c);
    GroupBitsStep(a, [b, c], 6);
    assert [a, b, c] == [a] + [b, c];
  }

  lemma OneByteBits(a: Byte)
    ensures Holds([a / 4, Second(a, 0)], [a], 4)
  {
    TwoGroups(a / 4, Second(a, 0));
    SplitTwo(a, 6);
    SecondBits(a, 0);
    GroupBitsStep(a, [], 8);
    AppendNothing(Bits(a, 8));
    assert [a] == [a] + [];
    AppendAssociates(Bits(a / 4, 6), Bits(a % 4, 2), Bits(0, 4));
  }

  lemma RegroupTwo(a: seq<nat>, b: seq<nat>, c: seq<nat>, d: seq<nat>, rest: seq<nat>)
    ensures a + ((b + c) + (d + rest)) == ((a + b) + (c + d)) + rest
  {
  }

  lemma TwoBytesBits(a: Byte, b: Byte)
    ensures Holds([a / 4, Second(a, b), Third(b, 0)], [a, b], 2)
  {
    ThreeGroups(a / 4, Second(a, b), Third(b, 0));
    SplitTwo(a, 6);
    SplitFour(b, 4);
    SecondBits(a, b);
    ThirdBits(b, 0);
    GroupBitsStep(b, [], 8);
    GroupBitsStep(a, [b], 8);
    AppendNothing(Bits(b, 8));
    assert [a, b] == [a] + [b] && [b] == [b] + [];
    RegroupTwo(Bits(a / 4, 6), Bits(a % 4, 2), Bits(b / 16, 4), Bits(b % 16, 4), Bits(0, 2));
  }

  lemma MoreThanThree(n: nat)
    ensures Fill(n + 3) == Fill(n)
  {
  }

  lemma OneByteSextets(a: Byte)
    ensures Sextets([a]) == [a / 4, Second(a, 0)]
  {
  }

  lemma TwoBytesSextets(a: Byte, b: Byte)
    ensures Sextets([a, b]) == [a / 4, Second(a, b), Third(b, 0)]
  {
  }

  /** The bits of the sextets of these bytes. */
  predicate HoldsFor(bytes: seq<Byte>) {
    Holds(Sextets(bytes), bytes, Fill(|bytes|))
  }

  lemma NoBytesHold()
    ensures HoldsFor([])
  {
  }

  lemma OneByteHolds(a: Byte)
    ensures HoldsFor([a])
  {
    OneByteSextets(a);
    OneByteBits(a);
  }

  lemma TwoBytesHold(a: Byte, b: Byte)
    ensures HoldsFor([a, b])
  {
    TwoBytesSextets(a, b);
    TwoBytesBits(a, b);
  }

  lemma FewBytes(bytes: seq<Byte>, holds: seq<Byte> -> bool)
    requires holds([]) && (forall a: Byte :: holds([a])) && (forall a: Byte, b: Byte :: holds([a, b]))
    ensures |bytes| < 3 ==> holds(bytes)
  {
    if |bytes| == 0 {
      assert bytes == [];
    } else if |bytes| == 1 {
      assert bytes == [bytes[0]];
    } else if |bytes| == 2 {
      assert bytes == [bytes[0], bytes[1]];
    }
  }

  lemma FewSextetBits(bytes: seq<Byte>)
    requires |bytes| < 3
    ensures HoldsFor(bytes)
  {
    NoBytesHold();
    forall a: Byte ensures HoldsFor([a]) {
      OneByteHolds(a);
    }
    forall a: Byte, b: Byte ensures HoldsFor([a, b]) {
      TwoBytesHold(a, b);
    }
    FewBytes(bytes, HoldsFor);
  }

  lemma RegroupFill(a: seq<nat>, b: seq<nat>, c: seq<nat>, rest: seq<nat>, fill: seq<nat>)
    ensures a + (b + (c + (rest + fill))) == (a + (b + (c + rest))) + fill
  {
  }

  lemma {:induction false} SextetBits(bytes: seq<Byte>)
    ensures HoldsFor(bytes)
  {
    if |bytes| < 3 {
      FewSextetBits(bytes);
    } else {
      var a, b, c, rest := bytes[0], bytes[1], bytes[2], bytes[3..];
      SextetBits(rest);
      MoreThanThree(|rest|);
      FirstThree(bytes);
      FourGroups(a / 4, Second(a, b), Third(b, c), c % 64, Sextets(rest));
      ThreeBytes(a, b, c, rest);
      QuadBits(a, b, c, GroupBits(Sextets(rest), 6));
      RegroupFill(Bits(a, 8), Bits(b, 8), Bits(c, 8), GroupBits(rest, 8), Bits(0, Fill(|bytes|)));
    }
  }

  lemma UrlSymbol(k: Sextet)
    ensures UrlValue(var c := Symbol(k); if c == '+' then '-' else if c == '/' then '_' else c) == Some(k)
  {
  }

  lemma {:induction false} SymbolsAt(sextets: seq<Sextet>)
    ensures |Symbols(sextets)| == |sextets|
    ensures forall i :: 0 <= i < |sextets| ==> Symbols(sextets)[i] == Symbol(sextets[i])
  {
    if sextets == [] {
    } else {
      SymbolsAt(sextets[1..]);
    }
  }

  /** The text is the unpadded base64url encoding of the bytes. */
  lemma B64IsBase64Url(bytes: seq<Byte>)
    ensures IsBase64Url(B64(bytes), bytes)
  {
    var groups := Sextets(bytes);
    var core := Symbols(groups);
    SymbolsDecode(groups);
    StripsToCore(core);
    ToUrlAt(core);
    SymbolsAt(groups);
    SextetBits(bytes);
    forall i | 0 <= i < |core| ensures UrlValue(ToUrl(core)[i]) == Some(groups[i]) {
      UrlSymbol(groups[i]);
    }
  }

  // ---------------------------------------------------------------------------
  // Skipped-key ids

  /** The property name under which the key of position `n` under ratchet key `dh` is stored. */
  function SkippedName(dh: seq<Byte>, n: nat): string {
    B64(dh) + ":" + Decimal(n)
  }

  predicate NotColon(c: char) {
    c != ':'
  }

  lemma B64HasNoColon(bytes: seq<Byte>)
    ensures Only(B64(bytes), NotColon)
  {
    var core := Symbols(Sextets(bytes));
    SymbolsDecode(Sextets(bytes));
    StripsToCore(core);
    ToUrlAt(core);
    forall i | 0 <= i < |B64(bytes)| ensures NotColon(B64(bytes)[i]) {
      assert IsSymbol(core[i]);
    }
  }

  lemma ColonSplits(a: string, s: string, b: string, t: string)
    requires a + ":" + s == b + ":" + t && Only(a, NotColon) && Only(b, NotColon)
    ensures a == b && s == t
  {
    assert a + ":" + s == a + (":" + s) && b + ":" + t == b + (":" + t);
    SplitsOnce(a, ":" + s, b, ":" + t, NotColon);
    assert (":" + s)[1..] == s && (":" + t)[1..] == t;
  }

  /** Different positions never share a property name. */
  lemma SkippedNamesAreDistinct(dh: seq<Byte>, n: nat, other: seq<Byte>, m: nat)
    requires SkippedName(dh, n) == SkippedName(other, m)
    ensures dh == other && n == m
  {
    B64HasNoColon(dh);
    B64HasNoColon(other);
    ColonSplits(B64(dh), Decimal(n), B64(other), Decimal(m));
    B64IsInjective(dh, other);
    DecimalInjective(n, m);
  }
}
