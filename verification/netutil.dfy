/** IPv4 addresses as 32-bit values, as dotted quads and in the IPv6 notation that
    stands for them, netmasks, networks and address ranges. Bit operations are spelled
    out on naturals. */
module NetUtil {
  import opened Text

  const TWO32 := 0x1_0000_0000

  type u32 = n: nat | n < TWO32

  // ---- bits ----

  function Pow2(k: nat): (p: nat)
    ensures p >= 1
  {
    if k == 0 then 1 else 2 * Pow2(k - 1)
  }

  function BitAnd(a: nat, b: nat): (r: nat)
    ensures r <= a
    decreases a
  {
    if a == 0 || b == 0 then 0 else (a % 2) * (b % 2) + 2 * BitAnd(a / 2, b / 2)
  }

  lemma Pow2At32()
    ensures Pow2(32) == TWO32
  {
    assert Pow2(8) == 256;
    assert Pow2(16) == 256 * Pow2(8);
    assert Pow2(24) == 256 * Pow2(16);
    assert Pow2(32) == 256 * Pow2(24);
  }

  lemma {:induction false} Pow2Split(m: nat, k: nat)
    requires k <= m
    ensures Pow2(m) == Pow2(k) * Pow2(m - k)
    ensures Pow2(k) <= Pow2(m)
  {
    if k > 0 {
      Pow2Split(m - 1, k - 1);
      assert Pow2(m) == 2 * (Pow2(k - 1) * Pow2(m - k)) == Pow2(k) * Pow2(m - k);
    }
  }

  lemma {:induction false} BitAndOnes(a: nat, n: nat)
    requires a < Pow2(n)
    ensures BitAnd(a, Pow2(n) - 1) == a
  {
    hide BitAnd;
    if a == 0 {
      BitAndNone(Pow2(n) - 1);
    } else {
      assert n > 0;
      OnesHalves(n);
      BitAndOnes(a / 2, n - 1);
      BitAndStep(a, Pow2(n) - 1);
    }
  }

  lemma BitAndNone(b: nat)
    ensures BitAnd(0, b) == 0
  {
  }

  lemma OnesHalves(n: nat)
    requires n > 0
    ensures Pow2(n) > 1 && (Pow2(n) - 1) / 2 == Pow2(n - 1) - 1 && (Pow2(n) - 1) % 2 == 1
  {
  }

  /** a rounded down to a multiple of d. */
  function RoundDown(a: nat, d: nat): nat
    requires d >= 1
  {
    BitAndLow(a, d);
    a - a % d
  }

  lemma BitAndLow(a: nat, d: nat)
    requires d >= 1
    ensures a % d <= a
  {
    assert a == (a / d) * d + a % d;
    assert (a / d) * d >= 0;
  }

  /** Masking off the k low bits rounds down to a multiple of 2^k. */
  lemma {:induction false} BitAndHigh(a: nat, n: nat, k: nat)
    requires a < Pow2(n) && k <= n
    ensures Pow2(k) <= Pow2(n)
    ensures BitAnd(a, Pow2(n) - Pow2(k)) == RoundDown(a, Pow2(k))
  {
    hide RoundDown;
    Pow2Split(n, k);
    if k == 0 {
      BitAndOnes(a, n);
      RoundByOne(a);
    } else if a == 0 || n == k {
      RoundToZero(a, Pow2(k));
    } else {
      BitAndHigh(a / 2, n - 1, k - 1);
      Pow2Strict(k - 1, n - 1);
      BitAndEven(a, Pow2(n - 1) - Pow2(k - 1));
      HalfRound(a, Pow2(k - 1));
    }
  }

  lemma BitAndEven(a: nat, h: nat)
    ensures BitAnd(a, 2 * h) == 2 * BitAnd(a / 2, h)
  {
    if a != 0 && h != 0 {
      EvenHalves(h);
      BitAndStep(a, 2 * h);
    }
  }

  lemma EvenHalves(h: nat)
    ensures 2 * h / 2 == h && 2 * h % 2 == 0
  {
  }

  lemma BitAndStep(a: nat, b: nat)
    requires a != 0 && b != 0
    ensures BitAnd(a, b) == (a % 2) * (b % 2) + 2 * BitAnd(a / 2, b / 2)
  {
  }

  lemma RoundByOne(a: nat)
    ensures RoundDown(a, 1) == a
  {
  }

  lemma RoundToZero(a: nat, d: nat)
    requires a < d
    ensures RoundDown(a, d) == 0
  {
  }

  lemma HalfRound(a: nat, m: nat)
    requires m >= 1
    ensures RoundDown(a, 2 * m) == 2 * RoundDown(a / 2, m)
  {
    var q, r := (a / 2) / m, (a / 2) % m;
    assert a / 2 == q * m + r;
    assert a == q * (2 * m) + (2 * r + a % 2);
    DivModUnique(a, 2 * m, q, 2 * r + a % 2);
  }

  lemma {:induction false} Pow2Strict(k: nat, n: nat)
    ensures k < n ==> Pow2(k) < Pow2(n)
    ensures k <= n && Pow2(k) == Pow2(n) ==> k == n
  {
    if k < n {
      Pow2Split(n - 1, k);
    }
  }

  lemma DivModUnique(a: int, d: int, q: int, r: int)
    requires d > 0 && a == q * d + r && 0 <= r < d
    ensures a / d == q && a % d == r
  {
    var e := q - a / d;
    assert e * d == a % d - r;
    assert e * d < d && -d < e * d;
    SmallMultiple(e, d);
  }

  lemma SmallMultiple(e: int, d: int)
    requires d > 0 && -d < e * d < d
    ensures e == 0
  {
    assert e >= 1 ==> e * d >= d;
    assert e <= -1 ==> e * d <= -d;
  }

  // ---- dotted quads ----

  function Octet(u: u32, k: nat): nat
    requires k < 4
  {
    if k == 0 then u / 256 / 256 / 256 else if k == 1 then u / 256 / 256 % 256
    else if k == 2 then u / 256 % 256 else u % 256
  }

  function Dotted(a: string, rest: string): string {
    a + ['.'] + rest
  }

  function Part(u: u32, k: nat): string
    requires k < 4
  {
    Numeral(Octet(u, k))
  }

  /** The dotted quad of a 32-bit value. */
  function Render(u: u32): string {
    Dotted(Part(u, 0), Dotted(Part(u, 1), Dotted(Part(u, 2), Part(u, 3))))
  }

  predicate IsOctet(f: string) {
    f != "" && AllDigits(f) && (|f| == 1 || f[0] != '0') && Value(f) <= 255
  }

  predicate FourOctets(fs: seq<string>) {
    |fs| == 4 && IsOctet(fs[0]) && IsOctet(fs[1]) && IsOctet(fs[2]) && IsOctet(fs[3])
  }

  function FromOctets(fs: seq<string>): u32
    requires FourOctets(fs)
  {
    Quad(Value(fs[0]), Value(fs[1]), Value(fs[2]), Value(fs[3]))
  }

  // ---- addresses with colons ----

  type word = n: nat | n < 0x1_0000

  predicate IsHex(c: char) {
    IsDigit(c) || 'a' <= c <= 'f' || 'A' <= c <= 'F'
  }

  function HexDigit(c: char): (d: nat)
    requires IsHex(c)
    ensures d < 16
  {
    if IsDigit(c) then c as int - '0' as int
    else if 'a' <= c then c as int - 'a' as int + 10
    else c as int - 'A' as int + 10
  }

  /** How many hexadecimal digits s begins with. */
  function HexRun(s: string): (n: nat)
    ensures n <= |s| && forall k :: 0 <= k < n ==> IsHex(s[k])
    ensures n < |s| ==> !IsHex(s[n])
  {
    if s == "" || !IsHex(s[0]) then 0 else 1 + HexRun(s[1..])
  }

  function HexNumber(s: string): (v: nat)
    requires forall c :: c in s ==> IsHex(c)
    ensures |s| == 0 ==> v == 0
    ensures |s| <= 1 ==> v < 0x10
    ensures |s| <= 2 ==> v < 0x100
    ensures |s| <= 3 ==> v < 0x1000
    ensures |s| <= 4 ==> v < 0x1_0000
  {
    if s == "" then 0 else HexNumber(s[..|s| - 1]) * 16 + HexDigit(s[|s| - 1])
  }

  /** The words read so far, and where `::` stood among them. */
  datatype Words = Words(ws: seq<word>, gap: Option<nat>)

  /** Words of one to four hexadecimal digits with colons between them, once perhaps a
      double colon, and in place of the last two words perhaps four octets. */
  function ReadWords(s: string, ws: seq<word>, gap: Option<nat>): Option<Words>
    decreases |s|
  {
    var n := HexRun(s);
    if |ws| >= 8 then (if s == "" then Some(Words(ws, gap)) else None)
    else if n == 0 || n > 4 then None
    else if n < |s| && s[n] == '.' then
      if (gap.None? && |ws| != 6) || |ws| > 6 || !FourOctets(Split(s, '.')) then None
      else Some(Words(ws + QuadWords(FromOctets(Split(s, '.'))), gap))
    else
      var more, t := ws + [HexNumber(s[..n])], s[n..];
      if t == "" then Some(Words(more, gap))
      else if t[0] != ':' || |t| == 1 then None
      else if t[1] != ':' then ReadWords(t[1..], more, gap)
      else if gap.Some? then None
      else if |t| == 2 then Some(Words(more, Some(|more|)))
      else ReadWords(t[2..], more, Some(|more|))
  }

  function QuadWords(u: u32): seq<word> {
    [u / 0x1_0000, u % 0x1_0000]
  }

  /** A double colon stands for at least one word of zeros. */
  function Filled(w: Words): Option<seq<word>> {
    if |w.ws| >= 8 then (if w.gap.None? then Some(w.ws) else None)
    else if w.gap.None? || w.gap.value > |w.ws| then None
    else Some(w.ws[..w.gap.value] + seq(8 - |w.ws|, _ => 0) + w.ws[w.gap.value..])
  }

  function ParseV6(s: string): Option<seq<word>> {
    var r := if !HasPrefix(s, "::") then ReadWords(s, [], None)
             else if s == "::" then Some(Words([], Some(0)))
             else ReadWords(s[2..], [], Some(0));
    if r.None? then None else Filled(r.value)
  }

  /** The IPv4 address that eight words stand for, if they do. */
  function Mapped(ws: seq<word>): Option<u32> {
    if |ws| == 8 && ws[..5] == [0, 0, 0, 0, 0] && ws[5] == 0xffff then Some(WordsQuad(ws[6], ws[7])) else None
  }

  function WordsQuad(hi: nat, lo: nat): u32
    requires hi < 0x1_0000 && lo < 0x1_0000
  {
    hi * 0x1_0000 + lo
  }

  /** Reading an address: surrounding white space is ignored, and what is required is
      four decimal octets without leading zeros, or an IPv6 address that stands for an
      IPv4 one. */
  function ParseIp(s: string): (r: Option<u32>) {
    var t := TrimSpace(s);
    if ':' in t then
      var ws := ParseV6(t);
      if ws.None? then None else Mapped(ws.value)
    else
      var fs := Split(t, '.');
      if FourOctets(fs) then Some(FromOctets(fs)) else None
  }

  function Quad(a: nat, b: nat, c: nat, d: nat): u32
    requires a <= 255 && b <= 255 && c <= 255 && d <= 255
  {
    ((a * 256 + b) * 256 + c) * 256 + d
  }

  lemma QuadOctets(a: nat, b: nat, c: nat, d: nat)
    requires a <= 255 && b <= 255 && c <= 255 && d <= 255
    ensures var u := Quad(a, b, c, d);
      Octet(u, 0) == a && Octet(u, 1) == b && Octet(u, 2) == c && Octet(u, 3) == d
  {
    var u := Quad(a, b, c, d);
    assert u / 256 == (a * 256 + b) * 256 + c;
    assert u / 256 / 256 == a * 256 + b;
  }

  lemma OctetsQuad(u: u32)
    ensures Octet(u, 0) <= 255
    ensures Quad(Octet(u, 0), Octet(u, 1), Octet(u, 2), Octet(u, 3)) == u
  {
    var h := u / 256;
    var g := h / 256;
    assert u == h * 256 + u % 256 && h == g * 256 + h % 256 && g == g / 256 * 256 + g % 256;
  }

  lemma NumeralIsOctet(n: nat)
    requires n <= 255
    ensures IsOctet(Numeral(n)) && Value(Numeral(n)) == n
  {
    ValueOfNumeral(n);
    NumeralLeads(n);
  }

  lemma {:induction false} NumeralLeads(n: nat)
    ensures n > 0 ==> Numeral(n)[0] != '0'
    ensures n < 10 ==> |Numeral(n)| == 1
  {
    if n >= 10 {
      NumeralLeads(n / 10);
    }
  }

  lemma DottedSplit(a: string, rest: string)
    requires AllDigits(a)
    ensures Split(Dotted(a, rest), '.') == [a] + Split(rest, '.')
  {
    assert '.' !in a;
    SplitHead(a, '.', rest);
  }

  lemma RenderFields(u: u32)
    ensures Split(Render(u), '.') == [Part(u, 0), Part(u, 1), Part(u, 2), Part(u, 3)]
  {
    var a, b, c, d := Part(u, 0), Part(u, 1), Part(u, 2), Part(u, 3);
    assert '.' !in d;
    SplitSingle(d, '.');
    DottedSplit(c, d);
    DottedSplit(b, Dotted(c, d));
    DottedSplit(a, Dotted(b, Dotted(c, d)));
  }

  lemma RenderTrimmed(u: u32)
    ensures TrimSpace(Render(u)) == Render(u)
  {
    var s := Render(u);
    assert s[0] == Part(u, 0)[0] && IsDigit(s[0]);
    var d := Part(u, 3);
    assert s[|s| - 1] == d[|d| - 1] && IsDigit(s[|s| - 1]);
    TrimmedIsFixed(s);
  }

  lemma RenderLacks(u: u32, c: char)
    requires c != '.' && !IsDigit(c)
    ensures c !in Render(u)
  {
    assert forall k: nat | k < 4 :: c !in Part(u, k);
  }

  lemma {:induction false} TrimKeepsColon(s: string)
    ensures ':' in TrimLeft(s) <==> ':' in s
    ensures ':' in TrimRight(s) <==> ':' in s
  {
    if s != "" {
      TrimKeepsColon(s[1..]);
      TrimKeepsColon(s[..|s| - 1]);
      assert s == [s[0]] + s[1..] == s[..|s| - 1] + [s[|s| - 1]];
    }
  }

  lemma ColonInTrimmed(s: string)
    ensures ':' in TrimSpace(s) <==> ':' in s
  {
    TrimKeepsColon(s);
    TrimKeepsColon(TrimLeft(s));
  }

  lemma RenderedOctets(u: u32)
    ensures FourOctets(Split(Render(u), '.')) && FromOctets(Split(Render(u), '.')) == u
  {
    hide Render, Split;
    RenderFields(u);
    OctetsQuad(u);
    NumeralIsOctet(Octet(u, 0));
    NumeralIsOctet(Octet(u, 1));
    NumeralIsOctet(Octet(u, 2));
    NumeralIsOctet(Octet(u, 3));
  }

  lemma ParseWhenRendered(s: string, u: u32)
    requires TrimSpace(s) == Render(u)
    ensures ParseIp(s) == Some(u)
  {
    hide Render, TrimSpace, FourOctets, FromOctets, ParseV6, Mapped;
    RenderLacks(u, ':');
    RenderedOctets(u);
  }

  lemma QuadPrints(t: string)
    requires FourOctets(Split(t, '.'))
    ensures t == Render(FromOctets(Split(t, '.')))
  {
    hide Split, Join;
    var fs := Split(t, '.');
    QuadOctets(Value(fs[0]), Value(fs[1]), Value(fs[2]), Value(fs[3]));
    NumeralOfValue(fs[0]);
    NumeralOfValue(fs[1]);
    NumeralOfValue(fs[2]);
    NumeralOfValue(fs[3]);
    JoinSplit(t, '.');
    JoinFour(fs);
  }

  /** Reading and printing addresses are inverse: of the texts without a colon exactly
      the dotted quads are read, each as the value it prints. */
  lemma ParseRender(s: string, u: u32)
    ensures ParseIp(s) == Some(u) && ':' !in s <==> TrimSpace(s) == Render(u)
  {
    hide Render, TrimSpace, FourOctets, FromOctets, ParseV6, Mapped;
    ColonInTrimmed(s);
    RenderLacks(u, ':');
    if TrimSpace(s) == Render(u) {
      ParseWhenRendered(s, u);
    }
    if ParseIp(s) == Some(u) && ':' !in s {
      QuadPrints(TrimSpace(s));
    }
  }

  // ---- the usual notation with colons ----

  function MappedText(u: u32): string {
    "::ffff:" + Render(u)
  }

  lemma {:induction false} DigitRun(a: string, b: string)
    requires AllDigits(a) && b != "" && !IsHex(b[0])
    ensures HexRun(a + b) == |a|
    decreases |a|
  {
    if a == "" {
      assert a + b == b;
    } else {
      assert (a + b)[1..] == a[1..] + b;
      DigitRun(a[1..], b);
    }
  }

  lemma OctetDigits(n: nat)
    requires n <= 255
    ensures 1 <= |Numeral(n)| <= 3
  {
    hide Numeral;
    NumeralWidth(n);
    NumeralWidth(n / 10);
    NumeralWidth(n / 10 / 10);
  }

  lemma NumeralWidth(n: nat)
    ensures |Numeral(n)| == if n < 10 then 1 else |Numeral(n / 10)| + 1
  {
  }

  lemma ReadsQuad(u: u32)
    ensures ReadWords(Render(u), [0xffff], Some(0)) == Some(Words([0xffff] + QuadWords(u), Some(0)))
  {
    hide FourOctets, FromOctets, Split, Numeral, HexRun, QuadWords;
    RenderedOctets(u);
    OctetDigits(Octet(u, 0));
    DigitRun(Part(u, 0), ['.'] + Dotted(Part(u, 1), Dotted(Part(u, 2), Part(u, 3))));
    assert Render(u) == Part(u, 0) + (['.'] + Dotted(Part(u, 1), Dotted(Part(u, 2), Part(u, 3))));
  }

  lemma ReadsMapped(u: u32)
    ensures ReadWords("ffff:" + Render(u), [], Some(0)) == ReadWords(Render(u), [0xffff], Some(0))
  {
    hide FourOctets, FromOctets, Split, HexNumber;
    var s := "ffff:" + Render(u);
    assert HexRun(s) == 4 by {
      assert s[1..][1..][1..][1..][0] == ':';
    }
    assert s[..4] == "ffff" && s[4..] == ":" + Render(u) && s[4..][1..] == Render(u);
    FfffIsHex();
    assert Render(u)[0] == Part(u, 0)[0] && IsDigit(Render(u)[0]);
    assert [] + [0xffff] == [0xffff];
  }

  lemma FfffIsHex()
    ensures forall c :: c in "ffff" ==> IsHex(c)
    ensures HexNumber("ffff") == 0xffff
  {
    assert "ffff"[..3] == "fff" && "fff"[..2] == "ff" && "ff"[..1] == "f" && "f"[..0] == "";
    assert HexNumber("f") == 15;
    assert HexNumber("ff") == 255;
    assert HexNumber("fff") == 4095;
  }

  lemma MappedTrimmed(u: u32)
    ensures TrimSpace(MappedText(u)) == MappedText(u) && ':' in MappedText(u)
  {
    hide Render, TrimSpace;
    RenderNonEmpty(u);
    RenderTrimmed(u);
    TrimmedIsFixed(Render(u));
    TrimmedIsFixed(MappedText(u));
    assert MappedText(u)[0] == ':';
  }

  lemma RenderNonEmpty(u: u32)
    ensures Render(u) != ""
  {
  }

  /** Every IPv4 address can also be written with colons. */
  lemma ParseMapped(u: u32)
    ensures ParseIp(MappedText(u)) == Some(u)
  {
    hide Render, TrimSpace, FourOctets, FromOctets, ReadWords;
    MappedTrimmed(u);
    var t := MappedText(u);
    assert HasPrefix(t, "::") && t[2..] == "ffff:" + Render(u) && |t| > 2;
    ReadsMapped(u);
    ReadsQuad(u);
    MappedWords(u);
  }

  lemma MappedWords(u: u32)
    ensures Filled(Words([0xffff] + QuadWords(u), Some(0))).Some?
    ensures Mapped(Filled(Words([0xffff] + QuadWords(u), Some(0))).value) == Some(u)
  {
    var ws := [0xffff] + QuadWords(u);
    assert ws[..0] == [] && ws[0..] == ws;
    assert Filled(Words(ws, Some(0))).value == [0, 0, 0, 0, 0, 0xffff] + QuadWords(u);
  }

  lemma JoinFour(fs: seq<string>)
    requires |fs| == 4
    ensures Join(fs, ".") == Dotted(fs[0], Dotted(fs[1], Dotted(fs[2], fs[3])))
  {
    JoinCons(fs);
    JoinCons(fs[1..]);
    JoinCons(fs[2..]);
    assert fs[1..][1..] == fs[2..] && fs[2..][1..] == [fs[3]];
  }

  lemma JoinCons(fs: seq<string>)
    requires |fs| > 1
    ensures Join(fs, ".") == Dotted(fs[0], Join(fs[1..], "."))
  {
  }

  lemma RenderInjective(u: u32, v: u32)
    requires Render(u) == Render(v)
    ensures u == v
  {
    ParseOfRender(u);
    ParseOfRender(v);
  }

  lemma ParseOfRender(u: u32)
    ensures ParseIp(Render(u)) == Some(u)
  {
    RenderTrimmed(u);
    ParseWhenRendered(Render(u), u);
  }

  // ---- netmasks ----

  /** The contiguous mask of prefix length p (section 3.1 of RFC 4632). */
  function MaskOf(p: nat): u32
    requires p <= 32
  {
    Pow2At32();
    Pow2Split(32, 32 - p);
    TWO32 - Pow2(32 - p)
  }

  /** `0xFFFFFFFF << (32-p)`, truncated to 32 bits. */
  function PrefixToMask(p: int): string {
    if p < 0 || p > 32 then ""
    else if p == 0 then "0.0.0.0"
    else Render(0xFFFF_FFFF * Pow2(32 - p) % TWO32)
  }

  lemma RenderZero()
    ensures Render(0) == "0.0.0.0"
  {
    assert Numeral(0) == "0";
    assert Dotted("0", "0") == "0.0";
    assert Dotted("0", "0.0") == "0.0.0";
  }

  lemma ShiftedOnes(t: nat)
    requires 1 <= t < TWO32
    ensures 0xFFFF_FFFF * t % TWO32 == TWO32 - t
  {
    assert 0xFFFF_FFFF * t == (t - 1) * TWO32 + (TWO32 - t);
    DivModUnique(0xFFFF_FFFF * t, TWO32, t - 1, TWO32 - t);
  }

  lemma PrefixToMaskIsMask(p: nat)
    requires p <= 32
    ensures PrefixToMask(p) == Render(MaskOf(p))
  {
    Pow2At32();
    if p == 0 {
      RenderZero();
    } else {
      Pow2Strict(32 - p, 32);
      ShiftedOnes(Pow2(32 - p));
    }
  }

  predicate Contiguous(u: u32) {
    exists p: nat :: p <= 32 && u == MaskOf(p)
  }

  /** The top w bits of u, seen as a number, are `ones` ones then zeros. */
  ghost predicate TopBits(u: u32, w: nat, ones: nat)
    requires w <= 32 && ones <= w
  {
    u / Pow2(32 - w) == Pow2(w) - Pow2(w - ones)
  }

  lemma NextBit(u: u32, i: nat)
    requires i < 32
    ensures u / Pow2(i) == 2 * (u / Pow2(i + 1)) + u / Pow2(i) % 2
  {
    HalfDiv(u, Pow2(i));
  }

  lemma HalfDiv(u: nat, m: nat)
    requires m >= 1
    ensures u / (2 * m) == u / m / 2
  {
    var q, r := u / m, u % m;
    assert u == q * m + r;
    assert q == 2 * (q / 2) + q % 2;
    assert u == (q / 2) * (2 * m) + ((q % 2) * m + r);
    DivModUnique(u, 2 * m, q / 2, (q % 2) * m + r);
  }

  /** The top w bits of a mask are a mask of w bits. */
  lemma MaskTopBits(p: nat, w: nat)
    requires p <= 32 && w <= 32
    ensures MaskOf(p) / Pow2(32 - w) == Pow2(w) - Pow2(w - if p <= w then p else w)
  {
    Pow2At32();
    if p <= w {
      MaskTopShort(p, w);
    } else {
      MaskTopLong(p, w);
    }
  }

  lemma MaskTopShort(p: nat, w: nat)
    requires p <= w <= 32
    ensures MaskOf(p) / Pow2(32 - w) == Pow2(w) - Pow2(w - p)
  {
    hide Pow2;
    Pow2At32();
    Pow2Split(32, 32 - w);
    Pow2Split(32 - p, 32 - w);
    ExactMultiple(Pow2(w), Pow2(w - p), Pow2(32 - w));
  }

  lemma MaskTopLong(p: nat, w: nat)
    requires w < p <= 32
    ensures MaskOf(p) / Pow2(32 - w) == Pow2(w) - Pow2(0)
  {
    Pow2Zero();
    hide Pow2;
    Pow2At32();
    Pow2Split(32, 32 - w);
    Pow2Strict(32 - p, 32 - w);
    var a, m, t := Pow2(w), Pow2(32 - w), Pow2(32 - p);
    assert MaskOf(p) == m * a - t;
    AlmostMultiple(a, m, t);
  }

  lemma Pow2Zero()
    ensures Pow2(0) == 1
  {
  }

  lemma AlmostMultiple(a: nat, m: nat, t: nat)
    requires 0 < t <= m
    ensures (m * a - t) / m == a - 1
  {
    assert m * a - t == (a - 1) * m + (m - t);
    DivModUnique(m * a - t, m, a - 1, m - t);
  }

  lemma ExactMultiple(a: nat, b: nat, m: nat)
    requires m >= 1
    ensures (m * a - m * b) / m == a - b
  {
    assert m * a - m * b == (a - b) * m;
    DivModUnique(m * a - m * b, m, a - b, 0);
  }

  lemma MaskInjective(p: nat, q: nat)
    requires p <= 32 && q <= 32 && MaskOf(p) == MaskOf(q)
    ensures p == q
  {
    Pow2Strict(32 - p, 32 - q);
    Pow2Strict(32 - q, 32 - p);
  }

  lemma TopBitsOne(u: u32, w: nat)
    requires w < 32 && TopBits(u, w, w) && u / Pow2(31 - w) % 2 == 1
    ensures TopBits(u, w + 1, w + 1)
  {
    NextBit(u, 31 - w);
  }

  lemma TopBitsZero(u: u32, w: nat, ones: nat)
    requires w < 32 && ones <= w && TopBits(u, w, ones) && u / Pow2(31 - w) % 2 == 0
    ensures TopBits(u, w + 1, ones)
  {
    NextBit(u, 31 - w);
  }

  lemma TopBitsAll(u: u32, ones: nat)
    requires ones <= 32
    ensures TopBits(u, 0, 0)
    ensures TopBits(u, 32, ones) <==> u == MaskOf(ones)
  {
    Pow2At32();
    assert u / 1 == u;
  }

  /** A one after a zero: no contiguous mask starts like that. */
  lemma BrokenRun(u: u32, w: nat, ones: nat)
    requires w < 32 && ones < w && TopBits(u, w, ones)
    requires u / Pow2(31 - w) % 2 == 1
    ensures !Contiguous(u)
  {
    NextBit(u, 31 - w);
    Pow2Strict(0, w - ones);
    forall p: nat | p <= 32 ensures u != MaskOf(p) {
      MaskTopBits(p, w + 1);
      MaskTopBits(p, w);
    }
  }

  /** `MaskToPrefix`: the bit loop accepts exactly the contiguous masks and returns
      their prefix length. */
  method MaskToPrefix(mask: string) returns (ones: int, ok: bool)
    ensures ok <==> ParseIp(mask).Some? && Contiguous(ParseIp(mask).value)
    ensures ok ==> 0 <= ones <= 32 && ParseIp(mask).value == MaskOf(ones)
    ensures !ok ==> ones == 0
  {
    hide ParseIp, Pow2, TopBits, Contiguous, MaskOf;
    var r := ParseIp(mask);
    if r.None? {
      return 0, false;
    }
    var u := r.value;
    var allOnesSeen := true;
    ones := 0;
    var i := 31;
    TopBitsAll(u, 0);
    while i >= 0
      invariant -1 <= i <= 31
      invariant 0 <= ones <= 31 - i
      invariant allOnesSeen <==> ones == 31 - i
      invariant TopBits(u, 31 - i, ones)
    {
      var bit := u / Pow2(i) % 2;
      if bit == 1 {
        if !allOnesSeen {
          BrokenRun(u, 31 - i, ones);
          return 0, false;
        }
        TopBitsOne(u, 31 - i);
        ones := ones + 1;
      } else {
        TopBitsZero(u, 31 - i, ones);
        allOnesSeen := false;
      }
      i := i - 1;
    }
    TopBitsAll(u, ones);
    MaskIsContiguous(ones);
    ok := true;
  }

  lemma MaskIsContiguous(p: nat)
    requires p <= 32
    ensures Contiguous(MaskOf(p))
  {
  }

  /** What `MaskToPrefix` returns, as a function of the mask. */
  ghost function PrefixOf(mask: string): Option<nat> {
    if ParseIp(mask).Some? && Contiguous(ParseIp(mask).value) then
      var p: nat :| p <= 32 && ParseIp(mask).value == MaskOf(p);
      Some(p)
    else None
  }

  /** Prefix lengths and netmasks translate back and forth without loss. */
  lemma PrefixMaskInverse(p: nat, mask: string)
    ensures p <= 32 ==> PrefixOf(PrefixToMask(p)) == Some(p)
    ensures PrefixOf(mask).Some? ==> ParseIp(PrefixToMask(PrefixOf(mask).value)) == ParseIp(mask)
    ensures PrefixOf(mask).Some? ==> (PrefixToMask(PrefixOf(mask).value) == TrimSpace(mask) <==> ':' !in mask)
    ensures p > 32 ==> PrefixOf(PrefixToMask(p)) == None
  {
    if p <= 32 {
      PrefixToMaskIsMask(p);
      ParseOfRender(MaskOf(p));
      assert Contiguous(MaskOf(p));
      var q := PrefixOf(PrefixToMask(p)).value;
      MaskInjective(p, q);
    } else {
      assert Split(TrimSpace(""), '.') == [""];
    }
    if PrefixOf(mask).Some? {
      var q := PrefixOf(mask).value;
      PrefixToMaskIsMask(q);
      ParseOfRender(MaskOf(q));
      ParseRender(mask, MaskOf(q));
    }
  }

  // ---- networks and ranges ----

  function NetworkBase(ip: string, mask: string): Option<string> {
    if ParseIp(ip).Some? && ParseIp(mask).Some? then Some(Render(BitAnd(ParseIp(ip).value, ParseIp(mask).value)))
    else None
  }

  predicate SameSubnet(a: string, b: string, mask: string) {
    NetworkBase(a, mask).Some? && NetworkBase(a, mask) == NetworkBase(b, mask)
  }

  /** Under a prefix length, sharing the network is sharing the quotient by the
      network's size. */
  lemma SameSubnetIsSameQuotient(a: u32, b: u32, p: nat)
    requires p <= 32
    ensures SameSubnet(Render(a), Render(b), PrefixToMask(p)) <==> a / Pow2(32 - p) == b / Pow2(32 - p)
  {
    hide Render, ParseIp, PrefixToMask, NetworkBase, RoundDown, Pow2;
    BaseUnderPrefix(a, p);
    BaseUnderPrefix(b, p);
    var d := Pow2(32 - p);
    SameQuotient(a, b, d);
    if Render(RoundDown(a, d)) == Render(RoundDown(b, d)) {
      RenderInjective(RoundDown(a, d), RoundDown(b, d));
    }
  }

  lemma BaseUnderPrefix(a: u32, p: nat)
    requires p <= 32
    ensures RoundDown(a, Pow2(32 - p)) < TWO32
    ensures NetworkBase(Render(a), PrefixToMask(p)) == Some(Render(RoundDown(a, Pow2(32 - p))))
  {
    hide Render, ParseIp, PrefixToMask, RoundDown, BitAnd, Pow2;
    Pow2At32();
    PrefixToMaskIsMask(p);
    ParseOfRender(a);
    ParseOfRender(MaskOf(p));
    BitAndHigh(a, 32, 32 - p);
  }

  lemma SameQuotient(a: nat, b: nat, d: nat)
    requires d >= 1
    ensures RoundDown(a, d) == RoundDown(b, d) <==> a / d == b / d
  {
    assert a - a % d == (a / d) * d && b - b % d == (b / d) * d;
    if (a / d) * d == (b / d) * d {
      var e := a / d - b / d;
      assert e * d == 0;
      SmallMultiple(e, d);
    }
  }

  function RangeCount(start: string, end: string): Option<nat> {
    if ParseIp(start).Some? && ParseIp(end).Some? && ParseIp(start).value <= ParseIp(end).value then
      Some(ParseIp(end).value - ParseIp(start).value + 1)
    else None
  }

  datatype Pool = Pool(start: nat, limit: nat)

  /** The pool range as an offset from the interface's network base and a count. */
  function StartLimit(ifaceIp: string, mask: string, first: string, last: string): Option<Pool> {
    var base := NetworkBase(ifaceIp, mask);
    var s, e := ParseIp(first), ParseIp(last);
    if base.None? || s.None? || e.None? || e.value < s.value || s.value < BaseOf(ifaceIp, mask) then None
    else if !SameSubnet(first, ifaceIp, mask) || !SameSubnet(last, ifaceIp, mask) then None
    else Some(Pool(s.value - BaseOf(ifaceIp, mask), e.value - s.value + 1))
  }

  /** Exactly the ranges that lie in the interface's network, whatever the mask, are encoded
      relative to it. */
  lemma EncodedExactly(a: u32, m: u32, s: u32, e: u32)
    ensures StartLimit(Render(a), Render(m), Render(s), Render(e)).Some? <==>
      s <= e && BitAnd(s, m) == BitAnd(a, m) == BitAnd(e, m)
  {
    hide Render, ParseIp, BitAnd;
    ParseOfRender(a);
    ParseOfRender(m);
    ParseOfRender(s);
    ParseOfRender(e);
    BaseIs(a, m);
    if Render(BitAnd(s, m)) == Render(BitAnd(a, m)) {
      RenderInjective(BitAnd(s, m), BitAnd(a, m));
    }
    if Render(BitAnd(e, m)) == Render(BitAnd(a, m)) {
      RenderInjective(BitAnd(e, m), BitAnd(a, m));
    }
  }

  lemma BaseIs(a: u32, m: u32)
    ensures NetworkBase(Render(a), Render(m)) == Some(Render(BitAnd(a, m))) && BaseOf(Render(a), Render(m)) == BitAnd(a, m)
  {
    hide Render, ParseIp, BitAnd;
    ParseOfRender(a);
    ParseOfRender(m);
    ParseOfRender(BitAnd(a, m));
  }

  /** What reading the printed network base gives. */
  function BaseOf(ip: string, mask: string): (base: u32)
    requires NetworkBase(ip, mask).Some?
    ensures ParseIp(NetworkBase(ip, mask).value) == Some(base)
  {
    var base := BitAnd(ParseIp(ip).value, ParseIp(mask).value);
    ParseOfRender(base);
    base
  }

  /** A uint32 conversion of a Go int. */
  function ToU32(n: int): u32 {
    n % TWO32
  }

  /** `startLimitToRange`: the absolute range of an offset and a count, with the
      wrap-around of 32-bit addition. */
  function StartLimitToRange(ip: string, mask: string, start: int, limit: int): (string, string) {
    if NetworkBase(ip, mask).None? || limit <= 0 then ("", "")
    else
      var su := ToU32(BaseOf(ip, mask) + ToU32(start));
      (Render(su), Render(ToU32(su + ToU32(limit) - 1)))
  }

  /** Decoding an encoded pool gives back its first and last address, for every
      mask, contiguous or not. */
  lemma RangeOfStartLimit(ip: string, mask: string, first: string, last: string)
    requires StartLimit(ip, mask, first, last).Some?
    ensures ParseIp(first).Some? && ParseIp(last).Some?
    ensures var p := StartLimit(ip, mask, first, last).value;
      StartLimitToRange(ip, mask, p.start, p.limit) == (Render(ParseIp(first).value), Render(ParseIp(last).value))
  {
    hide Render, ParseIp, BitAnd, NetworkBase, SameSubnet;
    WrapRange(BaseOf(ip, mask), ParseIp(first).value, ParseIp(last).value);
  }

  lemma WrapRange(base: u32, s: u32, e: u32)
    requires base <= s <= e
    ensures ToU32(base + ToU32(s - base)) == s
    ensures ToU32(s + ToU32(e - s + 1) - 1) == e
  {
    if e - s + 1 == TWO32 {
      assert ToU32(e - s + 1) == 0;
    }
  }
}
