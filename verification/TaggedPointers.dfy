/** Tagged pointers: a tag and a payload packed into one 64-bit word, in the
    three layouts, obfuscated by a process-wide word.

    A word is a natural number below 2^64.  Shifts are multiplications and
    divisions; fields that do not overlap are joined by addition. */
module TaggedPointers {
  import opened Bits
  import PowerOfTwo

  const WORD: nat := 0x1_0000_0000_0000_0000
  const TOP: nat := 0x8000_0000_0000_0000
  const BIT_62: nat := 0x4000_0000_0000_0000

  /** Split is arm64, Lsb is x86_64 macOS, Msb is everything else. */
  datatype Layout = Split | Msb | Lsb

  /** OBJC_TAG_Last60BitPayload, OBJC_TAG_First52BitPayload and
      OBJC_TAG_Last52BitPayload */
  const LAST_60: nat := 6
  const FIRST_52: nat := 8
  const LAST_52: nat := 263

  predicate ValidTag(tag: nat) { tag <= LAST_60 || FIRST_52 <= tag <= LAST_52 }

  /** A left shift of a 64-bit word by the bits of the factor. */
  function Left(x: nat, factor: nat): nat { (x * factor) % WORD }

  /** _objc_makeTaggedPointer before the encoding. */
  function Pack(y: Layout, tag: nat, value: nat): nat
    requires ValidTag(tag)
  {
    match y
    case Split =>
      if tag <= LAST_60 then TOP + tag + Left(value, 16) / 2
      else TOP + 7 + (tag - FIRST_52) * 0x80_0000_0000_0000 + Left(value, 4096) / 512
    case Msb =>
      if tag <= LAST_60 then TOP + tag * 0x1000_0000_0000_0000 + Left(value, 16) / 16
      else 0xf000_0000_0000_0000 + (tag - FIRST_52) * 0x10_0000_0000_0000 + Left(value, 4096) / 4096
    case Lsb =>
      if tag <= LAST_60 then 1 + tag * 2 + Left(value, 16)
      else 0xf + (tag - FIRST_52) * 16 + Left(value, 4096)
  }

  function Index(y: Layout, w: nat): nat {
    match y
    case Split => w % 8
    case Msb => w / 0x1000_0000_0000_0000 % 8
    case Lsb => w / 2 % 8
  }

  function ExtIndex(y: Layout, w: nat): nat {
    match y
    case Split => w / 0x80_0000_0000_0000 % 256
    case Msb => w / 0x10_0000_0000_0000 % 256
    case Lsb => w / 16 % 256
  }

  /** The left shifts that start the extraction of a payload. */
  function BasicShift(y: Layout, w: nat): nat { if y.Split? then Left(w, 2) else if y.Msb? then Left(w, 16) else w }
  function ExtShift(y: Layout, w: nat): nat { if y.Split? then Left(w, 512) else if y.Msb? then Left(w, 4096) else w }

  /** A word as a signed number. */
  function Signed(w: nat): int { if w < TOP then w else w - WORD }

  // ------------------------------------------------------------ obfuscation

  /** The obfuscating word and the permutation of the basic tags. */
  datatype Secret = Secret(obfuscator: nat, perm: seq<nat>)

  /** How the runtime sets them up: the obfuscator spares the marker bits, and
      the permutation of 0 to 7 leaves 7 alone. */
  predicate Proper(y: Layout, s: Secret) {
    && |s.perm| == 8 && s.perm[7] == 7
    && (forall i :: 0 <= i < 7 ==> s.perm[i] < 7)
    && (forall i, j :: 0 <= i < j < 7 ==> s.perm[i] != s.perm[j])
    && match y {
         case Split => s.obfuscator < BIT_62 && s.obfuscator % 8 == 0
         case Msb => s.obfuscator < TOP
         case Lsb => s.obfuscator < WORD && s.obfuscator % 2 == 0
       }
  }

  /** Half of the extended tags keep their payload in the clear. */
  predicate Plain(w: nat) { w >= TOP + BIT_62 && w % 8 == 7 }

  function Encode(y: Layout, s: Secret, w: nat): nat
    requires |s.perm| == 8
  {
    var value := Xor(s.obfuscator, w);
    if !y.Split? then value
    else if Plain(value) then w
    else value - value % 8 + s.perm[value % 8]
  }

  function DecodeNoPermute(y: Layout, s: Secret, w: nat): nat {
    if y.Split? && Plain(w) then w else Xor(w, s.obfuscator)
  }

  /** _objc_obfuscatedTagToBasicTag from position i on. */
  function Unpermute(perm: seq<nat>, tag: nat, i: nat): nat
    requires |perm| == 8 && i <= 7
    decreases 7 - i
  {
    if i == 7 then 7 else if perm[i] == tag then i else Unpermute(perm, tag, i + 1)
  }

  function Decode(y: Layout, s: Secret, w: nat): nat
    requires |s.perm| == 8
  {
    var value := DecodeNoPermute(y, s, w);
    if !y.Split? then value else value - value % 8 + Unpermute(s.perm, value % 8, 0)
  }

  // -------------------------------------------------------------- interface

  function Make(y: Layout, s: Secret, tag: nat, value: nat): nat
    requires |s.perm| == 8 && ValidTag(tag)
  {
    Encode(y, s, Pack(y, tag, value))
  }

  predicate IsTagged(y: Layout, w: nat) { if y.Lsb? then w % 2 == 1 else w / TOP % 2 == 1 }

  function TagOf(y: Layout, w: nat): nat {
    if Index(y, w) == 7 then ExtIndex(y, w) + FIRST_52 else Index(y, w)
  }

  function ValueOf(y: Layout, w: nat): nat {
    if Index(y, w) == 7 then ExtShift(y, w) / 4096 else BasicShift(y, w) / 16
  }

  function SignedValueOf(y: Layout, w: nat): int {
    if Index(y, w) == 7 then Signed(ExtShift(y, w)) / 4096 else Signed(BasicShift(y, w)) / 16
  }

  /** getTag undoes the permutation; the two value readers do not. */
  function GetTag(y: Layout, s: Secret, w: nat): nat
    requires |s.perm| == 8
  {
    TagOf(y, Decode(y, s, w))
  }

  function GetValue(y: Layout, s: Secret, w: nat): nat { ValueOf(y, DecodeNoPermute(y, s, w)) }
  function GetSignedValue(y: Layout, s: Secret, w: nat): int { SignedValueOf(y, DecodeNoPermute(y, s, w)) }

  /** The number of values that the payload bits of a tag can tell apart. */
  function Span(tag: nat): nat { if tag <= LAST_60 then 0x1000_0000_0000_0000 else 0x10_0000_0000_0000 }

  function Cut(tag: nat, value: nat): nat { value % Span(tag) }

  function SignExtended(tag: nat, value: nat): int {
    var c := Cut(tag, value);
    if c < Span(tag) / 2 then c else c - Span(tag)
  }

  // ------------------------------------------------------------------ fields

  lemma LeftBasic(value: nat, q: nat, c: nat)
    requires value == 0x1000_0000_0000_0000 * q + c && c < 0x1000_0000_0000_0000
    ensures Left(value, 16) == 16 * c
  {
  }

  lemma LeftExt(value: nat, q: nat, c: nat)
    requires value == 0x10_0000_0000_0000 * q + c && c < 0x10_0000_0000_0000
    ensures Left(value, 4096) == 4096 * c
  {
  }

  /** A packed word as the sum of its fields, with payload c. */
  function Fields(y: Layout, tag: nat, c: nat): nat
    requires ValidTag(tag)
  {
    match y
    case Split => if tag <= LAST_60 then TOP + tag + 8 * c else TOP + 7 + (tag - FIRST_52) * 0x80_0000_0000_0000 + 8 * c
    case Msb =>
      if tag <= LAST_60 then TOP + tag * 0x1000_0000_0000_0000 + c
      else 0xf000_0000_0000_0000 + (tag - FIRST_52) * 0x10_0000_0000_0000 + c
    case Lsb => if tag <= LAST_60 then 1 + tag * 2 + 16 * c else 0xf + (tag - FIRST_52) * 16 + 4096 * c
  }

  lemma PackFields(y: Layout, tag: nat, value: nat)
    requires ValidTag(tag)
    ensures Pack(y, tag, value) == Fields(y, tag, Cut(tag, value)) < WORD
  {
    if tag <= LAST_60 {
      LeftBasic(value, value / 0x1000_0000_0000_0000, value % 0x1000_0000_0000_0000);
    } else {
      LeftExt(value, value / 0x10_0000_0000_0000, value % 0x10_0000_0000_0000);
    }
  }

  // What a reader finds in a packed word.  In the split layout the tag bits may
  // have been replaced by p, which is 7 exactly when they were.

  lemma SplitBasic(c: nat, p: nat, d: nat)
    requires c < 0x1000_0000_0000_0000 && p < 7 && d == TOP + p + 8 * c
    ensures IsTagged(Split, d) && TagOf(Split, d) == p
    ensures ValueOf(Split, d) == c
            && SignedValueOf(Split, d) == if c < 0x800_0000_0000_0000 then c else c - 0x1000_0000_0000_0000
  {
  }

  lemma SplitExt(e: nat, c: nat, d: nat)
    requires e < 256 && c < 0x10_0000_0000_0000 && d == TOP + 7 + e * 0x80_0000_0000_0000 + 8 * c
    ensures IsTagged(Split, d) && TagOf(Split, d) == e + FIRST_52
    ensures ValueOf(Split, d) == c
            && SignedValueOf(Split, d) == if c < 0x8_0000_0000_0000 then c else c - 0x10_0000_0000_0000
  {
  }

  lemma MsbBasic(tag: nat, c: nat, d: nat)
    requires c < 0x1000_0000_0000_0000 && tag < 7 && d == TOP + tag * 0x1000_0000_0000_0000 + c
    ensures IsTagged(Msb, d) && TagOf(Msb, d) == tag
    ensures ValueOf(Msb, d) == c
            && SignedValueOf(Msb, d) == if c < 0x800_0000_0000_0000 then c else c - 0x1000_0000_0000_0000
  {
  }

  lemma MsbExt(e: nat, c: nat, d: nat)
    requires e < 256 && c < 0x10_0000_0000_0000 && d == 0xf000_0000_0000_0000 + e * 0x10_0000_0000_0000 + c
    ensures IsTagged(Msb, d) && TagOf(Msb, d) == e + FIRST_52
    ensures ValueOf(Msb, d) == c
            && SignedValueOf(Msb, d) == if c < 0x8_0000_0000_0000 then c else c - 0x10_0000_0000_0000
  {
    assert d / 0x1000_0000_0000_0000 == 15 && d / TOP == 1;
    assert d / 0x10_0000_0000_0000 == 0xf00 + e;
    assert d * 4096 == WORD * (0xf00 + e) + 4096 * c;
    assert Left(d, 4096) == 4096 * c;
  }

  lemma LsbBasic(tag: nat, c: nat, d: nat)
    requires c < 0x1000_0000_0000_0000 && tag < 7 && d == 1 + tag * 2 + 16 * c
    ensures IsTagged(Lsb, d) && TagOf(Lsb, d) == tag
    ensures ValueOf(Lsb, d) == c
            && SignedValueOf(Lsb, d) == if c < 0x800_0000_0000_0000 then c else c - 0x1000_0000_0000_0000
  {
  }

  lemma LsbExt(e: nat, c: nat, d: nat)
    requires e < 256 && c < 0x10_0000_0000_0000 && d == 0xf + e * 16 + 4096 * c
    ensures IsTagged(Lsb, d) && TagOf(Lsb, d) == e + FIRST_52
    ensures ValueOf(Lsb, d) == c
            && SignedValueOf(Lsb, d) == if c < 0x8_0000_0000_0000 then c else c - 0x10_0000_0000_0000
  {
    assert d / 2 == 7 + 8 * (e + 256 * c) && d % 2 == 1;
    assert d / 16 == e + 256 * c;
  }

  // ----------------------------------------------------------- round trips

  lemma XorQuad(x: nat, y: nat, x1: nat, y1: nat, o: nat, a: nat, b1: nat, b0: nat)
    requires b1 < 2 && b0 < 2 && x == 2 * x1 && y == 2 * y1 + b0 && x1 == 2 * o && y1 == 2 * a + b1
    ensures Xor(x, y) == 4 * Xor(o, a) + 2 * b1 + b0
  {
    XorDouble(x1, y1, o, a, b1);
    XorDouble(x, y, x1, y1, b0);
  }

  lemma XorOct(x: nat, y: nat, o: nat, a: nat, b: nat)
    requires b < 8 && x == 8 * o && y == 8 * a + b
    ensures Xor(x, y) == 8 * Xor(o, a) + b
  {
    XorThree(x, y, 2 * o, 2 * a + b / 4, o, a, b / 4, b / 2 % 2, b % 2);
  }

  lemma XorThree(x: nat, y: nat, x2: nat, y2: nat, o: nat, a: nat, b2: nat, b1: nat, b0: nat)
    requires b2 < 2 && b1 < 2 && b0 < 2 && x2 == 2 * o && y2 == 2 * a + b2 && x == 4 * x2 && y == 4 * y2 + 2 * b1 + b0
    ensures Xor(x, y) == 8 * Xor(o, a) + 4 * b2 + 2 * b1 + b0
  {
    XorDouble(x2, y2, o, a, b2);
    XorQuad(x, y, 2 * x2, 2 * y2 + b1, x2, y2, b1, b0);
  }

  /** Obfuscation is undone by itself, and keeps the bits from k on. */
  lemma XorKeeps(obfuscator: nat, w: nat, k: nat, t: nat, r: nat)
    requires obfuscator < Pow2(k) && r < Pow2(k) && w == Scaled(t, k) + r
    ensures var v := Xor(obfuscator, w);
            Xor(v, obfuscator) == w && v == Scaled(t, k) + Xor(obfuscator, r) && Xor(obfuscator, r) < Pow2(k)
  {
    XorBack(obfuscator, w);
    XorHigh(obfuscator, t, r, k);
    XorBound(obfuscator, r, k);
  }

  lemma XorBack(obfuscator: nat, w: nat)
    ensures Xor(Xor(obfuscator, w), obfuscator) == w
  {
    XorComm(obfuscator, w);
    XorUndo(w, obfuscator);
  }

  lemma WordPowers()
    ensures Pow2(62) == BIT_62 && Pow2(63) == TOP && Pow2(64) == WORD
  {
    PowerOfTwo.WordIsPow2();
    Pow2Add(32, 32);
  }

  lemma KeepsTop62(obfuscator: nat, w: nat)
    requires obfuscator < BIT_62
    ensures Xor(obfuscator, w) / BIT_62 == w / BIT_62 && Xor(Xor(obfuscator, w), obfuscator) == w
  {
    WordPowers();
    ScaledIs(w / BIT_62, 62);
    XorKeeps(obfuscator, w, 62, w / BIT_62, w % BIT_62);
  }

  lemma KeepsTop63(obfuscator: nat, w: nat)
    requires obfuscator < TOP
    ensures Xor(obfuscator, w) / TOP == w / TOP
  {
    WordPowers();
    ScaledIs(w / TOP, 63);
    XorKeeps(obfuscator, w, 63, w / TOP, w % TOP);
  }

  lemma KeepsLowBit(obfuscator: nat, w: nat)
    requires obfuscator % 2 == 0
    ensures Xor(obfuscator, w) % 2 == w % 2
  {
    XorHalf(obfuscator, w);
    EvenPlus(obfuscator, obfuscator / 2, w);
  }

  lemma EvenPlus(e: nat, half: nat, w: nat)
    requires e == 2 * half
    ensures (e + w) % 2 == w % 2
  {
  }

  lemma {:induction false} UnpermuteFinds(perm: seq<nat>, k: nat, i: nat)
    requires |perm| == 8 && i <= k <= 7 && perm[7] == 7 && forall i, j :: 0 <= i < j < 7 ==> perm[i] != perm[j]
    requires forall i :: 0 <= i < 7 ==> perm[i] < 7
    ensures Unpermute(perm, perm[k], i) == k
    decreases 7 - i
  {
    if i < k { UnpermuteFinds(perm, k, i + 1); }
  }

  /** A word with its three low bits replaced by p. */
  function WithTag(w: nat, p: nat): nat { w - w % 8 + p }

  lemma OctParts(v: nat, x: nat, b: nat)
    requires b < 8 && v == 8 * x + b
    ensures v % 8 == b && v / 8 == x
  {
  }

  /** The low bits of an obfuscated word with tag p, and their decoding. */
  lemma SplitBits(obfuscator: nat, w: nat, p: nat, v: nat, e: nat)
    requires obfuscator % 8 == 0 && p < 8 && v == Xor(obfuscator, w) && e == WithTag(v, p)
    ensures v % 8 == w % 8 && v / 8 == e / 8 && e % 8 == p && Xor(e, obfuscator) == WithTag(w, p)
  {
    var x := XorParts(obfuscator, w, v, obfuscator / 8, w / 8, w % 8);
    OctParts(v, x, w % 8);
    OctParts(e, x, p);
    SplitUndo(obfuscator, e, obfuscator / 8, w / 8, x, p);
  }

  lemma XorParts(obfuscator: nat, w: nat, v: nat, o: nat, a: nat, b: nat) returns (x: nat)
    requires obfuscator == 8 * o && w == 8 * a + b && b < 8 && v == Xor(obfuscator, w)
    ensures x == Xor(o, a) && v == 8 * x + b
  {
    x := Xor(o, a);
    XorOct(obfuscator, w, o, a, b);
  }

  lemma SplitUndo(obfuscator: nat, e: nat, o: nat, a: nat, x: nat, p: nat)
    requires obfuscator == 8 * o && p < 8 && x == Xor(o, a) && e == 8 * x + p
    ensures Xor(e, obfuscator) == 8 * a + p
  {
    XorComm(obfuscator, e);
    XorOct(obfuscator, e, o, x, p);
    XorComm(o, x);
    XorComm(o, a);
    XorUndo(a, o);
  }

  lemma SplitEncode(s: Secret, w: nat, p: nat, v: nat, e: nat)
    requires Proper(Split, s) && !Plain(w) && p == s.perm[w % 8] && v == Xor(s.obfuscator, w) && e == WithTag(v, p)
    ensures p < 8 && (p == 7 <==> w % 8 == 7) && v % 8 == w % 8 && e % 8 == p
    ensures !Plain(v) && !Plain(e) && e / TOP == w / TOP && Xor(e, s.obfuscator) == WithTag(w, p)
  {
    SplitBits(s.obfuscator, w, p, v, e);
    KeepsTop62(s.obfuscator, w);
    SameTop(v, w, e);
  }

  lemma SplitDecode(s: Secret, w: nat, p: nat, e: nat)
    requires Proper(Split, s) && !Plain(w) && p == s.perm[w % 8] && e == Encode(Split, s, w)
    ensures p < 8 && (p == 7 <==> w % 8 == 7) && e / TOP == w / TOP
    ensures DecodeNoPermute(Split, s, e) == WithTag(w, p) && Decode(Split, s, e) == w
  {
    var v := Xor(s.obfuscator, w);
    SplitEncode(s, w, p, v, WithTag(v, p));
    UnpermuteFinds(s.perm, w % 8, 0);
    Retag(w, p);
  }

  lemma Retag(w: nat, p: nat)
    requires p < 8
    ensures WithTag(w, p) % 8 == p && WithTag(WithTag(w, p), w % 8) == w
  {
  }

  /** The two top bits decide whether a word is kept in the clear. */
  lemma SameTop(v: nat, w: nat, e: nat)
    requires v / BIT_62 == w / BIT_62 && v / 8 == e / 8
    ensures e / BIT_62 == w / BIT_62 && e / TOP == w / TOP
    ensures (v >= TOP + BIT_62 <==> w >= TOP + BIT_62) && (e >= TOP + BIT_62 <==> w >= TOP + BIT_62)
  {
    TopBits(v);
    TopBits(w);
    TopBits(e);
  }

  lemma TopBits(v: nat)
    ensures v / BIT_62 == v / 8 / 0x800_0000_0000_0000 && v / TOP == v / BIT_62 / 2
    ensures v >= TOP + BIT_62 <==> v / BIT_62 >= 3
  {
  }

  lemma PlainDecode(s: Secret, w: nat)
    requires Proper(Split, s) && w < WORD && Plain(w)
    ensures Encode(Split, s, w) == w && DecodeNoPermute(Split, s, w) == w && Decode(Split, s, w) == w
  {
    var v := Xor(s.obfuscator, w);
    SplitBits(s.obfuscator, w, 7, v, WithTag(v, 7));
    KeepsTop62(s.obfuscator, w);
    SameTop(v, w, v);
    UnpermuteFinds(s.perm, 7, 0);
  }

  /** Decoding undoes encoding, for every word. */
  lemma DecodeEncode(y: Layout, s: Secret, w: nat)
    requires Proper(y, s) && w < WORD
    ensures Decode(y, s, Encode(y, s, w)) == w
  {
    if !y.Split? {
      XorComm(s.obfuscator, w);
      XorUndo(w, s.obfuscator);
    } else if Plain(w) {
      PlainDecode(s, w);
    } else {
      SplitDecode(s, w, s.perm[w % 8], Encode(y, s, w));
    }
  }

  lemma SplitObfuscates(s: Secret, w: nat, p: nat, v: nat, e: nat)
    requires Proper(Split, s) && !Plain(w) && p == s.perm[w % 8] && v == Xor(s.obfuscator, w) && e == WithTag(v, p)
    ensures v % 8 == w % 8 && e % 8 == p && WithTag(e, w % 8) == v && !Plain(v)
  {
    SplitEncode(s, w, p, v, e);
    Retag(v, p);
  }

  /** What encoding does: the obfuscator is exclusive-or'ed in, and in the split
      layout the tag bits are permuted as well, save for the words that are kept
      in the clear. */
  lemma Obfuscates(y: Layout, s: Secret, w: nat)
    requires Proper(y, s) && w < WORD
    ensures var e := Encode(y, s, w);
            && (!y.Split? ==> Xor(e, s.obfuscator) == w)
            && (y.Split? && Plain(w) ==> e == w)
            && (y.Split? && !Plain(w) ==> e % 8 == s.perm[w % 8] && Xor(WithTag(e, w % 8), s.obfuscator) == w)
  {
    var v := Xor(s.obfuscator, w);
    XorBack(s.obfuscator, w);
    if y.Split? {
      var p := s.perm[w % 8];
      if Plain(w) {
        PlainDecode(s, w);
      } else {
        SplitObfuscates(s, w, p, v, WithTag(v, p));
      }
    }
  }

  /** A word read without undoing the permutation still shows its payload. */
  lemma PayloadSeen(y: Layout, tag: nat, c: nat, d: nat, p: nat)
    requires ValidTag(tag) && c < Span(tag) && p < 8
    requires d == Fields(y, tag, c)
             || (y.Split? && d == WithTag(Fields(y, tag, c), p) && (p == 7 <==> Fields(y, tag, c) % 8 == 7))
    ensures ValueOf(y, d) == c && SignedValueOf(y, d) == if c < Span(tag) / 2 then c else c - Span(tag)
    ensures IsTagged(y, d) && (d == Fields(y, tag, c) ==> TagOf(y, d) == tag)
  {
    var e := if tag <= LAST_60 then 0 else tag - FIRST_52;
    match y
    case Split => SplitSeen(tag, e, c, d, p);
    case Msb =>
      if tag <= LAST_60 { MsbBasic(tag, c, d); } else { MsbExt(e, c, d); }
    case Lsb =>
      if tag <= LAST_60 { LsbBasic(tag, c, d); } else { LsbExt(e, c, d); }
  }

  lemma SplitSeen(tag: nat, e: nat, c: nat, d: nat, p: nat)
    requires ValidTag(tag) && c < Span(tag) && p < 8 && e == if tag <= LAST_60 then 0 else tag - FIRST_52
    requires var f := Fields(Split, tag, c); d == f || (d == WithTag(f, p) && (p == 7 <==> f % 8 == 7))
    ensures ValueOf(Split, d) == c && SignedValueOf(Split, d) == if c < Span(tag) / 2 then c else c - Span(tag)
    ensures IsTagged(Split, d) && (d == Fields(Split, tag, c) ==> TagOf(Split, d) == tag)
  {
    if tag <= LAST_60 {
      OctParts(Fields(Split, tag, c), 0x1000_0000_0000_0000 + c, tag);
      SplitBasic(c, if d == Fields(Split, tag, c) then tag else p, d);
    } else {
      OctParts(Fields(Split, tag, c), 0x1000_0000_0000_0000 + e * 0x10_0000_0000_0000 + c, 7);
      SplitExt(e, c, d);
    }
  }

  /** The marker bits of the layout survive the encoding. */
  lemma StillTagged(y: Layout, s: Secret, w: nat)
    requires Proper(y, s) && w < WORD && IsTagged(y, w)
    ensures IsTagged(y, Encode(y, s, w))
  {
    match y
    case Split =>
      if Plain(w) { PlainDecode(s, w); } else { SplitDecode(s, w, s.perm[w % 8], Encode(y, s, w)); }
    case Msb => KeepsTop63(s.obfuscator, w);
    case Lsb => KeepsLowBit(s.obfuscator, w);
  }

  /** For every tag and payload, in every layout and under every obfuscation: the
      pointer made is tagged, its tag is the one given, and its payload comes
      back cut to 60 or 52 bits, zero-extended and sign-extended. */
  lemma RoundTrip(y: Layout, s: Secret, tag: nat, value: nat)
    requires Proper(y, s) && ValidTag(tag)
    ensures var w := Make(y, s, tag, value);
            && IsTagged(y, w) && GetTag(y, s, w) == tag
            && GetValue(y, s, w) == Cut(tag, value) && GetSignedValue(y, s, w) == SignExtended(tag, value)
  {
    PackFields(y, tag, value);
    var f, c := Pack(y, tag, value), Cut(tag, value);
    PayloadSeen(y, tag, c, f, 0);
    DecodeEncode(y, s, f);
    StillTagged(y, s, f);
    if !y.Split? {
      XorComm(s.obfuscator, f);
      XorUndo(f, s.obfuscator);
    } else if Plain(f) {
      PlainDecode(s, f);
    } else {
      var p := s.perm[f % 8];
      SplitDecode(s, f, p, Encode(y, s, f));
      PayloadSeen(y, tag, c, WithTag(f, p), p);
    }
  }
}
