/**
 * The masks and shifts of the C and C++ sources over machine words. The models write them
 * as ranges and arithmetic; here the two are proved to compute the same.
 */
module MachineBits {
  import opened Wrappers
  import opened Rfc3629
  import opened Utf8Codec
  import opened Utf8Laws
  import EncodingBase64

  // The numbers that machine words stand for.
  function Num(b: bv8): Byte {
    b as int
  }

  function Val(w: bv32): nat {
    w as int
  }

  function Nums(s: seq<bv8>): (r: seq<Byte>)
    ensures |r| == |s|
  {
    seq(|s|, k requires 0 <= k < |s| => Num(s[k]))
  }

  // ------------------------------------------------------------------------ the decoder

  // A `_utf8_state` whose wide characters have 32 bits.
  datatype Words = Words(ch: bv32, want: int, lbound: bv32)

  function Meaning(us: Words): Decoder {
    if us.want == 0 then Idle else Pending(Val(us.ch), us.want, Val(us.lbound))
  }

  datatype WordStep = WordBad | WordMore(next: Words) | WordChar(wc: bv32)

  function StepMeaning(step: WordStep): Step {
    match step
    case WordBad => Bad
    case WordMore(next) => More(Meaning(next))
    case WordChar(wc) => Char(Val(wc))
  }

  /** How many bytes a lead byte announces; 0 for no lead byte. */
  function LeadKind(b: bv8): nat {
    if b & 0x80 == 0 then 1
    else if b & 0xE0 == 0xC0 then 2
    else if b & 0xF0 == 0xE0 then 3
    else if b & 0xF8 == 0xF0 then 4
    else 0
  }

  function IsTailWord(b: bv8): bool {
    b & 0xC0 == 0x80
  }

  /** The interesting bits of a lead byte. */
  function LeadBits(b: bv8): bv32 {
    var k := LeadKind(b);
    (b & if k == 1 then 0x7F else if k == 2 then 0x1F else if k == 3 then 0x0F else 0x07) as bv32
  }

  function LowerBound(kind: nat): bv32 {
    if kind == 2 then 0x80 else if kind == 3 then 0x800 else 0x10000
  }

  /** Six more bits. */
  function AppendBits(wch: bv32, b: bv8): bv32 {
    (wch << 6) | (b & 0x3F) as bv32
  }

  function IsRedundant(wch: bv32, lbound: bv32): bool {
    wch < lbound
  }

  function IsNoCodePoint(wch: bv32): bool {
    (wch >= 0xD800 && wch <= 0xDFFF) || wch > 0x10FFFF
  }

  /** One byte, in the words of the source. */
  function FeedWords(us: Words, b: bv8): WordStep {
    if us.want == 0 then
      var kind := LeadKind(b);
      if kind == 0 then WordBad
      else if kind == 1 then WordChar(LeadBits(b))
      else WordMore(Words(LeadBits(b), kind - 1, LowerBound(kind)))
    else if !IsTailWord(b) then WordBad
    else
      var wch := AppendBits(us.ch, b);
      if us.want > 1 then WordMore(Words(wch, us.want - 1, us.lbound))
      else if IsRedundant(wch, us.lbound) || IsNoCodePoint(wch) then WordBad
      else WordChar(wch)
  }

  /** The masks are the ranges of the model. */
  lemma MasksAreRanges(b: bv8)
    ensures LeadKind(b) == 1 <==> Num(b) <= 0x7F
    ensures LeadKind(b) == 2 <==> 0xC0 <= Num(b) <= 0xDF
    ensures LeadKind(b) == 3 <==> 0xE0 <= Num(b) <= 0xEF
    ensures LeadKind(b) == 4 <==> 0xF0 <= Num(b) <= 0xF7
    ensures IsTailWord(b) <==> IsTail(Num(b))
    ensures LeadKind(b) <= 4
  {
  }

  /** The bits they leave are the differences of the model. */
  lemma LeadBitsAreDifferences(b: bv8)
    ensures LeadKind(b) == 1 ==> Val(LeadBits(b)) == Num(b)
    ensures LeadKind(b) == 2 ==> Val(LeadBits(b)) == Num(b) - 0xC0
    ensures LeadKind(b) == 3 ==> Val(LeadBits(b)) == Num(b) - 0xE0
    ensures LeadKind(b) == 4 ==> Val(LeadBits(b)) == Num(b) - 0xF0
  {
  }

  lemma LowerBounds(kind: nat)
    ensures Val(LowerBound(kind)) == if kind == 2 then 0x80 else if kind == 3 then 0x800 else 0x10000
  {
  }

  /** Six more bits fit after these. */
  predicate IsShort(w: bv32) {
    w <= 0x7FFF
  }

  lemma ShortWord(w: bv32)
    ensures IsShort(w) <==> Val(w) <= 0x7FFF
  {
  }

  lemma ShiftIsProduct(wch: bv32, b: bv8)
    requires wch <= 0x7FFF && b & 0xC0 == 0x80
    ensures ((wch << 6) | (b & 0x3F) as bv32) as int == (wch as int) * 64 + ((b as int) - 0x80)
  {
  }

  lemma AppendBitsOfShort(wch: bv32, b: bv8)
    requires IsShort(wch) && IsTailWord(b)
    ensures Val(AppendBits(wch, b)) == Val(wch) * 64 + (Num(b) - 0x80)
  {
    ShiftIsProduct(wch, b);
    assert AppendBits(wch, b) == ((wch << 6) | (b & 0x3F) as bv32);
  }

  /** What is pending leaves room for six more bits. */
  lemma AppendBitsIsArithmetic(wch: bv32, b: bv8)
    requires Val(wch) <= 0x7FFF && IsTailWord(b)
    ensures Val(AppendBits(wch, b)) == Val(wch) * 64 + (Num(b) - 0x80)
  {
    hide AppendBits, IsTailWord, IsShort, Val, Num;
    ShortWord(wch);
    AppendBitsOfShort(wch, b);
  }

  lemma RangeChecks(wch: bv32)
    ensures wch < 0xD800 <==> (wch as int) < 0xD800
    ensures wch <= 0xDFFF <==> (wch as int) <= 0xDFFF
    ensures wch <= 0x10FFFF <==> (wch as int) <= 0x10FFFF
  {
  }

  lemma BoundChecks(wch: bv32)
    ensures wch < 0x80 <==> (wch as int) < 0x80
    ensures wch < 0x800 <==> (wch as int) < 0x800
    ensures wch < 0x10000 <==> (wch as int) < 0x10000
  {
  }

  lemma BoundWord(lbound: bv32)
    requires lbound as int in {0x80, 0x800, 0x10000}
    ensures lbound == 0x80 || lbound == 0x800 || lbound == 0x10000
  {
  }

  lemma RangeIsChecked(wch: bv32)
    ensures IsNoCodePoint(wch) <==> 0xD800 <= Val(wch) <= 0xDFFF || Val(wch) > 0x10FFFF
  {
    RangeChecks(wch);
  }

  lemma BoundIsChecked(wch: bv32, lbound: bv32)
    requires Val(lbound) in {0x80, 0x800, 0x10000}
    ensures IsRedundant(wch, lbound) <==> Val(wch) < Val(lbound)
  {
    BoundWord(lbound);
    BoundChecks(wch);
  }

  /** On every reachable state a byte does to the words what it does to the model. */
  lemma FeedWordsIsFeed(us: Words, b: bv8)
    requires Bounded(Meaning(us))
    ensures StepMeaning(FeedWords(us, b)) == Feed(Meaning(us), Num(b))
  {
    hide LeadKind, IsTailWord, LeadBits, LowerBound, AppendBits, IsRedundant, IsNoCodePoint, Val, Num;
    MasksAreRanges(b);
    LeadBitsAreDifferences(b);
    LowerBounds(LeadKind(b));
    if us.want != 0 && IsTailWord(b) {
      AppendBitsIsArithmetic(us.ch, b);
      RangeIsChecked(AppendBits(us.ch, b));
      BoundIsChecked(AppendBits(us.ch, b), us.lbound);
    }
  }

  // A whole character.
  datatype WordOne = WordOneBad | WordOneMore(us: Words) | WordOneChar(wc: bv32, used: nat)

  function ReadWords(us: Words, s: seq<bv8>, used: nat): WordOne
    decreases |s|
  {
    if s == [] then WordOneMore(us)
    else match FeedWords(us, s[0])
      case WordBad => WordOneBad
      case WordMore(next) => ReadWords(next, s[1..], used + 1)
      case WordChar(wc) => WordOneChar(wc, used + 1)
  }

  function OneMeaning(one: WordOne): One {
    match one
    case WordOneBad => OneBad
    case WordOneMore(us) => OneMore(Meaning(us))
    case WordOneChar(wc, used) => OneChar(Val(wc), used)
  }

  /** From the zeroed state on, decoding over words is decoding in the model, character by character. */
  lemma {:induction false} ReadWordsIsDecodeOne(us: Words, s: seq<bv8>, used: nat)
    requires Bounded(Meaning(us))
    ensures OneMeaning(ReadWords(us, s, used)) == Shift(DecodeOne(Meaning(us), Nums(s)), used)
    decreases |s|
  {
    hide FeedWords, Feed, Meaning, Val, Num;
    if s != [] {
      FeedWordsIsFeed(us, s[0]);
      assert Nums(s)[1..] == Nums(s[1..]);
      match FeedWords(us, s[0])
      case WordMore(next) =>
        FeedIsBounded(Meaning(us), Num(s[0]));
        ReadWordsIsDecodeOne(next, s[1..], used + 1);
      case _ =>
    }
  }

  lemma FeedIsBounded(d: Decoder, b: Byte)
    requires Bounded(d) && Feed(d, b).More?
    ensures Bounded(Feed(d, b).next)
  {
  }

  // ------------------------------------------------------------------------ the encoder

  function GroupByte(wc: bv32): bv8 {
    ((wc & 0x3F) | 0x80) as bv8
  }

  function NextGroup(wc: bv32): bv32 {
    wc >> 6
  }

  function LeadByte(wc: bv32, len: nat): bv8 {
    ((wc & 0xFF) | if len == 2 then 0xC0 else if len == 3 then 0xE0 else 0xF0) as bv8
  }

  function AsciiByte(wc: bv32): bv8 {
    (wc & 0xFF) as bv8
  }

  function LengthOf(wc: bv32): nat {
    if wc <= 0x7F then 1 else if wc <= 0x7FF then 2 else if wc <= 0xFFFF then 3 else 4
  }

  /** The loop of the encoder, least significant bits last, with `k` bytes to go before the lead. */
  function Groups(wc: bv32, k: nat, len: nat): seq<bv8> {
    if k == 0 then [LeadByte(wc, len)] else Groups(NextGroup(wc), k - 1, len) + [GroupByte(wc)]
  }

  function EncodeWords(wc: bv32): seq<bv8> {
    var len := LengthOf(wc);
    if len == 1 then [AsciiByte(wc)] else Groups(wc, len - 1, len)
  }

  lemma WordIsAppended(wc: bv32)
    requires wc <= 0x1FFFFF
    ensures wc == AppendBits(NextGroup(wc), GroupByte(wc))
    ensures IsShort(NextGroup(wc)) && IsTailWord(GroupByte(wc))
  {
  }

  lemma CodePointWord(wc: bv32)
    requires Val(wc) <= 0x10FFFF
    ensures wc <= 0x1FFFFF
  {
  }

  /** A group and the rest of the word are the last digit to the base 64 and the quotient. */
  lemma GroupBitsAreDigits(wc: bv32)
    requires Val(wc) <= 0x10FFFF
    ensures Num(GroupByte(wc)) == Val(wc) % 64 + 0x80 && Val(NextGroup(wc)) == Val(wc) / 64
  {
    hide NextGroup, GroupByte, AppendBits, IsTailWord, IsShort, Val, Num;
    CodePointWord(wc);
    WordIsAppended(wc);
    MasksAreRanges(GroupByte(wc));
    AppendBitsOfShort(NextGroup(wc), GroupByte(wc));
  }

  lemma LeadByteIsMarked(wc: bv32, len: nat)
    ensures len == 2 && Val(wc) <= 0x1F ==> Num(LeadByte(wc, len)) == Val(wc) + 0xC0
    ensures len == 3 && Val(wc) <= 0x0F ==> Num(LeadByte(wc, len)) == Val(wc) + 0xE0
    ensures len == 4 && Val(wc) <= 0x07 ==> Num(LeadByte(wc, len)) == Val(wc) + 0xF0
  {
  }

  lemma LengthIsOfValue(wc: bv32)
    ensures LengthOf(wc) ==
      if Val(wc) <= 0x7F then 1 else if Val(wc) <= 0x7FF then 2 else if Val(wc) <= 0xFFFF then 3 else 4
    ensures Val(wc) <= 0x7F ==> Num(AsciiByte(wc)) == Val(wc)
  {
  }

  lemma NumsAppend(s: seq<bv8>, b: bv8)
    ensures Nums(s + [b]) == Nums(s) + [Num(b)]
  {
    hide Num;
  }

  /** The bytes of the loop, for a value of `k` groups and a lead. */
  function Digits(v: nat, k: nat, len: nat): seq<int> {
    if k == 0 then [v + if len == 2 then 0xC0 else if len == 3 then 0xE0 else 0xF0]
    else Digits(v / 64, k - 1, len) + [v % 64 + 0x80]
  }

  predicate FitsLead(v: nat, k: nat, len: nat) {
    if k == 0 then 2 <= len <= 4 && v <= (if len == 2 then 0x1F else if len == 3 then 0x0F else 0x07)
    else FitsLead(v / 64, k - 1, len)
  }

  lemma {:induction false} GroupsAreDigits(wc: bv32, k: nat, len: nat)
    requires Val(wc) <= 0x10FFFF && FitsLead(Val(wc), k, len)
    ensures Nums(Groups(wc, k, len)) == Digits(Val(wc), k, len)
    decreases k
  {
    hide LeadByte, GroupByte, NextGroup, Val, Num, Nums;
    if k == 0 {
      LeadByteIsMarked(wc, len);
      NumsAppend([], LeadByte(wc, len));
      assert [] + [LeadByte(wc, len)] == [LeadByte(wc, len)];
      NoNums();
    } else {
      GroupBitsAreDigits(wc);
      GroupsAreDigits(NextGroup(wc), k - 1, len);
      NumsAppend(Groups(NextGroup(wc), k - 1, len), GroupByte(wc));
    }
  }

  lemma NoNums()
    ensures Nums([]) == []
  {
  }

  lemma DigitsAreEncode(v: nat)
    requires IsScalar(v) && v > 0x7F
    ensures var k := if v <= 0x7FF then 1 else if v <= 0xFFFF then 2 else 3;
      FitsLead(v, k, k + 1) && Digits(v, k, k + 1) == Encode(v)
  {
    if v <= 0x7FF {
      assert Digits(v / 64, 0, 2) == [v / 64 + 0xC0];
    } else if v <= 0xFFFF {
      assert Digits(v / 64 / 64, 0, 3) == [v / 64 / 64 + 0xE0];
      assert Digits(v / 64, 1, 3) == [v / 64 / 64 + 0xE0, v / 64 % 64 + 0x80];
    } else {
      assert Digits(v / 64 / 64 / 64, 0, 4) == [v / 64 / 64 / 64 + 0xF0];
      assert Digits(v / 64 / 64, 1, 4) == [v / 64 / 64 / 64 + 0xF0, v / 64 / 64 % 64 + 0x80];
      assert FitsLead(v / 64 / 64, 1, 4);
      assert Digits(v / 64, 2, 4) == Digits(v / 64 / 64, 1, 4) + [v / 64 % 64 + 0x80];
    }
  }

  /** The encoder over words writes the encoding table. */
  lemma EncodeWordsIsEncode(wc: bv32)
    requires IsScalar(Val(wc))
    ensures Nums(EncodeWords(wc)) == Encode(Val(wc))
  {
    hide Groups, AsciiByte, LengthOf, Val, Num, Nums, Digits, FitsLead;
    LengthIsOfValue(wc);
    if LengthOf(wc) == 1 {
      NoNums();
      NumsAppend([], AsciiByte(wc));
      assert [] + [AsciiByte(wc)] == [AsciiByte(wc)];
    } else {
      DigitsAreEncode(Val(wc));
      GroupsAreDigits(wc, LengthOf(wc) - 1, LengthOf(wc));
    }
  }

  // -------------------------------------------------------------------------- log levels

  /** The mask for other bits than those of a verbosity finds none up to 31. */
  lemma VerbosityMask(level: bv32)
    ensures level & !31 == 0 <==> level <= 31
  {
  }

  // ------------------------------------------------------------------------------ base64

  function High6(b: bv8): bv8 {
    (b & 0xFC) >> 2
  }

  function High4(b: bv8): bv8 {
    (b & 0xF0) >> 4
  }

  function High2(b: bv8): bv8 {
    (b & 0xC0) >> 6
  }

  function Low6(b: bv8): bv8 {
    b & 0x3F
  }

  function Low4(b: bv8): bv8 {
    b & 0x0F
  }

  function Low2(b: bv8): bv8 {
    b & 0x03
  }

  function Middle(a: bv8, b: bv8): bv8 {
    (Low2(a) << 4) + High4(b)
  }

  function Third(b: bv8, c: bv8): bv8 {
    (Low4(b) << 2) + High2(c)
  }

  /** The four expressions of the closure. */
  function CutWords(a: bv8, b: bv8, c: bv8): seq<bv8> {
    [High6(a), Middle(a, b), Third(b, c), Low6(c)]
  }

  lemma OctetIsSplit(b: bv8)
    ensures Num(b) == 4 * Num(High6(b)) + Num(Low2(b)) && Num(Low2(b)) < 4
    ensures Num(b) == 16 * Num(High4(b)) + Num(Low4(b)) && Num(Low4(b)) < 16
    ensures Num(b) == 64 * Num(High2(b)) + Num(Low6(b)) && Num(Low6(b)) < 64
  {
  }

  lemma Quotient(x: nat, unit: nat, q: nat, r: nat)
    requires x == unit * q + r && r < unit && unit in {4, 16, 64}
    ensures q == x / unit && r == x % unit
  {
  }

  lemma OctetParts(b: bv8)
    ensures Num(High6(b)) == Num(b) / 4 && Num(Low2(b)) == Num(b) % 4
    ensures Num(High4(b)) == Num(b) / 16 && Num(Low4(b)) == Num(b) % 16
    ensures Num(High2(b)) == Num(b) / 64 && Num(Low6(b)) == Num(b) % 64
  {
    hide Num, High6, High4, High2, Low6, Low4, Low2;
    OctetIsSplit(b);
    Quotient(Num(b), 4, Num(High6(b)), Num(Low2(b)));
    Quotient(Num(b), 16, Num(High4(b)), Num(Low4(b)));
    Quotient(Num(b), 64, Num(High2(b)), Num(Low6(b)));
  }

  lemma SumsStaySmall(a: bv8, b: bv8)
    ensures Num(Middle(a, b)) == Num(Low2(a)) * 16 + Num(High4(b))
    ensures Num(Third(a, b)) == Num(Low4(a)) * 4 + Num(High2(b))
  {
  }

  lemma OctetsAreJoined(a: bv8, b: bv8)
    ensures Num(Middle(a, b)) == Num(a) % 4 * 16 + Num(b) / 16
    ensures Num(Third(a, b)) == Num(a) % 16 * 4 + Num(b) / 64
  {
    hide Num, High6, High4, High2, Low6, Low4, Low2, Middle, Third;
    SumsStaySmall(a, b);
    OctetParts(a);
    OctetParts(b);
  }

  lemma NumsOfFour(w: bv8, x: bv8, y: bv8, z: bv8)
    ensures Nums([w, x, y, z]) == [Num(w), Num(x), Num(y), Num(z)]
  {
    hide Num;
  }

  lemma WordsAreDigits(a: bv8, b: bv8, c: bv8)
    ensures EncodingBase64.Cut(Num(a), Num(b), Num(c)) ==
      [Num(High6(a)), Num(Middle(a, b)), Num(Third(b, c)), Num(Low6(c))]
  {
    hide Num, High6, High4, High2, Low6, Low4, Low2, Middle, Third, EncodingBase64.Cut;
    CutIs(Num(a), Num(b), Num(c));
    assert Num(High6(a)) == Num(a) / 4 by {
      OctetParts(a);
    }
    assert Num(Low6(c)) == Num(c) % 64 by {
      OctetParts(c);
    }
    assert Num(Middle(a, b)) == Num(a) % 4 * 16 + Num(b) / 16 by {
      OctetsAreJoined(a, b);
    }
    assert Num(Third(b, c)) == Num(b) % 16 * 4 + Num(c) / 64 by {
      OctetsAreJoined(b, c);
    }
  }

  lemma CutIs(x: Byte, y: Byte, z: Byte)
    ensures EncodingBase64.Cut(x, y, z) == [x / 4, x % 4 * 16 + y / 16, y % 16 * 4 + z / 64, z % 64]
  {
  }

  /** They never leave eight bits, and are the digits of the model. */
  lemma CutWordsIsCut(a: bv8, b: bv8, c: bv8)
    ensures Nums(CutWords(a, b, c)) == EncodingBase64.Cut(Num(a), Num(b), Num(c))
  {
    NumsOfFour(High6(a), Middle(a, b), Third(b, c), Low6(c));
    WordsAreDigits(a, b, c);
    hide Num, High6, High4, High2, Low6, Low4, Low2, Middle, Third, Nums, EncodingBase64.Cut;
  }
}
