/** One character: the decoder, the encoder and the grammar define the same code. */
module Utf8Laws {
  import opened Wrappers
  import opened Rfc3629
  import opened Utf8Codec

  /** The 6-bit groups of `s` appended to `ch`. */
  function Fold(ch: int, s: seq<Byte>): int
    decreases |s|
  {
    if s == [] then ch else Fold(ch * 64 + s[0] - 0x80, s[1..])
  }

  lemma DecodeStep(d: Decoder, s: seq<Byte>)
    requires s != []
    ensures DecodeOne(d, s) ==
      match Feed(d, s[0])
      case Bad => OneBad
      case Char(wc) => OneChar(wc, 1)
      case More(d') => Shift(DecodeOne(d', s[1..]), 1)
  {
  }

  /** A pending character ends after exactly `want` tails, in the value they spell. */
  lemma {:induction false} PendingDecode(ch: int, want: int, lbound: int, s: seq<Byte>)
    requires want >= 1
    ensures var one := DecodeOne(Pending(ch, want, lbound), s);
      && (one.OneMore? <==> |s| < want && AllTails(s))
      && (one.OneMore? ==> one.d == Pending(Fold(ch, s), want - |s|, lbound))
      && (one.OneChar? <==> |s| >= want && AllTails(s[..want]) && Finish(Fold(ch, s[..want]), lbound).Char?)
      && (one.OneChar? ==> one == OneChar(Fold(ch, s[..want]), want))
    decreases want
  {
    if s != [] && IsTail(s[0]) {
      var ch' := ch * 64 + s[0] - 0x80;
      if want > 1 {
        PendingDecode(ch', want - 1, lbound, s[1..]);
        assert s == [s[0]] + s[1..];
        if |s| >= want {
          assert s[..want] == [s[0]] + s[1..][..want - 1];
        }
      } else {
        assert s[..1] == [s[0]];
        assert Fold(ch, s[..1]) == Fold(ch', []);
      }
    }
  }

  /** What can be pending: at most three bytes, and as many bits as the bytes so far carry. */
  predicate Bounded(d: Decoder) {
    d.Pending? ==>
      && 1 <= d.want <= 3
      && 0 <= d.ch <= (if d.want == 3 then 0x7 else if d.want == 2 then 0x1FF else 0x7FFF)
      && d.lbound in {0x80, 0x800, 0x10000}
  }

  /** From the initial state on, pending characters are bounded and complete ones in range. */
  lemma {:induction false} DecodeOneIsBounded(d: Decoder, s: seq<Byte>)
    requires Bounded(d)
    ensures match DecodeOne(d, s)
      case OneBad => true
      case OneMore(d') => Bounded(d')
      case OneChar(wc, used) => 0 <= wc <= 0x10FFFF
    decreases |s|
  {
    if s != [] && Feed(d, s[0]).More? {
      DecodeOneIsBounded(Feed(d, s[0]).next, s[1..]);
    }
  }

  /** A well-formed character is what DecodeOne reads from the initial state. */
  lemma GrammarIsDecoded(s: seq<Byte>, k: nat)
    requires k <= |s| && IsUtf8Char(s[..k])
    ensures DecodeOne(Idle, s).OneChar? && DecodeOne(Idle, s).used == k
  {
    ReadLead(s, k);
  }

  /** The decoder on a lead byte and its tails, in terms of the bytes alone. */
  lemma ReadLead(s: seq<Byte>, k: nat)
    requires 1 <= k <= |s| && (k == 1 ==> s[0] <= 0x7F) && (k > 1 ==> LeadLength(s[0]) == k && AllTails(s[1..k]))
    ensures DecodeOne(Idle, s) == (if IsUtf8Char(s[..k]) then OneChar(Spelled(s, k), k) else OneBad)
  {
    hide DecodeOne, Fold, IsUtf8Char;
    DecodeStep(Idle, s);
    if k > 1 {
      var p := Feed(Idle, s[0]).next;
      PendingDecode(p.ch, k - 1, p.lbound, s[1..]);
      assert s[1..][..k - 1] == s[1..k];
      FoldUpTo3(p.ch, s[1..k]);
    }
    SpelledInRange(s, k);
  }

  function LeadMark(k: nat): int {
    if k == 1 then 0 else if k == 2 then 0xC0 else if k == 3 then 0xE0 else 0xF0
  }

  /** The code point `k` bytes spell. */
  function Spelled(s: seq<Byte>, k: nat): int
    requires 1 <= k <= 4 && k <= |s|
  {
    if k == 1 then s[0]
    else if k == 2 then Append(s[0] - LeadMark(2), s[1])
    else if k == 3 then Append(Append(s[0] - LeadMark(3), s[1]), s[2])
    else Append(Append(Append(s[0] - LeadMark(4), s[1]), s[2]), s[3])
  }

  function Append(wch: int, tail: int): int {
    wch * 64 + tail - 0x80
  }

  lemma FoldUpTo3(ch: int, t: seq<Byte>)
    requires 1 <= |t| <= 3
    ensures Fold(ch, t) ==
      if |t| == 1 then Append(ch, t[0])
      else if |t| == 2 then Append(Append(ch, t[0]), t[1])
      else Append(Append(Append(ch, t[0]), t[1]), t[2])
  {
    var a := Append(ch, t[0]);
    assert Fold(ch, t) == Fold(a, t[1..]);
    if |t| > 1 {
      var b := Append(a, t[1]);
      assert Fold(a, t[1..]) == Fold(b, t[1..][1..]);
      if |t| > 2 {
        assert Fold(b, t[1..][1..]) == Fold(Append(b, t[2]), t[1..][1..][1..]);
      }
    }
  }

  lemma AppendGroups(wch: int, tail: int)
    requires IsTail(tail)
    ensures Append(wch, tail) / 64 == wch && Append(wch, tail) % 64 == tail - 0x80
  {
  }

  /**
   * Whatever the decoder accepts from the initial state is byte for byte the encoding of
   * its result, so only shortest forms of scalar values are accepted.
   */
  lemma DecodedIsEncoded(s: seq<Byte>)
    requires DecodeOne(Idle, s).OneChar?
    ensures var one := DecodeOne(Idle, s);
      && IsUtf8Char(s[..one.used]) && IsScalar(one.wc)
      && Encode(one.wc) == s[..one.used]
  {
    var k := if s[0] <= 0x7F then 1 else LeadLength(s[0]);
    if k > 1 {
      var p := Feed(Idle, s[0]).next;
      PendingDecode(p.ch, k - 1, p.lbound, s[1..]);
      assert s[1..][..k - 1] == s[1..k];
    }
    ReadLead(s, k);
    SpelledIsEncoded(s, k);
  }

  lemma SpelledIsEncoded(s: seq<Byte>, k: nat)
    requires 1 <= k <= 4 && k <= |s| && IsUtf8Char(s[..k])
    ensures IsScalar(Spelled(s, k)) && Encode(Spelled(s, k)) == s[..k]
  {
    hide Append;
    var wc := Spelled(s, k);
    SpelledInRange(s, k);
    if k > 1 {
      AppendGroups(s[0] - LeadMark(k), s[1]);
    }
    if k > 2 {
      AppendGroups(Append(s[0] - LeadMark(k), s[1]), s[2]);
    }
    if k > 3 {
      AppendGroups(Append(Append(s[0] - LeadMark(k), s[1]), s[2]), s[3]);
    }
  }

  /** The restricted second bytes of the grammar are the range checks of the decoder. */
  lemma SpelledInRange(s: seq<Byte>, k: nat)
    requires 1 <= k <= |s| && (k == 1 ==> s[0] <= 0x7F) && (k > 1 ==> LeadLength(s[0]) == k && AllTails(s[1..k]))
    ensures IsUtf8Char(s[..k]) <==>
      && IsScalar(Spelled(s, k))
      && Spelled(s, k) >= (if k == 1 then 0 else if k == 2 then 0x80 else if k == 3 then 0x800 else 0x10000)
    ensures IsUtf8Char(s[..k]) ==>
      Spelled(s, k) <= (if k == 1 then 0x7F else if k == 2 then 0x7FF else if k == 3 then 0xFFFF else 0x10FFFF)
  {
    assert forall j :: 1 <= j < k ==> s[1..k][j - 1] == s[j];
    assert k > 1 ==> IsTail(s[1]);
    assert k > 2 ==> IsTail(s[2]);
    assert k > 3 ==> IsTail(s[3]);
  }

  /** Every scalar value decodes back from its encoding, whatever follows. */
  lemma EncodedIsDecoded(wc: int, rest: seq<Byte>)
    requires IsScalar(wc)
    ensures IsUtf8Char(Encode(wc))
    ensures DecodeOne(Idle, Encode(wc) + rest) == OneChar(wc, |Encode(wc)|)
  {
    var s, k := Encode(wc) + rest, |Encode(wc)|;
    assert s[..k] == Encode(wc);
    EncodedIsSpelled(wc);
    SpelledInRange(Encode(wc), k);
    assert Encode(wc)[..k] == Encode(wc);
    assert Spelled(s, k) == Spelled(Encode(wc), k);
    assert s[1..k] == Encode(wc)[1..];
    ReadLead(s, k);
  }

  lemma EncodedIsSpelled(wc: int)
    requires IsScalar(wc)
    ensures var s, k := Encode(wc), |Encode(wc)|;
      && Spelled(s, k) == wc
      && (if k == 1 then s[0] <= 0x7F else LeadLength(s[0]) == k && AllTails(s[1..]))
  {
  }

  /** The grammar is the image of the encoder. */
  lemma GrammarIsImage(s: seq<Byte>)
    ensures IsUtf8Char(s) <==> exists wc :: IsScalar(wc) && Encode(wc) == s
  {
    if IsUtf8Char(s) {
      assert s[..|s|] == s;
      SpelledIsEncoded(s, |s|);
    }
    forall wc | IsScalar(wc) && Encode(wc) == s
      ensures IsUtf8Char(s)
    {
      EncodedIsDecoded(wc, []);
    }
  }
}
