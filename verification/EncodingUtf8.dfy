/** The byte-at-a-time validator of encoding_utf8.cpp and the grammar it decides. */
module EncodingUtf8 {
  import opened Wrappers
  import opened Rfc3629
  import opened Utf8Codec
  import opened Utf8Laws
  import opened Utf8BulkLaws
  import CitrusUtf8

  datatype ParseError = NoError | IllegalSequenceError | UnexpectedNullByteError | IncompleteUtf8SequenceError

  /** Some NUL comes directly after well-formed NUL-free text. */
  ghost predicate HasNulAfterText(s: seq<Byte>) {
    exists k :: 0 <= k < |s| && s[k] == 0 && IsText(s[..k])
  }

  /** Well-formed NUL-free text and then a lead byte with too few tails. */
  ghost predicate IsTextThenCutChar(s: seq<Byte>) {
    exists k :: 0 <= k < |s| && IsCutChar(s[k..]) && IsText(s[..k])
  }

  /** The answer on the bytes that remain. */
  function Classify(d: Decoder, s: seq<Byte>): ParseError
    decreases |s|
  {
    if s == [] then (if d == Idle then NoError else IncompleteUtf8SequenceError)
    else match Feed(d, s[0])
      case Bad => IllegalSequenceError
      case More(d') => Classify(d', s[1..])
      case Char(wc) => if wc == 0 then UnexpectedNullByteError else Classify(Idle, s[1..])
  }

  lemma OneByte(d: Decoder, b: Byte)
    ensures DecodeOne(d, [b]) ==
      match Feed(d, b)
      case Bad => OneBad
      case More(d') => OneMore(d')
      case Char(wc) => OneChar(wc, 1)
  {
    assert [b][1..] == [];
  }

  /** The four answers, each for exactly the strings it is meant for. */
  method Utf8Parse(s: seq<Byte>) returns (e: ParseError)
    ensures e == NoError <==> IsText(s)
    ensures e == UnexpectedNullByteError <==> HasNulAfterText(s)
    ensures e == IncompleteUtf8SequenceError <==> IsTextThenCutChar(s)
    ensures e == IllegalSequenceError <==> !IsText(s) && !HasNulAfterText(s) && !IsTextThenCutChar(s)
  {
    hide IsText, HasNulAfterText, IsTextThenCutChar, DecodeOne;
    ClassifyMeaning(s);
    var state := new CitrusUtf8.Utf8State();
    var r, k := Done(1), 0;
    assert s[0..] == s;
    while k < |s|
      invariant 0 <= k <= |s| && 0 <= state.want <= MB_CUR_MAX
      invariant Classify(Idle, s) == Classify(state.Value(), s[k..])
      invariant r == if state.want == 0 then Done(1) else Incomplete
    {
      OneByte(state.Value(), s[k]);
      if DecodeOne(state.Value(), [s[k]]).OneMore? {
        CitrusUtf8.PendingIsShort(state.Value(), [s[k]]);
      }
      assert s[k..][1..] == s[k + 1..];
      var wc;
      r, wc := state.Mbrtowc(Some([s[k]]));
      k := k + 1;
      if r == Incomplete {
        continue;
      }
      if r.Failed? {
        return IllegalSequenceError;
      }
      if r.n == 0 {
        return UnexpectedNullByteError;
      }
      assert r.n == 1;
    }
    assert r == Incomplete || r == Done(1);
    if r == Incomplete {
      return IncompleteUtf8SequenceError;
    }
    return NoError;
  }

  /** Classify by whole characters. */
  lemma {:induction false} ClassifyOne(d: Decoder, s: seq<Byte>)
    ensures match DecodeOne(d, s)
      case OneBad => Classify(d, s) == IllegalSequenceError
      case OneMore(d') => Classify(d, s) == if d' == Idle then NoError else IncompleteUtf8SequenceError
      case OneChar(wc, used) =>
        Classify(d, s) == if wc == 0 then UnexpectedNullByteError else Classify(Idle, s[used..])
    decreases |s|
  {
    if s != [] && Feed(d, s[0]).More? {
      ClassifyOne(Feed(d, s[0]).next, s[1..]);
      var one := DecodeOne(Feed(d, s[0]).next, s[1..]);
      if one.OneChar? {
        assert s[1..][one.used..] == s[one.used + 1..];
      }
    }
  }

  lemma {:induction false} ClassifyMeaning(s: seq<Byte>)
    ensures Classify(Idle, s) == NoError <==> IsText(s)
    ensures Classify(Idle, s) == UnexpectedNullByteError <==> HasNulAfterText(s)
    ensures Classify(Idle, s) == IncompleteUtf8SequenceError <==> IsTextThenCutChar(s)
    decreases |s|
  {
    hide Classify, DecodeOne, IsText, HasNulAfterText, IsTextThenCutChar;
    ClassifyOne(Idle, s);
    if s == [] {
      DecodeNothing(Idle);
      EmptyText();
    } else {
      var one := DecodeOne(Idle, s);
      if one.OneChar? {
        DecodedIsEncoded(s);
        SoundOne(Idle, s);
        if one.wc == 0 {
          NulFirst(s);
        } else {
          EncodedIsNotNul(one.wc);
          TextShifts(s, one.used);
          NulShifts(s, one.used);
          CutShifts(s, one.used);
          ClassifyMeaning(s[one.used..]);
        }
      } else {
        NoFirstChar(s);
        if one.OneMore? {
          DecodeLeavesPending(s);
        }
      }
    }
  }

  lemma EmptyText()
    ensures IsText([]) && !HasNulAfterText([]) && !IsTextThenCutChar([])
  {
  }

  lemma EncodedIsNotNul(wc: int)
    requires IsScalar(wc) && wc != 0
    ensures NulFree(Encode(wc))
  {
  }

  /** Text is a first character and text. */
  lemma FirstOfText(s: seq<Byte>)
    requires s != [] && IsText(s)
    ensures DecodeOne(Idle, s).OneChar?
    ensures var used := DecodeOne(Idle, s).used; IsText(s[used..]) && s[0] != 0
  {
    var k :| 1 <= k <= |s| && IsUtf8Char(s[..k]) && WellFormed(s[k..]);
    GrammarIsDecoded(s, k);
  }

  lemma TextShifts(s: seq<Byte>, used: nat)
    requires DecodeOne(Idle, s).OneChar? && used == DecodeOne(Idle, s).used && NulFree(s[..used])
    ensures IsText(s) <==> IsText(s[used..])
  {
    if IsText(s) {
      FirstOfText(s);
    }
    if IsText(s[used..]) {
      DecodedIsEncoded(s);
      assert s == s[..used] + s[used..];
    }
  }

  /** A prefix of text begins with the same character. */
  lemma FirstOfPrefix(s: seq<Byte>, k: nat)
    requires k <= |s| && DecodeOne(Idle, s).OneChar? && NulFree(s[..DecodeOne(Idle, s).used])
    ensures var used := DecodeOne(Idle, s).used;
      && (0 < k && IsText(s[..k]) ==> used <= k && IsText(s[used..k]))
      && (used <= k && IsText(s[used..k]) ==> IsText(s[..k]))
  {
    hide DecodeOne, IsText;
    var used := DecodeOne(Idle, s).used;
    assert s == s[..k] + s[k..];
    DecodeOneIsCutIndependent(Idle, s[..k], s[k..]);
    if 0 < k && IsText(s[..k]) {
      FirstOfText(s[..k]);
      assert s[..k][used..] == s[used..k];
    }
    if used <= k && IsText(s[used..k]) {
      DecodedIsEncoded(s);
      assert s[..k][..used] == s[..used];
      GrammarIsDecoded(s[..k], used);
      assert s[..k][used..] == s[used..k];
      TextShifts(s[..k], used);
    }
  }

  lemma NulFirst(s: seq<Byte>)
    requires s != [] && s[0] == 0
    ensures HasNulAfterText(s) && !IsText(s) && !IsTextThenCutChar(s)
  {
    assert s[..0] == [];
    forall k | 0 <= k < |s| && IsCutChar(s[k..])
      ensures !IsText(s[..k])
    {
      assert s[k..][0] == s[k];
      assert k > 0;
      assert s[..k][0] == 0;
    }
  }

  lemma NulShifts(s: seq<Byte>, used: nat)
    requires DecodeOne(Idle, s).OneChar? && used == DecodeOne(Idle, s).used && NulFree(s[..used])
    ensures HasNulAfterText(s) <==> HasNulAfterText(s[used..])
  {
    hide DecodeOne, IsText;
    var t := s[used..];
    assert s[0] == s[..used][0] != 0;
    if HasNulAfterText(s) {
      var k :| 0 <= k < |s| && s[k] == 0 && IsText(s[..k]);
      FirstOfPrefix(s, k);
      assert t[..k - used] == s[used..k] && t[k - used] == 0;
    }
    if HasNulAfterText(t) {
      var k :| 0 <= k < |t| && t[k] == 0 && IsText(t[..k]);
      FirstOfPrefix(s, used + k);
      assert t[..k] == s[used..used + k] && s[used + k] == 0;
    }
  }

  lemma CutShifts(s: seq<Byte>, used: nat)
    requires DecodeOne(Idle, s).OneChar? && used == DecodeOne(Idle, s).used && NulFree(s[..used])
    ensures IsTextThenCutChar(s) <==> IsTextThenCutChar(s[used..])
  {
    hide DecodeOne, IsText, IsCutChar;
    var t := s[used..];
    if IsTextThenCutChar(s) {
      var k :| 0 <= k < |s| && IsCutChar(s[k..]) && IsText(s[..k]);
      if k == 0 {
        assert s[0..] == s;
        CutCharStaysPending(s);
      }
      FirstOfPrefix(s, k);
      assert t[..k - used] == s[used..k] && t[k - used..] == s[k..];
    }
    if IsTextThenCutChar(t) {
      var k :| 0 <= k < |t| && IsCutChar(t[k..]) && IsText(t[..k]);
      FirstOfPrefix(s, used + k);
      assert t[..k] == s[used..used + k] && t[k..] == s[used + k..];
    }
  }

  /** A string with no first character is no text, and cut exactly when one is pending. */
  lemma NoFirstChar(s: seq<Byte>)
    requires s != [] && !DecodeOne(Idle, s).OneChar?
    ensures !IsText(s) && !HasNulAfterText(s)
    ensures IsTextThenCutChar(s) <==> DecodeOne(Idle, s).OneMore?
  {
    hide DecodeOne, IsText, IsCutChar;
    CutCharStaysPending(s);
    assert s[0..] == s && s[..0] == [];
    EmptyText();
    if IsText(s) {
      FirstOfText(s);
    }
    forall k | 0 < k <= |s|
      ensures !IsText(s[..k])
    {
      if IsText(s[..k]) {
        FirstOfText(s[..k]);
        assert s == s[..k] + s[k..];
        DecodeOneIsCutIndependent(Idle, s[..k], s[k..]);
      }
    }
    DecodeStep(Idle, s);
  }
}
