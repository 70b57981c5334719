/** Whole strings: cutting the input, limiting the output, and the two round trips. */
module Utf8BulkLaws {
  import opened Wrappers
  import opened Rfc3629
  import opened Utf8Codec
  import opened Utf8Laws

  /** What decoding from the initial state can leave behind: no NUL is pending. */
  predicate Sound(d: Decoder) {
    d.Pending? ==> d.lbound >= 0x80
  }

  // ---------------------------------------------------------------- cutting the input

  /** One character is read alike whether its bytes arrive in one call or in two. */
  lemma {:induction false} DecodeOneIsCutIndependent(d: Decoder, a: seq<Byte>, b: seq<Byte>)
    ensures DecodeOne(d, a + b) ==
      if DecodeOne(d, a).OneMore? then Shift(DecodeOne(DecodeOne(d, a).d, b), |a|) else DecodeOne(d, a)
    decreases |a|
  {
    if a == [] {
      assert a + b == b;
    } else {
      assert (a + b)[1..] == a[1..] + b;
      if Feed(d, a[0]).More? {
        DecodeOneIsCutIndependent(Feed(d, a[0]).next, a[1..], b);
      }
    }
  }

  function AndThen(first: Run, second: Run): Run {
    if first.Ran? && second.Ran? then Ran(first.out + second.out, second.d) else Broken
  }

  lemma {:induction false} RunSplits(d: Decoder, a: seq<Byte>, b: seq<Byte>)
    ensures RunAll(d, a + b) ==
      if RunAll(d, a).Ran? then AndThen(RunAll(d, a), RunAll(RunAll(d, a).d, b)) else Broken
    decreases |a|
  {
    if a == [] {
      assert a + b == b;
      var run := RunAll(d, b);
      assert run.Ran? ==> [] + run.out == run.out;
    } else {
      assert (a + b)[1..] == a[1..] + b;
      var step := Feed(d, a[0]);
      if step.More? {
        RunSplits(step.next, a[1..], b);
      } else if step.Char? {
        RunSplits(Idle, a[1..], b);
        var x := RunAll(Idle, a[1..]);
        if x.Ran? && RunAll(x.d, b).Ran? {
          assert [step.wc] + (x.out + RunAll(x.d, b).out) == [step.wc] + x.out + RunAll(x.d, b).out;
        }
      }
    }
  }

  lemma {:induction false} OneThenRun(d: Decoder, s: seq<Byte>)
    ensures match DecodeOne(d, s)
      case OneBad => RunAll(d, s) == Broken
      case OneMore(d') => RunAll(d, s) == Ran([], d')
      case OneChar(wc, used) => RunAll(d, s) == Emit(wc, RunAll(Idle, s[used..]))
    decreases |s|
  {
    if s != [] && Feed(d, s[0]).More? {
      OneThenRun(Feed(d, s[0]).next, s[1..]);
      var one := DecodeOne(Feed(d, s[0]).next, s[1..]);
      if one.OneChar? {
        assert s[1..][one.used..] == s[one.used + 1..];
      }
    }
  }

  lemma {:induction false} SoundOne(d: Decoder, s: seq<Byte>)
    requires Sound(d)
    ensures match DecodeOne(d, s)
      case OneBad => true
      case OneMore(d') => Sound(d')
      case OneChar(wc, used) => wc == 0 ==> d == Idle && s[0] == 0
    decreases |s|
  {
    if s != [] && Feed(d, s[0]).More? {
      SoundOne(Feed(d, s[0]).next, s[1..]);
    }
  }

  /** Given room, the bulk decoder with its fast path is the plain automaton. */
  lemma {:induction false} BulkDecodeIsRun(d: Decoder, s: seq<Byte>, room: nat)
    requires Sound(d) && NulFree(s) && room >= |s|
    ensures match RunAll(d, s)
      case Broken => BulkDecode(d, s, room).r == Failed(EILSEQ)
      case Ran(out, d') => BulkDecode(d, s, room) == Bulk(Done(|out|), out, Some(|s|), d') && Sound(d')
    decreases |s|
  {
    hide DecodeOne, RunAll;
    OneThenRun(d, s);
    SoundOne(d, s);
    var one := DecodeOne(d, s);
    if s == [] {
      DecodeNothing(d);
    } else if one.OneChar? {
      BulkDecodeIsRun(Idle, s[one.used..], room - 1);
    }
  }

  lemma DecodeNothing(d: Decoder)
    ensures DecodeOne(d, []) == OneMore(d)
  {
  }

  /**
   * Decoding A and then B with the carried state gives the characters, the count and the
   * state of decoding A + B, and fails exactly when that fails.
   */
  lemma BulkDecodeIsCutIndependent(d: Decoder, a: seq<Byte>, b: seq<Byte>, roomA: nat, roomB: nat, room: nat)
    requires Sound(d) && NulFree(a) && NulFree(b)
    requires roomA >= |a| && roomB >= |b| && room >= |a| + |b|
    ensures var x, whole := BulkDecode(d, a, roomA), BulkDecode(d, a + b, room);
      && (x.r.Failed? ==> whole.r.Failed?)
      && (x.r.Done? ==>
            var y := BulkDecode(x.d, b, roomB);
            && Sound(x.d)
            && (whole.r.Failed? <==> y.r.Failed?)
            && (y.r.Done? ==> whole == Bulk(Done(x.r.n + y.r.n), x.out + y.out, Some(|a| + |b|), y.d)))
  {
    hide BulkDecode, RunAll;
    BulkDecodeIsRun(d, a, roomA);
    BulkDecodeIsRun(d, a + b, room);
    RunSplits(d, a, b);
    if RunAll(d, a).Ran? {
      BulkDecodeIsRun(RunAll(d, a).d, b, roomB);
    }
  }

  // -------------------------------------------------------------- limiting the output

  lemma BulkStep(d: Decoder, s: seq<Byte>, room: nat)
    ensures BulkDecode(d, s, room) ==
      if s == [] || room == 0 then Bulk(Done(0), [], Some(0), d)
      else match DecodeOne(d, s)
        case OneBad => Bulk(Failed(EILSEQ), [], Some(0), d)
        case OneMore(d') => Bulk(Done(0), [], Some(|s|), d')
        case OneChar(wc, used) =>
          if wc == 0 then Bulk(Done(0), [0], None, Idle)
          else Join([wc], used, BulkDecode(Idle, s[used..], room - 1))
  {
  }

  /**
   * The output limit only truncates: a conversion with room for `size` stores the first
   * `size` characters of the whole one, and answers as that does unless it is full before.
   */
  lemma {:induction false} RoomTruncates(d: Decoder, s: seq<Byte>, room: nat, size: nat)
    requires room >= |s|
    ensures var x, y := BulkDecode(d, s, room), BulkDecode(d, s, size);
      && y.out == x.out[..if size < |x.out| then size else |x.out|]
      && (y.r == if IsFull(x, size) then Done(size) else x.r)
    decreases |s|
  {
    hide DecodeOne, BulkDecode;
    BulkStep(d, s, room);
    BulkStep(d, s, size);
    if s != [] && size > 0 && DecodeOne(d, s).OneChar? && DecodeOne(d, s).wc != 0 {
      var one := DecodeOne(d, s);
      RoomTruncates(Idle, s[one.used..], room - 1, size - 1);
    }
  }

  /** The room ends before the answer of the conversion does. */
  predicate IsFull(x: Bulk, size: nat) {
    match x.r
    case Done(n) => size < n
    case Failed(_) => size <= |x.out|
    case Incomplete => false
  }

  /** Resuming at *src with the carried state continues as if the room had been there. */
  lemma {:induction false} BulkDecodeResumes(d: Decoder, s: seq<Byte>, room: nat, more: nat)
    ensures var x := BulkDecode(d, s, room);
      BulkDecode(d, s, room + more) ==
        if x.r.Done? && x.src.Some? then Join(x.out, x.src.value, BulkDecode(x.d, s[x.src.value..], more)) else x
    decreases |s|
  {
    hide DecodeOne, BulkDecode;
    BulkStep(d, s, room);
    BulkStep(d, s, room + more);
    if s == [] || room == 0 {
      assert s[0..] == s;
      BulkStep(d, s, more);
      var rest := BulkDecode(d, s, more);
      assert [] + rest.out == rest.out;
    } else {
      var one := DecodeOne(d, s);
      if one.OneMore? {
        assert s[|s|..] == [];
        BulkStep(one.d, [], more);
      } else if one.OneChar? && one.wc != 0 {
        BulkDecodeResumes(Idle, s[one.used..], room - 1, more);
        var x := BulkDecode(Idle, s[one.used..], room - 1);
        if x.r.Done? && x.src.Some? {
          var rest := BulkDecode(x.d, s[one.used..][x.src.value..], more);
          assert s[one.used..][x.src.value..] == s[one.used + x.src.value..];
          assert [one.wc] + (x.out + rest.out) == [one.wc] + x.out + rest.out;
        }
      }
    }
  }

  /** Count mode answers the room that a conversion needs, and not less, to answer the same. */
  lemma DecodeCountIsEnough(d: Decoder, s: seq<Byte>, size: nat)
    ensures var c, r := BulkDecode(d, s, |s|).r, BulkDecode(d, s, size).r;
      c.Done? ==> r == if size >= c.n then c else Done(size)
  {
    RoomTruncates(d, s, |s|, size);
  }

  /** When count mode fails, a conversion fails iff it has room left at the invalid byte. */
  lemma DecodeCountFails(d: Decoder, s: seq<Byte>, size: nat)
    ensures var c, r := BulkDecode(d, s, |s|), BulkDecode(d, s, size).r;
      c.r.Failed? ==> (r.Failed? <==> size > |c.out|)
  {
    RoomTruncates(d, s, |s|, size);
  }

  // ------------------------------------------------------------------ the round trips

  /** The bits of a cut character so far, the bytes it lacks, and the least value its length allows. */
  function StateAfter(s: seq<Byte>): Decoder
    requires IsCutChar(s)
  {
    var k := LeadLength(s[0]);
    Pending(Fold(s[0] - LeadMark(k), s[1..]), k - |s|, if k == 2 then 0x80 else if k == 3 then 0x800 else 0x10000)
  }

  /** In the initial state exactly the cut characters stay pending. */
  lemma CutCharStaysPending(s: seq<Byte>)
    requires s != []
    ensures DecodeOne(Idle, s).OneMore? <==> IsCutChar(s)
    ensures IsCutChar(s) ==> DecodeOne(Idle, s).d == StateAfter(s)
  {
    if s[0] > 0x7F && LeadLength(s[0]) > 0 {
      var p := Feed(Idle, s[0]).next;
      PendingDecode(p.ch, LeadLength(s[0]) - 1, p.lbound, s[1..]);
    }
  }

  /**
   * A bulk decode that does not fail consumes the encoding of what it stores and then, when
   * it leaves a character pending, the bytes of that cut character.
   */
  lemma {:induction false} DecodedTextIsConsumed(s: seq<Byte>, room: nat)
    requires NulFree(s) && BulkDecode(Idle, s, room).r.Done?
    ensures var b := BulkDecode(Idle, s, room);
      && b.src.Some? && AllScalars(b.out) && 0 !in b.out
      && EncodeAll(b.out) <= s[..b.src.value]
      && (if b.d == Idle then EncodeAll(b.out) == s[..b.src.value]
          else |b.out| < room && b.src.value == |s| && IsCutChar(s[|EncodeAll(b.out)|..]))
    decreases |s|
  {
    hide DecodeOne, BulkDecode, IsCutChar, Encode;
    BulkStep(Idle, s, room);
    if s != [] && room > 0 {
      var one := DecodeOne(Idle, s);
      if one.OneMore? {
        CutCharStaysPending(s);
        assert s[0..] == s;
        DecodeLeavesPending(s);
      } else {
        SoundOne(Idle, s);
        DecodedIsEncoded(s);
        var t := s[one.used..];
        DecodedTextIsConsumed(t, room - 1);
        var x := BulkDecode(Idle, t, room - 1);
        assert ([one.wc] + x.out)[1..] == x.out;
        assert s[..one.used + x.src.value] == s[..one.used] + t[..x.src.value];
        var n := |EncodeAll(x.out)|;
        if x.d != Idle {
          assert s[one.used + n..] == t[n..];
        }
      }
    }
  }

  lemma DecodeLeavesPending(s: seq<Byte>)
    requires s != [] && DecodeOne(Idle, s).OneMore?
    ensures DecodeOne(Idle, s).d != Idle
  {
  }

  lemma {:induction false} BulkEncodeWithRoom(w: seq<int>, room: nat)
    requires AllScalars(w) && 0 !in w && room >= |EncodeAll(w)|
    ensures BulkEncode(w, room) == BulkBytes(Done(|EncodeAll(w)|), EncodeAll(w), Some(|w|))
    decreases |w|
  {
    hide Encode;
    if w != [] {
      BulkEncodeWithRoom(w[1..], room - |Encode(w[0])|);
    }
  }

  /** Some suffix of `s` is a character that lacks its last bytes. */
  ghost predicate EndsMidChar(s: seq<Byte>) {
    exists k :: 0 <= k < |s| && IsCutChar(s[k..])
  }

  /** The number of bytes that start a character. */
  function Leads(s: seq<Byte>): nat {
    if s == [] then 0 else (if IsTail(s[0]) then 0 else 1) + Leads(s[1..])
  }

  lemma {:induction false} LeadsSplit(a: seq<Byte>, b: seq<Byte>)
    ensures Leads(a + b) == Leads(a) + Leads(b)
    decreases |a|
  {
    if a == [] {
      assert a + b == b;
    } else {
      assert (a + b)[1..] == a[1..] + b;
      LeadsSplit(a[1..], b);
    }
  }

  lemma WholeCharHasOneLead(c: seq<Byte>)
    requires IsUtf8Char(c)
    ensures Leads(c) == 1 && (if |c| == 1 then c[0] <= 0x7F else LeadLength(c[0]) == |c| && AllTails(c[1..]))
  {
    var t := c[1..];
    assert forall k :: 0 <= k < |t| ==> t[k] == c[k + 1];
    NoLeads(t);
  }

  lemma {:induction false} NoLeads(t: seq<Byte>)
    ensures Leads(t) == 0 <==> AllTails(t)
  {
    if t != [] {
      NoLeads(t[1..]);
      assert AllTails(t) <==> IsTail(t[0]) && AllTails(t[1..]) by {
        assert forall k :: 1 <= k < |t| ==> t[k] == t[1..][k - 1];
      }
    }
  }

  lemma NotCutInside(s: seq<Byte>, used: nat, k: nat)
    requires k < used <= |s| && IsUtf8Char(s[..used])
    ensures !IsCutChar(s[k..])
  {
    WholeCharHasOneLead(s[..used]);
    assert s[k..][0] == s[..used][k];
    if k > 0 {
      assert s[..used][k] == s[..used][1..][k - 1];
    }
  }

  /** A whole character in front does not change how the string ends. */
  lemma EndsMidCharShifts(s: seq<Byte>, used: nat)
    requires used <= |s| && IsUtf8Char(s[..used])
    ensures EndsMidChar(s) <==> EndsMidChar(s[used..])
  {
    hide IsUtf8Char, IsCutChar;
    if EndsMidChar(s) {
      var k :| 0 <= k < |s| && IsCutChar(s[k..]);
      if k < used {
        NotCutInside(s, used, k);
      }
      assert s[used..][k - used..] == s[k..];
    }
    if EndsMidChar(s[used..]) {
      var k :| 0 <= k < |s[used..]| && IsCutChar(s[used..][k..]);
      assert s[used..][k..] == s[used + k..];
    }
  }

  /** A decode leaves a character pending iff the input ends inside one and it gets there. */
  lemma {:induction false} PendingIff(s: seq<Byte>, room: nat)
    requires NulFree(s) && BulkDecode(Idle, s, room).r.Done?
    ensures BulkDecode(Idle, s, room).d != Idle <==> EndsMidChar(s) && Leads(s) <= room
    decreases |s|
  {
    hide DecodeOne, IsUtf8Char, Leads, BulkDecode;
    BulkStep(Idle, s, room);
    if s == [] {
    } else if room == 0 {
      NoLeads(s);
      if EndsMidChar(s) {
        var k :| 0 <= k < |s| && IsCutChar(s[k..]);
        assert !IsTail(s[k]);
      }
    } else {
      var one := DecodeOne(Idle, s);
      if one.OneMore? {
        CutCharStaysPending(s);
        DecodeLeavesPending(s);
        assert s[0..] == s;
        OneLeadOnly(s);
      } else {
        var rest := s[one.used..];
        SoundOne(Idle, s);
        DecodedIsEncoded(s);
        WholeCharHasOneLead(s[..one.used]);
        LeadsSplit(s[..one.used], rest);
        assert s == s[..one.used] + rest;
        EndsMidCharShifts(s, one.used);
        hide EndsMidChar;
        assert NulFree(rest) && BulkDecode(Idle, rest, room - 1).r.Done?;
        PendingIff(rest, room - 1);
      }
    }
  }

  lemma OneLeadOnly(s: seq<Byte>)
    requires IsCutChar(s)
    ensures Leads(s) == 1
  {
    NoLeads(s[1..]);
  }

  /**
   * Bulk decode then bulk encode reproduces exactly the bytes consumed, unless the input
   * ends inside a character that the output limit lets the decoder reach.
   */
  lemma RoundTripOfBytes(s: seq<Byte>, room: nat, size: nat)
    requires NulFree(s) && BulkDecode(Idle, s, room).r.Done?
    requires size >= |s|
    ensures var b := BulkDecode(Idle, s, room); var e := BulkEncode(b.out, size);
      && b.src.Some? && e.r == Done(|e.out|) && e.out <= s[..b.src.value]
      && (e.out == s[..b.src.value] <==> !(EndsMidChar(s) && Leads(s) <= room))
  {
    hide EndsMidChar, Leads;
    PendingIff(s, room);
    DecodedTextIsConsumed(s, room);
    var b := BulkDecode(Idle, s, room);
    BulkEncodeWithRoom(b.out, size);
    if b.d != Idle {
      assert s[|EncodeAll(b.out)|..] != [];
    }
  }

  /** The failing case of the round trip: U+20AC without its last byte is consumed, not reproduced. */
  lemma RoundTripLosesCutChar()
    ensures var s := [0x41, 0xE2, 0x82]; var b := BulkDecode(Idle, s, 3);
      b.r == Done(1) && b.src == Some(3) && BulkEncode(b.out, 3).out == [0x41] != s
  {
    var s: seq<Byte> := [0x41, 0xE2, 0x82];
    assert s[1..] == [0xE2, 0x82] && s[1..][1..] == [0x82];
    DecodeStep(Idle, s);
    CutCharStaysPending(s[1..]);
    assert BulkDecode(Idle, s[1..], 2) == Bulk(Done(0), [], Some(2), DecodeOne(Idle, s[1..]).d);
    var b := BulkDecode(Idle, s, 3);
    assert b.out == [0x41];
    assert BulkEncode([], 2).out == [];
    assert Encode(0x41) == [0x41];
  }

  /** Every list of scalar values, NUL aside, survives bulk encode then bulk decode. */
  lemma {:induction false} RoundTripOfText(w: seq<int>, room: nat)
    requires AllScalars(w) && 0 !in w && room >= |w|
    ensures BulkDecode(Idle, EncodeAll(w), room) == Bulk(Done(|w|), w, Some(|EncodeAll(w)|), Idle)
    decreases |w|
  {
    hide DecodeOne, Encode, BulkDecode;
    BulkStep(Idle, EncodeAll(w), room);
    if w != [] {
      var rest := EncodeAll(w[1..]);
      EncodedIsDecoded(w[0], rest);
      RoundTripOfText(w[1..], room - 1);
      assert EncodeAll(w)[|Encode(w[0])|..] == rest;
      assert [w[0]] + w[1..] == w;
    }
  }

  // --------------------------------------------------------------- where decoding stops

  /** `b` holds characters whose encodings `s` begins with, and there is a reason to stop. */
  ghost predicate DecodeStops(s: seq<Byte>, room: nat, w: seq<int>, b: Bulk) {
    && AllScalars(w) && 0 !in w && |w| <= room && EncodeAll(w) <= s
    && StopsBefore(s[|EncodeAll(w)|..], |w| == room, w, |EncodeAll(w)|, b)
  }

  /** The reason: the end, the limit, a NUL, a cut character, or no character of the grammar. */
  ghost predicate StopsBefore(rest: seq<Byte>, full: bool, w: seq<int>, n: nat, b: Bulk) {
    if rest == [] || full then b == Bulk(Done(|w|), w, Some(n), Idle)
    else if rest[0] == 0 then b == Bulk(Done(|w|), w + [0], None, Idle)
    else if IsCutChar(rest) then b == Bulk(Done(|w|), w, Some(n + |rest|), StateAfter(rest))
    else (forall k :: 1 <= k <= |rest| ==> !IsUtf8Char(rest[..k])) && b == Bulk(Failed(EILSEQ), w, Some(n), Idle)
  }

  /**
   * Bulk decode stores the characters whose encodings the input begins with, and stops only
   * at the end, at the limit, at a NUL, at a cut character or where the grammar has none;
   * and that determines what is stored, the answer, `*src` and the state.
   */
  lemma BulkDecodeStopsAt(s: seq<Byte>, room: nat, b: Bulk)
    ensures b == BulkDecode(Idle, s, room) <==> exists w :: DecodeStops(s, room, w, b)
  {
    var w := DecodeStopPoint(s, room);
    forall v | DecodeStops(s, room, v, b)
      ensures b == BulkDecode(Idle, s, room)
    {
      DecodeStopDetermines(s, room, v, b);
    }
  }

  lemma {:induction false} DecodeStopPoint(s: seq<Byte>, room: nat) returns (w: seq<int>)
    ensures DecodeStops(s, room, w, BulkDecode(Idle, s, room))
    decreases |s|
  {
    hide DecodeOne, BulkDecode, IsCutChar, Encode, StopsBefore, StateAfter;
    if s != [] && room > 0 && DecodeOne(Idle, s).OneChar? && DecodeOne(Idle, s).wc != 0 {
      var one := DecodeOne(Idle, s);
      DecodedIsEncoded(s);
      var t := s[one.used..];
      var v := DecodeStopPoint(t, room - 1);
      DecodeStopShifts(s, room, one.wc, v, BulkDecode(Idle, t, room - 1));
      BulkStep(Idle, s, room);
      return [one.wc] + v;
    }
    w := [];
    assert s[0..] == s;
    StopsAtOnce(s, room);
  }

  lemma StopsAtOnce(s: seq<Byte>, room: nat)
    requires s == [] || room == 0 || !DecodeOne(Idle, s).OneChar? || DecodeOne(Idle, s).wc == 0
    ensures StopsBefore(s, room == 0, [], 0, BulkDecode(Idle, s, room))
  {
    hide DecodeOne, IsCutChar, IsUtf8Char, StateAfter;
    BulkStep(Idle, s, room);
    if s != [] && room > 0 {
      CutCharStaysPending(s);
      DecodeStep(Idle, s);
      if DecodeOne(Idle, s).OneChar? {
        SoundOne(Idle, s);
      } else {
        forall k | 1 <= k <= |s|
          ensures !IsUtf8Char(s[..k])
        {
          if IsUtf8Char(s[..k]) {
            GrammarIsDecoded(s, k);
          }
        }
      }
    }
  }

  lemma DecodeStopShifts(s: seq<Byte>, room: nat, wc: int, v: seq<int>, rest: Bulk)
    requires IsScalar(wc) && wc != 0 && Encode(wc) <= s && room > 0
    requires DecodeStops(s[|Encode(wc)|..], room - 1, v, rest)
    ensures DecodeStops(s, room, [wc] + v, Join([wc], |Encode(wc)|, rest))
  {
    hide Encode, DecodeOne, IsCutChar, IsUtf8Char, StateAfter;
    var w, n := [wc] + v, |Encode(wc)|;
    assert w[1..] == v;
    assert s == Encode(wc) + s[n..];
    assert s[|EncodeAll(w)|..] == s[n..][|EncodeAll(v)|..];
    assert [wc] + (v + [0]) == w + [0];
  }

  lemma {:induction false} DecodeStopDetermines(s: seq<Byte>, room: nat, w: seq<int>, b: Bulk)
    requires DecodeStops(s, room, w, b)
    ensures b == BulkDecode(Idle, s, room)
    decreases |w|
  {
    hide DecodeOne, BulkDecode, IsCutChar, IsUtf8Char, Encode, StateAfter;
    if w == [] {
      assert s[0..] == s;
      NowhereElse(s, room, b);
    } else {
      var n := |Encode(w[0])|;
      assert s == Encode(w[0]) + s[n..];
      EncodedIsDecoded(w[0], s[n..]);
      BulkStep(Idle, s, room);
      var rest := DecodeStopTail(s, room, w, b);
      DecodeStopDetermines(s[n..], room - 1, w[1..], rest);
    }
  }

  lemma NowhereElse(s: seq<Byte>, room: nat, b: Bulk)
    requires StopsBefore(s, room == 0, [], 0, b)
    ensures b == BulkDecode(Idle, s, room)
  {
    hide DecodeOne, IsCutChar, IsUtf8Char, StateAfter;
    BulkStep(Idle, s, room);
    if s != [] && room > 0 {
      CutCharStaysPending(s);
      DecodeStep(Idle, s);
      if DecodeOne(Idle, s).OneChar? {
        DecodedIsEncoded(s);
        SoundOne(Idle, s);
      }
    }
  }

  lemma DecodeStopTail(s: seq<Byte>, room: nat, w: seq<int>, b: Bulk) returns (rest: Bulk)
    requires w != [] && DecodeStops(s, room, w, b)
    ensures IsScalar(w[0]) && |Encode(w[0])| <= |s|
    ensures DecodeStops(s[|Encode(w[0])|..], room - 1, w[1..], rest) && b == Join([w[0]], |Encode(w[0])|, rest)
  {
    hide Encode, DecodeOne, IsCutChar, IsUtf8Char, StateAfter;
    var n, v := |Encode(w[0])|, w[1..];
    assert w == [w[0]] + v;
    assert s[|EncodeAll(w)|..] == s[n..][|EncodeAll(v)|..];
    assert 0 !in v;
    rest := Bulk(
      if b.r.Done? then Done(b.r.n - 1) else b.r,
      b.out[1..],
      if b.src == None then None else Some(b.src.value - n),
      b.d);
    assert b.out == [w[0]] + b.out[1..];
    assert (w + [0])[1..] == v + [0];
  }

  // --------------------------------------------------------------- where encoding stops

  /** `b` holds whole encodings of the first `k` characters, and there is a reason to stop. */
  ghost predicate StopsAt(w: seq<int>, room: nat, k: nat, b: BulkBytes) {
    && k <= |w| && AllScalars(w[..k]) && 0 !in w[..k]
    && var bytes := EncodeAll(w[..k]);
    && |bytes| <= room
    && if k == |w| || |bytes| == room then b == BulkBytes(Done(|bytes|), bytes, Some(k))
       else if w[k] == 0 then b == BulkBytes(Done(|bytes|), bytes + [0], None)
       else if !IsScalar(w[k]) then b == BulkBytes(Failed(EILSEQ), bytes, Some(k))
       else |bytes| + |Encode(w[k])| > room && b == BulkBytes(Done(|bytes|), bytes, Some(k))
  }

  /**
   * Bulk encode writes whole encodings within the room and stops only at the end, at a NUL,
   * at an invalid character or before one that does not fit; and that determines it.
   */
  lemma {:induction false} BulkEncodeStopsAt(w: seq<int>, room: nat, b: BulkBytes)
    ensures b == BulkEncode(w, room) <==> exists k: nat :: StopsAt(w, room, k, b)
  {
    var k := StopPoint(w, room);
    forall j: nat | StopsAt(w, room, j, b)
      ensures b == BulkEncode(w, room)
    {
      StopDetermines(w, room, j, b);
    }
  }

  lemma {:induction false} StopPoint(w: seq<int>, room: nat) returns (k: nat)
    ensures StopsAt(w, room, k, BulkEncode(w, room))
    decreases |w|
  {
    hide Encode;
    if w == [] || room == 0 || w[0] == 0 || !IsScalar(w[0]) || |Encode(w[0])| > room {
      assert w[..0] == [];
      return 0;
    }
    k := StopPoint(w[1..], room - |Encode(w[0])|);
    StopShifts(w, room, k, BulkEncode(w[1..], room - |Encode(w[0])|));
    k := k + 1;
  }

  lemma StopShifts(w: seq<int>, room: nat, k: nat, rest: BulkBytes)
    requires w != [] && w[0] != 0 && IsScalar(w[0]) && |Encode(w[0])| <= room
    requires StopsAt(w[1..], room - |Encode(w[0])|, k, rest)
    ensures StopsAt(w, room, k + 1, JoinBytes(Encode(w[0]), 1, rest))
  {
    hide Encode;
    assert w[..k + 1] == [w[0]] + w[1..][..k];
    assert w[..k + 1][1..] == w[1..][..k];
    var tail := EncodeAll(w[1..][..k]);
    assert Encode(w[0]) + (tail + [0]) == Encode(w[0]) + tail + [0];
  }

  lemma {:induction false} StopDetermines(w: seq<int>, room: nat, k: nat, b: BulkBytes)
    requires StopsAt(w, room, k, b)
    ensures b == BulkEncode(w, room)
    decreases |w|
  {
    hide Encode;
    if k > 0 {
      assert w[..k] == [w[0]] + w[1..][..k - 1];
      assert w[..k][1..] == w[1..][..k - 1];
      assert w[..k][0] == w[0] && w[0] in w[..k];
      TailIsValid(w, k);
      var rest := StopRest(w, room, k, b);
      StopDetermines(w[1..], room - |Encode(w[0])|, k - 1, rest);
    }
  }

  lemma TailIsValid(w: seq<int>, k: nat)
    requires 0 < k <= |w| && AllScalars(w[..k]) && 0 !in w[..k]
    ensures AllScalars(w[1..][..k - 1]) && 0 !in w[1..][..k - 1]
  {
    var t := w[1..][..k - 1];
    assert forall j :: 0 <= j < |t| ==> t[j] == w[..k][j + 1];
  }

  lemma StopRest(w: seq<int>, room: nat, k: nat, b: BulkBytes) returns (rest: BulkBytes)
    requires k > 0 && StopsAt(w, room, k, b)
    requires w[..k][1..] == w[1..][..k - 1] && AllScalars(w[1..][..k - 1]) && 0 !in w[1..][..k - 1]
    requires IsScalar(w[0]) && w[0] != 0
    ensures |Encode(w[0])| <= room
    ensures StopsAt(w[1..], room - |Encode(w[0])|, k - 1, rest) && b == JoinBytes(Encode(w[0]), 1, rest)
  {
    hide Encode;
    var e, tail := Encode(w[0]), EncodeAll(w[1..][..k - 1]);
    assert EncodeAll(w[..k]) == e + tail;
    assert (e + tail) + [0] == e + (tail + [0]);
    rest := BulkBytes(
      if b.r.Done? then Done(|tail|) else b.r,
      if b.src == None then tail + [0] else tail,
      if b.src == None then None else Some(k - 1));
  }

  /** Count mode answers the length that any conversion with that much room answers. */
  lemma {:induction false} EncodeCountIsEnough(w: seq<int>, room: nat, size: nat)
    requires room >= 4 * |w|
    ensures var c := BulkEncode(w, room).r; c.Done? && size >= c.n ==> BulkEncode(w, size).r == c
    decreases |w|
  {
    hide Encode;
    if w != [] && w[0] != 0 && IsScalar(w[0]) {
      var n := |Encode(w[0])|;
      if BulkEncode(w, room).r.Done? && size >= n {
        EncodeCountIsEnough(w[1..], room - n, size - n);
      }
    }
  }

  /** When count mode fails, a conversion fails iff it has room left at the invalid character. */
  lemma {:induction false} EncodeCountFails(w: seq<int>, room: nat, size: nat)
    requires room >= 4 * |w|
    ensures BulkEncode(w, room).r.Failed? <==> exists k: nat :: FirstInvalid(w, k)
    ensures forall k: nat :: FirstInvalid(w, k) ==>
      (BulkEncode(w, size).r.Failed? <==> size > |EncodeAll(w[..k])|)
  {
    var k0 := StopPoint(w, room);
    EncodeAllIsShort(w[..k0]);
    if BulkEncode(w, room).r.Failed? {
      assert FirstInvalid(w, k0);
    }
    forall k: nat | FirstInvalid(w, k)
      ensures BulkEncode(w, room).r.Failed?
      ensures BulkEncode(w, size).r.Failed? <==> size > |EncodeAll(w[..k])|
    {
      EncodeAllIsShort(w[..k]);
      FailsWhenReached(w, k, room);
      FailsWhenReached(w, k, size);
    }
  }

  ghost predicate FirstInvalid(w: seq<int>, k: nat) {
    k < |w| && !IsScalar(w[k]) && AllScalars(w[..k]) && 0 !in w[..k]
  }

  lemma {:induction false} EncodeAllIsShort(w: seq<int>)
    requires AllScalars(w)
    ensures |EncodeAll(w)| <= 4 * |w|
  {
    if w != [] {
      EncodeAllIsShort(w[1..]);
    }
  }

  lemma {:induction false} FailsWhenReached(w: seq<int>, k: nat, size: nat)
    requires FirstInvalid(w, k)
    ensures BulkEncode(w, size).r.Failed? <==> size > |EncodeAll(w[..k])|
    decreases |w|
  {
    hide Encode;
    if k == 0 {
      assert w[..0] == [];
    } else {
      assert w[..k][1..] == w[1..][..k - 1];
      assert w[..k][0] == w[0] && w[0] in w[..k];
      TailIsValid(w, k);
      if size >= |Encode(w[0])| {
        FailsWhenReached(w[1..], k - 1, size - |Encode(w[0])|);
      }
    }
  }
}
