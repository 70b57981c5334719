/**
 * The four conversion routines of citrus_utf8.c over their mutable state. A `const char *`
 * with its length is a seq, a `dst` buffer is an array, and the updated `*src` is a result.
 */
module CitrusUtf8 {
  import opened Wrappers
  import opened Rfc3629
  import opened Utf8Codec
  import Utf8Laws
  import Utf8BulkLaws

  /** `one` is still the answer after `i` bytes, of the `need` the character takes. */
  ghost predicate Reading(one: One, wch: int, need: int, low: int, s: seq<Byte>, i: int) {
    && 0 <= i <= need && i <= |s|
    && one == if i < need then Shift(DecodeOne(Pending(wch, need - i, low), s[i..]), i)
              else if Finish(wch, low).Char? then OneChar(wch, i)
              else OneBad
  }

  lemma StartReading(d: Decoder, s: seq<Byte>)
    ensures s == [] ==> DecodeOne(d, s) == OneMore(d)
    ensures s != [] && Feed(d, s[0]) == Bad ==> DecodeOne(d, s) == OneBad
    ensures s != [] && Feed(d, s[0]).Char? ==> DecodeOne(d, s) == OneChar(Feed(d, s[0]).wc, 1)
    ensures s != [] && d.Pending? && d.want > 0 ==> Reading(DecodeOne(d, s), d.ch, d.want, d.lbound, s, 0)
    ensures s != [] && d.Idle? && Feed(d, s[0]).More? ==>
      var p := Feed(d, s[0]).next;
      Reading(DecodeOne(d, s), p.ch, p.want + 1, p.lbound, s, 1)
  {
    assert s[0..] == s;
  }

  lemma ReadByte(one: One, wch: int, need: int, low: int, s: seq<Byte>, i: int)
    requires Reading(one, wch, need, low, s, i) && i < need && i < |s|
    ensures !IsTail(s[i]) ==> one == OneBad
    ensures IsTail(s[i]) ==> Reading(one, wch * 64 + (s[i] - 0x80), need, low, s, i + 1)
  {
    assert s[i..][0] == s[i];
    assert s[i..][1..] == s[i + 1..];
  }

  /** `out` is stored and `i` bytes are consumed of the conversion `whole`. */
  ghost predicate Decoding(whole: Bulk, out: seq<int>, i: nat, d: Decoder, s: seq<Byte>, room: nat) {
    i <= |s| && whole == Join(out, i, BulkConvert(d, s[i..], room))
  }

  lemma DecodeFromStart(d: Decoder, s: seq<Byte>, room: nat)
    ensures Decoding(BulkConvert(d, s, room), [], 0, d, s, room)
  {
    assert s[0..] == s;
    var whole := BulkConvert(d, s, room);
    assert [] + whole.out == whole.out;
  }

  lemma DecodeNext(whole: Bulk, out: seq<int>, i: nat, d: Decoder, s: seq<Byte>, room: nat)
    requires Decoding(whole, out, i, d, s, room)
    ensures i == |s| || room == 0 ==> whole == Bulk(Done(|out|), out, Some(i), d)
    ensures i < |s| && room > 0 && InRange(d) ==>
      match DecodeOne(d, s[i..])
      case OneBad => whole == Bulk(Failed(EILSEQ), out, Some(i), d)
      case OneMore(d') => whole == Bulk(Done(|out|), out, Some(|s|), d')
      case OneChar(wc, used) =>
        if wc == 0 then whole == Bulk(Done(|out|), out + [0], None, Idle)
        else Decoding(whole, out + [wc], i + used, Idle, s, room - 1)
  {
    hide DecodeOne, BulkDecode;
    Utf8BulkLaws.BulkStep(d, s[i..], room);
    if i < |s| && room > 0 && InRange(d) {
      var one := DecodeOne(d, s[i..]);
      if one.OneChar? && one.wc != 0 {
        assert s[i..][one.used..] == s[i + one.used..];
        var rest := BulkDecode(Idle, s[i + one.used..], room - 1);
        assert out + ([one.wc] + rest.out) == out + [one.wc] + rest.out;
      }
    }
  }

  /** From a state that mbrtowc would not accept. */
  lemma DecodeNextOutOfRange(whole: Bulk, out: seq<int>, i: nat, d: Decoder, s: seq<Byte>, room: nat)
    requires Decoding(whole, out, i, d, s, room) && !InRange(d)
    ensures i < |s| && room > 0 ==>
      if s[i] > 0x7F then whole == Bulk(Failed(EINVAL), out, Some(i), d)
      else if d.want > 0 then whole == Bulk(Failed(EILSEQ), out, Some(i), d)
      else if s[i] == 0 then whole == Bulk(Done(|out|), out + [0], None, d)
      else Decoding(whole, out + [s[i]], i + 1, d, s, room - 1)
  {
    if i < |s| && room > 0 {
      assert s[i..][1..] == s[i + 1..];
      var rest := BulkConvert(d, s[i + 1..], room - 1);
      assert out + ([s[i]] + rest.out) == out + [s[i]] + rest.out;
    }
  }

  /** Either of the two. */
  lemma DecodeAnyNext(whole: Bulk, out: seq<int>, i: nat, d: Decoder, s: seq<Byte>, room: nat)
    requires Decoding(whole, out, i, d, s, room)
    ensures i == |s| || room == 0 ==> whole == Bulk(Done(|out|), out, Some(i), d)
    ensures i < |s| && room > 0 && !InRange(d) ==>
      if s[i] > 0x7F then whole == Bulk(Failed(EINVAL), out, Some(i), d)
      else if d.want > 0 then whole == Bulk(Failed(EILSEQ), out, Some(i), d)
      else if s[i] == 0 then whole == Bulk(Done(|out|), out + [0], None, d)
      else Decoding(whole, out + [s[i]], i + 1, d, s, room - 1)
    ensures i < |s| && room > 0 && InRange(d) ==>
      match DecodeOne(d, s[i..])
      case OneBad => whole == Bulk(Failed(EILSEQ), out, Some(i), d)
      case OneMore(d') => whole == Bulk(Done(|out|), out, Some(|s|), d')
      case OneChar(wc, used) =>
        if wc == 0 then whole == Bulk(Done(|out|), out + [0], None, Idle)
        else Decoding(whole, out + [wc], i + used, Idle, s, room - 1)
  {
    hide DecodeOne, BulkConvert, Decoding;
    DecodeNext(whole, out, i, d, s, room);
    if !InRange(d) {
      DecodeNextOutOfRange(whole, out, i, d, s, room);
    }
  }

  ghost predicate Encoding(whole: BulkBytes, out: seq<Byte>, i: nat, w: seq<int>, room: nat) {
    i <= |w| && whole == JoinBytes(out, i, BulkEncode(w[i..], room))
  }

  lemma EncodeFromStart(w: seq<int>, room: nat)
    ensures Encoding(BulkEncode(w, room), [], 0, w, room)
  {
    assert w[0..] == w;
    var whole := BulkEncode(w, room);
    assert [] + whole.out == whole.out;
  }

  lemma EncodeNext(whole: BulkBytes, out: seq<Byte>, i: nat, w: seq<int>, room: nat)
    requires Encoding(whole, out, i, w, room)
    ensures i == |w| || room == 0 ==> whole == BulkBytes(Done(|out|), out, Some(i))
    ensures i < |w| && room > 0 ==>
      if w[i] == 0 then whole == BulkBytes(Done(|out|), out + [0], None)
      else if !IsScalar(w[i]) then whole == BulkBytes(Failed(EILSEQ), out, Some(i))
      else if |Encode(w[i])| > room then whole == BulkBytes(Done(|out|), out, Some(i))
      else Encoding(whole, out + Encode(w[i]), i + 1, w, room - |Encode(w[i])|)
  {
    if i < |w| && room > 0 && w[i] != 0 && IsScalar(w[i]) && |Encode(w[i])| <= room {
      assert w[i..][1..] == w[i + 1..];
      var rest := BulkEncode(w[i + 1..], room - |Encode(w[i])|);
      assert out + (Encode(w[i]) + rest.out) == out + Encode(w[i]) + rest.out;
    }
  }

  /** The buffer starts with `out` and is otherwise as it was. */
  ghost predicate Holds<T>(dst: array<T>, out: seq<T>, was: seq<T>)
    reads dst
  {
    && |out| <= dst.Length == |was|
    && (forall k :: 0 <= k < |out| ==> dst[k] == out[k])
    && (forall k :: |out| <= k < dst.Length ==> dst[k] == was[k])
  }

  /** `wc` shifted right by `k` groups of 6 bits. */
  function Shr6(wc: int, k: nat): int {
    if k == 0 then wc else Shr6(wc, k - 1) / 64
  }

  lemma EncodeAscii(wc: int)
    ensures 0 <= wc <= 0x7F ==> Encode(wc) == [wc]
  {
  }

  /** The encoding is the 6-bit groups of `wc`, most significant first, with their markers. */
  lemma EncodeGroups(wc: int)
    requires IsScalar(wc) && wc > 0x7F
    ensures var e := Encode(wc);
      && |e| == (if wc <= 0x7FF then 2 else if wc <= 0xFFFF then 3 else 4)
      && e[0] == (if wc <= 0x7FF then 0xC0 else if wc <= 0xFFFF then 0xE0 else 0xF0) + Shr6(wc, |e| - 1)
      && forall j :: 1 <= j < |e| ==> e[j] == Shr6(wc, |e| - 1 - j) % 64 + 0x80
  {
    assert Shr6(wc, 1) == wc / 64;
    assert Shr6(wc, 2) == wc / 64 / 64;
    assert Shr6(wc, 3) == wc / 64 / 64 / 64;
  }

  lemma EndReading(one: One, wch: int, need: int, low: int, s: seq<Byte>, i: int)
    requires Reading(one, wch, need, low, s, i) && (i == need || i == |s|)
    ensures i < need ==> one == OneMore(Pending(wch, need - i, low))
    ensures i == need ==> one == if Finish(wch, low).Char? then OneChar(wch, i) else OneBad
  {
  }

  /** After a byte at most three more are pending. */
  lemma PendingIsShort(d: Decoder, s: seq<Byte>)
    requires InRange(d) && s != [] && DecodeOne(d, s).OneMore?
    ensures DecodeOne(d, s).d.Pending? && 1 <= DecodeOne(d, s).d.want <= 3
    decreases |s|
  {
    if |s| > 1 {
      PendingIsShort(Feed(d, s[0]).next, s[1..]);
    }
  }

  class Utf8State {
    var ch: int
    var want: int
    var lbound: int

    /** The meaning of the fields. */
    function Value(): Decoder
      reads this
    {
      if want == 0 then Idle else Pending(ch, want, lbound)
    }

    /** The zeroed state every conversion starts from. */
    constructor ()
      ensures Value() == Idle && ch == 0 && lbound == 0
    {
      ch, want, lbound := 0, 0, 0;
    }

    /** `s` is None for a NULL pointer; `wc` is the character stored at *pwc, if any. */
    method Mbrtowc(s: Option<seq<Byte>>) returns (r: Outcome, wc: Option<int>)
      modifies this
      ensures !(0 <= old(want) <= MB_CUR_MAX) ==> r == Failed(EINVAL) && wc == None && unchanged(this)
      ensures 0 <= old(want) <= MB_CUR_MAX ==>
        match DecodeOne(old(Value()), if s.Some? then s.value else [0])
        case OneBad => r == Failed(EILSEQ) && wc == None && unchanged(this)
        case OneMore(d) => r == Incomplete && wc == None && Value() == d
        case OneChar(c, used) =>
          && r == Done(if c == 0 then 0 else used) && wc == (if s.Some? then Some(c) else None)
          && want == 0 && ch == old(ch) && lbound == old(lbound)
      ensures s == Some([]) ==> unchanged(this)
    {
      hide DecodeOne;
      if want < 0 || want > MB_CUR_MAX {
        return Failed(EINVAL), None;
      }
      var bytes := if s.Some? then s.value else [0];
      var n := |bytes|;
      ghost var one := DecodeOne(Value(), bytes);
      StartReading(Value(), bytes);
      if n == 0 {
        return Incomplete, None;
      }
      if want == 0 && bytes[0] <= 0x7F {
        return Done(if bytes[0] != 0 then 1 else 0), if s.Some? then Some(bytes[0]) else None;
      }
      var need, low, wch, i;
      if want == 0 {
        var b := bytes[0];
        if 0xC0 <= b <= 0xDF {
          wch, need, low := b - 0xC0, 2, 0x80;
        } else if 0xE0 <= b <= 0xEF {
          wch, need, low := b - 0xE0, 3, 0x800;
        } else if 0xF0 <= b <= 0xF7 {
          wch, need, low := b - 0xF0, 4, 0x10000;
        } else {
          return Failed(EILSEQ), None;
        }
        i := 1;
      } else {
        wch, need, low, i := ch, want, lbound, 0;
      }
      while i < need && i < n
        modifies {}
        invariant Reading(one, wch, need, low, bytes, i)
      {
        ReadByte(one, wch, need, low, bytes, i);
        if !IsTail(bytes[i]) {
          return Failed(EILSEQ), None;
        }
        wch := wch * 64 + (bytes[i] - 0x80);
        i := i + 1;
      }
      EndReading(one, wch, need, low, bytes, i);
      if i < need {
        want, lbound, ch := need - i, low, wch;
        return Incomplete, None;
      }
      if wch < low || 0xD800 <= wch <= 0xDFFF || wch > 0x10FFFF {
        return Failed(EILSEQ), None;
      }
      want := 0;
      return Done(if wch == 0 then 0 else need), if s.Some? then Some(wch) else None;
    }

    method Mbsinit() returns (initial: bool)
      ensures initial <==> Value() == Idle
    {
      return want == 0;
    }

    /** `src` is how far *src moves, None when it is set to NULL. */
    method Mbsnrtowcs(dst: array?<int>, s: seq<Byte>, len: nat) returns (r: Outcome, src: Option<nat>)
      requires dst != null ==> len <= dst.Length
      modifies this, dst
      ensures dst == null ==>
        var b := BulkConvert(old(Value()), s, |s|);
        r == b.r && src == Some(0) && Value() == b.d
      ensures dst != null ==>
        var b := BulkConvert(old(Value()), s, len);
        r == b.r && src == b.src && Value() == b.d && Holds(dst, b.out, old(dst[..]))
    {
      if dst == null {
        r := CountWide(s);
        return r, Some(0);
      }
      r, src := ConvertWide(dst, s, len);
    }

    /** One character at `s`, by the ASCII fast path or by Mbrtowc. */
    method NextWide(s: seq<Byte>) returns (r: Outcome, wc: Option<int>)
      requires s != [] && (s[0] < 0x80 ==> want <= 0)
      modifies this
      ensures !InRange(old(Value())) ==> Value() == old(Value())
      ensures !InRange(old(Value())) ==>
        if s[0] < 0x80 then r == Done(if s[0] == 0 then 0 else 1) && wc == Some(s[0])
        else r == Failed(EINVAL) && wc == None
      ensures InRange(old(Value())) ==> match DecodeOne(old(Value()), s)
        case OneBad => r == Failed(EILSEQ) && wc == None && Value() == old(Value())
        case OneMore(d) => r == Incomplete && wc == None && Value() == d
        case OneChar(c, used) => r == Done(if c == 0 then 0 else used) && wc == Some(c) && Value() == Idle
    {
      hide DecodeOne;
      StartReading(Value(), s);
      if s[0] < 0x80 {
        return Done(if s[0] == 0 then 0 else 1), Some(s[0]);
      }
      r, wc := Mbrtowc(Some(s));
    }

    method CountWide(s: seq<Byte>) returns (r: Outcome)
      modifies this
      ensures var b := BulkConvert(old(Value()), s, |s|); r == b.r && Value() == b.d
    {
      hide BulkConvert, DecodeOne, Decoding;
      var nmc := |s|;
      ghost var whole, out := BulkConvert(Value(), s, nmc), [];
      DecodeFromStart(Value(), s, nmc);
      if nmc > 0 && want > 0 && s[0] < 0x80 {
        StartReading(Value(), s[0..]);
        DecodeAnyNext(whole, out, 0, Value(), s, nmc);
        return Failed(EILSEQ);
      }
      var i, o := 0, 0;
      while i < nmc
        invariant o == |out| <= i <= nmc
        invariant i < nmc && s[i] < 0x80 ==> want <= 0
        invariant Decoding(whole, out, i, Value(), s, nmc - o)
      {
        DecodeAnyNext(whole, out, i, Value(), s, nmc - o);
        var wc;
        r, wc := NextWide(s[i..]);
        if r.Failed? {
          return;
        }
        if r.Incomplete? || r.n == 0 {
          return Done(o);
        }
        out := out + [wc.value];
        i, o := i + r.n, o + 1;
      }
      DecodeAnyNext(whole, out, i, Value(), s, nmc - o);
      return Done(o);
    }

    method ConvertWide(dst: array<int>, s: seq<Byte>, len: nat) returns (r: Outcome, src: Option<nat>)
      requires len <= dst.Length
      modifies this, dst
      ensures var b := BulkConvert(old(Value()), s, len);
        r == b.r && src == b.src && Value() == b.d && Holds(dst, b.out, old(dst[..]))
    {
      hide BulkConvert, DecodeOne, Decoding;
      var nmc := |s|;
      ghost var whole, out, was := BulkConvert(Value(), s, len), [], dst[..];
      DecodeFromStart(Value(), s, len);
      if len > 0 && nmc > 0 && want > 0 && s[0] < 0x80 {
        StartReading(Value(), s[0..]);
        DecodeAnyNext(whole, out, 0, Value(), s, len);
        return Failed(EILSEQ), Some(0);
      }
      var i, o := 0, 0;
      while i < nmc && o < len
        invariant 0 <= i <= nmc && |out| == o <= len
        invariant i < nmc && o < len && s[i] < 0x80 ==> want <= 0
        invariant Decoding(whole, out, i, Value(), s, len - o)
        invariant Holds(dst, out, was)
      {
        DecodeAnyNext(whole, out, i, Value(), s, len - o);
        var wc;
        r, wc := NextWide(s[i..]);
        if wc.Some? {
          dst[o] := wc.value;
        }
        if r.Failed? {
          return r, Some(i);
        }
        if r.Incomplete? {
          return Done(o), Some(nmc);
        }
        if r.n == 0 {
          return Done(o), None;
        }
        out := out + [wc.value];
        i, o := i + r.n, o + 1;
      }
      DecodeAnyNext(whole, out, i, Value(), s, len - o);
      return Done(o), Some(i);
    }

    /** Stores the encoding of `wc` at `s[off..]`; `s` is null for a NULL pointer. */
    method Wcrtomb(s: array?<Byte>, off: nat, wc: int) returns (r: Outcome)
      requires s != null && want == 0 && IsScalar(wc) ==> off + |Encode(wc)| <= s.Length
      modifies s
      ensures r == if want != 0 then Failed(EINVAL) else if s == null then Done(1)
                   else if !IsScalar(wc) then Failed(EILSEQ) else Done(|Encode(wc)|)
      ensures s != null && r.Done? ==>
        && (forall k :: 0 <= k < r.n ==> s[off + k] == Encode(wc)[k])
        && (forall k :: 0 <= k < s.Length && !(off <= k < off + r.n) ==> s[k] == old(s[k]))
      ensures s != null && r.Failed? ==> unchanged(s)
    {
      if want != 0 {
        return Failed(EINVAL);
      }
      if s == null {
        return Done(1);
      }
      if wc < 0 || (wc > 0xD7FF && wc < 0xE000) || wc > 0x10FFFF {
        return Failed(EILSEQ);
      }
      hide Encode;
      EncodeAscii(wc);
      var lead, len;
      if wc <= 0x7F {
        s[off] := wc;
        return Done(1);
      } else if wc <= 0x7FF {
        lead, len := 0xC0, 2;
      } else if wc <= 0xFFFF {
        lead, len := 0xE0, 3;
      } else {
        lead, len := 0xF0, 4;
      }
      EncodeGroups(wc);
      PutGroups(s, off, wc, lead, len);
      return Done(len);
    }

    /** The groups of six bits of Wcrtomb, least significant last, and the lead byte. */
    method PutGroups(s: array<Byte>, off: nat, wc: int, lead: Byte, len: nat)
      requires IsScalar(wc) && wc > 0x7F && len == |Encode(wc)| && off + len <= s.Length
      requires lead == if len == 2 then 0xC0 else if len == 3 then 0xE0 else 0xF0
      modifies s
      ensures forall k :: 0 <= k < len ==> s[off + k] == Encode(wc)[k]
      ensures forall k :: 0 <= k < s.Length && !(off <= k < off + len) ==> s[k] == old(s[k])
    {
      ghost var e := Encode(wc);
      EncodeGroups(wc);
      hide Encode;
      var w, i := wc, len - 1;
      while i > 0
        invariant 0 <= i < len && w == Shr6(wc, len - 1 - i)
        invariant forall k :: i < k < len ==> s[off + k] == e[k]
        invariant forall k :: 0 <= k < s.Length && !(off <= k < off + len) ==> s[k] == old(s[k])
      {
        s[off + i] := w % 64 + 0x80;
        w := w / 64;
        i := i - 1;
      }
      s[off] := lead + w;
    }

    /** `src` is how far *src moves, None when it is set to NULL. */
    method Wcsnrtombs(dst: array?<Byte>, w: seq<int>, len: nat) returns (r: Outcome, src: Option<nat>)
      requires dst != null ==> len <= dst.Length
      modifies dst
      ensures want != 0 ==> r == Failed(EINVAL) && src == Some(0) && (dst != null ==> unchanged(dst))
      ensures want == 0 && dst == null ==> r == BulkEncode(w, MB_CUR_MAX * |w|).r && src == Some(0)
      ensures want == 0 && dst != null ==>
        var b := BulkEncode(w, len);
        r == b.r && src == b.src && Holds(dst, b.out, old(dst[..]))
    {
      if want != 0 {
        return Failed(EINVAL), Some(0);
      }
      if dst == null {
        r := CountBytes(w);
        return r, Some(0);
      }
      r, src := ConvertBytes(dst, w, len);
    }

    method CountBytes(w: seq<int>) returns (r: Outcome)
      requires want == 0
      ensures r == BulkEncode(w, MB_CUR_MAX * |w|).r
    {
      var buf := new Byte[MB_CUR_MAX];
      var i, o := 0, 0;
      hide BulkEncode, Encoding, Encode, IsScalar;
      ghost var room, whole, out := MB_CUR_MAX * |w|, BulkEncode(w, MB_CUR_MAX * |w|), [];
      EncodeFromStart(w, room);
      while i < |w|
        modifies buf
        invariant 0 <= i <= |w| && |out| == o <= MB_CUR_MAX * i
        invariant Encoding(whole, out, i, w, room - o)
      {
        EncodeNext(whole, out, i, w, room - o);
        r := CountOne(buf, w[i]);
        if r.Failed? {
          return r;
        }
        if r.n == 0 {
          return Done(o);
        }
        out := out + Encode(w[i]);
        i, o := i + 1, o + r.n;
      }
      EncodeNext(whole, out, i, w, room - o);
      return Done(o);
    }

    /** The bytes one character takes, by the ASCII fast path or by Wcrtomb; 0 for a NUL. */
    method CountOne(buf: array<Byte>, wc: int) returns (r: Outcome)
      requires want == 0 && buf.Length == MB_CUR_MAX
      modifies buf
      ensures r == if wc == 0 then Done(0) else if IsScalar(wc) then Done(|Encode(wc)|) else Failed(EILSEQ)
    {
      EncodeAscii(wc);
      if wc >= 0 && wc < 0x80 {
        return Done(if wc == 0 then 0 else 1);
      }
      hide Encode;
      r := Wcrtomb(buf, 0, wc);
    }

    method ConvertBytes(dst: array<Byte>, w: seq<int>, len: nat) returns (r: Outcome, src: Option<nat>)
      requires want == 0 && len <= dst.Length
      modifies dst
      ensures var b := BulkEncode(w, len);
        r == b.r && src == b.src && Holds(dst, b.out, old(dst[..]))
    {
      var i, o := 0, 0;
      hide BulkEncode, Encoding, Encode;
      ghost var whole, out, was := BulkEncode(w, len), [], dst[..];
      EncodeFromStart(w, len);
      while i < |w| && o < len
        invariant 0 <= i <= |w| && |out| == o <= len
        invariant Encoding(whole, out, i, w, len - o)
        invariant Holds(dst, out, was)
      {
        EncodeNext(whole, out, i, w, len - o);
        EncodeAscii(w[i]);
        var wc, n := w[i], 1;
        if wc >= 0 && wc < 0x80 {
          dst[o] := wc;
          if wc == 0 {
            return Done(o), None;
          }
        } else {
          r := PutWide(dst, o, len, wc);
          if r.Failed? {
            return r, Some(i);
          }
          n := r.n;
          if n > len - o {
            break;
          }
        }
        out := out + Encode(wc);
        i, o := i + 1, o + n;
      }
      EncodeNext(whole, out, i, w, len - o);
      return Done(o), Some(i);
    }

    /** Encodes a character in place where four bytes are free, through a buffer otherwise. */
    method PutWide(dst: array<Byte>, o: nat, len: nat, wc: int) returns (r: Outcome)
      requires want == 0 && o < len <= dst.Length
      modifies dst
      ensures r == if IsScalar(wc) then Done(|Encode(wc)|) else Failed(EILSEQ)
      ensures r.Done? && r.n <= len - o ==>
        && (forall k :: 0 <= k < r.n ==> dst[o + k] == Encode(wc)[k])
        && (forall k :: 0 <= k < dst.Length && !(o <= k < o + r.n) ==> dst[k] == old(dst[k]))
      ensures !(r.Done? && r.n <= len - o) ==> unchanged(dst)
    {
      if len - o >= MB_CUR_MAX {
        r := Wcrtomb(dst, o, wc);
      } else {
        var buf := new Byte[MB_CUR_MAX];
        r := Wcrtomb(buf, 0, wc);
        if r.Done? && r.n <= len - o {
          forall k | 0 <= k < r.n {
            dst[o + k] := buf[k];
          }
        }
      }
    }
  }

  /** Of a character in two pieces, the first leaves a bound behind and the second completes it. */
  lemma CutReading(s: seq<Byte>, k: nat)
    requires k <= |s| && DecodeOne(Idle, s).OneChar? && DecodeOne(Idle, s).used == |s|
    ensures var first := DecodeOne(Idle, s[..k]);
      if k == |s| then first == DecodeOne(Idle, s)
      else if k == 0 then first == OneMore(Idle)
      else first.OneMore? && first.d.Pending? && first.d.lbound != 0 && InRange(first.d)
           && DecodeOne(first.d, s[k..]).OneChar?
  {
    assert s[..k] + s[k..] == s;
    Utf8BulkLaws.DecodeOneIsCutIndependent(Idle, s[..k], s[k..]);
    Utf8Laws.DecodeOneIsBounded(Idle, s[..k]);
  }

  /**
   * Reading one character in one call or in two leaves states of the same meaning, but not
   * the same fields: `ch` and `lbound` tell whether the character was cut.
   */
  method ReadTwice(s: seq<Byte>, k: nat) returns (whole: Utf8State, cut: Utf8State)
    requires k <= |s| && DecodeOne(Idle, s).OneChar? && DecodeOne(Idle, s).used == |s|
    ensures whole.Value() == Idle && cut.Value() == Idle
    ensures whole.ch == cut.ch && whole.lbound == cut.lbound <==> k == 0 || k == |s|
  {
    hide DecodeOne;
    whole := new Utf8State();
    cut := new Utf8State();
    var r, wc := whole.Mbrtowc(Some(s));
    CutReading(s, k);
    r, wc := cut.Mbrtowc(Some(s[..k]));
    r, wc := cut.Mbrtowc(Some(s[k..]));
  }
}
