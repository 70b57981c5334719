/**
 * The values the UTF-8 codec computes: one automaton step per byte, one character,
 * and the two bulk conversions with their output limits.
 */
module Utf8Codec {
  import opened Wrappers
  import opened Rfc3629

  // What a `_utf8_state` means. Its `ch` and `lbound` are stale while `want` is 0.
  datatype Decoder = Idle | Pending(ch: int, want: int, lbound: int)

  datatype Step = Bad | More(next: Decoder) | Char(wc: int)

  datatype Errno = EILSEQ | EINVAL

  // A size_t result: (size_t)-1 with its errno, (size_t)-2, or a count.
  datatype Outcome = Failed(errno: Errno) | Incomplete | Done(n: nat)

  /** Consumes one byte. */
  function Feed(d: Decoder, b: Byte): Step {
    match d
    case Idle =>
      if b <= 0x7F then Char(b)
      else if 0xC0 <= b <= 0xDF then More(Pending(b - 0xC0, 1, 0x80))
      else if 0xE0 <= b <= 0xEF then More(Pending(b - 0xE0, 2, 0x800))
      else if 0xF0 <= b <= 0xF7 then More(Pending(b - 0xF0, 3, 0x10000))
      else Bad
    case Pending(ch, want, lbound) =>
      if !IsTail(b) then Bad
      else if want > 1 then More(Pending(ch * 64 + (b - 0x80), want - 1, lbound))
      else Finish(ch * 64 + (b - 0x80), lbound)
  }

  /** The checks on a completed character: shortest form, no surrogate, in range. */
  function Finish(wch: int, lbound: int): Step {
    if wch < lbound || 0xD800 <= wch <= 0xDFFF || wch > 0x10FFFF then Bad else Char(wch)
  }

  datatype One = OneBad | OneMore(d: Decoder) | OneChar(wc: int, used: nat)

  function Shift(one: One, n: nat): One {
    if one.OneChar? then OneChar(one.wc, one.used + n) else one
  }

  /** Decodes at most one character. */
  function DecodeOne(d: Decoder, s: seq<Byte>): (one: One)
    ensures one.OneChar? ==> 1 <= one.used <= |s|
    ensures s != [] && one.OneMore? ==> one.d.Pending?
    decreases |s|
  {
    if s == [] then OneMore(d)
    else match Feed(d, s[0])
      case Bad => OneBad
      case Char(wc) => OneChar(wc, 1)
      case More(d') => Shift(DecodeOne(d', s[1..]), 1)
  }

  // `out` is what is stored at dst, with the final NUL when there is one; `src` is how
  // far *src moves, None when it is set to NULL.
  datatype Bulk = Bulk(r: Outcome, out: seq<int>, src: Option<nat>, d: Decoder)

  function Join(out: seq<int>, i: nat, rest: Bulk): Bulk {
    Bulk(if rest.r.Done? then Done(|out| + rest.r.n) else rest.r,
         out + rest.out,
         if rest.src.Some? then Some(i + rest.src.value) else None,
         rest.d)
  }

  /** Decodes up to `room` characters, stopping after a NUL. */
  function BulkDecode(d: Decoder, s: seq<Byte>, room: nat): (b: Bulk)
    ensures b.src.Some? ==> b.src.value <= |s|
    ensures b.r != Incomplete
    ensures |b.out| <= room
    decreases |s|
  {
    if s == [] || room == 0 then Bulk(Done(0), [], Some(0), d)
    else match DecodeOne(d, s)
      case OneBad => Bulk(Failed(EILSEQ), [], Some(0), d)
      case OneMore(d') => Bulk(Done(0), [], Some(|s|), d')
      case OneChar(wc, used) =>
        if wc == 0 then Bulk(Done(0), [0], None, Idle)
        else Join([wc], used, BulkDecode(Idle, s[used..], room - 1))
  }

  const MB_CUR_MAX := 4

  /** The states that mbrtowc accepts; the routines themselves store no others. */
  predicate InRange(d: Decoder) {
    d.Pending? ==> 0 <= d.want <= MB_CUR_MAX
  }

  /**
   * Bulk decoding from any state. Only the fast path works on a state that is out of range,
   * and the check before the loop stops even that when `want` is positive.
   */
  function BulkConvert(d: Decoder, s: seq<Byte>, room: nat): (b: Bulk)
    ensures b.src.Some? ==> b.src.value <= |s|
    ensures |b.out| <= room
    ensures InRange(d) ==> b == BulkDecode(d, s, room)
    decreases |s|
  {
    if InRange(d) then BulkDecode(d, s, room)
    else if s == [] || room == 0 then Bulk(Done(0), [], Some(0), d)
    else if s[0] > 0x7F then Bulk(Failed(EINVAL), [], Some(0), d)
    else if d.want > 0 then Bulk(Failed(EILSEQ), [], Some(0), d)
    else if s[0] == 0 then Bulk(Done(0), [0], None, d)
    else Join([s[0]], 1, BulkConvert(d, s[1..], room - 1))
  }

  datatype BulkBytes = BulkBytes(r: Outcome, out: seq<Byte>, src: Option<nat>)

  function JoinBytes(out: seq<Byte>, i: nat, rest: BulkBytes): BulkBytes {
    BulkBytes(if rest.r.Done? then Done(|out| + rest.r.n) else rest.r,
              out + rest.out,
              if rest.src.Some? then Some(i + rest.src.value) else None)
  }

  /** Encodes characters while they fit in `room` bytes, stopping after a NUL. */
  function BulkEncode(w: seq<int>, room: nat): (b: BulkBytes)
    ensures b.src.Some? ==> b.src.value <= |w|
    ensures |b.out| <= room
    decreases |w|
  {
    if w == [] || room == 0 then BulkBytes(Done(0), [], Some(0))
    else if w[0] == 0 then BulkBytes(Done(0), [0], None)
    else if !IsScalar(w[0]) then BulkBytes(Failed(EILSEQ), [], Some(0))
    else if |Encode(w[0])| > room then BulkBytes(Done(0), [], Some(0))
    else JoinBytes(Encode(w[0]), 1, BulkEncode(w[1..], room - |Encode(w[0])|))
  }

  /** Runs the automaton over every byte, NUL included. */
  datatype Run = Broken | Ran(out: seq<int>, d: Decoder)

  function RunAll(d: Decoder, s: seq<Byte>): Run
    decreases |s|
  {
    if s == [] then Ran([], d)
    else match Feed(d, s[0])
      case Bad => Broken
      case More(d') => RunAll(d', s[1..])
      case Char(wc) => Emit(wc, RunAll(Idle, s[1..]))
  }

  function Emit(wc: int, run: Run): Run {
    if run.Ran? then Ran([wc] + run.out, run.d) else run
  }
}
