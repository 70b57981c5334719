/** The streaming encoder of encoding_base64.cpp and section 4 of RFC 4648. */
module EncodingBase64 {
  import opened Wrappers

  const UPPER := "ABCDEFGHIJKLMNOPQRSTUVWXYZ"
  const LOWER := "abcdefghijklmnopqrstuvwxyz"
  const TABLE := UPPER + LOWER + "0123456789" + "+/"

  // ------------------------------------------------- the block definition of RFC 4648

  /** The base 64 alphabet, table 1. */
  function Symbol(digit: nat): (c: char)
    requires digit < 64
    ensures c != '='
  {
    if digit < 26 then 'A' + digit as char
    else if digit < 52 then 'a' + (digit - 26) as char
    else if digit < 62 then '0' + (digit - 52) as char
    else if digit == 62 then '+'
    else '/'
  }

  lemma UpperIsAlphabet(digit: nat)
    requires digit < 26
    ensures UPPER[digit] == Symbol(digit)
  {
  }

  lemma LowerIsAlphabet(digit: nat)
    requires 26 <= digit < 52
    ensures LOWER[digit - 26] == Symbol(digit)
  {
  }

  /** The lookup table of the source is the alphabet. */
  lemma TableIsAlphabet(digit: nat)
    requires digit < 64
    ensures |TABLE| == 64 && TABLE[digit] == Symbol(digit)
  {
    if digit < 26 {
      UpperIsAlphabet(digit);
    } else if digit < 52 {
      LowerIsAlphabet(digit);
    }
  }

  function Lookup(digit: nat): (c: char)
    requires digit < 64
    ensures c == Symbol(digit)
  {
    TableIsAlphabet(digit);
    TABLE[digit]
  }

  /** Three octets as one 24-bit group. */
  function Group(a: Byte, b: Byte, c: Byte): (n: nat)
    ensures n < 0x1000000
  {
    a * 0x10000 + b * 0x100 + c
  }

  /** The last `k` digits of `n` to the base 64, most significant first. */
  function Digits(n: nat, k: nat): (d: seq<nat>)
    ensures |d| == k && forall i | 0 <= i < k :: d[i] < 64
  {
    if k == 0 then [] else Digits(n / 64, k - 1) + [n % 64]
  }

  /** A group as four 6-bit digits, of which `used + 1` are written and the rest are pads. */
  function Quantum(n: nat, used: nat): (q: string)
    requires n < 0x1000000 && 1 <= used <= 3
    ensures |q| == 4
    ensures forall k | 0 <= k < 4 :: q[k] == '=' <==> k > used
  {
    var d := Digits(n, 4);
    [ Symbol(d[0]),
      Symbol(d[1]),
      if used >= 2 then Symbol(d[2]) else '=',
      if used >= 3 then Symbol(d[3]) else '=' ]
  }

  function Encode(s: seq<Byte>): string {
    match |s|
    case 0 => ""
    case 1 => Quantum(Group(s[0], 0, 0), 1)
    case 2 => Quantum(Group(s[0], s[1], 0), 2)
    case _ => Quantum(Group(s[0], s[1], s[2]), 3) + Encode(s[3..])
  }

  // ----------------------------------------------------------- the streaming encoder

  /** The first half of the `copy` closure: the shifts and masks. */
  method CutDigits(inp: array<Byte>, out: array<nat>)
    requires inp.Length == 3 && out.Length == 4
    modifies out
    ensures out[..] == Cut(inp[0], inp[1], inp[2])
  {
    out[0] := inp[0] / 4;
    out[1] := inp[0] % 4 * 16 + inp[1] / 16;
    out[2] := inp[1] % 16 * 4 + inp[2] / 64;
    out[3] := inp[2] % 64;
  }

  /** The `copy` closure: four characters from the three buffered octets. */
  method Copy(inp: array<Byte>, out: array<nat>, state: nat, res: string) returns (res': string)
    requires inp.Length == 3 && out.Length == 4 && 1 <= state <= 3
    modifies out
    ensures res' == res + Quantum(Group(inp[0], inp[1], inp[2]), state)
  {
    hide Symbol, Quantum, Group, Cut, Lookup;
    CutDigits(inp, out);
    ghost var q, d := Quantum(Group(inp[0], inp[1], inp[2]), state), out[..];
    QuantumIsCut(inp[0], inp[1], inp[2], state);
    assert forall k | 0 <= k < 4 :: q[k] == if k <= state then Symbol(d[k]) else '=';
    res' := res;
    for idx := 0 to 4
      modifies {}
      invariant res' == res + q[..idx]
    {
      assert out[idx] == d[idx];
      res' := res' + [if idx <= state then Lookup(out[idx]) else '='];
      assert q[..idx + 1] == q[..idx] + [q[idx]];
    }
    assert q[..4] == q;
  }

  /** The four digits, as the shifts and masks of the closure cut them. */
  function Cut(a: Byte, b: Byte, c: Byte): (d: seq<nat>)
    ensures |d| == 4 && forall k | 0 <= k < 4 :: d[k] < 64
  {
    [a / 4, a % 4 * 16 + b / 16, b % 16 * 4 + c / 64, c % 64]
  }

  lemma LastDigit(upper: nat, digit: nat, k: nat)
    requires digit < 64
    ensures Digits(64 * upper + digit, k + 1) == Digits(upper, k) + [digit]
  {
    assert (64 * upper + digit) / 64 == upper && (64 * upper + digit) % 64 == digit;
  }

  lemma GroupIsCut(a: Byte, b: Byte, c: Byte)
    ensures Digits(Group(a, b, c), 4) == Cut(a, b, c)
  {
    hide Digits;
    var d := Cut(a, b, c);
    var n2 := 64 * d[0] + d[1];
    var n3 := 64 * n2 + d[2];
    assert Group(a, b, c) == 64 * n3 + d[3];
    hide Group, Cut;
    LastDigit(n3, d[3], 3);
    LastDigit(n2, d[2], 2);
    LastDigit(d[0], d[1], 1);
    LastDigit(0, d[0], 0);
  }

  lemma QuantumIsCut(a: Byte, b: Byte, c: Byte, used: nat)
    requires 1 <= used <= 3
    ensures var d, q := Cut(a, b, c), Quantum(Group(a, b, c), used);
      && q[0] == Symbol(d[0])
      && q[1] == Symbol(d[1])
      && q[2] == (if used >= 2 then Symbol(d[2]) else '=')
      && q[3] == (if used >= 3 then Symbol(d[3]) else '=')
  {
    hide Symbol, Group, Digits, Cut;
    GroupIsCut(a, b, c);
  }

  lemma FullBlock(s: seq<Byte>, pos: nat)
    requires pos + 3 <= |s|
    ensures Encode(s[pos..]) == Quantum(Group(s[pos], s[pos + 1], s[pos + 2]), 3) + Encode(s[pos + 3..])
  {
    hide Symbol, Quantum, Group;
    assert s[pos..][3..] == s[pos + 3..];
  }

  lemma LastBlock(s: seq<Byte>)
    requires |s| <= 2
    ensures s == [] ==> Encode(s) == ""
    ensures s != [] ==> Encode(s) == Quantum(Group(s[0], if |s| == 2 then s[1] else 0, 0), |s|)
  {
  }

  method Base64Encode(s: seq<Byte>) returns (res: string)
    ensures res == Encode(s)
  {
    hide Symbol, Quantum, Group, Encode;
    assert s[0..] == s;
    var inp, out := new Byte[3], new nat[4];
    var state, pos := 0, 0;
    res := "";
    while pos < |s|
      invariant 0 <= state < 3 && state <= pos <= |s|
      invariant forall k :: 0 <= k < state ==> inp[k] == s[pos - state + k]
      invariant res + Encode(s[pos - state..]) == Encode(s)
    {
      inp[state] := s[pos];
      state, pos := state + 1, pos + 1;
      if state == 3 {
        FullBlock(s, pos - 3);
        res := Copy(inp, out, state, res);
        state := 0;
      }
    }
    if state != 0 {
      for idx := state to 3
        modifies inp
        invariant forall k :: 0 <= k < state ==> inp[k] == s[pos - state + k]
        invariant forall k :: state <= k < idx ==> inp[k] == 0
      {
        inp[idx] := 0;
      }
      LastBlock(s[pos - state..]);
      res := Copy(inp, out, state, res);
    } else {
      LastBlock(s[pos..]);
    }
  }

  // ------------------------------------------------------------------------ the laws

  function PadCount(s: seq<Byte>): nat {
    (3 - |s| % 3) % 3
  }

  /** Four characters for every three octets begun. */
  lemma {:induction false} EncodedLength(s: seq<Byte>)
    ensures |Encode(s)| == 4 * ((|s| + 2) / 3)
  {
    hide Symbol, Quantum, Group;
    if |s| >= 3 {
      EncodedLength(s[3..]);
    }
  }

  /** The pads are the last (3 - n mod 3) mod 3 characters, and only those. */
  lemma {:induction false} PadsCloseTheText(s: seq<Byte>, k: nat)
    requires k < |Encode(s)|
    ensures Encode(s)[k] == '=' <==> k >= |Encode(s)| - PadCount(s)
  {
    hide Symbol, Quantum, Group;
    if |s| >= 3 {
      if k >= 4 {
        PadsCloseTheText(s[3..], k - 4);
      } else {
        EncodedLength(s[3..]);
      }
    }
  }

  /** Whole blocks may be encoded apart. */
  lemma {:induction false} EncodeAppends(a: seq<Byte>, b: seq<Byte>)
    requires |a| % 3 == 0
    ensures Encode(a + b) == Encode(a) + Encode(b)
  {
    hide Symbol, Quantum, Group;
    if a == [] {
      assert a + b == b;
    } else {
      assert (a + b)[3..] == a[3..] + b;
      EncodeAppends(a[3..], b);
    }
  }

  /** The digit a character stands for, read off the alphabet. */
  function Digit(c: char): (digit: Option<nat>)
    ensures digit.Some? ==> digit.value < 64 && c != '='
    ensures forall d | 0 <= d < 64 :: digit == Some(d) <==> Symbol(d) == c
  {
    if 'A' <= c <= 'Z' then Some((c - 'A') as nat)
    else if 'a' <= c <= 'z' then Some((c - 'a') as nat + 26)
    else if '0' <= c <= '9' then Some((c - '0') as nat + 52)
    else if c == '+' then Some(62)
    else if c == '/' then Some(63)
    else None
  }

  /** The last `k` octets of `n`, most significant first. */
  function OctetsOf(n: nat, k: nat): (s: seq<Byte>)
    ensures |s| == k
  {
    if k == 0 then [] else OctetsOf(n / 0x100, k - 1) + [n % 0x100]
  }

  /** Four digits as one 24-bit group, cut into octets. */
  function Octets(w: nat, x: nat, y: nat, z: nat): (s: seq<Byte>)
    ensures |s| == 3
  {
    OctetsOf(((w * 64 + x) * 64 + y) * 64 + z, 3)
  }

  /** A final quantum with pads; section 3.5 wants the bits a pad leaves over to be zero. */
  function DecodePadded(t: string): Option<seq<Byte>>
    requires |t| == 4 && t[3] == '='
  {
    match (Digit(t[0]), Digit(t[1]), Digit(t[2]))
    case (Some(x), Some(y), Some(z)) => if z % 4 == 0 then Some(Octets(x, y, z, 0)[..2]) else None
    case (Some(x), Some(y), None) => if t[2] == '=' && y % 16 == 0 then Some(Octets(x, y, 0, 0)[..1]) else None
    case _ => None
  }

  /** A strict decoder: no character outside the alphabet, no missing pad, zero pad bits. */
  function Decode(t: string): Option<seq<Byte>> {
    if t == "" then Some([])
    else if |t| < 4 then None
    else if |t| == 4 && t[3] == '=' then DecodePadded(t)
    else
      match (Digit(t[0]), Digit(t[1]), Digit(t[2]), Digit(t[3]), Decode(t[4..]))
      case (Some(w), Some(x), Some(y), Some(z), Some(rest)) =>
        Some(Octets(w, x, y, z) + rest)
      case _ => None
  }

  lemma LastOctet(upper: nat, octet: Byte, k: nat)
    ensures OctetsOf(0x100 * upper + octet, k + 1) == OctetsOf(upper, k) + [octet]
  {
    assert (0x100 * upper + octet) / 0x100 == upper && (0x100 * upper + octet) % 0x100 == octet;
  }

  lemma OctetsAreJoined(w: nat, x: nat, y: nat, z: nat)
    requires w < 64 && x < 64 && y < 64 && z < 64
    ensures Octets(w, x, y, z) == [w * 4 + x / 16, x % 16 * 16 + y / 4, y % 4 * 64 + z]
  {
    hide OctetsOf;
    var a: Byte, b: Byte, c: Byte := w * 4 + x / 16, x % 16 * 16 + y / 4, y % 4 * 64 + z;
    assert ((w * 64 + x) * 64 + y) * 64 + z == 0x100 * (0x100 * a + b) + c;
    LastOctet(0x100 * a + b, c, 2);
    LastOctet(a, b, 1);
    LastOctet(0, a, 0);
  }

  lemma OctetsRejoin(a: Byte, b: Byte, c: Byte)
    ensures var d := Cut(a, b, c); Octets(d[0], d[1], d[2], d[3]) == [a, b, c]
  {
    var d := Cut(a, b, c);
    OctetsAreJoined(d[0], d[1], d[2], d[3]);
    hide Octets;
    assert (a % 4 * 16 + b / 16) / 16 == a % 4 && (a % 4 * 16 + b / 16) % 16 == b / 16;
    assert (b % 16 * 4 + c / 64) / 4 == b % 16 && (b % 16 * 4 + c / 64) % 4 == c / 64;
  }

  lemma Parts(high: nat, unit: nat, low: nat)
    requires unit in {4, 16, 64} && low < unit
    ensures (high * unit + low) / unit == high && (high * unit + low) % unit == low
  {
  }

  lemma CutOf(w: nat, x: nat, y: nat, z: nat)
    requires w < 64 && x < 64 && y < 64 && z < 64
    ensures Cut(w * 4 + x / 16, x % 16 * 16 + y / 4, y % 4 * 64 + z) == [w, x, y, z]
  {
    Parts(w, 4, x / 16);
    Parts(x % 16, 16, y / 4);
    Parts(y % 4, 64, z);
  }

  lemma DigitsRejoin(w: nat, x: nat, y: nat, z: nat)
    requires w < 64 && x < 64 && y < 64 && z < 64
    ensures var s := Octets(w, x, y, z); Cut(s[0], s[1], s[2]) == [w, x, y, z]
  {
    OctetsAreJoined(w, x, y, z);
    hide Octets;
    CutOf(w, x, y, z);
  }

  /** The strict decoder is the inverse: it accepts exactly the encodings. */
  lemma {:induction false} EncodeIsDecoded(s: seq<Byte>)
    ensures Decode(Encode(s)) == Some(s)
  {
    hide Symbol, Quantum, Group, Cut, Digit, Octets;
    if 1 <= |s| <= 2 {
      EncodeIsPadded(s);
    } else if |s| >= 3 {
      var t := Encode(s);
      QuantumIsCut(s[0], s[1], s[2], 3);
      OctetsRejoin(s[0], s[1], s[2]);
      assert t[4..] == Encode(s[3..]);
      EncodeIsDecoded(s[3..]);
      assert s == [s[0], s[1], s[2]] + s[3..];
    }
  }

  lemma EncodeIsPadded(s: seq<Byte>)
    requires 1 <= |s| <= 2
    ensures Encode(s)[3] == '=' && DecodePadded(Encode(s)) == Some(s)
  {
    hide Symbol, Quantum, Group, Cut, Digit, Octets;
    var b := if |s| == 2 then s[1] else 0;
    QuantumIsCut(s[0], b, 0, |s|);
    OctetsRejoin(s[0], b, 0);
    CutPads(s[0], b);
    var d := Cut(s[0], b, 0);
    if |s| == 1 {
      assert Octets(d[0], d[1], 0, 0)[..1] == s;
    } else {
      assert Octets(d[0], d[1], d[2], 0)[..2] == s;
    }
  }

  lemma CutPads(a: Byte, b: Byte)
    ensures Cut(a, 0, 0)[1] % 16 == 0 && Cut(a, b, 0)[2] % 4 == 0
    ensures Cut(a, 0, 0)[2] == 0 && Cut(a, b, 0)[3] == 0
  {
  }

  /** Zero pad bits are zero octets. */
  lemma PadsAreZero(x: nat, y: nat, z: nat)
    requires x < 64 && y < 64 && z < 64
    ensures z % 4 == 0 ==> Octets(x, y, z, 0)[2] == 0
    ensures y % 16 == 0 ==> Octets(x, y, 0, 0)[1] == Octets(x, y, 0, 0)[2] == 0
  {
    OctetsAreJoined(x, y, z, 0);
    OctetsAreJoined(x, y, 0, 0);
  }

  lemma {:induction false} DecodedIsEncoded(t: string)
    requires Decode(t).Some?
    ensures Encode(Decode(t).value) == t
  {
    hide Symbol, Quantum, Group, Cut, Digit, DecodePadded, Octets, Encode;
    LastBlock([]);
    if t == "" {
    } else if |t| == 4 && t[3] == '=' {
      PaddedIsEncoded(t);
    } else {
      DecodedIsEncoded(t[4..]);
      QuantumIsSpelled(t[0], t[1], t[2], t[3], Decode(t[4..]).value);
      assert t == [t[0], t[1], t[2], t[3]] + t[4..];
    }
  }

  lemma QuantumIsSpelled(c0: char, c1: char, c2: char, c3: char, rest: seq<Byte>)
    requires Digit(c0).Some? && Digit(c1).Some? && Digit(c2).Some? && Digit(c3).Some?
    ensures Encode(Octets(Digit(c0).value, Digit(c1).value, Digit(c2).value, Digit(c3).value) + rest)
            == [c0, c1, c2, c3] + Encode(rest)
  {
    hide Symbol, Quantum, Group, Cut, Digit, Encode;
    var w, x, y, z := Digit(c0).value, Digit(c1).value, Digit(c2).value, Digit(c3).value;
    var s := Octets(w, x, y, z);
    DigitsRejoin(w, x, y, z);
    QuantumIsCut(s[0], s[1], s[2], 3);
    assert Quantum(Group(s[0], s[1], s[2]), 3) == [c0, c1, c2, c3];
    hide Octets;
    FullBlock(s + rest, 0);
    assert (s + rest)[0..] == s + rest && (s + rest)[3..] == rest;
  }

  lemma PaddedIsEncoded(t: string)
    requires |t| == 4 && t[3] == '=' && DecodePadded(t).Some?
    ensures Encode(DecodePadded(t).value) == t
  {
    hide Symbol, Quantum, Group, Cut, Digit, Octets;
    var x, y := Digit(t[0]).value, Digit(t[1]).value;
    var z := if t[2] == '=' then 0 else Digit(t[2]).value;
    var s := Octets(x, y, z, 0);
    PadsAreZero(x, y, z);
    DigitsRejoin(x, y, z, 0);
    QuantumIsCut(s[0], s[1], s[2], if t[2] == '=' then 1 else 2);
    LastBlock(DecodePadded(t).value);
  }

  /** Accepted text and octets are in bijection. */
  lemma DecodeInvertsEncode(t: string, s: seq<Byte>)
    ensures Decode(t) == Some(s) <==> Encode(s) == t
  {
    EncodeIsDecoded(s);
    if Decode(t).Some? {
      DecodedIsEncoded(t);
    }
  }

  /** Some of the test vectors of section 10. */
  lemma TestVectors()
    ensures Encode([0x66]) == "Zg==" && Encode([0x66, 0x6F]) == "Zm8="
    ensures Encode([0x66, 0x6F, 0x6F]) == "Zm9v" && Encode([0xFB, 0xFF, 0xBF]) == "+/+/"
  {
    hide Symbol, Quantum, Group;
    QuantumIsCut(0x66, 0, 0, 1);
    QuantumIsCut(0x66, 0x6F, 0, 2);
    QuantumIsCut(0x66, 0x6F, 0x6F, 3);
    QuantumIsCut(0xFB, 0xFF, 0xBF, 3);
    Symbols();
    assert [0x66, 0x6F, 0x6F][3..] == [] && [0xFB, 0xFF, 0xBF][3..] == [];
  }

  lemma Symbols()
    ensures Symbol(25) == 'Z' && Symbol(32) == 'g' && Symbol(38) == 'm' && Symbol(60) == '8'
    ensures Symbol(61) == '9' && Symbol(47) == 'v' && Symbol(62) == '+' && Symbol(63) == '/'
  {
  }
}
