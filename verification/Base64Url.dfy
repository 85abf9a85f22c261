/** Unpadded base64url as services/jwt-auth/src/main.py uses it (section 5 of RFC 4648): the encoder
    strips the padding, the decoder restores it from the length and reads leniently, skipping
    characters outside the alphabet and accepting the standard alphabet's two signs as well. */
module Base64Url {

  type Byte = x: int | 0 <= x < 256

  datatype Result<T> = Ok(value: T) | BadPadding

  function Char(v: nat): (c: char)
    requires v < 64
    ensures c != '=' && c != '.'
  {
    if v < 26 then ('A' as int + v) as char
    else if v < 52 then ('a' as int + v - 26) as char
    else if v < 62 then ('0' as int + v - 52) as char
    else if v == 62 then '-' else '_'
  }

  /** Value of a character, or 64 when it is to be skipped. */
  function Value(c: char): (v: nat)
    ensures v <= 64
  {
    if 'A' <= c <= 'Z' then c as int - 'A' as int
    else if 'a' <= c <= 'z' then c as int - 'a' as int + 26
    else if '0' <= c <= '9' then c as int - '0' as int + 52
    else if c == '-' || c == '+' then 62
    else if c == '_' || c == '/' then 63
    else 64
  }

  lemma ValueOfChar(v: nat)
    requires v < 64
    ensures Value(Char(v)) == v
  {
  }

  function Two(a: Byte): (s: string)
    ensures |s| == 2 && forall c :: c in s ==> c != '=' && c != '.'
  {
    [Char(a / 4), Char(a % 4 * 16)]
  }

  function Three(a: Byte, b: Byte): (s: string)
    ensures |s| == 3 && forall c :: c in s ==> c != '=' && c != '.'
  {
    [Char(a / 4), Char(a % 4 * 16 + b / 16), Char(b % 16 * 4)]
  }

  function Four(a: Byte, b: Byte, c: Byte): (s: string)
    ensures |s| == 4 && forall x :: x in s ==> x != '=' && x != '.'
  {
    [Char(a / 4), Char(a % 4 * 16 + b / 16), Char(b % 16 * 4 + c / 64), Char(c % 64)]
  }

  /** `urlsafe_b64encode`: three bytes to four characters, the last group padded with '='. */
  function EncodePadded(raw: seq<Byte>): string {
    if raw == [] then ""
    else if |raw| == 1 then Two(raw[0]) + "=="
    else if |raw| == 2 then Three(raw[0], raw[1]) + "="
    else Four(raw[0], raw[1], raw[2]) + EncodePadded(raw[3..])
  }

  /** `rstrip(b"=")`. */
  function StripPadding(s: string): (r: string)
    ensures r == "" || r[|r| - 1] != '='
  {
    if s != "" && s[|s| - 1] == '=' then StripPadding(s[..|s| - 1]) else s
  }

  function Encode(raw: seq<Byte>): string {
    StripPadding(EncodePadded(raw))
  }

  /** The lenient reader: `quad` characters of a group read so far with `left` bits pending, and how
      many pad characters have followed each other. A complete pad ends the input. */
  function Read(s: string, quad: nat, left: nat, pads: nat): Result<seq<Byte>>
    requires quad < 4 && left < 64
    decreases |s|
  {
    if s == "" then (if quad == 0 then Ok([]) else BadPadding)
    else if s[0] == '=' then
      if quad >= 2 && quad + pads + 1 >= 4 then Ok([])
      else Read(s[1..], quad, left, if quad >= 2 then pads + 1 else pads)
    else
      var v := Value(s[0]);
      if v == 64 then Read(s[1..], quad, left, pads)
      else match quad
        case 0 => Read(s[1..], 1, v, 0)
        case 1 => Emit(LowByte(left * 4 + v / 16), Read(s[1..], 2, v % 16, 0))
        case 2 => Emit(LowByte(left * 16 + v / 4), Read(s[1..], 3, v % 4, 0))
        case _ => Emit(LowByte(left * 64 + v), Read(s[1..], 0, 0, 0))
  }

  function LowByte(n: nat): (b: Byte)
    ensures n < 256 ==> b == n
  {
    n % 256
  }

  function Emit(b: Byte, rest: Result<seq<Byte>>): Result<seq<Byte>> {
    match rest
    case Ok(bytes) => Ok([b] + bytes)
    case BadPadding => BadPadding
  }

  function Pads(n: nat): string {
    if n == 0 then "" else "=" + Pads(n - 1)
  }

  /** Restores the padding from the length modulo four, then reads. */
  function Decode(data: string): Result<seq<Byte>> {
    Read(data + Pads((4 - |data| % 4) % 4), 0, 0, 0)
  }

  // ---------- the shape of the encoding ----------

  /** The encoding without its padding, group by group. */
  function Groups(raw: seq<Byte>): (s: string)
    ensures |s| % 4 == (if |raw| % 3 == 0 then 0 else |raw| % 3 + 1)
    ensures forall c :: c in s ==> c != '=' && c != '.'
  {
    if raw == [] then ""
    else if |raw| == 1 then Two(raw[0])
    else if |raw| == 2 then Three(raw[0], raw[1])
    else
      assert |raw[3..]| % 3 == |raw| % 3;
      var rest := Groups(raw[3..]);
      assert (4 + |rest|) % 4 == |rest| % 4;
      Four(raw[0], raw[1], raw[2]) + rest
  }

  function PadCount(raw: seq<Byte>): nat {
    (3 - |raw| % 3) % 3
  }

  lemma PadFacts()
    ensures Pads(0) == "" && Pads(1) == "=" && Pads(2) == "=="
  {
    assert Pads(1) == "=" + Pads(0);
    assert Pads(2) == "=" + Pads(1);
  }

  lemma {:induction false} PaddedIsGroups(raw: seq<Byte>)
    ensures EncodePadded(raw) == Groups(raw) + Pads(PadCount(raw))
    decreases |raw|
  {
    PadFacts();
    hide Two, Three, Four, Pads;
    if |raw| >= 3 {
      PaddedIsGroups(raw[3..]);
      assert PadCount(raw[3..]) == PadCount(raw);
    }
  }

  lemma {:induction false} StripPads(s: string, n: nat)
    requires forall c :: c in s ==> c != '='
    ensures StripPadding(s + Pads(n)) == s
  {
    if n == 0 {
      assert s + Pads(0) == s;
      if s != "" { assert s[|s| - 1] in s; }
    } else {
      PadsSnoc(n - 1);
      var shorter := s + Pads(n - 1);
      hide Pads;
      assert s + Pads(n) == shorter + ['='];
      StripLast(shorter);
      StripPads(s, n - 1);
    }
  }

  lemma StripLast(s: string)
    ensures StripPadding(s + ['=']) == StripPadding(s)
  {
    var padded := s + ['='];
    assert padded[..|padded| - 1] == s;
  }

  lemma {:induction false} PadsSnoc(n: nat)
    ensures Pads(n + 1) == Pads(n) + ['=']
  {
    if n > 0 { PadsSnoc(n - 1); }
  }

  /** What is sent holds neither padding nor the separator of tokens. */
  lemma EncodeShape(raw: seq<Byte>)
    ensures Encode(raw) == Groups(raw)
    ensures forall c :: c in Encode(raw) ==> c != '=' && c != '.'
    ensures |Encode(raw)| % 4 != 1
  {
    PaddedIsGroups(raw);
    StripPads(Groups(raw), PadCount(raw));
  }

  // ---------- the encoding as a bit string ----------

  /** The URL- and filename-safe alphabet of section 5 of RFC 4648, in the order of its values. */
  const ALPHABET := UPPER + LOWER + DIGITS + "-_"

  const UPPER := "ABCDEFGHIJKLMNOPQRSTUVWXYZ"
  const LOWER := "abcdefghijklmnopqrstuvwxyz"
  const DIGITS := "0123456789"

  /** The `width` low bits of a number, most significant first. */
  function Bits(v: nat, width: nat): seq<bool> {
    if width == 0 then [] else Bits(v / 2, width - 1) + [v % 2 == 1]
  }

  function ByteBits(raw: seq<Byte>): seq<bool> {
    if raw == [] then [] else Bits(raw[0], 8) + ByteBits(raw[1..])
  }

  function CharBits(s: string): seq<bool> {
    if s == "" then [] else Bits(Value(s[0]), 6) + CharBits(s[1..])
  }

  function Zeros(n: nat): seq<bool> {
    seq(n, _ => false)
  }

  function Power(n: nat): (p: nat)
    ensures p > 0
  {
    if n == 0 then 1 else 2 * Power(n - 1)
  }

  lemma Powers()
    ensures Power(2) == 4 && Power(4) == 16 && Power(6) == 64
  {
    assert Power(3) == 8 && Power(5) == 32;
  }

  /** The bits of a high and a low part follow each other. */
  lemma {:induction false} JoinBits(high: nat, low: nat, a: nat, b: nat)
    requires low < Power(b)
    ensures Bits(high * Power(b) + low, a + b) == Bits(high, a) + Bits(low, b)
  {
    if b == 0 {
      assert Bits(low, 0) == [];
    } else {
      var half := high * Power(b - 1);
      assert high * Power(b) == 2 * half;
      JoinBits(high, low / 2, a, b - 1);
      assert (2 * half + low) / 2 == half + low / 2 && (2 * half + low) % 2 == low % 2;
    }
  }

  /** A byte is split after its first six, four or two bits. */
  lemma SplitByte(v: Byte)
    ensures Bits(v, 8) == Bits(v / 4, 6) + Bits(v % 4, 2)
    ensures Bits(v, 8) == Bits(v / 16, 4) + Bits(v % 16, 4)
    ensures Bits(v, 8) == Bits(v / 64, 2) + Bits(v % 64, 6)
  {
    hide Bits;
    Powers();
    JoinBits(v / 4, v % 4, 6, 2);
    JoinBits(v / 16, v % 16, 4, 4);
    JoinBits(v / 64, v % 64, 2, 6);
  }

  /** The two characters in the middle of a group join the end of one byte and the start of the next. */
  lemma JoinChar(a: Byte, b: Byte, c: Byte)
    ensures Bits(a % 4 * 16 + b / 16, 6) == Bits(a % 4, 2) + Bits(b / 16, 4)
    ensures Bits(b % 16 * 4 + c / 64, 6) == Bits(b % 16, 4) + Bits(c / 64, 2)
  {
    hide Bits;
    Powers();
    JoinBits(a % 4, b / 16, 2, 4);
    JoinBits(b % 16, c / 64, 4, 2);
  }

  lemma BitsOfZero()
    ensures Bits(0, 4) == Zeros(4) && Bits(0, 2) == Zeros(2) && Zeros(0) == []
    ensures CharBits("") == [] && ByteBits([]) == []
  {
    assert Bits(0, 1) == [false] && Bits(0, 3) == [false, false, false];
  }

  lemma CharBitsCons(v: nat, s: string)
    requires v < 64
    ensures CharBits([Char(v)] + s) == Bits(v, 6) + CharBits(s)
  {
    hide Bits;
    ValueOfChar(v);
    assert ([Char(v)] + s)[1..] == s;
  }

  lemma FourBits(a: Byte, b: Byte, c: Byte, rest: string)
    ensures CharBits(Four(a, b, c) + rest) == Bits(a, 8) + (Bits(b, 8) + (Bits(c, 8) + CharBits(rest)))
  {
    hide Bits, CharBits, Char;
    var third := [Char(b % 16 * 4 + c / 64)];
    var fourth := [Char(c % 64)];
    CharBitsCons(c % 64, rest);
    CharBitsCons(b % 16 * 4 + c / 64, fourth + rest);
    CharBitsCons(a % 4 * 16 + b / 16, third + (fourth + rest));
    CharBitsCons(a / 4, [Char(a % 4 * 16 + b / 16)] + (third + (fourth + rest)));
    assert Four(a, b, c) + rest == [Char(a / 4)] + ([Char(a % 4 * 16 + b / 16)] + (third + (fourth + rest)));
    SplitByte(a);
    SplitByte(b);
    SplitByte(c);
    JoinChar(a, b, c);
    Reassociate(Bits(a / 4, 6), Bits(a % 4, 2), Bits(b / 16, 4), Bits(b % 16, 4),
                Bits(c / 64, 2), Bits(c % 64, 6), CharBits(rest));
  }

  lemma Reassociate(a: seq<bool>, b: seq<bool>, c: seq<bool>, d: seq<bool>, e: seq<bool>, f: seq<bool>, g: seq<bool>)
    ensures a + ((b + c) + ((d + e) + (f + g))) == (a + b) + ((c + d) + ((e + f) + g))
  {
  }

  lemma ByteBitsCons(raw: seq<Byte>)
    requires raw != []
    ensures ByteBits(raw) == Bits(raw[0], 8) + ByteBits(raw[1..])
  {
  }

  lemma Regroup(a: seq<bool>, b: seq<bool>, c: seq<bool>, d: seq<bool>, e: seq<bool>)
    ensures a + (b + (c + (d + e))) == (a + (b + (c + d))) + e
  {
  }

  lemma ByteBitsOfThree(raw: seq<Byte>)
    requires |raw| >= 3
    ensures ByteBits(raw) == Bits(raw[0], 8) + (Bits(raw[1], 8) + (Bits(raw[2], 8) + ByteBits(raw[3..])))
  {
    hide Bits, ByteBits;
    ByteBitsCons(raw);
    ByteBitsCons(raw[1..]);
    ByteBitsCons(raw[2..]);
    assert raw[1..][1..] == raw[2..] && raw[2..][1..] == raw[3..];
  }

  lemma TwoBits(a: Byte)
    ensures CharBits(Two(a)) == Bits(a, 8) + Zeros(4)
  {
    hide Bits, Char;
    CharBitsCons(a % 4 * 16, "");
    CharBitsCons(a / 4, [Char(a % 4 * 16)]);
    assert Two(a) == [Char(a / 4)] + [Char(a % 4 * 16)] && [Char(a % 4 * 16)] + "" == [Char(a % 4 * 16)];
    SplitByte(a);
    JoinChar(a, 0, 0);
    BitsOfZero();
  }

  lemma ThreeBits(a: Byte, b: Byte)
    ensures CharBits(Three(a, b)) == Bits(a, 8) + Bits(b, 8) + Zeros(2)
  {
    hide Bits, CharBits, Char;
    var third := [Char(b % 16 * 4)];
    CharBitsCons(b % 16 * 4, "");
    CharBitsCons(a % 4 * 16 + b / 16, third);
    CharBitsCons(a / 4, [Char(a % 4 * 16 + b / 16)] + third);
    assert Three(a, b) == [Char(a / 4)] + ([Char(a % 4 * 16 + b / 16)] + third) && third + "" == third;
    SplitByte(a);
    SplitByte(b);
    JoinChar(a, b, 0);
    BitsOfZero();
  }

  lemma UpperAt(v: nat)
    requires v < 26
    ensures UPPER[v] as int == 'A' as int + v
  {
  }

  lemma LowerAt(v: nat)
    requires v < 26
    ensures LOWER[v] as int == 'a' as int + v
  {
  }

  /** The characters are those of the alphabet, each with its index as value. */
  lemma AlphabetAt(v: nat)
    requires v < 64
    ensures |ALPHABET| == 64 && ALPHABET[v] == Char(v)
  {
    if v < 26 { UpperAt(v); } else if v < 52 { LowerAt(v - 26); }
  }

  /** Encoding cuts the bits of the input, in order, into groups of six, filled with zeros at the end. */
  lemma {:induction false} GroupsKeepBits(raw: seq<Byte>)
    ensures CharBits(Groups(raw)) == ByteBits(raw) + Zeros(2 * PadCount(raw))
    decreases |raw|
  {
    hide Bits, CharBits, ByteBits, Two, Three, Four;
    BitsOfZero();
    if |raw| == 1 {
      TwoBits(raw[0]);
      ByteBitsCons(raw);
    } else if |raw| == 2 {
      ThreeBits(raw[0], raw[1]);
      ByteBitsCons(raw);
      ByteBitsCons(raw[1..]);
      assert raw[1..][0] == raw[1] && raw[1..][1..] == [];
    } else if |raw| >= 3 {
      GroupsKeepBits(raw[3..]);
      FourBits(raw[0], raw[1], raw[2], Groups(raw[3..]));
      ByteBitsOfThree(raw);
      Regroup(Bits(raw[0], 8), Bits(raw[1], 8), Bits(raw[2], 8), ByteBits(raw[3..]), Zeros(2 * PadCount(raw)));
      assert PadCount(raw[3..]) == PadCount(raw);
    }
  }

  /** What is sent, read six bits a character, is the input read eight bits a byte. */
  lemma EncodeKeepsBits(raw: seq<Byte>)
    ensures CharBits(Encode(raw)) == ByteBits(raw) + Zeros(2 * PadCount(raw))
  {
    EncodeShape(raw);
    GroupsKeepBits(raw);
  }

  // ---------- round trip ----------

  lemma ReadChar(v: nat, rest: string, quad: nat, left: nat, pads: nat)
    requires v < 64 && quad < 4 && left < 64
    ensures Read([Char(v)] + rest, quad, left, pads) ==
            match quad
            case 0 => Read(rest, 1, v, 0)
            case 1 => Emit(LowByte(left * 4 + v / 16), Read(rest, 2, v % 16, 0))
            case 2 => Emit(LowByte(left * 16 + v / 4), Read(rest, 3, v % 4, 0))
            case _ => Emit(LowByte(left * 64 + v), Read(rest, 0, 0, 0))
  {
    ValueOfChar(v);
    assert ([Char(v)] + rest)[1..] == rest;
  }

  /** The first two characters of a group give the first byte. */
  lemma ReadTwo(a: Byte, low: nat, rest: string)
    requires low < 16
    ensures Read([Char(a / 4), Char(a % 4 * 16 + low)] + rest, 0, 0, 0) == Emit(a, Read(rest, 2, low, 0))
  {
    hide Read, Char;
    var v0, v1 := a / 4, a % 4 * 16 + low;
    assert [Char(v0), Char(v1)] + rest == [Char(v0)] + ([Char(v1)] + rest);
    ReadChar(v0, [Char(v1)] + rest, 0, 0, 0);
    ReadChar(v1, rest, 1, v0, 0);
    assert v1 / 16 == a % 4 && v1 % 16 == low;
  }

  lemma ReadThird(b: Byte, low: nat, rest: string)
    requires low < 4
    ensures Read([Char(b % 16 * 4 + low)] + rest, 2, b / 16, 0) == Emit(b, Read(rest, 3, low, 0))
  {
    hide Read, Char;
    var v := b % 16 * 4 + low;
    ReadChar(v, rest, 2, b / 16, 0);
    assert v / 4 == b % 16 && v % 4 == low;
  }

  lemma ReadFourth(c: Byte, rest: string)
    ensures Read([Char(c % 64)] + rest, 3, c / 64, 0) == Emit(c, Read(rest, 0, 0, 0))
  {
    hide Read, Char;
    ReadChar(c % 64, rest, 3, c / 64, 0);
  }

  lemma ReadGroup(a: Byte, b: Byte, c: Byte, rest: string)
    ensures Read(Four(a, b, c) + rest, 0, 0, 0) == Emit(a, Emit(b, Emit(c, Read(rest, 0, 0, 0))))
  {
    hide Read, Char, Emit;
    var s2, s3 := Char(b % 16 * 4 + c / 64), Char(c % 64);
    assert Four(a, b, c) + rest == [Char(a / 4), Char(a % 4 * 16 + b / 16)] + ([s2] + ([s3] + rest));
    ReadTwo(a, b / 16, [s2] + ([s3] + rest));
    ReadThird(b, c / 64, [s3] + rest);
    ReadFourth(c, rest);
  }

  lemma ReadPad(left: nat)
    requires left < 64
    ensures Read("==", 2, left, 0) == Ok([]) && Read("=", 3, left, 0) == Ok([])
  {
    assert "=="[1..] == "=";
  }

  lemma {:induction false} ReadGroups(raw: seq<Byte>)
    ensures Read(Groups(raw) + Pads(PadCount(raw)), 0, 0, 0) == Ok(raw)
    decreases |raw|
  {
    PadFacts();
    hide Read, Two, Three, Four, Pads, Emit;
    if raw == [] {
      ReadNothing();
    } else if |raw| == 1 {
      ReadLastOne(raw[0]);
      assert raw == [raw[0]];
    } else if |raw| == 2 {
      ReadLastTwo(raw[0], raw[1]);
      assert raw == [raw[0], raw[1]];
    } else {
      var rest := raw[3..];
      assert PadCount(rest) == PadCount(raw);
      ReadGroup(raw[0], raw[1], raw[2], Groups(rest) + Pads(PadCount(raw)));
      assert Groups(raw) + Pads(PadCount(raw)) == Four(raw[0], raw[1], raw[2]) + (Groups(rest) + Pads(PadCount(raw)));
      ReadGroups(rest);
      EmitThree(raw[0], raw[1], raw[2], rest);
      assert raw == [raw[0], raw[1], raw[2]] + rest;
    }
  }

  lemma EmitThree(a: Byte, b: Byte, c: Byte, rest: seq<Byte>)
    ensures Emit(a, Emit(b, Emit(c, Ok(rest)))) == Ok([a, b, c] + rest)
  {
    assert [a] + ([b] + ([c] + rest)) == [a, b, c] + rest;
  }

  lemma ReadLastOne(a: Byte)
    ensures Read(Two(a) + "==", 0, 0, 0) == Ok([a])
  {
    hide Read, Char;
    ReadTwo(a, 0, "==");
    ReadPad(0);
    assert [a] + [] == [a];
  }

  lemma ReadLastTwo(a: Byte, b: Byte)
    ensures Read(Three(a, b) + "=", 0, 0, 0) == Ok([a, b])
  {
    hide Read, Char;
    var s2 := Char(b % 16 * 4);
    assert Three(a, b) + "=" == [Char(a / 4), Char(a % 4 * 16 + b / 16)] + ([s2] + "=");
    ReadTwo(a, b / 16, [s2] + "=");
    ReadThird(b, 0, "=");
    ReadPad(0);
    assert [a] + ([b] + []) == [a, b];
  }

  lemma ReadNothing()
    ensures Read("" + Pads(0), 0, 0, 0) == Ok([])
  {
  }

  /** Decoding undoes encoding for every byte string. */
  lemma RoundTrip(raw: seq<Byte>)
    ensures Decode(Encode(raw)) == Ok(raw)
  {
    hide Read, Groups, Pads;
    EncodeShape(raw);
    ReadGroups(raw);
    assert (4 - |Groups(raw)| % 4) % 4 == PadCount(raw);
  }

  /** So two byte strings never share an encoding. */
  lemma EncodeInjective(a: seq<Byte>, b: seq<Byte>)
    requires Encode(a) == Encode(b)
    ensures a == b
  {
    RoundTrip(a);
    RoundTrip(b);
  }

  /** A length of one modulo four can never be decoded when every character counts. */
  lemma {:induction false} LengthOneRejected(s: string)
    requires |s| % 4 == 1 && forall c :: c in s ==> c != '=' && Value(c) < 64
    ensures Decode(s) == BadPadding
  {
    PadFacts();
    assert Pads(3) == "=" + Pads(2);
    ReadPlain(s, 0, 0, 0);
  }

  lemma {:induction false} ReadPlain(s: string, quad: nat, left: nat, pads: nat)
    requires quad < 4 && left < 64 && (quad + |s|) % 4 == 1
    requires forall c :: c in s ==> c != '=' && Value(c) < 64
    ensures Read(s + Pads(3), quad, left, pads) == BadPadding
    decreases |s|
  {
    if s == "" {
      assert "" + Pads(3) == Pads(3);
      ReadOnlyPads(3, left, pads);
    } else {
      var rest := s[1..];
      assert (s + Pads(3))[1..] == rest + Pads(3) && (s + Pads(3))[0] == s[0];
      assert forall c :: c in rest ==> c in s;
      var v := Value(s[0]);
      match quad {
        case 0 => ReadPlain(rest, 1, v, 0);
        case 1 => ReadPlain(rest, 2, v % 16, 0);
        case 2 => ReadPlain(rest, 3, v % 4, 0);
        case _ => ReadPlain(rest, 0, 0, 0);
      }
    }
  }

  lemma {:induction false} ReadOnlyPads(n: nat, left: nat, pads: nat)
    requires left < 64
    ensures Read(Pads(n), 1, left, pads) == BadPadding
  {
    if n > 0 { ReadOnlyPads(n - 1, left, pads); }
  }

  // ---------- what is read ----------

  /** A character counts with its index in the alphabet; '+' and '/' stand for the two signs, and every other
      character is skipped. */
  lemma ValueExactly(c: char)
    ensures c in ALPHABET ==> Value(c) < 64 && ALPHABET[Value(c)] == c
    ensures Value(c) < 64 <==> c in ALPHABET || c == '+' || c == '/'
    ensures Value('+') == Value('-') == 62 && Value('/') == Value('_') == 63
  {
    hide Char;
    if Value(c) < 64 && c != '+' && c != '/' {
      CharOfValue(c);
      AlphabetAt(Value(c));
    }
    if c in ALPHABET {
      var v :| 0 <= v < |ALPHABET| && ALPHABET[v] == c;
      AlphabetAt(v);
      ValueOfChar(v);
    }
  }

  lemma CharOfValue(c: char)
    requires Value(c) < 64 && c != '+' && c != '/'
    ensures Char(Value(c)) == c
  {
  }

  /** Plain text: every character counts. */
  predicate Plain(s: string) {
    forall c :: c in s ==> c != '=' && Value(c) < 64
  }

  /** Bits pending after `quad` characters of a group. */
  function Pending(quad: nat, left: nat): seq<bool> {
    match quad
    case 1 => Bits(left, 6)
    case 2 => Bits(left, 4)
    case 3 => Bits(left, 2)
    case _ => []
  }

  ghost predicate PendingOk(quad: nat, left: nat) {
    quad < 4 && left < match quad case 0 => 1 case 1 => 64 case 2 => 16 case _ => 4
  }

  /** Two bits complete a byte with six pending, and four stay. */
  lemma CarryTwo(left: nat, v: nat)
    requires v < 64
    ensures Bits(left, 6) + Bits(v, 6) == Bits(left * 4 + v / 16, 8) + Bits(v % 16, 4)
  {
    hide Bits;
    Powers();
    JoinBits(left, v / 16, 6, 2);
    JoinBits(v / 16, v % 16, 2, 4);
    assert v / 16 * 16 + v % 16 == v;
    assert Bits(left, 6) + (Bits(v / 16, 2) + Bits(v % 16, 4)) == (Bits(left, 6) + Bits(v / 16, 2)) + Bits(v % 16, 4);
  }

  /** Four bits complete a byte with four pending, and two stay. */
  lemma CarryFour(left: nat, v: nat)
    requires v < 64
    ensures Bits(left, 4) + Bits(v, 6) == Bits(left * 16 + v / 4, 8) + Bits(v % 4, 2)
  {
    hide Bits;
    Powers();
    JoinBits(left, v / 4, 4, 4);
    JoinBits(v / 4, v % 4, 4, 2);
    assert v / 4 * 4 + v % 4 == v;
    assert Bits(left, 4) + (Bits(v / 4, 4) + Bits(v % 4, 2)) == (Bits(left, 4) + Bits(v / 4, 4)) + Bits(v % 4, 2);
  }

  /** The byte that a character of value `v` completes, and what it leaves pending. */
  ghost predicate Completes(quad: nat, left: nat, v: nat, next: Byte, rest: nat) {
    match quad
    case 1 => next == left * 4 + v / 16 && rest == v % 16
    case 2 => next == left * 16 + v / 4 && rest == v % 4
    case 3 => next == left * 64 + v && rest == 0
    case _ => false
  }

  /** A character of value `v` completes `next` with the pending bits; `rest` stays pending. */
  lemma JoinPending(quad: nat, left: nat, v: nat) returns (next: Byte, rest: nat)
    requires 1 <= quad && PendingOk(quad, left) && v < 64
    ensures PendingOk((quad + 1) % 4, rest)
    ensures Pending(quad, left) + Bits(v, 6) == Bits(next, 8) + Pending((quad + 1) % 4, rest)
    ensures Completes(quad, left, v, next, rest)
  {
    hide Bits;
    Powers();
    match quad {
      case 1 =>
        CarryTwo(left, v);
        next, rest := left * 4 + v / 16, v % 16;
      case 2 =>
        CarryFour(left, v);
        next, rest := left * 16 + v / 4, v % 4;
      case _ =>
        JoinBits(left, v, 2, 6);
        next, rest := left * 64 + v, 0;
        assert Bits(next, 8) + [] == Bits(next, 8);
    }
  }

  /** One character that counts in front of others. */
  lemma ReadOne(c: char, more: string, quad: nat, left: nat)
    requires c != '=' && Value(c) < 64 && quad < 4 && left < 64
    ensures var v := Value(c);
            Read([c] + more, quad, left, 0) ==
            match quad
            case 0 => Read(more, 1, v, 0)
            case 1 => Emit(LowByte(left * 4 + v / 16), Read(more, 2, v % 16, 0))
            case 2 => Emit(LowByte(left * 16 + v / 4), Read(more, 3, v % 4, 0))
            case _ => Emit(LowByte(left * 64 + v), Read(more, 0, 0, 0))
  {
    hide Value;
    assert ([c] + more)[1..] == more;
  }

  lemma PlainFront(s: string)
    requires s != "" && Plain(s)
    ensures s[0] != '=' && Value(s[0]) < 64 && Plain(s[1..]) && s == [s[0]] + s[1..]
    ensures CharBits(s) == Bits(Value(s[0]), 6) + CharBits(s[1..])
  {
    hide Bits, Value;
    assert s[0] in s && forall c :: c in s[1..] ==> c in s;
  }

  /** The pad that completes a group of which `quad` characters are there. */
  function Missing(quad: nat): nat
    requires quad < 4
  {
    (4 - quad) % 4
  }

  lemma ReadEnd(quad: nat, left: nat)
    requires quad < 4 && quad != 1 && left < 64
    ensures Read("" + Pads(Missing(quad)), quad, left, 0) == Ok([])
  {
    PadFacts();
    ReadPad(left);
    assert "" + Pads(Missing(quad)) == Pads(Missing(quad));
  }

  lemma EmitBits(next: Byte, bytes: seq<Byte>)
    ensures Emit(next, Ok(bytes)) == Ok([next] + bytes)
    ensures ByteBits([next] + bytes) == Bits(next, 8) + ByteBits(bytes)
  {
    assert ([next] + bytes)[1..] == bytes;
  }

  lemma Exchange(a: seq<bool>, b: seq<bool>, c: seq<bool>, d: seq<bool>, e: seq<bool>)
    requires a + b == d + e
    ensures a + (b + c) == d + (e + c)
  {
    assert a + (b + c) == (a + b) + c;
  }

  /** A character that starts a group stays pending. */
  lemma ReadFirst(s: string, pads: string)
    requires s != "" && Plain(s)
    ensures Plain(s[1..]) && PendingOk(1, Value(s[0]))
    ensures CharBits(s) == Pending(1, Value(s[0])) + CharBits(s[1..])
    ensures Read(s + pads, 0, 0, 0) == Read(s[1..] + pads, 1, Value(s[0]), 0)
  {
    hide Bits, CharBits, Read, Emit, Plain, Value;
    PlainFront(s);
    ReadOne(s[0], s[1..] + pads, 0, 0);
    assert s + pads == [s[0]] + (s[1..] + pads);
  }

  lemma ReadCompletes(c: char, more: string, quad: nat, left: nat, next: Byte, rest: nat)
    requires c != '=' && Value(c) < 64 && left < 64 && rest < 64 && Completes(quad, left, Value(c), next, rest)
    ensures Read([c] + more, quad, left, 0) == Emit(next, Read(more, (quad + 1) % 4, rest, 0))
  {
    hide Read, Value, Emit, LowByte;
    ReadOne(c, more, quad, left);
  }

  lemma BitsComplete(quad: nat, left: nat, v: nat, tail: seq<bool>) returns (next: Byte, rest: nat)
    requires 1 <= quad && PendingOk(quad, left) && v < 64
    ensures PendingOk((quad + 1) % 4, rest) && rest < 64 && Completes(quad, left, v, next, rest)
    ensures Pending(quad, left) + (Bits(v, 6) + tail) == Bits(next, 8) + (Pending((quad + 1) % 4, rest) + tail)
  {
    hide Bits, Pending;
    next, rest := JoinPending(quad, left, v);
    Exchange(Pending(quad, left), Bits(v, 6), tail, Bits(next, 8), Pending((quad + 1) % 4, rest));
  }

  /** A character read inside a group completes a byte. */
  lemma ReadInner(s: string, pads: string, quad: nat, left: nat) returns (next: Byte, rest: nat)
    requires s != "" && Plain(s) && 1 <= quad && PendingOk(quad, left)
    ensures Plain(s[1..]) && PendingOk((quad + 1) % 4, rest) && rest < 64
    ensures Pending(quad, left) + CharBits(s) == Bits(next, 8) + (Pending((quad + 1) % 4, rest) + CharBits(s[1..]))
    ensures Read(s + pads, quad, left, 0) == Emit(next, Read(s[1..] + pads, (quad + 1) % 4, rest, 0))
  {
    hide Bits, CharBits, Read, Emit, Plain, Value, Pending, PendingOk, Completes;
    PlainFront(s);
    PendingSmall(quad, left);
    next, rest := BitsComplete(quad, left, Value(s[0]), CharBits(s[1..]));
    ReadCompletes(s[0], s[1..] + pads, quad, left, next, rest);
    assert s + pads == [s[0]] + (s[1..] + pads);
  }

  /** Plain text that leaves no single character over is read, bit for bit, with less than a byte left. */
  lemma {:induction false} ReadBits(s: string, quad: nat, left: nat) returns (bytes: seq<Byte>, over: seq<bool>)
    requires PendingOk(quad, left) && Plain(s) && (quad + |s|) % 4 != 1
    ensures Read(s + Pads(Missing((quad + |s|) % 4)), quad, left, 0) == Ok(bytes)
    ensures Pending(quad, left) + CharBits(s) == ByteBits(bytes) + over
    ensures |over| == match (quad + |s|) % 4 case 2 => 4 case 3 => 2 case _ => 0
    decreases |s|
  {
    hide Bits, CharBits, ByteBits, Read, Emit, Plain, Pads, Pending, PendingOk, Value;
    PendingSmall(quad, left);
    if s == "" {
      BitsOfZero();
      ReadEnd(quad, left);
      PendingLength(quad, left);
      bytes, over := [], Pending(quad, left);
      assert Pending(quad, left) + [] == [] + over;
    } else {
      var pads := Pads(Missing((quad + |s|) % 4));
      assert ((quad + 1) % 4 + |s[1..]|) % 4 == (quad + |s|) % 4;
      if quad == 0 {
        ReadFirst(s, pads);
        bytes, over := ReadBits(s[1..], 1, Value(s[0]));
        assert Pending(0, left) + CharBits(s) == CharBits(s) by { NonePending(left); }
      } else {
        var next, rest := ReadInner(s, pads, quad, left);
        var more;
        more, over := ReadBits(s[1..], (quad + 1) % 4, rest);
        EmitBits(next, more);
        bytes := [next] + more;
        assert (Bits(next, 8) + ByteBits(more)) + over == Bits(next, 8) + (ByteBits(more) + over);
      }
    }
  }

  lemma NonePending(left: nat)
    ensures Pending(0, left) == []
  {
  }

  lemma PendingSmall(quad: nat, left: nat)
    requires PendingOk(quad, left)
    ensures quad < 4 && left < 64 && (quad == 0 ==> left == 0)
  {
  }

  lemma PendingLength(quad: nat, left: nat)
    requires quad < 4 && quad != 1
    ensures |Pending(quad, left)| == match quad case 2 => 4 case 3 => 2 case _ => 0
  {
    BitsLength(left, 4);
    BitsLength(left, 2);
  }

  lemma {:induction false} BitsLength(v: nat, width: nat)
    ensures |Bits(v, width)| == width
  {
    if width > 0 { BitsLength(v / 2, width - 1); }
  }

  lemma {:induction false} ByteBitsLength(raw: seq<Byte>)
    ensures |ByteBits(raw)| == 8 * |raw|
  {
    hide Bits;
    if raw != [] {
      BitsLength(raw[0], 8);
      ByteBitsLength(raw[1..]);
    }
  }

  lemma {:induction false} CharBitsLength(s: string)
    ensures |CharBits(s)| == 6 * |s|
  {
    hide Bits;
    if s != "" {
      BitsLength(Value(s[0]), 6);
      CharBitsLength(s[1..]);
    }
  }

  /** What plain text decodes to: as many whole bytes as its bits make, in order. It fails only when a single
      character is left over. */
  lemma DecodeBits(s: string)
    requires Plain(s)
    ensures Decode(s).Ok? <==> |s| % 4 != 1
    ensures Decode(s).Ok? ==>
              var raw := Decode(s).value;
              |raw| == 6 * |s| / 8 && ByteBits(raw) <= CharBits(s)
  {
    if |s| % 4 == 1 {
      LengthOneRejected(s);
    } else {
      hide Read, Bits, CharBits, ByteBits, Plain, Pads, Value;
      var raw, over := ReadBits(s, 0, 0);
      assert [] + CharBits(s) == CharBits(s);
      ByteBitsLength(raw);
      CharBitsLength(s);
    }
  }

  /** One pad character does not complete a group of two. */
  lemma OnePadIsShort(left: nat)
    requires left < 64
    ensures Read("=", 2, left, 0) == BadPadding
  {
  }
}
