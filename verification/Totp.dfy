/**
 * The one-time codes of apps/web/src/utils/totp.ts: base32 decoding with an accumulator that is never masked,
 * the eight counter bytes, and dynamic truncation. The keyed hash is a parameter.
 */
module Totp {
  import opened Basics

  type Byte = x: int | 0 <= x < 256
  type Mac = s: seq<Byte> | |s| == 20 witness seq(20, _ => 0)

  const ALPHABET := "ABCDEFGHIJKLMNOPQRSTUVWXYZ234567"
  const MILLION := 1_000_000

  // ----- Bit strings, most significant bit first -----

  /** The `width` low bits of a number. */
  function Bits(n: nat, width: nat): (bits: seq<bool>)
    ensures |bits| == width
  {
    if width == 0 then [] else Bits(n / 2, width - 1) + [n % 2 == 1]
  }

  function Number(bits: seq<bool>): nat {
    if bits == [] then 0
    else Number(bits[..|bits| - 1]) * 2 + (if bits[|bits| - 1] then 1 else 0)
  }

  /** The bits of all the numbers, `width` bits each, one number after the other. */
  function Stream(numbers: seq<nat>, width: nat): (bits: seq<bool>)
    ensures |bits| == |numbers| * width
  {
    if numbers == [] then [] else Bits(numbers[0], width) + Stream(numbers[1..], width)
  }

  /** The bits cut into numbers of `width` bits; fewer than `width` bits at the end are dropped. */
  function Cut(bits: seq<bool>, width: nat): (numbers: seq<nat>)
    requires width > 0
    ensures forall n :: n in numbers ==> n < Pow2(width)
    decreases |bits|
  {
    if |bits| < width then []
    else
      NumberInRange(bits[..width]);
      [Number(bits[..width])] + Cut(bits[width..], width)
  }

  lemma {:induction false} NumberInRange(bits: seq<bool>)
    ensures Number(bits) < Pow2(|bits|)
    ensures Bits(Number(bits), |bits|) == bits
  {
    if bits != [] {
      NumberInRange(bits[..|bits| - 1]);
    }
  }

  lemma {:induction false} BitsRead(n: nat, width: nat)
    ensures Number(Bits(n, width)) == n % Pow2(width)
  {
    if width > 0 {
      BitsRead(n / 2, width - 1);
      var bits := Bits(n, width);
      assert bits[..|bits| - 1] == Bits(n / 2, width - 1);
      ModuloSteps(n, 2, Pow2(width - 1));
    }
  }

  /** Cutting undoes laying out, whatever incomplete rest follows. */
  lemma {:induction false} CutOfStream(numbers: seq<nat>, width: nat, rest: seq<bool>)
    requires |rest| < width
    requires forall n :: n in numbers ==> n < Pow2(width)
    ensures Cut(Stream(numbers, width) + rest, width) == numbers
  {
    if numbers == [] {
      assert [] + rest == rest;
    } else {
      FirstOfStream(numbers, width, rest);
      assert numbers[0] in numbers;
      assert forall n :: n in numbers[1..] ==> n in numbers;
      CutOfStream(numbers[1..], width, rest);
      BitsRead(numbers[0], width);
      SmallModulo(numbers[0], Pow2(width));
    }
  }

  lemma FirstOfStream(numbers: seq<nat>, width: nat, rest: seq<bool>)
    requires numbers != []
    ensures var bits := Stream(numbers, width) + rest;
            && |bits| >= width && bits[..width] == Bits(numbers[0], width)
            && bits[width..] == Stream(numbers[1..], width) + rest
  {
    var first, tail := Bits(numbers[0], width), Stream(numbers[1..], width);
    ConcatAssociates(first, tail, rest);
    HalvesOf(first, tail + rest);
  }

  lemma HalvesOf<T>(a: seq<T>, b: seq<T>)
    ensures |a + b| >= |a| && (a + b)[..|a|] == a && (a + b)[|a|..] == b
  {
  }

  /** Laying out undoes cutting, up to the incomplete rest. */
  lemma {:induction false} StreamOfCut(bits: seq<bool>, width: nat)
    requires width > 0
    ensures Stream(Cut(bits, width), width) <= bits
    ensures |bits| - |Stream(Cut(bits, width), width)| < width
  {
    if |bits| >= width {
      StreamOfCut(bits[width..], width);
      NumberInRange(bits[..width]);
      var tail := Stream(Cut(bits[width..], width), width);
      var cut := Cut(bits, width);
      assert cut[0] == Number(bits[..width]) && cut[1..] == Cut(bits[width..], width);
      assert Stream(cut, width) == bits[..width] + tail;
      assert tail == bits[width..][..|tail|];
    }
  }

  lemma {:induction false} StreamConcat(a: seq<nat>, b: seq<nat>, width: nat)
    ensures Stream(a + b, width) == Stream(a, width) + Stream(b, width)
  {
    if a == [] {
      assert a + b == b;
    } else {
      assert (a + b)[1..] == a[1..] + b;
      StreamConcat(a[1..], b, width);
      ConcatAssociates(Bits(a[0], width), Stream(a[1..], width), Stream(b, width));
    }
  }

  lemma StreamOfOne(n: nat, width: nat)
    ensures Stream([n], width) == Bits(n, width)
  {
    assert Stream([], width) == [];
  }

  // ----- Words -----

  /** `value << 5` on 32-bit words: the bits that leave the word are lost. */
  function ShiftLeftFive(value: nat): (word: nat)
    ensures word < 0x1_0000_0000 && word % 32 == 0
  {
    (value * 32) % 0x1_0000_0000
  }

  /** `value >>> count`. */
  function ShiftRight(value: nat, count: nat): nat {
    if count == 0 then value else ShiftRight(value / 2, count - 1)
  }

  lemma {:induction false} ShiftSplitsBits(value: nat, high: nat, low: nat)
    ensures Bits(value, high + low) == Bits(ShiftRight(value, low), high) + Bits(value, low)
  {
    if low > 0 {
      ShiftSplitsBits(value / 2, high, low - 1);
      ConcatAssociates(
        Bits(ShiftRight(value / 2, low - 1), high), Bits(value / 2, low - 1), [value % 2 == 1]);
    }
  }

  /** Cutting off high bits does not change the low ones. */
  lemma {:induction false} LowBits(n: nat, e: nat, width: nat)
    requires width <= e
    ensures Bits(n % Pow2(e), width) == Bits(n, width)
  {
    if width > 0 {
      var p := Pow2(e - 1);
      var m := n % Pow2(e);
      ModuloSteps(n, 2, p);
      assert m / 2 == (n / 2) % p && m % 2 == n % 2;
      LowBits(n / 2, e - 1, width - 1);
    }
  }

  lemma Powers()
    ensures Pow2(5) == 32 && Pow2(8) == 256 && Pow2(32) == 0x1_0000_0000
  {
    assert Pow2(8) == 256;
    PowAdds(8, 8);
    PowAdds(16, 16);
  }

  lemma ShiftedWord(value: nat, g: nat)
    requires g < 32
    ensures ShiftLeftFive(value) + g == (value * 32 + g) % 0x1_0000_0000
  {
    RemainderIsUnique(value * 32 + g, value * 32 / 0x1_0000_0000, 0x1_0000_0000, ShiftLeftFive(value) + g);
  }

  /**
   * One turn of the accumulator: while fewer than 28 bits are pending, the bits shifted out of the word are
   * never among them.
   */
  lemma PendingGrows(value: nat, g: nat, pending: nat)
    requires g < 32 && pending < 8
    ensures Bits(ShiftLeftFive(value) + g, pending + 5) == Bits(value, pending) + Bits(g, 5)
  {
    ShiftedWord(value, g);
    WordKeepsLowBits(value * 32 + g, pending + 5);
    BitsOfShifted(value, g, pending);
  }

  lemma BitsOfShifted(value: nat, g: nat, pending: nat)
    requires g < 32
    ensures Bits(value * 32 + g, pending + 5) == Bits(value, pending) + Bits(g, 5)
  {
    ShiftSplitsBits(value * 32 + g, pending, 5);
    ShiftRightFive(value * 32 + g);
    LastFiveBits(value, g);
  }

  lemma WordKeepsLowBits(n: nat, width: nat)
    requires width <= 32
    ensures Bits(n % 0x1_0000_0000, width) == Bits(n, width)
  {
    Powers();
    LowBits(n, 32, width);
  }

  lemma LastFiveBits(value: nat, g: nat)
    requires g < 32
    ensures Bits(value * 32 + g, 5) == Bits(g, 5)
  {
    Powers();
    LowBits(value * 32 + g, 5, 5);
    RemainderIsUnique(value * 32 + g, value, 32, g);
  }

  lemma ShiftRightFive(n: nat)
    ensures ShiftRight(n, 5) == n / 32
  {
    assert ShiftRight(n, 5) == ShiftRight(n / 2 / 2, 3) == ShiftRight(n / 2 / 2 / 2 / 2, 1);
  }

  lemma {:induction false} PowAdds(a: nat, b: nat)
    ensures Pow2(a + b) == Pow2(a) * Pow2(b)
  {
    if a > 0 {
      PowAdds(a - 1, b);
      assert 2 * (Pow2(a - 1) * Pow2(b)) == 2 * Pow2(a - 1) * Pow2(b);
    }
  }

  // ----- Base32 -----

  /** The text without the equals signs at its end. */
  function StripPadding(s: string): string {
    if s != "" && s[|s| - 1] == '=' then StripPadding(s[..|s| - 1]) else s
  }

  /** The position of a character in the alphabet, or -1. */
  function IndexOf(c: char): int {
    if 'A' <= c <= 'Z' then c as int - 'A' as int
    else if '2' <= c <= '7' then c as int - '2' as int + 26
    else -1
  }

  lemma IndexIsAlphabetPosition(c: char)
    ensures -1 <= IndexOf(c) < 32
    ensures IndexOf(c) >= 0 ==> ALPHABET[IndexOf(c)] == c
    ensures IndexOf(c) == -1 ==> c !in ALPHABET
  {
  }

  /** The 5-bit values of the characters that belong to the alphabet; every other character is skipped. */
  function Groups(s: string): (groups: seq<nat>)
    ensures forall g :: g in groups ==> g < 32
  {
    if s == "" then []
    else
      var front := Groups(s[..|s| - 1]);
      var g := IndexOf(s[|s| - 1]);
      if g == -1 then front else front + [g]
  }

  /** The whole bytes in the bits that the characters of the alphabet spell. */
  function Decoded(s: string): seq<Byte> {
    Octets(Stream(Groups(Upper(s)), 5))
  }

  function Octets(bits: seq<bool>): seq<Byte> {
    CutIntoBytes(bits);
    Cut(bits, 8)
  }

  lemma CutIntoBytes(bits: seq<bool>)
    ensures forall i :: 0 <= i < |Cut(bits, 8)| ==> Cut(bits, 8)[i] < 256
  {
    var numbers := Cut(bits, 8);
    forall i | 0 <= i < |numbers|
      ensures numbers[i] < 256
    {
      Powers();
      assert numbers[i] in numbers;
    }
  }

  lemma {:induction false} PaddingCarriesNothing(s: string)
    ensures Groups(StripPadding(s)) == Groups(s)
  {
    if s != "" && s[|s| - 1] == '=' {
      PaddingCarriesNothing(s[..|s| - 1]);
    }
  }

  /** The bits read so far are those of the output, then the pending low bits of the accumulator. */
  predicate Accumulated(groups: seq<nat>, output: seq<Byte>, value: nat, bits: nat) {
    Stream(groups, 5) == Stream(output, 8) + Bits(value, bits)
  }

  /** One more character: its five bits join the pending ones. */
  lemma ReadGroup(groups: seq<nat>, output: seq<Byte>, value: nat, bits: nat, val: nat)
    requires val < 32 && bits < 8 && Accumulated(groups, output, value, bits)
    ensures Accumulated(groups + [val], output, ShiftLeftFive(value) + val, bits + 5)
  {
    StreamConcat(groups, [val], 5);
    StreamOfOne(val, 5);
    ConcatAssociates(Stream(output, 8), Bits(value, bits), Bits(val, 5));
    PendingGrows(value, val, bits);
  }

  lemma WholeBytesOnly(output: seq<Byte>, rest: seq<bool>)
    requires |rest| < 8
    ensures Octets(Stream(output, 8) + rest) == output
  {
    Powers();
    CutOfStream(output, 8, rest);
  }

  lemma GroupsOneMore(s: string, c: char)
    ensures Groups(s + [c]) == if IndexOf(c) == -1 then Groups(s) else Groups(s) + [IndexOf(c)]
  {
    assert (s + [c])[..|s|] == s;
  }

  /** A complete byte moves from the pending bits to the output. */
  lemma PushByte(groups: seq<nat>, output: seq<Byte>, value: nat, bits: nat)
    requires bits >= 8 && Accumulated(groups, output, value, bits)
    ensures Accumulated(groups, output + [ShiftRight(value, bits - 8) % 256], value, bits - 8)
  {
    var byte := ShiftRight(value, bits - 8) % 256;
    PendingSplits(value, bits - 8);
    OutputOneMore(output, byte);
    ConcatAssociates(Stream(output, 8), Bits(byte, 8), Bits(value, bits - 8));
  }

  lemma PendingSplits(value: nat, low: nat)
    ensures Bits(value, low + 8) == Bits(ShiftRight(value, low) % 256, 8) + Bits(value, low)
  {
    ShiftSplitsBits(value, 8, low);
    Powers();
    LowBits(ShiftRight(value, low), 8, 8);
  }

  lemma OutputOneMore(output: seq<Byte>, byte: Byte)
    ensures Stream(output + [byte], 8) == Stream(output, 8) + Bits(byte, 8)
  {
    StreamConcat(output, [byte], 8);
    StreamOfOne(byte, 8);
  }

  lemma ReadCharacter(done: string, c: char, output: seq<Byte>, value: nat, bits: nat)
    requires bits < 8 && Accumulated(Groups(done), output, value, bits)
    ensures IndexOf(c) == -1 ==> Accumulated(Groups(done + [c]), output, value, bits)
    ensures IndexOf(c) != -1 ==>
              Accumulated(Groups(done + [c]), output, ShiftLeftFive(value) + IndexOf(c), bits + 5)
  {
    GroupsOneMore(done, c);
    if IndexOf(c) != -1 {
      ReadGroup(Groups(done), output, value, bits, IndexOf(c));
    }
  }

  method Base32Decode(base32: string) returns (output: seq<Byte>)
    ensures output == Decoded(base32)
  {
    var cleaned := StripPadding(Upper(base32));
    var bits: nat, value: nat := 0, 0;
    output := [];
    ghost var done: string := "";
    for i := 0 to |cleaned|
      invariant done == cleaned[..i] && bits < 8
      invariant Accumulated(Groups(done), output, value, bits)
    {
      TakeOneMore(cleaned, i);
      ReadCharacter(done, cleaned[i], output, value, bits);
      done := done + [cleaned[i]];
      var val := IndexOf(cleaned[i]);
      if val == -1 { continue; }
      // The low five bits of the shifted word are zero, so setting them is adding.
      value := ShiftLeftFive(value) + val;
      bits := bits + 5;
      if bits >= 8 {
        PushByte(Groups(done), output, value, bits);
        output := output + [ShiftRight(value, bits - 8) % 256];
        bits := bits - 8;
      }
    }
    assert done == cleaned;
    AllRead(base32, output, value, bits);
  }

  lemma AllRead(base32: string, output: seq<Byte>, value: nat, bits: nat)
    requires bits < 8 && Accumulated(Groups(StripPadding(Upper(base32))), output, value, bits)
    ensures output == Decoded(base32)
  {
    PaddingCarriesNothing(Upper(base32));
    WholeBytesOnly(output, Bits(value, bits));
  }

  // ----- The encoding of RFC 4648, section 6 -----

  /** The character of the alphabet at a position. */
  function CharacterAt(g: nat): char
    requires g < 32
  {
    if g < 26 then ('A' as int + g) as char else ('2' as int + g - 26) as char
  }

  lemma CharactersAreTheAlphabet(g: nat)
    requires g < 32
    ensures CharacterAt(g) == ALPHABET[g] && IndexOf(CharacterAt(g)) == g
  {
  }

  function Characters(groups: seq<nat>): (s: string)
    requires forall g :: g in groups ==> g < 32
    ensures |s| == |groups|
  {
    seq(|groups|, i requires 0 <= i < |groups| => assert groups[i] in groups; CharacterAt(groups[i]))
  }

  function Repeat(c: char, n: nat): string {
    seq(n, _ => c)
  }

  function Quintets(bits: seq<bool>): (groups: seq<nat>)
    ensures forall g :: g in groups ==> g < 32
  {
    assert Pow2(5) == 32;
    Cut(bits, 5)
  }

  /** How many characters a final quantum of one to four bytes takes: 2, 4, 5 or 7. */
  function FinalLength(bytes: nat): nat {
    (8 * bytes + 4) / 5
  }

  function Zeros(count: nat): seq<bool> {
    seq(count, _ => false)
  }

  /** Five bytes make eight characters; a shorter rest is filled with zero bits, then with equals signs. */
  function Encode(bytes: seq<Byte>): string {
    if bytes == [] then ""
    else if |bytes| < 5 then
      var length := FinalLength(|bytes|);
      Characters(Quintets(Stream(bytes, 8) + Zeros(5 * length - 8 * |bytes|))) + Repeat('=', 8 - length)
    else Characters(Quintets(Stream(bytes[..5], 8))) + Encode(bytes[5..])
  }

  lemma {:induction false} GroupsConcat(a: string, b: string)
    ensures Groups(a + b) == Groups(a) + Groups(b)
  {
    if b == "" {
      assert a + b == a;
    } else {
      var front := b[..|b| - 1];
      assert (a + b)[..|a + b| - 1] == a + front;
      GroupsConcat(a, front);
      if IndexOf(b[|b| - 1]) != -1 {
        ConcatAssociates(Groups(a), Groups(front), [IndexOf(b[|b| - 1])]);
      }
    }
  }

  lemma OneMoreCharacter(front: seq<nat>, last: nat)
    requires last < 32 && forall g :: g in front ==> g < 32
    ensures Groups(Characters(front + [last])) == Groups(Characters(front)) + [last]
  {
    assert Characters(front + [last]) == Characters(front) + [CharacterAt(last)];
    GroupsOneMore(Characters(front), CharacterAt(last));
    CharactersAreTheAlphabet(last);
  }

  lemma {:induction false} GroupsOfCharacters(groups: seq<nat>)
    requires forall g :: g in groups ==> g < 32
    ensures Groups(Characters(groups)) == groups
  {
    if groups != [] {
      var front, last := groups[..|groups| - 1], groups[|groups| - 1];
      assert last in groups;
      assert forall g :: g in front ==> g in groups;
      GroupsOfCharacters(front);
      OneMoreCharacter(front, last);
      assert front + [last] == groups;
    }
  }

  lemma {:induction false} EqualsSignsAreSkipped(n: nat)
    ensures Groups(Repeat('=', n)) == []
  {
    if n > 0 {
      assert Repeat('=', n)[..n - 1] == Repeat('=', n - 1);
      EqualsSignsAreSkipped(n - 1);
    }
  }

  lemma WholeGroups(groups: nat, bits: nat)
    requires bits % 5 == 0 && 5 * groups <= bits < 5 * groups + 5
    ensures bits == 5 * groups
  {
  }

  /** Bits that fill whole groups come back bit for bit. */
  lemma QuintetsKeepBits(bits: seq<bool>)
    requires |bits| % 5 == 0
    ensures Stream(Groups(Characters(Quintets(bits))), 5) == bits
  {
    var groups := Quintets(bits);
    GroupsOfCharacters(groups);
    StreamOfCut(bits, 5);
    WholeGroups(|groups|, |bits|);
  }

  lemma FinalLengthFits(bytes: nat)
    requires 0 < bytes < 5
    ensures 0 <= 5 * FinalLength(bytes) - 8 * bytes < 8 && FinalLength(bytes) <= 8
  {
  }

  lemma PaddedCharactersSpell(bits: seq<bool>, length: nat)
    requires |bits| == 5 * length && length <= 8
    ensures Stream(Groups(Characters(Quintets(bits)) + Repeat('=', 8 - length)), 5) == bits
  {
    var text := Characters(Quintets(bits));
    GroupsConcat(text, Repeat('=', 8 - length));
    EqualsSignsAreSkipped(8 - length);
    assert Groups(text) + [] == Groups(text);
    QuintetsKeepBits(bits);
  }

  lemma LastQuantumSpellsBits(bytes: seq<Byte>)
    requires 0 < |bytes| < 5
    ensures var pad := 5 * FinalLength(|bytes|) - 8 * |bytes|;
            0 <= pad < 8 && Stream(Groups(Encode(bytes)), 5) == Stream(bytes, 8) + Zeros(pad)
  {
    var length := FinalLength(|bytes|);
    FinalLengthFits(|bytes|);
    var bits := Stream(bytes, 8) + Zeros(5 * length - 8 * |bytes|);
    assert |bits| == 5 * length;
    PaddedCharactersSpell(bits, length);
  }

  lemma QuantumSpellsBits(bytes: seq<Byte>)
    requires |bytes| >= 5
    ensures Stream(Groups(Encode(bytes)), 5) == Stream(bytes[..5], 8) + Stream(Groups(Encode(bytes[5..])), 5)
  {
    var bits := Stream(bytes[..5], 8);
    var text := Characters(Quintets(bits));
    GroupsConcat(text, Encode(bytes[5..]));
    QuintetsKeepBits(bits);
    StreamConcat(Groups(text), Groups(Encode(bytes[5..])), 5);
  }

  /** The characters of the encoding spell the bits of the bytes and then fewer than eight more. */
  lemma {:induction false} EncodingSpellsBits(bytes: seq<Byte>) returns (rest: seq<bool>)
    ensures |rest| < 8
    ensures Stream(Groups(Encode(bytes)), 5) == Stream(bytes, 8) + rest
  {
    if bytes == [] {
      rest := [];
    } else if |bytes| < 5 {
      LastQuantumSpellsBits(bytes);
      rest := Zeros(5 * FinalLength(|bytes|) - 8 * |bytes|);
    } else {
      rest := EncodingSpellsBits(bytes[5..]);
      QuantumSpellsBits(bytes);
      assert bytes == bytes[..5] + bytes[5..];
      StreamConcat(bytes[..5], bytes[5..], 8);
      ConcatAssociates(Stream(bytes[..5], 8), Stream(bytes[5..], 8), rest);
    }
  }

  /**
   * Decoding inverts the encoding for every byte string, however the secret was typed: in either case, with or
   * without its padding, and with any other characters in between.
   */
  lemma DecodeInvertsEncode(bytes: seq<Byte>, typed: string)
    requires Groups(Upper(typed)) == Groups(Encode(bytes))
    ensures Decoded(typed) == bytes
  {
    var rest := EncodingSpellsBits(bytes);
    WholeBytesOnly(bytes, rest);
  }

  predicate NoLowerCase(s: string) {
    forall i :: 0 <= i < |s| ==> !('a' <= s[i] <= 'z')
  }

  lemma {:induction false} EncodingHasNoLowerCase(bytes: seq<Byte>)
    ensures NoLowerCase(Encode(bytes))
  {
    if bytes == [] {
    } else if |bytes| < 5 {
      var length := FinalLength(|bytes|);
      CharactersAreUpperCase(Quintets(Stream(bytes, 8) + Zeros(5 * length - 8 * |bytes|)));
    } else {
      CharactersAreUpperCase(Quintets(Stream(bytes[..5], 8)));
      EncodingHasNoLowerCase(bytes[5..]);
    }
  }

  lemma CharactersAreUpperCase(groups: seq<nat>)
    requires forall g :: g in groups ==> g < 32
    ensures NoLowerCase(Characters(groups))
  {
    forall i | 0 <= i < |groups|
      ensures !('a' <= Characters(groups)[i] <= 'z')
    {
      assert groups[i] in groups;
    }
  }

  /** The encoding itself is one way to type the secret. */
  lemma DecodeOfEncode(bytes: seq<Byte>)
    ensures Decoded(Encode(bytes)) == bytes
  {
    EncodingHasNoLowerCase(bytes);
    assert Upper(Encode(bytes)) == Encode(bytes);
    DecodeInvertsEncode(bytes, Encode(bytes));
  }

  // ----- The counter (RFC 4226, section 5.2; RFC 6238, section 4.2) -----

  function Counter(timestamp: int): int {
    (timestamp as real / 1000.0 / 30.0).Floor
  }

  /** The counter is the number of whole 30-second steps in the whole seconds of the timestamp. */
  lemma CounterIsTimeStep(timestamp: int)
    ensures Counter(timestamp) == timestamp / 1000 / 30
  {
    var q, r := timestamp / 30000, timestamp % 30000;
    assert timestamp == q * 30000 + r;
    assert timestamp / 1000 / 30 == q;
    assert timestamp as real / 1000.0 / 30.0 == q as real + r as real / 30000.0;
    assert 0.0 <= r as real / 30000.0 < 1.0;
  }

  /** The low `length` bytes of a number, high-order byte first. */
  function BigEndian(n: int, length: nat): (bytes: seq<Byte>)
    ensures |bytes| == length
    decreases length
  {
    if length == 0 then [] else BigEndian(n / 256, length - 1) + [n % 256]
  }

  function Unsigned(bytes: seq<Byte>): nat {
    if bytes == [] then 0 else Unsigned(bytes[..|bytes| - 1]) * 256 + bytes[|bytes| - 1]
  }

  function Pow256(e: nat): (p: nat)
    ensures p > 0
  {
    if e == 0 then 1 else 256 * Pow256(e - 1)
  }

  method WriteCounter(counter: int, counterBytes: array<Byte>)
    requires counterBytes.Length == 8
    modifies counterBytes
    ensures counterBytes[..] == BigEndian(counter, 8)
  {
    var tmp := counter;
    var i := 7;
    assert BigEndian(counter, 8) + counterBytes[8..] == BigEndian(counter, 8);
    while i >= 0
      invariant -1 <= i <= 7
      invariant BigEndian(tmp, i + 1) + counterBytes[i + 1..] == BigEndian(counter, 8)
    {
      ghost var below := counterBytes[i + 1..];
      counterBytes[i] := tmp % 256;
      assert counterBytes[i..] == [tmp % 256] + below;
      ConcatAssociates(BigEndian(tmp / 256, i), [tmp % 256], below);
      tmp := tmp / 256;
      i := i - 1;
    }
    assert counterBytes[0..] == counterBytes[..];
  }

  /** Read as one number the bytes are the counter, modulo what fits: two's complement for a negative one. */
  lemma {:induction false} BigEndianReadsBack(n: int, length: nat)
    ensures Unsigned(BigEndian(n, length)) == n % Pow256(length)
    ensures 0 <= n < Pow256(length) ==> Unsigned(BigEndian(n, length)) == n
    decreases length
  {
    if length > 0 {
      BigEndianReadsBack(n / 256, length - 1);
      var bytes := BigEndian(n, length);
      assert bytes[..|bytes| - 1] == BigEndian(n / 256, length - 1);
      ModuloSteps(n, 256, Pow256(length - 1));
    }
  }

  lemma SmallModulo(n: nat, m: nat)
    requires n < m
    ensures n % m == n
  {
  }

  /** The remainder by a product, found one factor at a time. */
  lemma ModuloSteps(n: int, base: nat, p: nat)
    requires base > 0 && p > 0
    ensures base * p > 0
    ensures n % (base * p) == (n / base) % p * base + n % base
  {
    var q, r := n / base, n % base;
    var a, b := q / p, q % p;
    assert 0 <= b * base + r < base * p by {
      assert (b + 1) * base <= p * base;
      assert b * base + base == (b + 1) * base;
    }
    assert n == a * (base * p) + (b * base + r) by {
      assert n == q * base + r;
      assert q == a * p + b;
      assert (a * p + b) * base == a * (base * p) + b * base;
    }
    RemainderIsUnique(n, a, base * p, b * base + r);
  }

  lemma RemainderIsUnique(x: int, a: int, m: nat, r: nat)
    requires r < m && x == a * m + r
    ensures x % m == r
  {
    var k := x / m - a;
    assert k * m + x % m == r by {
      assert (x / m) * m + x % m == x;
      assert k * m == (x / m) * m - a * m;
    }
    assert k >= 1 ==> k * m >= m;
    assert k <= -1 ==> k * m + m <= 0;
  }

  // ----- Truncation (RFC 4226, section 5.3) -----

  /** The 31 low bits of the four bytes at the offset that the low half of the last byte names. */
  function Truncated(mac: Mac): nat {
    var offset := mac[19] % 16;
    Unsigned(mac[offset..offset + 4]) % 0x8000_0000
  }

  method TruncatedCode(signature: Mac) returns (code: nat)
    ensures code == Truncated(signature) % MILLION
  {
    var offset := signature[|signature| - 1] % 16;
    // The four masked bytes take up distinct bits, so joining them is adding.
    code := (
      signature[offset] % 128 * 0x100_0000
      + signature[offset + 1] * 0x1_0000
      + signature[offset + 2] * 0x100
      + signature[offset + 3]
    ) % MILLION;
    FourBytes(signature[offset..offset + 4]);
  }

  lemma FourBytes(b: seq<Byte>)
    requires |b| == 4
    ensures Unsigned(b) % 0x8000_0000
            == (b[0] as int) % 128 * 0x100_0000 + (b[1] as int) * 0x1_0000 + (b[2] as int) * 0x100 + b[3]
  {
    var b0: int, b1: int, b2: int, b3: int := b[0], b[1], b[2], b[3];
    assert b[..3][..2] == b[..2] && b[..2][..1] == b[..1] && b[..1][..0] == [];
    assert Unsigned(b[..1]) == b0;
    assert Unsigned(b[..2]) == b0 * 256 + b1;
    assert Unsigned(b[..3]) == (b0 * 256 + b1) * 256 + b2;
    assert Unsigned(b) == b0 * 0x100_0000 + b1 * 0x1_0000 + b2 * 0x100 + b3;
  }

  /** Zeros in front, up to the width. */
  function PadStart(s: string, width: nat): string {
    Repeat('0', if |s| < width then width - |s| else 0) + s
  }

  /** Exactly `width` decimal digits. */
  function DigitText(n: nat, width: nat): (s: string)
    ensures |s| == width
    ensures forall c :: c in s ==> '0' <= c <= '9'
  {
    if width == 0 then "" else DigitText(n / 10, width - 1) + [Digit(n % 10)]
  }

  function Pow10(e: nat): nat {
    if e == 0 then 1 else 10 * Pow10(e - 1)
  }

  lemma OneDigit(n: nat, width: nat)
    requires width > 0 && n < 10
    ensures |Decimal(n)| <= width && PadStart(Decimal(n), width) == DigitText(n, width)
  {
    ZerosOnly(width - 1);
    assert n / 10 == 0;
    assert Decimal(n) == [Digit(n)];
  }

  lemma MoreDigits(n: nat, width: nat)
    requires width > 0 && n >= 10
    requires |Decimal(n / 10)| <= width - 1 && PadStart(Decimal(n / 10), width - 1) == DigitText(n / 10, width - 1)
    ensures |Decimal(n)| <= width && PadStart(Decimal(n), width) == DigitText(n, width)
  {
    var zeros := Repeat('0', width - 1 - |Decimal(n / 10)|);
    assert Decimal(n) == Decimal(n / 10) + [Digit(n % 10)];
    ConcatAssociates(zeros, Decimal(n / 10), [Digit(n % 10)]);
  }

  lemma {:induction false} PaddedIsFixedWidth(n: nat, width: nat)
    requires width > 0 && n < Pow10(width)
    ensures |Decimal(n)| <= width
    ensures PadStart(Decimal(n), width) == DigitText(n, width)
  {
    if n < 10 {
      OneDigit(n, width);
    } else {
      assert width > 1 by {
        assert Pow10(0) == 1;
      }
      PaddedIsFixedWidth(n / 10, width - 1);
      MoreDigits(n, width);
    }
  }

  lemma {:induction false} ZerosOnly(width: nat)
    ensures DigitText(0, width) == Repeat('0', width)
  {
    if width > 0 {
      ZerosOnly(width - 1);
      assert Digit(0 % 10) == '0';
    }
  }

  // ----- The whole code -----

  /** The six-digit code of RFC 6238 for a key and a time, given the keyed hash; empty when the hash fails. */
  function CodeFor(key: seq<Byte>, timestamp: int, hmac: (seq<Byte>, seq<Byte>) -> Option<Mac>): string {
    var message := BigEndian(timestamp / 1000 / 30, 8);
    match hmac(key, message)
    case None => ""
    case Some(mac) => DigitText(Truncated(mac) % MILLION, 6)
  }

  method GenerateTotpCode(secret: string, timestamp: int, hmac: (seq<Byte>, seq<Byte>) -> Option<Mac>)
    returns (code: string)
    ensures code == CodeFor(Decoded(secret), timestamp, hmac)
  {
    var counter := Counter(timestamp);
    CounterIsTimeStep(timestamp);
    var counterBytes := new Byte[8](_ => 0);
    WriteCounter(counter, counterBytes);
    var keyBytes := Base32Decode(secret);
    match hmac(keyBytes, counterBytes[..]) {
      case None => code := "";
      case Some(signature) =>
        var number := TruncatedCode(signature);
        assert Pow10(6) == MILLION;
        PaddedIsFixedWidth(number, 6);
        code := PadStart(Decimal(number), 6);
    }
  }

  /** A secret that spells the encoding of a key gives the code of that very key. */
  lemma EncodedSecretGivesCodeOfKey(
      key: seq<Byte>, typed: string, timestamp: int, hmac: (seq<Byte>, seq<Byte>) -> Option<Mac>)
    requires Groups(Upper(typed)) == Groups(Encode(key))
    ensures CodeFor(Decoded(typed), timestamp, hmac) == CodeFor(key, timestamp, hmac)
  {
    DecodeInvertsEncode(key, typed);
  }
}
