/**
 `did:key` identifiers: the multicodec-prefixed key in base 58, computed in
 place in a 48-digit array, least significant digit first.
 */
module DidKey {
  import opened Base
  import opened Bytes

  type Digit = d: nat | d < 58

  const CAPACITY := 48
  const PREFIX := "did:key:z"

  // ------------------------------------------------------ what digits denote

  /** Little-endian value in base 58. */
  function Value(ds: seq<Digit>): nat {
    if ds == [] then 0 else ds[0] + 58 * Value(ds[1..])
  }

  /** No leading zero digit. */
  predicate Canonical(ds: seq<Digit>) {
    ds == [] || ds[|ds| - 1] != 0
  }

  lemma {:induction false} ValueConcat(a: seq<Digit>, b: seq<Digit>)
    ensures Value(a + b) == Value(a) + Pow(58, |a|) * Value(b)
  {
    if a == [] {
      assert a + b == b;
    } else {
      assert (a + b)[1..] == a[1..] + b;
      ValueConcat(a[1..], b);
      var p, v, w := Pow(58, |a| - 1), Value(b), Value(a[1..]);
      MulAssoc(58, p, v);
      assert Value(a + b) == a[0] + 58 * (w + p * v);
      assert 58 * (w + p * v) == 58 * w + 58 * (p * v);
    }
  }

  // --------------------------------------------------- one byte, as functions

  /** The digit loop: multiply by 256 and add the carry. */
  function MulAdd(ds: seq<Digit>, carry: nat): (r: (seq<Digit>, nat))
    ensures |r.0| == |ds|
    ensures carry < 256 ==> r.1 < 256
  {
    if ds == [] then ([], carry) else
      var n := ds[0] * 256 + carry;
      var rest := MulAdd(ds[1..], n / 58);
      ([n % 58] + rest.0, rest.1)
  }

  /** The carry loop: the base-58 digits of the carry. */
  function Digits(carry: nat): seq<Digit> {
    if carry == 0 then [] else [carry % 58] + Digits(carry / 58)
  }

  function Push(ds: seq<Digit>, b: nat): seq<Digit> {
    MulAdd(ds, b).0 + Digits(MulAdd(ds, b).1)
  }

  function Encode(bytes: seq<byte>): seq<Digit> {
    if bytes == [] then [] else Push(Encode(bytes[..|bytes| - 1]), bytes[|bytes| - 1])
  }

  lemma MulAddStep(d: nat, v: nat, carry: nat, w: nat, p: nat, c: nat)
    requires w + p * c == 256 * v + (d * 256 + carry) / 58
    ensures (d * 256 + carry) % 58 + 58 * w + (58 * p) * c == 256 * (d + 58 * v) + carry
  {
    MulAssoc(58, p, c);
    var n := d * 256 + carry;
    assert 58 * (w + p * c) == 58 * w + 58 * (p * c);
    assert 58 * (256 * v + n / 58) == 256 * (58 * v) + 58 * (n / 58);
  }

  lemma {:induction false} MulAddValue(ds: seq<Digit>, carry: nat)
    ensures Value(MulAdd(ds, carry).0) + Pow(58, |ds|) * MulAdd(ds, carry).1 == 256 * Value(ds) + carry
  {
    if ds != [] {
      var n := ds[0] * 256 + carry;
      MulAddValue(ds[1..], n / 58);
      var rest := MulAdd(ds[1..], n / 58);
      assert ([n % 58] + rest.0)[1..] == rest.0;
      MulAddStep(ds[0], Value(ds[1..]), carry, Value(rest.0), Pow(58, |ds| - 1), rest.1);
    }
  }

  lemma {:induction false} DigitsValue(carry: nat)
    ensures Value(Digits(carry)) == carry && Canonical(Digits(carry))
  {
    if carry > 0 {
      DigitsValue(carry / 58);
      assert Digits(carry)[1..] == Digits(carry / 58);
    }
  }

  /** A nonzero leading digit always carries out. */
  lemma {:induction false} CarriesOut(ds: seq<Digit>, carry: nat)
    requires ds != [] && Canonical(ds)
    ensures MulAdd(ds, carry).1 > 0
  {
    if |ds| > 1 { CarriesOut(ds[1..], (ds[0] * 256 + carry) / 58); }
  }

  lemma PushValue(ds: seq<Digit>, b: nat)
    requires Canonical(ds)
    ensures Value(Push(ds, b)) == 256 * Value(ds) + b && Canonical(Push(ds, b))
  {
    var (out, c) := MulAdd(ds, b);
    MulAddValue(ds, b);
    DigitsValue(c);
    ValueConcat(out, Digits(c));
    if ds != [] { CarriesOut(ds, b); }
  }

  /** The digits denote the bytes consumed, without leading zeros. */
  lemma {:induction false} EncodeValue(bytes: seq<byte>)
    ensures Value(Encode(bytes)) == BigEndian(bytes) && Canonical(Encode(bytes))
  {
    if bytes != [] {
      EncodeValue(bytes[..|bytes| - 1]);
      PushValue(Encode(bytes[..|bytes| - 1]), bytes[|bytes| - 1]);
    }
  }

  // ------------------------------------------------------------------- bounds

  lemma {:induction false} CanonicalLower(ds: seq<Digit>)
    requires ds != [] && Canonical(ds)
    ensures Value(ds) >= Pow(58, |ds| - 1)
  {
    if |ds| > 1 { CanonicalLower(ds[1..]); }
  }

  lemma Pow256()
    ensures Pow(256, 8) == 0x1_0000_0000_0000_0000 && Pow(256, 2) == 0x1_0000
  {
    U64Range();
  }

  lemma Pow58()
    ensures Pow(58, 3) == 195_112 && Pow(58, 11) == 24_986_644_000_165_537_792
  {
    assert Pow(58, 4) == 11_316_496;
    PowAdd(58, 4, 4);
    PowAdd(58, 8, 3);
  }

  lemma Fits()
    ensures Pow(256, 34) < Pow(58, 47)
  {
    Pow256();
    Pow58();
    PowAdd(256, 8, 8);
    PowAdd(256, 16, 16);
    PowAdd(256, 32, 2);
    PowAdd(58, 11, 11);
    PowAdd(58, 22, 22);
    PowAdd(58, 44, 3);
    hide Pow;
  }

  /** 34 bytes never need more than 47 digits, so the array bound holds. */
  lemma EncodeLength(bytes: seq<byte>)
    requires |bytes| <= 34
    ensures |Encode(bytes)| <= 47
  {
    EncodeValue(bytes);
    BigEndianUpper(bytes);
    PowMono(256, |bytes|, 34);
    Fits();
    var ds := Encode(bytes);
    if |ds| > 47 {
      CanonicalLower(ds);
      PowMono(58, 47, |ds| - 1);
    }
  }

  // ---------------------------------------------------------------- the loops

  /** One turn of the inner loop. */
  lemma MulAddTurn(ds: seq<Digit>, i: nat, carry: nat, done: seq<Digit>)
    requires i < |ds|
    ensures var n := ds[i] * 256 + carry;
            var rest := MulAdd(ds[i + 1..], n / 58);
            && MulAdd(ds[i..], carry).1 == rest.1
            && done + MulAdd(ds[i..], carry).0 == (done + [n % 58]) + rest.0
  {
    assert ds[i..][0] == ds[i] && ds[i..][1..] == ds[i + 1..];
    var n := ds[i] * 256 + carry;
    Assoc(done, [n % 58], MulAdd(ds[i + 1..], n / 58).0);
  }

  lemma MulAddEnd(ds: seq<Digit>, carry: nat)
    ensures MulAdd(ds[|ds|..], carry) == ([], carry)
  {}

  /** The inner loop, over the digits in use. The carry stays below 256. */
  method MulAddInPlace(digits: array<Digit>, used: nat, b: byte) returns (carry: nat)
    requires used <= digits.Length
    modifies digits
    ensures (digits[..used], carry) == MulAdd(old(digits[..used]), b)
    ensures digits[used..] == old(digits[used..])
    ensures carry < 256
  {
    carry := b;
    ghost var before, whole := digits[..used], MulAdd(digits[..used], b);
    assert before[0..] == before;
    hide MulAdd;
    for i := 0 to used
      invariant carry < 256
      invariant forall m :: i <= m < digits.Length ==> digits[m] == old(digits[m])
      invariant whole.0 == digits[..i] + MulAdd(before[i..], carry).0 && whole.1 == MulAdd(before[i..], carry).1
    {
      var n := digits[i] * 256 + carry;
      assert n < 14_848;
      MulAddTurn(before, i, carry, digits[..i]);
      ghost var done := digits[..i];
      digits[i] := n % 58;
      carry := n / 58;
      assert digits[..i + 1] == done + [n % 58];
    }
    assert digits[used..] == old(digits[used..]);
    MulAddEnd(before, carry);
    assert whole.0 == digits[..used];
  }

  /** The carry loop. The array bound is this precondition. */
  method AppendCarry(digits: array<Digit>, used: nat, carry: nat) returns (used': nat)
    requires used + |Digits(carry)| <= digits.Length
    modifies digits
    ensures used' == used + |Digits(carry)|
    ensures digits[..used'] == old(digits[..used]) + Digits(carry)
  {
    used' := used;
    var c := carry;
    while c > 0
      invariant used <= used' && used' + |Digits(c)| == used + |Digits(carry)|
      invariant digits[..used'] + Digits(c) == old(digits[..used]) + Digits(carry)
    {
      assert used' < digits.Length;
      ghost var done := digits[..used'];
      Assoc(done, [c % 58], Digits(c / 58));
      digits[used'] := c % 58;
      used' := used' + 1;
      assert digits[..used'] == done + [c % 58];
      c := c / 58;
    }
  }

  /** The multicodec tag of an Ed25519 public key, then the key. */
  function Input(key: seq<byte>): seq<byte> {
    [0xed, 0x01] + key
  }

  /** The base58btc alphabet: 1-9, then A-Z without I and O, then a-z without l. */
  function Letter(d: Digit): char {
    if d < 9 then '1' + d as char
    else if d < 17 then 'A' + (d - 9) as char
    else if d < 22 then 'J' + (d - 17) as char
    else if d < 33 then 'P' + (d - 22) as char
    else if d < 44 then 'a' + (d - 33) as char
    else 'm' + (d - 44) as char
  }

  /** Most significant digit first. */
  function Letters(ds: seq<Digit>): string {
    if ds == [] then "" else [Letter(ds[|ds| - 1])] + Letters(ds[..|ds| - 1])
  }

  /** The output loop, from the last digit down. */
  method Spell(ds: seq<Digit>) returns (out: string)
    ensures out == Letters(ds)
  {
    out := "";
    assert ds[..|ds|] == ds;
    for i := |ds| downto 0
      invariant out + Letters(ds[..i]) == Letters(ds)
    {
      assert ds[..i + 1][..i] == ds[..i];
      Assoc(out, [Letter(ds[i])], Letters(ds[..i]));
      out := out + [Letter(ds[i])];
    }
  }

  lemma EncodeNone(input: seq<byte>)
    ensures Encode(input[..0]) == []
  {}

  lemma EncodePush(input: seq<byte>, k: nat)
    requires k < |input|
    ensures Encode(input[..k + 1]) == Push(Encode(input[..k]), input[k])
  {
    assert input[..k + 1][..k] == input[..k];
  }

  /** `did_for_key` */
  method DidForKey(key: seq<byte>) returns (did: string)
    requires |key| == 32
    ensures did == PREFIX + Letters(Encode(Input(key)))
    ensures |did| == 56 && did[..12] == "did:key:z6Mk"
  {
    var input := Input(key);
    var digits := new Digit[CAPACITY](_ => 0);
    var used: nat := 0;
    EncodeNone(input);
    hide Encode, MulAdd, Digits, Letters;
    for k := 0 to |input|
      invariant used <= CAPACITY && digits[..used] == Encode(input[..k])
    {
      EncodeLength(input[..k + 1]);
      EncodePush(input, k);
      var carry := MulAddInPlace(digits, used, input[k]);
      used := AppendCarry(digits, used, carry);
    }
    assert input[..|input|] == input;
    var letters := Spell(digits[..used]);
    did := PREFIX + letters;
    DidSpells(key);
    DidStarts(letters);
  }

  // ------------------------------------------------------ what an identifier says

  /** The digit a letter stands for. */
  function Place(c: char): int {
    if c <= '9' then c as int - '1' as int
    else if c <= 'H' then c as int - 'A' as int + 9
    else if c <= 'N' then c as int - 'J' as int + 17
    else if c <= 'Z' then c as int - 'P' as int + 22
    else if c <= 'k' then c as int - 'a' as int + 33
    else c as int - 'm' as int + 44
  }

  /** The alphabet is that of base58btc: all digits and letters but 0, O, I and l,
      in the order of their codes. */
  lemma Alphabet(c: Digit, d: Digit, ch: char)
    ensures c < d <==> Letter(c) < Letter(d)
    ensures ('1' <= ch <= '9' || ('A' <= ch <= 'Z' && ch != 'I' && ch != 'O') || ('a' <= ch <= 'z' && ch != 'l')) <==>
            exists x: Digit :: Letter(x) == ch
  {
    if '1' <= ch <= '9' || ('A' <= ch <= 'Z' && ch != 'I' && ch != 'O') || ('a' <= ch <= 'z' && ch != 'l') {
      assert Letter(Place(ch)) == ch;
    }
  }

  /** Most significant digit first. */
  lemma {:induction false} LettersAre(ds: seq<Digit>)
    ensures |Letters(ds)| == |ds|
    ensures forall i :: 0 <= i < |ds| ==> Letters(ds)[i] == Letter(ds[|ds| - 1 - i])
  {
    if ds != [] {
      hide Letter;
      var init := ds[..|ds| - 1];
      LettersAre(init);
      forall i | 0 <= i < |ds| ensures Letters(ds)[i] == Letter(ds[|ds| - 1 - i]) {
        if i > 0 { assert Letters(ds)[i] == Letters(init)[i - 1] == Letter(init[|init| - 1 - (i - 1)]); }
      }
    }
  }

  lemma {:induction false} ValueUpper(ds: seq<Digit>)
    ensures Value(ds) < Pow(58, |ds|)
  {
    if ds != [] { ValueUpper(ds[1..]); }
  }

  lemma TagBounds()
    ensures 18_023 * Pow(58, 44) <= 0xed01 * Pow(256, 32) && 0xed02 * Pow(256, 32) <= 18_024 * Pow(58, 44)
  {
    Pow256();
    Pow58();
    PowAdd(256, 8, 8);
    PowAdd(256, 16, 16);
    PowAdd(58, 11, 11);
    PowAdd(58, 22, 22);
    hide Pow;
  }

  /** The tag weighs most: it decides the leading three of 47 digits. */
  lemma TagRange(key: seq<byte>)
    requires |key| == 32
    ensures 18_023 * Pow(58, 44) <= BigEndian([0xed, 0x01] + key) < 18_024 * Pow(58, 44)
  {
    hide BigEndian, Pow;
    assert [0xed, 0x01] + key == [0xed] + ([0x01] + key);
    BigEndianLead(0xed, [0x01] + key);
    BigEndianLead(0x01, key);
    BigEndianUpper(key);
    PowNext(256, 32);
    TagBounds();
  }

  lemma PowNext(base: nat, e: nat)
    ensures Pow(base, e + 1) == base * Pow(base, e)
  {}

  lemma QuotientIs(p: nat, rest: nat, x: nat, y: nat)
    requires rest < p && y * p <= rest + p * x < (y + 1) * p
    ensures x == y
  {
    if x < y { Gap(p, x, y); }
    if y < x { Gap(p, y, x); }
  }

  lemma Gap(p: nat, x: nat, y: nat)
    requires x < y
    ensures p * x + p <= p * y
  {
    var k := y - x - 1;
    assert p * y == p * x + p + p * k;
  }

  lemma ThreeDigits(top: seq<Digit>)
    requires |top| == 3 && Value(top) == 18_023
    ensures top == [43, 20, 5]
  {
    var x: nat, y: nat, z: nat := top[0], top[1], top[2];
    assert top[1..][1..] == top[2..] == [top[2]] && [top[2]][1..] == [];
    assert Value([top[2]]) == z;
    assert Value(top[1..]) == y + 58 * z;
    assert Value(top) == x + 58 * (y + 58 * z);
  }

  lemma TopDigits(ds: seq<Digit>)
    requires |ds| == 47 && 18_023 * Pow(58, 44) <= Value(ds) < 18_024 * Pow(58, 44)
    ensures ds[44..] == [43, 20, 5]
  {
    assert ds == ds[..44] + ds[44..];
    ValueConcat(ds[..44], ds[44..]);
    ValueUpper(ds[..44]);
    hide Pow, Value;
    QuotientIs(Pow(58, 44), Value(ds[..44]), Value(ds[44..]), 18_023);
    ThreeDigits(ds[44..]);
  }

  lemma LongEnough(ds: seq<Digit>, n: nat)
    requires Value(ds) >= Pow(58, n)
    ensures |ds| > n
  {
    ValueUpper(ds);
    if |ds| <= n { PowMono(58, |ds|, n); }
  }

  lemma DigitCount(key: seq<byte>)
    requires |key| == 32
    ensures |Encode([0xed, 0x01] + key)| == 47
  {
    EncodeLength([0xed, 0x01] + key);
    EncodeValue([0xed, 0x01] + key);
    TagRange(key);
    PowAdd(58, 44, 2);
    assert Pow(58, 2) == 3_364;
    hide Pow, Encode, Value, BigEndian;
    LongEnough(Encode([0xed, 0x01] + key), 46);
  }

  /** Every identifier of a key has 47 letters, which spell the big-endian number of
      the tagged key in base 58, and start with `6Mk`. */
  lemma DidSpells(key: seq<byte>)
    requires |key| == 32
    ensures var ds, letters := Encode(Input(key)), Letters(Encode(Input(key)));
            && |letters| == |ds| == 47 && Value(ds) == BigEndian([0xed, 0x01] + key)
            && letters[..3] == "6Mk"
            && forall i :: 0 <= i < 47 ==> letters[i] == Letter(ds[46 - i])
  {
    hide Letters, Encode, BigEndian, Value;
    DigitCount(key);
    EncodeValue(Input(key));
    TagRange(key);
    SixMk(Encode(Input(key)));
    LettersAre(Encode(Input(key)));
  }

  lemma SixMk(ds: seq<Digit>)
    requires |ds| == 47 && 18_023 * Pow(58, 44) <= Value(ds) < 18_024 * Pow(58, 44)
    ensures |Letters(ds)| == 47 && Letters(ds)[..3] == "6Mk"
  {
    TopDigits(ds);
    LettersAre(ds);
    hide Letters, Value;
    assert ds[46] == ds[44..][2] && ds[45] == ds[44..][1] && ds[44] == ds[44..][0];
  }

  lemma DidStarts(letters: string)
    requires |letters| == 47 && letters[..3] == "6Mk"
    ensures |PREFIX + letters| == 56 && (PREFIX + letters)[..12] == "did:key:z6Mk"
  {
    assert (PREFIX + letters)[..12] == PREFIX + letters[..3];
  }

  // -------------------------------------------------------------- injectivity

  lemma PlaceOfLetter(d: Digit)
    ensures Place(Letter(d)) == d
  {}

  lemma {:induction false} LettersInjective(a: seq<Digit>, b: seq<Digit>)
    requires Letters(a) == Letters(b)
    ensures a == b
  {
    if a != [] && b != [] {
      hide Letter, Place;
      var x, y := a[|a| - 1], b[|b| - 1];
      assert Letters(a)[0] == Letter(x) && Letters(b)[0] == Letter(y);
      assert Letters(a)[1..] == Letters(a[..|a| - 1]) && Letters(b)[1..] == Letters(b[..|b| - 1]);
      LettersInjective(a[..|a| - 1], b[..|b| - 1]);
      PlaceOfLetter(x);
      PlaceOfLetter(y);
      assert a == a[..|a| - 1] + [x] && b == b[..|b| - 1] + [y];
    }
  }

  /** Distinct keys have distinct identifiers. */
  lemma DidInjective(key: seq<byte>, other: seq<byte>)
    requires |key| == |other| == 32
    requires PREFIX + Letters(Encode(Input(key))) == PREFIX + Letters(Encode(Input(other)))
    ensures key == other
  {
    var a, b := Letters(Encode(Input(key))), Letters(Encode(Input(other)));
    assert (PREFIX + a)[|PREFIX|..] == a && (PREFIX + b)[|PREFIX|..] == b;
    LettersInjective(Encode(Input(key)), Encode(Input(other)));
    EncodeValue(Input(key));
    EncodeValue(Input(other));
    BigEndianInjective(Input(key), Input(other));
    assert Input(key)[2..] == key && Input(other)[2..] == other;
  }
}
