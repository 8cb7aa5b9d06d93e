/** What the check of a certificate detects, and the decoder that keeps twelve bits. */
module CertificateCheck {

  import opened Digits
  import opened Crc4
  import opened Certificate
  import opened Wrappers

  // ----- the 180 bits of a text

  function TextBits(v: seq<nat>): (s: seq<bool>)
    ensures |s| == 5 * |v|
  {
    if |v| == 0 then [] else TextBits(v[..|v| - 1]) + BitsOf(v[|v| - 1], 5)
  }

  lemma HalfOfSum(h: nat, l: nat, p: nat)
    ensures (h * (2 * p) + l) / 2 == h * p + l / 2 && (h * (2 * p) + l) % 2 == l % 2
  {
    assert h * (2 * p) == 2 * (h * p);
  }

  lemma {:induction false} BitsAppend(h: nat, l: nat, n: nat, k: nat)
    requires l < Power(2, k)
    ensures BitsOf(h * Power(2, k) + l, n + k) == BitsOf(h, n) + BitsOf(l, k)
    decreases k
  {
    var v := h * Power(2, k) + l;
    if k == 0 {
      assert v == h;
      assert BitsOf(l, k) == [];
    } else {
      var p := Power(2, k - 1);
      HalfOfSum(h, l, p);
      BitsAppend(h, l / 2, n, k - 1);
      BitsStep(v, n + k - 1);
      BitsStep(l, k - 1);
    }
  }

  lemma SmallPowers()
    ensures Power(2, 4) == 16 && Power(2, 5) == 32 && Power(2, 8) == 256
  {
    assert Power(2, 1) == 2 && Power(2, 2) == 4 && Power(2, 3) == 8;
    assert Power(2, 6) == 64 && Power(2, 7) == 128;
  }

  lemma {:induction false} TextBitsAre(v: seq<nat>)
    requires AreDigits(v, 32)
    ensures TextBits(v) == BitsOf(FromDigits(v, 32), 5 * |v|)
  {
    if |v| > 0 {
      var h, l := v[..|v| - 1], v[|v| - 1];
      TextBitsAre(h);
      SmallPowers();
      BitsAppend(FromDigits(h, 32), l, 5 * |h|, 5);
    }
  }

  lemma {:induction false} OctetBitsAre(d: seq<Octet>)
    ensures OctetBits(d) == BitsOf(FromDigits(d, 256), 8 * |d|)
  {
    if |d| > 0 {
      var h, l := d[..|d| - 1], d[|d| - 1];
      OctetBitsAre(h);
      SmallPowers();
      BitsAppend(FromDigits(h, 256), l, 8 * |h|, 8);
    }
  }

  lemma NibbleBits(number: nat, n: nat)
    ensures BitsOf(number, n + 4) == BitsOf(number / 16, n) + BitsOf(number % 16, 4)
  {
    SmallPowers();
    BitsAppend(number / 16, number % 16, n, 4);
  }

  /** The bits of a text are those of its octets and then those of its check nibble. */
  lemma BitsOfText(v: seq<nat>, data: seq<Octet>, number: nat)
    requires AreDigits(v, 32) && number == FromDigits(v, 32) && 5 * |v| == 8 * |data| + 4
    requires FromDigits(data, 256) == number / 16
    ensures TextBits(v) == OctetBits(data) + BitsOf(number % 16, 4)
  {
    TextBitsAre(v);
    OctetBitsAre(data);
    NibbleBits(number, 8 * |data|);
  }

  /** The 36 characters of a certificate are its octets and then its check nibble, five bits each,
      the first bit first. */
  lemma TextOfBits(data: seq<Octet>)
    requires |data| == 22
    ensures TextBits(Values(RawText(data))) == OctetBits(data) + BitsOf(Number(Check(data)), 4)
  {
    Sizes();
    TextNumberFits(data, 36, 22);
    var number := TextNumber(data);
    TextOfNumber(number, 36);
    BitsOfText(Values(Characters(ToDigits(number, 32, 36))), data, number);
  }

  predicate Passes(clean: string) {
    ParseClean(clean).Ok? && ParseClean(clean).value.checkOk
  }

  lemma PassesMeans(clean: string, v: nat)
    requires |clean| == 36 && AllBase32(clean) && v == FromDigits(Values(clean), 32)
    ensures Passes(clean) <==> Number(Check(Octets(v / 16, 22))) == v % 16
  {
  }

  lemma DataOfText(clean: string, v: nat)
    requires |clean| == 36 && AllBase32(clean) && v == FromDigits(Values(clean), 32)
    ensures FromDigits(Octets(v / 16, 22), 256) == v / 16
  {
    NumberOfCharacters(clean);
    Sizes();
    DataNumber(v, 36, 22);
  }

  /** A text passes the check when the remainder of its 180 bits, data and check alike, is zero. */
  lemma PassesWhenZero(clean: string)
    requires |clean| == 36 && AllBase32(clean)
    ensures Passes(clean) <==> Remainder(ZERO, TextBits(Values(clean))) == ZERO
  {
    var v := FromDigits(Values(clean), 32);
    PassesMeans(clean, v);
    DataOfText(clean, v);
    ZeroWhenEqual(Values(clean), Octets(v / 16, 22), v);
  }

  lemma ZeroWhenEqual(v: seq<nat>, data: seq<Octet>, number: nat)
    requires AreDigits(v, 32) && number == FromDigits(v, 32) && 5 * |v| == 8 * |data| + 4
    requires FromDigits(data, 256) == number / 16
    ensures Number(Check(data)) == number % 16 <==> Remainder(ZERO, TextBits(v)) == ZERO
  {
    BitsOfText(v, data, number);
    CodeWord(data, number % 16);
  }

  lemma DataNumber(v: nat, n: nat, m: nat)
    requires v < Power(32, n) == 16 * Power(256, m)
    ensures FromDigits(Octets(v / 16, m), 256) == v / 16
  {
    DigitsOfNumber(v / 16, 256, m);
    assert Octets(v / 16, m) == ToDigits(v / 16, 256, m);
  }

  // ----- one character replaced, two neighbours swapped

  lemma Assoc(a: seq<bool>, b: seq<bool>, c: seq<bool>)
    ensures (a + b) + c == a + (b + c)
  {
  }

  lemma {:induction false} TextBitsAppend(a: seq<nat>, b: seq<nat>)
    ensures TextBits(a + b) == TextBits(a) + TextBits(b)
  {
    if |b| == 0 {
      assert a + b == a;
    } else {
      var c, l := b[..|b| - 1], b[|b| - 1];
      TextBitsAppend(a, c);
      assert (a + b)[..|a + b| - 1] == a + c && (a + b)[|a + b| - 1] == l;
      Assoc(TextBits(a), TextBits(c), BitsOf(l, 5));
    }
  }

  lemma TextBitsOne(c: nat)
    ensures TextBits([c]) == BitsOf(c, 5)
  {
    assert [c][..0] == [];
    assert TextBits([]) == [];
  }

  /** The remainder of a text with a part in the middle. */
  lemma RemainderAround(a: seq<nat>, b: seq<nat>, c: seq<nat>)
    ensures Remainder(ZERO, TextBits(a + b + c)) ==
      Remainder(Remainder(Remainder(ZERO, TextBits(a)), TextBits(b)), TextBits(c))
  {
    TextBitsAppend(a + b, c);
    TextBitsAppend(a, b);
    Concat(ZERO, TextBits(a) + TextBits(b), TextBits(c));
    Concat(ZERO, TextBits(a), TextBits(b));
  }

  lemma ReplaceDigit(a: seq<nat>, x: nat, y: nat, c: seq<nat>)
    requires x < 32 && y < 32 && x != y
    requires Remainder(ZERO, TextBits(a + [x] + c)) == ZERO
    ensures Remainder(ZERO, TextBits(a + [y] + c)) == ZERO <==> BitXor(x, y, 5) == POLYNOMIAL
  {
    var r := Remainder(ZERO, TextBits(a));
    RemainderAround(a, [x], c);
    RemainderAround(a, [y], c);
    TextBitsOne(x);
    TextBitsOne(y);
    RemainderInjective(Remainder(r, BitsOf(x, 5)), Remainder(r, BitsOf(y, 5)), TextBits(c));
    CharacterReplaced(r, x, y);
  }

  lemma ReplacedValues(clean: string, i: nat, c: char)
    requires |clean| == 36 && AllBase32(clean) && i < 36 && IsBase32(c)
    ensures AllBase32(clean[i := c])
    ensures Values(clean) == Values(clean)[..i] + [IndexOf(clean[i])] + Values(clean)[i + 1..]
    ensures Values(clean[i := c]) == Values(clean)[..i] + [IndexOf(c)] + Values(clean)[i + 1..]
  {
  }

  /** With one character replaced a passing text passes again exactly when the two five-bit values differ by 10011. */
  lemma ReplaceOne(clean: string, i: nat, c: char)
    requires Passes(clean) && i < 36 && IsBase32(c) && c != clean[i]
    ensures Passes(clean[i := c]) <==> BitXor(IndexOf(clean[i]), IndexOf(c), 5) == POLYNOMIAL
  {
    var v := Values(clean);
    ReplacedValues(clean, i, c);
    AlphabetIs(c);
    AlphabetIs(clean[i]);
    PassesWhenZero(clean);
    PassesWhenZero(clean[i := c]);
    ReplaceDigit(v[..i], IndexOf(clean[i]), IndexOf(c), v[i + 1..]);
  }

  function Swapped(t: string, i: nat): (s: string)
    requires i + 1 < |t|
    ensures |s| == |t|
  {
    t[i := t[i + 1]][i + 1 := t[i]]
  }

  lemma TwoBits(r: Reg, a: nat, b: nat)
    ensures Remainder(r, TextBits([a, b])) == Remainder(Remainder(r, BitsOf(a, 5)), BitsOf(b, 5))
  {
    assert [a, b] == [a] + [b];
    TextBitsAppend([a], [b]);
    TextBitsOne(a);
    TextBitsOne(b);
    Concat(r, BitsOf(a, 5), BitsOf(b, 5));
  }

  lemma SwapDigits(a: seq<nat>, x: nat, y: nat, c: seq<nat>)
    requires x < 32 && y < 32 && x != y
    requires Remainder(ZERO, TextBits(a + [x, y] + c)) == ZERO
    ensures Remainder(ZERO, TextBits(a + [y, x] + c)) == ZERO <==> BitXor(x, y, 5) == POLYNOMIAL
  {
    var r := Remainder(ZERO, TextBits(a));
    RemainderAround(a, [x, y], c);
    RemainderAround(a, [y, x], c);
    TwoBits(r, x, y);
    TwoBits(r, y, x);
    RemainderInjective(Remainder(r, TextBits([x, y])), Remainder(r, TextBits([y, x])), TextBits(c));
    CharactersSwapped(r, x, y);
  }

  lemma SwappedValues(clean: string, i: nat)
    requires |clean| == 36 && AllBase32(clean) && i + 1 < 36
    ensures AllBase32(Swapped(clean, i))
    ensures Values(clean) == Values(clean)[..i] + [Values(clean)[i], Values(clean)[i + 1]] + Values(clean)[i + 2..]
    ensures Values(Swapped(clean, i))
            == Values(clean)[..i] + [Values(clean)[i + 1], Values(clean)[i]] + Values(clean)[i + 2..]
  {
  }

  /** The same holds when two different neighbours change places. */
  lemma SwapNeighbours(clean: string, i: nat)
    requires Passes(clean) && i + 1 < 36 && clean[i] != clean[i + 1]
    ensures Passes(Swapped(clean, i)) <==> BitXor(IndexOf(clean[i]), IndexOf(clean[i + 1]), 5) == POLYNOMIAL
  {
    var v := Values(clean);
    SwappedValues(clean, i);
    AlphabetIs(clean[i]);
    AlphabetIs(clean[i + 1]);
    PassesWhenZero(clean);
    PassesWhenZero(Swapped(clean, i));
    SwapDigits(v[..i], v[i], v[i + 1], v[i + 2..]);
  }

  // ----- the decoder that keeps twelve bits

  /** 2^bits, for the at most twelve bits the accumulator holds. */
  function Mask(bits: nat): nat { Power(2, bits) }

  /** The octets and the left-over bits after some characters. */
  ghost predicate Streamed(number: nat, chars: nat, bits: nat, acc: nat, bytes: seq<Octet>) {
    && 5 * chars == 8 * |bytes| + bits
    && bits < 8
    && acc == number % Mask(bits)
    && bytes == Octets(number / Mask(bits), |bytes|)
  }

  lemma MaskIs(bits: nat)
    requires bits < 8
    ensures Mask(bits) == [1, 2, 4, 8, 16, 32, 64, 128][bits]
  {
    SmallPowers();
    assert Power(2, 0) == 1 && Power(2, 1) == 2 && Power(2, 2) == 4 && Power(2, 3) == 8;
    assert Power(2, 6) == 64 && Power(2, 7) == 128;
    assert bits == 0 || bits == 1 || bits == 2 || bits == 3 || bits == 4 || bits == 5 || bits == 6 || bits == 7;
  }

  /** The accumulator after one more character: the low bits of the longer number. */
  lemma Shifted(number: nat, c: nat, m: nat)
    requires c < 32 && m > 0
    ensures (number % m) * 32 + c == (number * 32 + c) % (m * 32)
    ensures (number * 32 + c) / (m * 32) == number / m
  {
    var q, r := number / m, number % m;
    assert number == m * q + r;
    assert (m * q) * 32 == (m * 32) * q;
    QuotientIs(m * 32, q, r * 32 + c);
  }

  lemma Recombine(k: nat, q: nat, h: nat, l: nat)
    ensures k * (256 * q + h) + l == (k * 256) * q + (k * h + l)
  {
    assert k * (256 * q + h) == k * (256 * q) + k * h;
    assert k * (256 * q) == (k * 256) * q;
  }

  lemma LowPart(k: nat, q: nat, h: nat, l: nat)
    requires h < 256 && l < k
    ensures ((k * 256) * q + (k * h + l)) / (k * 256) == q
    ensures ((k * 256) * q + (k * h + l)) % (k * 256) == k * h + l
  {
    BoundIs(k, h, l, 256);
    QuotientIs(k * 256, q, k * h + l);
  }

  /** Cutting an octet off the top of the accumulator. */
  lemma CutOctet(number: nat, k: nat, high: nat, l: nat)
    requires k > 0 && high == number / k && l == number % k
    ensures number % (k * 256) == k * (high % 256) + l
    ensures (number % (k * 256)) / k == high % 256 && (number % (k * 256)) % k == l
    ensures high / 256 == number / (k * 256)
  {
    var q, h := high / 256, high % 256;
    assert number == k * high + l && high == 256 * q + h;
    Recombine(k, q, h, l);
    LowPart(k, q, h, l);
    QuotientIs(k, h, l);
  }

  /** The same, for the accumulator a and what the number becomes. */
  lemma CutAccumulator(number: nat, m: nat, k: nat, a: nat, rest: nat)
    requires m > 0 && k > 0 && m * 32 == k * 256 && a == number % (m * 32) && rest == number / (m * 32)
    ensures a / k % 256 == number / k % 256 && a % k == number % k && number / k / 256 == rest
  {
    CutOctet(number, k, number / k, number % k);
  }

  lemma OctetsStep(v: nat, n: nat)
    ensures Octets(v, n + 1) == Octets(v / 256, n) + [v % 256]
  {
    DigitsStep(v, 256, n);
  }

  method Stream(clean: string) returns (bytes: seq<Octet>, acc: nat)
    requires |clean| == 36 && AllBase32(clean)
    ensures bytes == Octets(FromDigits(Values(clean), 32) / 16, 22) && acc == FromDigits(Values(clean), 32) % 16
  {
    bytes, acc := [], 0;
    var bits := 0;
    ghost var number := 0;
    StreamStarts();
    for i := 0 to 36
      invariant number == FromDigits(Values(clean)[..i], 32) && Streamed(number, i, bits, acc, bytes)
    {
      assert Values(clean)[..i + 1][..i] == Values(clean)[..i];
      bits, acc, bytes := OneCharacter(IndexOf(clean[i]), bits, acc, bytes, number, i);
      number := number * 32 + IndexOf(clean[i]);
    }
    assert Values(clean)[..36] == Values(clean);
    MaskIs(4);
  }

  lemma StreamStarts()
    ensures Streamed(0, 0, 0, 0, [])
  {
    MaskIs(0);
  }

  /** The accumulator with one more character shifted in. */
  ghost predicate Loaded(longer: nat, bits: nat, acc: nat, bytes: seq<Octet>) {
    && bits < 8
    && acc == longer % (Mask(bits) * 32)
    && bytes == Octets(longer / (Mask(bits) * 32), |bytes|)
  }

  /** All whole octets are out; the low bits are still to be kept. */
  ghost predicate Taken(longer: nat, bits: nat, acc: nat, bytes: seq<Octet>) {
    && bits < 8
    && acc % Mask(bits) == longer % Mask(bits)
    && bytes == Octets(longer / Mask(bits), |bytes|)
  }

  function TopOctet(acc: nat, bits: nat): Octet { acc / Mask(bits) % 256 }

  lemma OctetComplete(longer: nat, bits: nat, left: nat, acc: nat, bytes: seq<Octet>)
    requires left == bits + 5 - 8 && Loaded(longer, bits, acc, bytes)
    ensures Taken(longer, left, acc, bytes + [TopOctet(acc, left)])
  {
    MaskIs(bits);
    MaskIs(left);
    CutAccumulator(longer, Mask(bits), Mask(left), acc, longer / (Mask(bits) * 32));
    OctetsStep(longer / Mask(left), |bytes|);
  }

  lemma NoOctetYet(longer: nat, bits: nat, more: nat, acc: nat, bytes: seq<Octet>)
    requires more == bits + 5 < 8 && Loaded(longer, bits, acc, bytes)
    ensures Taken(longer, more, acc, bytes)
  {
    MaskIs(bits);
    MaskIs(more);
    ModTwice(longer, Mask(more));
  }

  /** The inner loop: whole octets leave the top of the accumulator. */
  method TakeOctets(bits: nat, acc: nat, bytes: seq<Octet>, ghost longer: nat) returns (left: nat, bytes': seq<Octet>)
    requires Loaded(longer, bits, acc, bytes)
    ensures Taken(longer, left, acc, bytes') && bits + 5 + 8 * |bytes| == left + 8 * |bytes'|
  {
    left, bytes' := bits + 5, bytes;
    if left < 8 {
      NoOctetYet(longer, bits, left, acc, bytes);
    }
    while left >= 8
      invariant left >= 8 ==> left == bits + 5 && bytes' == bytes
      invariant left < 8 ==> Taken(longer, left, acc, bytes') && bits + 5 + 8 * |bytes| == left + 8 * |bytes'|
      decreases left
    {
      left := left - 8;
      OctetComplete(longer, bits, left, acc, bytes);
      bytes' := bytes' + [TopOctet(acc, left)];
    }
  }

  lemma ShiftIn(number: nat, chars: nat, c: nat, bits: nat, acc: nat, bytes: seq<Octet>)
    requires c < 32 && Streamed(number, chars, bits, acc, bytes)
    ensures Loaded(number * 32 + c, bits, acc * 32 + c, bytes)
  {
    Shifted(number, c, Mask(bits));
  }

  lemma KeepLow(longer: nat, chars: nat, bits: nat, acc: nat, bytes: seq<Octet>)
    requires Taken(longer, bits, acc, bytes) && 5 * chars == 8 * |bytes| + bits
    ensures Streamed(longer, chars, bits, acc % Mask(bits), bytes)
  {
  }

  /** The body of the loop over the characters. */
  method OneCharacter(c: nat, bits: nat, acc: nat, bytes: seq<Octet>, ghost number: nat, ghost chars: nat)
    returns (bits': nat, acc': nat, bytes': seq<Octet>)
    requires c < 32 && Streamed(number, chars, bits, acc, bytes)
    ensures Streamed(number * 32 + c, chars + 1, bits', acc', bytes')
  {
    ShiftIn(number, chars, c, bits, acc, bytes);
    acc' := acc * 32 + c;
    bits', bytes' := TakeOctets(bits, acc', bytes, number * 32 + c);
    KeepLow(number * 32 + c, chars + 1, bits', acc', bytes');
    acc' := acc' % Mask(bits');
  }

  lemma ModTwice(v: nat, m: nat)
    requires m > 0
    ensures v % m % m == v % m
  {
  }

  datatype Status = Empty | Incomplete | Malformed | BadCheck | Good

  /** The whole check of a normalised text. Where the one-number parser reads it, the verdict and the fields agree. */
  method CheckCertificate(text: string) returns (status: Status, serial: seq<Octet>, fdsk: seq<Octet>, check: nat)
    ensures status.Empty? <==> |text| == 0
    ensures status.Malformed? <==> !AllBase32(text) || |text| > 36
    ensures status.Incomplete? <==> AllBase32(text) && 0 < |text| < 36
    ensures ParseClean(text).Ok? <==> status.BadCheck? || status.Good?
    ensures ParseClean(text).Ok? ==> ParseClean(text) == Ok(Parsed(serial, fdsk, check, status.Good?))
  {
    serial, fdsk, check := [], [], 0;
    if |text| == 0 {
      return Empty, serial, fdsk, check;
    }
    for i := 0 to |text|
      invariant forall j :: 0 <= j < i ==> IsBase32(text[j])
    {
      if !IsBase32(text[i]) {
        return Malformed, serial, fdsk, check;
      }
    }
    if |text| < 36 {
      return Incomplete, serial, fdsk, check;
    }
    if |text| > 36 {
      return Malformed, serial, fdsk, check;
    }
    var data, left := Stream(text);
    var expected := CheckLoop(data);
    serial, fdsk, check := data[..6], data[6..], left;
    status := if check == expected then Good else BadCheck;
  }

  /** The other normalisation reads the digits 0, 1 and 8 as the letters they resemble. */
  function MapDigits(t: string): (s: string)
    ensures |s| == |t|
  {
    seq(|t|, i requires 0 <= i < |t| =>
      if t[i] == '0' then 'O' else if t[i] == '1' then 'I' else if t[i] == '8' then 'B' else t[i])
  }

  /** 0, 1 and 8 become O, I and B, and nothing else is touched. */
  lemma Resemblances(t: string, i: nat)
    requires i < |t|
    ensures t[i] in {'0', '1', '8'} <==> MapDigits(t)[i] != t[i]
    ensures MapDigits("018") == "OIB"
  {
    var s := MapDigits("018");
    assert |s| == 3 && s[0] == 'O' && s[1] == 'I' && s[2] == 'B';
  }

  /** On every text the strict parser reads, both normalisations agree. */
  lemma SameNormal(f: Folding, text: string)
    requires ParseCertificate(f, text).Ok?
    ensures MapDigits(Clean(f, text)) == Clean(f, text)
  {
  }
}
