/** The device certificate: 36 base32 characters (section 6 of RFC 4648) for a
    serial number, a key and a check nibble. One decoder builds one big number,
    the other keeps twelve bits at a time. */
module Certificate {

  import opened Digits
  import opened Crc4
  import opened Wrappers

  const ALPHABET := "ABCDEFGHIJKLMNOPQRSTUVWXYZ234567"

  predicate IsBase32(c: char) { 'A' <= c <= 'Z' || '2' <= c <= '7' }

  function IndexOf(c: char): (i: nat)
    requires IsBase32(c)
    ensures i < 32
  {
    if 'A' <= c <= 'Z' then c as int - 'A' as int else c as int - '2' as int + 26
  }

  lemma AlphabetIs(c: char)
    requires IsBase32(c)
    ensures ALPHABET[IndexOf(c)] == c
  {
  }

  /** The characters stand for their numbers in table 3 of RFC 4648. */
  lemma AlphabetTable(c: char)
    requires IsBase32(c)
    ensures "ABCDEFGHIJKLMNOPQRSTUVWXYZ234567"[IndexOf(c)] == c
    ensures IndexOf('A') == 0 && IndexOf('Z') == 25 && IndexOf('2') == 26 && IndexOf('7') == 31
  {
    AlphabetIs(c);
  }

  predicate AllBase32(t: string) { forall i :: 0 <= i < |t| ==> IsBase32(t[i]) }

  function Values(t: string): (v: seq<nat>)
    requires AllBase32(t)
    ensures |v| == |t| && AreDigits(v, 32)
  {
    seq(|t|, i requires 0 <= i < |t| => IndexOf(t[i]))
  }

  /** Text is read from its first character on. */
  lemma ValuesJoin(a: string, c: char)
    requires AllBase32(a) && IsBase32(c)
    ensures AllBase32(a + [c]) && Values(a + [c]) == Values(a) + [IndexOf(c)]
  {
  }

  function Characters(v: seq<nat>): (t: string)
    requires AreDigits(v, 32)
    ensures |t| == |v| && AllBase32(t)
  {
    seq(|v|, i requires 0 <= i < |v| => CharacterOf(v[i]))
  }

  function CharacterOf(i: nat): (c: char)
    requires i < 32
    ensures IsBase32(c) && IndexOf(c) == i
  {
    ALPHABET[i]
  }

  lemma CharactersOfValues(t: string)
    requires AllBase32(t)
    ensures Characters(Values(t)) == t
  {
    forall i | 0 <= i < |t|
      ensures Characters(Values(t))[i] == t[i]
    {
      AlphabetIs(t[i]);
    }
  }

  lemma ValuesOfCharacters(v: seq<nat>)
    requires AreDigits(v, 32)
    ensures Values(Characters(v)) == v
  {
    forall i | 0 <= i < |v|
      ensures Values(Characters(v))[i] == v[i]
    {
      assert IndexOf(CharacterOf(v[i])) == v[i];
    }
  }

  // ----- the text of a certificate

  /** The number that the text of some octets stands for. */
  function TextNumber(data: seq<Octet>): nat { FromDigits(data, 256) * 16 + Number(Check(data)) }

  /** The 36 characters before they are grouped. */
  function RawText(data: seq<Octet>): (t: string)
    ensures |t| == 36 && AllBase32(t)
  {
    AreDigitsOf(TextNumber(data), 32, 36);
    Characters(ToDigits(TextNumber(data), 32, 36))
  }

  /** Six groups of six characters. */
  function Dashed(t: string): string
    requires |t| == 36
  {
    t[..6] + "-" + t[6..12] + "-" + t[12..18] + "-" + t[18..24] + "-" + t[24..30] + "-" + t[30..]
  }

  function CertificateText(serial: seq<Octet>, fdsk: seq<Octet>): Result<string> {
    if |serial| != 6 || |fdsk| != 16 then Raises else Ok(Dashed(RawText(serial + fdsk)))
  }

  // ----- reading it: one big number

  /** What the platform calls white space, and its upper case of a character. */
  datatype Folding = Folding(space: char -> bool, upper: char -> string) {
    ghost predicate Proper() {
      forall c :: IsBase32(c) ==> !space(c) && upper(c) == [c]
    }
  }

  function Clean(f: Folding, t: string): string {
    if |t| == 0 then ""
    else (if f.space(t[0]) || t[0] == '-' then "" else f.upper(t[0])) + Clean(f, t[1..])
  }

  datatype Parsed = Parsed(serial: seq<Octet>, fdsk: seq<Octet>, check: nat, checkOk: bool)

  function Octets(v: nat, n: nat): (d: seq<Octet>)
    ensures |d| == n
  {
    AreDigitsOf(v, 256, n);
    seq(n, i requires 0 <= i < n => ToDigits(v, 256, n)[i])
  }

  function ParseClean(clean: string): Result<Parsed> {
    if |clean| != 36 || !AllBase32(clean) then Raises
    else
      var v := FromDigits(Values(clean), 32);
      var data := Octets(v / 16, 22);
      Ok(Parsed(data[..6], data[6..], v % 16, Number(Check(data)) == v % 16))
  }

  function ParseCertificate(f: Folding, text: string): Result<Parsed> { ParseClean(Clean(f, text)) }

  /** The loop of the parser. */
  method ReadNumber(clean: string) returns (value: nat)
    requires AllBase32(clean)
    ensures value == FromDigits(Values(clean), 32)
  {
    value := 0;
    for i := 0 to |clean|
      invariant value == FromDigits(Values(clean)[..i], 32)
    {
      assert Values(clean)[..i + 1][..i] == Values(clean)[..i];
      value := value * 32 + IndexOf(clean[i]);
    }
    assert Values(clean)[..|clean|] == Values(clean);
  }

  // ----- writing and reading are inverse

  /** What the first character becomes, and what the rest does. */
  lemma CleanFirst(f: Folding, c: char, rest: string)
    ensures Clean(f, [c] + rest) == (if f.space(c) || c == '-' then "" else f.upper(c)) + Clean(f, rest)
  {
    assert ([c] + rest)[1..] == rest;
  }

  lemma {:induction false} CleanAppend(f: Folding, a: string, b: string)
    ensures Clean(f, a + b) == Clean(f, a) + Clean(f, b)
  {
    if |a| == 0 {
      assert a + b == b;
    } else {
      var c, rest := a[0], a[1..];
      var x := if f.space(c) || c == '-' then "" else f.upper(c);
      CleanAppend(f, rest, b);
      assert a == [c] + rest && a + b == [c] + (rest + b);
      CleanFirst(f, c, rest);
      CleanFirst(f, c, rest + b);
      Associates(x, Clean(f, rest), Clean(f, b));
    }
  }

  lemma Associates(x: string, y: string, z: string)
    ensures x + (y + z) == (x + y) + z
  {
  }

  lemma CleanOne(f: Folding, c: char)
    ensures Clean(f, [c]) == if f.space(c) || c == '-' then "" else f.upper(c)
  {
    assert [c][1..] == "" && f.upper(c) + "" == f.upper(c);
  }

  /** White space and minus signs are dropped wherever they stand; every other character stays, in upper case. */
  lemma CleanCharacter(f: Folding, a: string, c: char, b: string)
    ensures f.space(c) || c == '-' ==> Clean(f, a + [c] + b) == Clean(f, a + b)
    ensures !(f.space(c) || c == '-') ==> Clean(f, a + [c] + b) == Clean(f, a) + f.upper(c) + Clean(f, b)
  {
    CleanAppend(f, a + [c], b);
    CleanAppend(f, a, [c]);
    CleanAppend(f, a, b);
    CleanOne(f, c);
    assert Clean(f, a) + "" == Clean(f, a);
  }

  lemma {:induction false} CleanBase32(f: Folding, t: string)
    requires f.Proper() && AllBase32(t)
    ensures Clean(f, t) == t
  {
    if |t| > 0 {
      CleanBase32(f, t[1..]);
      assert t == [t[0]] + t[1..];
      assert f.upper(t[0]) == [t[0]] && t[0] != '-';
    }
  }

  lemma CleanDash(f: Folding)
    ensures Clean(f, "-") == ""
  {
    assert "-"[1..] == "";
  }

  lemma CleanGroup(f: Folding, a: string, b: string)
    requires f.Proper() && AllBase32(b)
    ensures Clean(f, a + "-" + b) == Clean(f, a) + b
  {
    CleanAppend(f, a + "-", b);
    CleanAppend(f, a, "-");
    CleanDash(f);
    CleanBase32(f, b);
  }

  /** Six groups put together, with and without dashes. */
  lemma CleanGroups(f: Folding, a: string, b: string, c: string, d: string, e: string, g: string)
    requires f.Proper() && AllBase32(a) && AllBase32(b) && AllBase32(c) && AllBase32(d) && AllBase32(e) && AllBase32(g)
    ensures Clean(f, a + "-" + b + "-" + c + "-" + d + "-" + e + "-" + g) == a + b + c + d + e + g
  {
    CleanBase32(f, a);
    CleanGroup(f, a, b);
    CleanGroup(f, a + "-" + b, c);
    CleanGroup(f, a + "-" + b + "-" + c, d);
    CleanGroup(f, a + "-" + b + "-" + c + "-" + d, e);
    CleanGroup(f, a + "-" + b + "-" + c + "-" + d + "-" + e, g);
  }

  lemma CleanDashed(f: Folding, t: string)
    requires f.Proper() && |t| == 36 && AllBase32(t)
    ensures Clean(f, Dashed(t)) == t
  {
    CleanGroups(f, t[..6], t[6..12], t[12..18], t[18..24], t[24..30], t[30..]);
    assert t == t[..6] + t[6..12] + t[12..18] + t[18..24] + t[24..30] + t[30..];
  }

  lemma Sizes()
    ensures Power(32, 36) == 16 * Power(256, 22)
  {
    assert Power(32, 4) == 0x10_0000;
    assert Power(32, 8) == 0x100_0000_0000;
    assert Power(256, 4) == 0x1_0000_0000;
    assert Power(256, 5) == 0x100_0000_0000;
    PowerAdds(32, 8, 8);
    PowerAdds(32, 16, 16);
    PowerAdds(32, 32, 4);
    PowerAdds(256, 5, 5);
    PowerAdds(256, 10, 10);
    assert Power(256, 2) == 0x1_0000;
    PowerAdds(256, 20, 2);
  }

  lemma {:induction false} PowerAdds(base: nat, a: nat, b: nat)
    ensures Power(base, a + b) == Power(base, a) * Power(base, b)
  {
    if a > 0 {
      PowerAdds(base, a - 1, b);
      var p, q := Power(base, a - 1), Power(base, b);
      assert base * (p * q) == (base * p) * q;
    } else {
      assert 1 * Power(base, b) == Power(base, b);
    }
  }

  lemma OctetsOfNumber(data: seq<Octet>)
    ensures FromDigits(data, 256) < Power(256, |data|) && Octets(FromDigits(data, 256), |data|) == data
  {
    NumberOfDigits(data, 256);
  }

  lemma TextOfNumber(v: nat, n: nat)
    requires v < Power(32, n)
    ensures AreDigits(ToDigits(v, 32, n), 32)
    ensures FromDigits(Values(Characters(ToDigits(v, 32, n))), 32) == v
  {
    AreDigitsOf(v, 32, n);
    DigitsOfNumber(v, 32, n);
    ValuesOfCharacters(ToDigits(v, 32, n));
  }

  lemma NumberOfCharacters(t: string)
    requires AllBase32(t)
    ensures FromDigits(Values(t), 32) < Power(32, |t|)
    ensures Characters(ToDigits(FromDigits(Values(t), 32), 32, |t|)) == t
  {
    NumberOfDigits(Values(t), 32);
    CharactersOfValues(t);
  }

  lemma TextNumberFits(data: seq<Octet>, n: nat, m: nat)
    requires |data| == m && Power(32, n) == 16 * Power(256, m)
    ensures TextNumber(data) < Power(32, n)
    ensures TextNumber(data) / 16 == FromDigits(data, 256) && TextNumber(data) % 16 == Number(Check(data))
  {
    OctetsOfNumber(data);
  }

  lemma {:induction false} ParseNumber(clean: string, data: seq<Octet>)
    requires |clean| == 36 && AllBase32(clean) && |data| == 22 && FromDigits(Values(clean), 32) == TextNumber(data)
    ensures ParseClean(clean) == Ok(Parsed(data[..6], data[6..], Number(Check(data)), true))
  {
    var v := TextNumber(data);
    assert v / 16 == FromDigits(data, 256) && v % 16 == Number(Check(data));
    OctetsOfNumber(data);
  }

  /** Reading a written certificate gives the serial number and the key back, and the check matches. */
  lemma ParseText(f: Folding, serial: seq<Octet>, fdsk: seq<Octet>)
    requires f.Proper() && |serial| == 6 && |fdsk| == 16
    ensures ParseCertificate(f, CertificateText(serial, fdsk).value) ==
      Ok(Parsed(serial, fdsk, Number(Check(serial + fdsk)), true))
  {
    var data := serial + fdsk;
    CleanDashed(f, RawText(data));
    Sizes();
    TextNumberFits(data, 36, 22);
    TextOfNumber(TextNumber(data), 36);
    ParseNumber(RawText(data), data);
    assert data[..6] == serial && data[6..] == fdsk;
  }

  /** Writing what was read, when the check matches, gives the characters back. */
  lemma TextOfParsed(clean: string, serial: seq<Octet>, fdsk: seq<Octet>, check: nat)
    requires ParseClean(clean) == Ok(Parsed(serial, fdsk, check, true))
    ensures CertificateText(serial, fdsk) == Ok(Dashed(clean))
  {
    var v := FromDigits(Values(clean), 32);
    var data := Octets(v / 16, 22);
    assert serial + fdsk == data;
    NumberOfCharacters(clean);
    Sizes();
    ParsedNumber(v, 36, 22, data);
  }

  lemma ParsedNumber(v: nat, n: nat, m: nat, data: seq<Octet>)
    requires v < Power(32, n) == 16 * Power(256, m) && data == Octets(v / 16, m) && Number(Check(data)) == v % 16
    ensures TextNumber(data) == v
  {
    DigitsOfNumber(v / 16, 256, m);
    assert data == ToDigits(v / 16, 256, m);
  }
}
