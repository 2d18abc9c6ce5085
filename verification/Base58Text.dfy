/** Base 58 text: which strings there are for bytes, and which bytes a string stands for. */
module Base58Text {
  import opened Common
  import opened Base58Spec

  /** All letters and digits except 0, I, O and l. */
  const ALPHABET: string := "123456789" + "ABCDEFGH" + "JKLMN" + "PQRSTUVWXYZ" + "abcdefghijk" + "mnopqrstuvwxyz"

  // ---------- Characters ----------

  predicate IsSpace(c: char) { 9 <= c as int <= 13 || c == ' ' }

  /** Where a character first occurs, or the length if it does not. */
  function IndexOf(s: string, c: char): (k: nat)
    ensures k <= |s| && c !in s[..k] && (k < |s| ==> s[k] == c)
  {
    if s == [] || s[0] == c then 0 else
      assert forall k :: 0 <= k < |s| ==> s[..k + 1] == [s[0]] + s[1..][..k];
      1 + IndexOf(s[1..], c)
  }

  function DigitOf(c: char): nat { IndexOf(ALPHABET, c) }

  predicate IsDigit(c: char) { DigitOf(c) < 58 }

  /** The alphabet in order of character codes. */
  function Char(d: nat): char
    requires d < 58
  {
    if d < 9 then '1' + d as char
    else if d < 17 then 'A' + (d - 9) as char
    else if d < 22 then 'J' + (d - 17) as char
    else if d < 33 then 'P' + (d - 22) as char
    else if d < 44 then 'a' + (d - 33) as char
    else 'm' + (d - 44) as char
  }

  lemma Runs()
    ensures forall i :: 0 <= i < 9 ==> "123456789"[i] == '1' + i as char
    ensures forall i :: 0 <= i < 8 ==> "ABCDEFGH"[i] == 'A' + i as char
    ensures forall i :: 0 <= i < 5 ==> "JKLMN"[i] == 'J' + i as char
    ensures forall i :: 0 <= i < 11 ==> "PQRSTUVWXYZ"[i] == 'P' + i as char
    ensures forall i :: 0 <= i < 11 ==> "abcdefghijk"[i] == 'a' + i as char
    ensures forall i :: 0 <= i < 14 ==> "mnopqrstuvwxyz"[i] == 'm' + i as char
  {
  }

  lemma AlphabetIs(d: nat)
    requires d < 58
    ensures |ALPHABET| == 58 && ALPHABET[d] == Char(d)
  {
    Runs();
  }

  /** A digit is found where it is, and is never a space. */
  lemma DigitOfChar(d: nat)
    requires d < 58
    ensures DigitOf(Char(d)) == d && !IsSpace(Char(d)) && IsDigit(Char(d))
    ensures Char(d) == '1' <==> d == 0
  {
    AlphabetIs(d);
    forall k | 0 <= k < d
      ensures ALPHABET[k] != Char(d)
    {
      AlphabetIs(k);
    }
    FirstIndex(ALPHABET, Char(d), d);
  }

  lemma {:induction false} FirstIndex(s: string, c: char, d: nat)
    requires d < |s| && s[d] == c && forall k :: 0 <= k < d ==> s[k] != c
    ensures IndexOf(s, c) == d
    decreases d
  {
    if d > 0 {
      FirstIndex(s[1..], c, d - 1);
    }
  }

  lemma CharOfDigit(c: char)
    requires IsDigit(c)
    ensures Char(DigitOf(c)) == c && !IsSpace(c) && (c == '1' <==> DigitOf(c) == 0)
  {
    AlphabetIs(DigitOf(c));
    DigitOfChar(DigitOf(c));
  }

  /** The alphabet has the digits, then the capital and the small letters, in the order of their codes, and leaves out
      exactly those that are easily mistaken for others. */
  lemma AlphabetInOrder()
    ensures |ALPHABET| == 58 && forall i, k :: 0 <= i < k < 58 ==> ALPHABET[i] < ALPHABET[k]
    ensures forall c :: c in ALPHABET <==>
              ('0' <= c <= '9' || 'A' <= c <= 'Z' || 'a' <= c <= 'z') && c != '0' && c != 'I' && c != 'O' && c != 'l'
  {
    hide ALPHABET;
    forall i, k | 0 <= i < k < 58
      ensures |ALPHABET| == 58 && ALPHABET[i] < ALPHABET[k]
    {
      AlphabetIs(i);
      AlphabetIs(k);
    }
    AlphabetIs(0);
    forall c | c in ALPHABET
      ensures ('0' <= c <= '9' || 'A' <= c <= 'Z' || 'a' <= c <= 'z') && c != '0' && c != 'I' && c != 'O' && c != 'l'
    {
      var k :| 0 <= k < 58 && ALPHABET[k] == c;
      AlphabetIs(k);
    }
    forall c | ('0' <= c <= '9' || 'A' <= c <= 'Z' || 'a' <= c <= 'z') && c != '0' && c != 'I' && c != 'O' && c != 'l'
      ensures c in ALPHABET
    {
      AlphabetIs(Place(c));
    }
  }

  /** Where a letter or digit stands in the alphabet. */
  function Place(c: char): (d: nat)
    requires ('0' <= c <= '9' || 'A' <= c <= 'Z' || 'a' <= c <= 'z') && c != '0' && c != 'I' && c != 'O' && c != 'l'
    ensures d < 58 && Char(d) == c
  {
    if c <= '9' then c as nat - '1' as nat
    else if c <= 'H' then c as nat - 'A' as nat + 9
    else if c <= 'N' then c as nat - 'J' as nat + 17
    else if c <= 'Z' then c as nat - 'P' as nat + 22
    else if c <= 'k' then c as nat - 'a' as nat + 33
    else c as nat - 'm' as nat + 44
  }

  // ---------- Encoding ----------

  function Chars(digits: seq<nat>): (s: string)
    requires Digits(digits, 58)
    ensures |s| == |digits| && forall k :: 0 <= k < |s| ==> s[k] == Char(digits[k])
  {
    seq(|digits|, k requires 0 <= k < |digits| => Char(digits[k]))
  }

  function Ones(n: nat): (s: string)
    ensures |s| == n && forall k :: 0 <= k < n ==> s[k] == '1'
  {
    seq(n, k => '1')
  }

  /** One 1 for each leading zero byte, then the number in base 58. */
  function Encode(v: Bytes): string { Ones(Zeros(v)) + Chars(Rep(Num(v, 256), 58)) }

  // ---------- Decoding ----------

  function SkipSpaces(s: string): (r: string)
    ensures |r| <= |s| && (r != [] ==> !IsSpace(r[0]))
  {
    if s != [] && IsSpace(s[0]) then SkipSpaces(s[1..]) else s
  }

  function CountOnes(s: string): (z: nat)
    ensures z <= |s| && (forall k :: 0 <= k < z ==> s[k] == '1') && (z < |s| ==> s[z] != '1')
  {
    if s != [] && s[0] == '1' then 1 + CountOnes(s[1..]) else 0
  }

  /** How many characters there are up to the next space. */
  function WordLength(s: string): (n: nat)
    ensures n <= |s| && (forall k :: 0 <= k < n ==> !IsSpace(s[k])) && (n < |s| ==> IsSpace(s[n]))
  {
    if s == [] || IsSpace(s[0]) then 0 else 1 + WordLength(s[1..])
  }

  predicate AllDigits(s: string) { forall k :: 0 <= k < |s| ==> IsDigit(s[k]) }

  function DigitsOf(s: string): (r: seq<nat>)
    requires AllDigits(s)
    ensures |r| == |s| && Digits(r, 58) && forall k :: 0 <= k < |r| ==> r[k] == DigitOf(s[k])
  {
    seq(|s|, k requires 0 <= k < |s| => DigitOf(s[k]))
  }

  function ZeroBytes(n: nat): Bytes { seq(n, k => 0) }

  function BytesOf(n: nat): Bytes {
    var r := Rep(n, 256);
    seq(|r|, k requires 0 <= k < |r| => r[k])
  }

  /** The bytes of a string, which may have spaces around it; none if it has other characters, or spaces within. */
  function Decode(s: string): Option<Bytes> {
    var t := SkipSpaces(s);
    var z := CountOnes(t);
    var u := t[z..];
    var word := u[..WordLength(u)];
    if AllDigits(word) && SkipSpaces(u[|word|..]) == [] then Some(ZeroBytes(z) + BytesOf(Num(DigitsOf(word), 58)))
    else None
  }

  /** The string without the spaces around it. */
  function Stripped(s: string): string {
    var t := SkipSpaces(s);
    t[..WordLength(t)]
  }

  // ---------- There and back ----------

  lemma {:induction false} NoSpacesToSkip(s: string)
    requires s != [] ==> !IsSpace(s[0])
    ensures SkipSpaces(s) == s
  {
  }

  lemma {:induction false} WordIsAll(s: string)
    requires forall k :: 0 <= k < |s| ==> !IsSpace(s[k])
    ensures WordLength(s) == |s|
  {
    if s != [] {
      WordIsAll(s[1..]);
    }
  }

  lemma {:induction false} ZerosAre(v: seq<nat>, z: nat)
    requires z <= |v| && (forall k :: 0 <= k < z ==> v[k] == 0) && (z < |v| ==> v[z] != 0)
    ensures Zeros(v) == z
    decreases z
  {
    if z > 0 {
      ZerosAre(v[1..], z - 1);
    }
  }

  lemma {:induction false} OnesAre(s: string, z: nat)
    requires z <= |s| && (forall k :: 0 <= k < z ==> s[k] == '1') && (z < |s| ==> s[z] != '1')
    ensures CountOnes(s) == z
    decreases z
  {
    if z > 0 {
      OnesAre(s[1..], z - 1);
    }
  }

  lemma NothingForZero(base: nat)
    requires base > 1
    ensures Rep(0, base) == []
  {
  }

  lemma {:induction false} ZerosThenRep(v: Bytes)
    ensures v == ZeroBytes(Zeros(v)) + BytesOf(Num(v, 256))
    ensures Num(v, 256) > 0 || Zeros(v) == |v|
  {
    hide Zeros, Num, Rep;
    var z, n := Zeros(v), Num(v, 256);
    StrippedBuffer(v, 256);
    NothingForZero(256);
    assert v[..z] == ZeroBytes(z);
    assert v[z..] == BytesOf(n);
    assert v == v[..z] + v[z..];
  }

  lemma ZerosOf(z: nat, n: nat)
    ensures Zeros(ZeroBytes(z) + BytesOf(n)) == z
    ensures Num(ZeroBytes(z) + BytesOf(n), 256) == n
  {
    var v := ZeroBytes(z) + BytesOf(n);
    NumOfRep(n, 256);
    assert BytesOf(n) == Rep(n, 256);
    if n == 0 {
      assert Rep(0, 256) == [];
    }
    ZerosAre(v, z);
    NumSkipsZeros(v, z, 256);
    assert v[z..] == BytesOf(n);
  }

  lemma OnesThenDigits(z: nat, digits: seq<nat>)
    requires Digits(digits, 58) && (digits != [] ==> digits[0] != 0)
    ensures var s := Ones(z) + Chars(digits);
            && SkipSpaces(s) == s && CountOnes(s) == z && s[z..] == Chars(digits)
            && WordLength(Chars(digits)) == |digits| && AllDigits(Chars(digits)) && DigitsOf(Chars(digits)) == digits
  {
    var c, s := Chars(digits), Ones(z) + Chars(digits);
    forall k | 0 <= k < |digits|
      ensures !IsSpace(c[k]) && IsDigit(c[k]) && DigitOf(c[k]) == digits[k] && (c[k] == '1' <==> digits[k] == 0)
    {
      DigitOfChar(digits[k]);
    }
    hide DigitOf, IsDigit, Char;
    WordIsAll(c);
    NoSpacesToSkip(s);
    OnesAre(s, z);
    assert DigitsOf(c) == digits;
  }

  /** Decoding what was encoded gives the same bytes. */
  lemma DecodeEncoded(v: Bytes)
    ensures Decode(Encode(v)) == Some(v)
  {
    var n := Num(v, 256);
    NumOfRep(n, 58);
    OnesThenDigits(Zeros(v), Rep(n, 58));
    ZerosThenRep(v);
    var c := Chars(Rep(n, 58));
    assert c[..|c|] == c && c[|c|..] == [];
  }

  /** Encoding what was decoded gives the same string, but for the spaces around it. */
  lemma EncodeDecoded(s: string)
    requires Decode(s).Some?
    ensures Encode(Decode(s).value) == Stripped(s)
  {
    hide Num, Rep, Zeros, WordLength, Ones, CountOnes, SkipSpaces, DigitOf, IsDigit, Char, BytesOf, ZeroBytes;
    var t := SkipSpaces(s);
    var z := CountOnes(t);
    var u := t[z..];
    var word := u[..WordLength(u)];
    var digits := DigitsOf(word);
    var n := Num(digits, 58);
    ZerosOf(z, n);
    if word != [] {
      CharOfDigit(word[0]);
    }
    RepOfNum(digits, 58);
    forall k | 0 <= k < |word|
      ensures Char(digits[k]) == word[k]
    {
      CharOfDigit(word[k]);
    }
    assert Chars(digits) == word;
    WordAfterOnes(t, z);
    assert t[..z + |word|] == t[..z] + word;
    assert t[..z] == Ones(z);
  }

  lemma {:induction false} WordAfterOnes(t: string, z: nat)
    requires z <= |t| && forall k :: 0 <= k < z ==> t[k] == '1'
    ensures WordLength(t) == z + WordLength(t[z..])
    decreases z
  {
    if z > 0 {
      WordAfterOnes(t[1..], z - 1);
      assert t[1..][z - 1..] == t[z..];
    } else {
      assert t[0..] == t;
    }
  }

  // ---------- Examples ----------

  lemma LetterValues()
    ensures Num([0x61], 256) == 0x61 == Num([1, 39], 58)
    ensures Num([0x62, 0x62, 0x62], 256) == 0x626262 == Num([33, 2, 39, 28], 58)
  {
  }

  lemma LetterDigits()
    ensures Chars([1, 39]) == "2g" && Chars([33, 2, 39, 28]) == "a3gV" && Ones(10) == "1111111111" && Ones(0) == ""
  {
  }

  /** One letter, three letters, and ten bytes of zero. */
  lemma TextExamples()
    ensures Encode([0x61]) == "2g" && Encode([0x62, 0x62, 0x62]) == "a3gV" && Encode(ZeroBytes(10)) == "1111111111"
  {
    hide Num, Rep, Zeros, Char;
    LetterValues();
    LetterDigits();
    ZerosAre([0x61], 0);
    RepOfNum([1, 39], 58);
    ZerosAre([0x62, 0x62, 0x62], 0);
    RepOfNum([33, 2, 39, 28], 58);
    ZerosAre(ZeroBytes(10), 10);
    ZerosOnly(10);
  }

  lemma ZerosOnly(n: nat)
    ensures Num(ZeroBytes(n), 256) == 0 && Rep(0, 58) == [] && Chars([]) == ""
  {
    NumSkipsZeros(ZeroBytes(n), n, 256);
  }
}
