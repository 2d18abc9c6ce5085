/** Encoding and decoding base 58 in place, in buffers that are always large enough, with or without a checksum. */
module Base58 {
  import opened Common
  import opened Base58Spec
  import opened Base58Text

  // ---------- The buffer ----------

  /** Multiplies the number in the buffer and adds to it; nothing is carried out of the buffer. */
  method MultiplyAdd(buf: array<nat>, base: nat, mult: nat, ch: nat)
    requires base > 1 && Digits(buf[..], base) && Num(buf[..], base) * mult + ch < Pow(base, buf.Length)
    modifies buf
    ensures Digits(buf[..], base) && Num(buf[..], base) == Num(old(buf[..]), base) * mult + ch
  {
    hide Pow, Num;
    ghost var was := buf[..];
    var carry: nat := ch;
    var j := buf.Length;
    BufferStarts(was, base, mult, ch);
    while j > 0
      invariant 0 <= j <= buf.Length
      invariant forall k :: 0 <= k < j ==> buf[k] == was[k]
      invariant Digits(buf[..], base)
      invariant Times(carry, Pow(base, buf.Length - j)) + Num(buf[j..], base) == Num(was[j..], base) * mult + ch
    {
      j := j - 1;
      ghost var tail := buf[j + 1..];
      var n := carry + mult * buf[j];
      TimesIsNat(mult, buf[j]);
      DigitFits(n, base);
      NextDigit(was, buf[j + 1..], j, base, mult, ch, carry, n);
      buf[j] := n % base;
      assert buf[j + 1..] == tail && buf[j..] == [n % base] + tail;
      carry := n / base;
    }
    NoCarry(was, buf[..], base, mult, ch, carry);
    assert carry == 0;
  }

  lemma DigitFits(n: nat, base: nat)
    requires base > 0
    ensures 0 <= n % base < base && 0 <= n / base && n == n / base * base + n % base
  {
    assert n == n / base * base + n % base;
    if n / base < 0 {
      Limbs.Scale(n / base, -1, base);
    }
  }

  lemma BufferStarts(was: seq<nat>, base: nat, mult: nat, ch: nat)
    ensures Times(ch, Pow(base, 0)) + Num(was[|was|..], base) == Num(was[|was|..], base) * mult + ch
  {
    assert was[|was|..] == [];
  }

  lemma NextDigit(was: seq<nat>, tail: seq<nat>, j: nat, base: nat, mult: nat, ch: nat, carry: nat, n: nat)
    requires j < |was| && |tail| == |was| - j - 1 && base > 0 && n == carry + mult * was[j]
    requires n / base >= 0 && n % base >= 0
    requires Times(carry, Pow(base, |was| - j - 1)) + Num(tail, base) == Num(was[j + 1..], base) * mult + ch
    ensures Times(n / base, Pow(base, |was| - j)) + Num([n % base] + tail, base) == Num(was[j..], base) * mult + ch
  {
    hide Pow, Num;
    var p := Pow(base, |was| - j - 1);
    assert was[j..] == [was[j]] + was[j + 1..];
    FrontDigit(n % base, tail, base);
    FrontDigit(was[j], was[j + 1..], base);
    DigitFits(n, base);
    DigitWeight(n / base, n % base, base, p, carry, mult, was[j], n);
    Distribute(was[j] * p, Num(was[j + 1..], base), mult);
  }

  lemma FrontDigit(d: nat, tail: seq<nat>, base: nat)
    ensures Num([d] + tail, base) == d * Pow(base, |tail|) + Num(tail, base)
    ensures Pow(base, |tail| + 1) == base * Pow(base, |tail|)
  {
    assert ([d] + tail)[1..] == tail;
  }

  lemma DigitWeight(q: nat, r: nat, base: nat, p: nat, carry: nat, mult: nat, d: nat, n: nat)
    requires n == q * base + r && n == carry + mult * d
    ensures q * (base * p) + r * p == carry * p + d * p * mult
  {
    assert n * p == q * base * p + r * p;
    assert n * p == carry * p + mult * d * p;
    Regroup(q, base, p);
    Regroup(mult, d, p);
  }

  lemma NoCarry(was: seq<nat>, now: seq<nat>, base: nat, mult: nat, ch: nat, carry: nat)
    requires |was| == |now| && base > 1 && Digits(now, base) && Num(was, base) * mult + ch < Pow(base, |now|)
    requires Times(carry, Pow(base, |now|)) + Num(now[0..], base) == Num(was[0..], base) * mult + ch
    ensures carry == 0 && Num(now, base) == Num(was, base) * mult + ch
  {
    hide Pow, Num;
    assert now[0..] == now && was[0..] == was;
    if carry > 0 {
      ScaleBoth(1, carry, Pow(base, |now|), Pow(base, |now|));
    }
  }

  /** The value so far stays below the bound for that many digits. */
  lemma StaysBelow(v: nat, d: nat, base: nat, i: nat)
    requires v < Pow(base, i) && d < base
    ensures v * base + d < Pow(base, i + 1)
  {
    BoundWeight(d, base, 1);
    ScaleBoth(v + 1, Pow(base, i), base, base);
  }

  lemma FitsBuffer(v: nat, base: nat, i: nat, n: nat, limit: nat)
    requires base > 1 && v < Pow(base, i) && i <= n && Pow(base, n) < limit
    ensures v < limit
  {
    PowGrowsMore(base, i, n);
  }

  // ---------- Encoding ----------

  method CountZeros(v: Bytes) returns (zeroes: nat)
    ensures zeroes == Zeros(v)
  {
    zeroes := 0;
    while zeroes < |v| && v[zeroes] == 0
      invariant zeroes <= |v| && forall k :: 0 <= k < zeroes ==> v[k] == 0
    {
      zeroes := zeroes + 1;
    }
    ZerosAre(v, zeroes);
  }

  method SkipZeros(buf: array<nat>) returns (it: nat)
    ensures it == Zeros(buf[..])
  {
    it := 0;
    while it < buf.Length && buf[it] == 0
      invariant it <= buf.Length && forall k :: 0 <= k < it ==> buf[k] == 0
    {
      it := it + 1;
    }
    ZerosAre(buf[..], it);
  }

  /** The number that the bytes from `zeroes` on stand for, in base 58. */
  method ToBase58(v: Bytes, zeroes: nat) returns (b58: array<nat>)
    requires zeroes <= |v|
    ensures Digits(b58[..], 58) && Num(b58[..], 58) == Num(v[zeroes..], 256)
  {
    hide Pow, Num;
    ghost var rest: seq<nat> := v[zeroes..];
    ghost var n := |v| - zeroes;
    b58 := new nat[(|v| - zeroes) * 138 / 100 + 1](_ => 0);
    EncodeBufferSuffices(n);
    BlankBuffer(b58[..], 58);
    NothingYet(rest, 256);
    var i := zeroes;
    while i < |v|
      invariant zeroes <= i <= |v|
      invariant Digits(b58[..], 58) && Num(b58[..], 58) == Num(rest[..i - zeroes], 256) < Pow(256, i - zeroes)
    {
      StaysBelow(Num(b58[..], 58), v[i], 256, i - zeroes);
      FitsBuffer(Num(b58[..], 58) * 256 + v[i], 256, i + 1 - zeroes, n, Pow(58, b58.Length));
      NumSnoc(rest[..i - zeroes], v[i], 256);
      assert rest[..i + 1 - zeroes] == rest[..i - zeroes] + [v[i]];
      MultiplyAdd(b58, 58, 256, v[i]);
      i := i + 1;
    }
    assert rest[..n] == rest;
  }

  /** The characters of the digits from `it` on, after some ones. */
  method Translate(b58: array<nat>, from: nat, zeroes: nat) returns (str: string)
    requires Digits(b58[..], 58) && from <= b58.Length
    ensures Digits(b58[..][from..], 58) && str == Ones(zeroes) + Chars(b58[..][from..])
  {
    hide Char;
    ghost var d := b58[..];
    str := Ones(zeroes);
    var it := from;
    NoCharsYet(d, from);
    while it < b58.Length
      invariant from <= it <= b58.Length && Digits(d[from..it], 58)
      invariant str == Ones(zeroes) + Chars(d[from..it])
    {
      assert b58[it] == d[it];
      CharsNext(d, from, it);
      str := str + [ALPHABET[b58[it]]];
      it := it + 1;
    }
    assert d[from..it] == d[from..];
  }

  lemma NoCharsYet(d: seq<nat>, from: nat)
    requires from <= |d|
    ensures Digits(d[from..from], 58) && Chars(d[from..from]) == []
  {
  }

  lemma CharsNext(d: seq<nat>, from: nat, it: nat)
    requires Digits(d, 58) && from <= it < |d|
    ensures |ALPHABET| == 58 && d[it] < 58
    ensures Digits(d[from..it], 58) && Digits(d[from..it + 1], 58)
    ensures Chars(d[from..it + 1]) == Chars(d[from..it]) + [ALPHABET[d[it]]]
  {
    AlphabetIs(d[it]);
    hide Char;
  }

  method EncodeBase58(v: Bytes) returns (str: string)
    ensures str == Encode(v)
  {
    hide Pow, Num, Rep, Chars;
    var zeroes := CountZeros(v);
    NumSkipsZeros(v, zeroes, 256);
    var b58 := ToBase58(v, zeroes);
    StrippedBuffer(b58[..], 58);
    var it := SkipZeros(b58);
    str := Translate(b58, it, zeroes);
  }

  lemma BlankBuffer(digits: seq<nat>, base: nat)
    requires base > 1 && forall k :: 0 <= k < |digits| ==> digits[k] == 0
    ensures Digits(digits, base) && Num(digits, base) == 0
  {
    NumSkipsZeros(digits, |digits|, base);
    assert digits[|digits|..] == [];
  }

  lemma NothingYet(digits: seq<nat>, base: nat)
    ensures Num(digits[..0], base) == 0 < Pow(base, 0)
  {
  }

  // ---------- Decoding ----------

  /** Where a character is in the alphabet. */
  method FindDigit(c: char) returns (d: nat)
    ensures d == DigitOf(c)
  {
    d := FindIn(ALPHABET, c);
  }

  method FindIn(s: string, c: char) returns (d: nat)
    ensures d == IndexOf(s, c)
  {
    d := 0;
    while d < |s| && s[d] != c
      invariant d <= |s| && forall k :: 0 <= k < d ==> s[k] != c
    {
      d := d + 1;
    }
    if d < |s| {
      FirstIndex(s, c, d);
    } else {
      NotFound(s, c);
    }
  }

  lemma {:induction false} NotFound(s: string, c: char)
    requires forall k :: 0 <= k < |s| ==> s[k] != c
    ensures IndexOf(s, c) == |s|
  {
    if s != [] {
      NotFound(s[1..], c);
    }
  }

  /** Skips spaces from a position on. */
  method SkipSpacesFrom(psz: string, from: nat) returns (i: nat)
    requires from <= |psz|
    ensures from <= i <= |psz| && psz[i..] == SkipSpaces(psz[from..])
  {
    i := from;
    while i < |psz| && IsSpace(psz[i])
      invariant from <= i <= |psz| && SkipSpaces(psz[i..]) == SkipSpaces(psz[from..])
    {
      assert psz[i..][1..] == psz[i + 1..];
      i := i + 1;
    }
    NoSpacesToSkip(psz[i..]);
  }

  method CountOnesFrom(psz: string, from: nat) returns (zeroes: nat)
    requires from <= |psz|
    ensures zeroes == CountOnes(psz[from..])
  {
    zeroes := 0;
    while from + zeroes < |psz| && psz[from + zeroes] == '1'
      invariant from + zeroes <= |psz| && forall k :: 0 <= k < zeroes ==> psz[from..][k] == '1'
    {
      zeroes := zeroes + 1;
    }
    OnesAre(psz[from..], zeroes);
  }

  /** The number that the digits up to the next space stand for, in base 256; fails at any other character. */
  method ToBase256(psz: string, from: nat) returns (ok: bool, i: nat, b256: array<nat>)
    requires from <= |psz|
    ensures var word := psz[from..][..WordLength(psz[from..])];
            && (ok <==> AllDigits(word))
            && (ok ==> i == from + |word| && Digits(b256[..], 256) && Num(b256[..], 256) == Num(DigitsOf(word), 58))
  {
    hide Pow, Num, DigitOf;
    ghost var u := psz[from..];
    b256 := new nat[(|psz| - from) * 733 / 1000 + 1](_ => 0);
    DecodeBufferSuffices(|u|);
    BlankBuffer(b256[..], 256);
    i := from;
    ghost var digits: seq<nat> := [];
    NothingYet(digits, 58);
    assert digits[..0] == digits && u[..0] == [];
    assert DigitsOf(u[..0]) == digits;
    while i < |psz| && !IsSpace(psz[i])
      invariant from <= i <= |psz| && AllDigits(u[..i - from]) && digits == DigitsOf(u[..i - from])
      invariant forall k :: 0 <= k < i - from ==> !IsSpace(u[k])
      invariant Digits(b256[..], 256) && Num(b256[..], 256) == Num(digits, 58) < Pow(58, i - from)
    {
      assert psz[i] == u[i - from];
      var d := FindDigit(psz[i]);
      if d >= 58 {
        NotAllDigits(u, i - from);
        return false, i, b256;
      }
      StaysBelow(Num(digits, 58), d, 58, i - from);
      FitsBuffer(Num(digits, 58) * 58 + d, 58, i + 1 - from, |u|, Pow(256, b256.Length));
      NumSnoc(digits, d, 58);
      MultiplyAdd(b256, 256, 58, d);
      MoreDigits(u, i - from);
      digits := digits + [d];
      i := i + 1;
    }
    WordIs(u, i - from);
    ok := true;
  }

  lemma NotAllDigits(u: string, k: nat)
    requires k < |u| && !IsDigit(u[k]) && forall m :: 0 <= m <= k ==> !IsSpace(u[m])
    ensures !AllDigits(u[..WordLength(u)])
  {
    assert k < WordLength(u);
    assert u[..WordLength(u)][k] == u[k];
  }

  lemma MoreDigits(u: string, k: nat)
    requires k < |u| && AllDigits(u[..k]) && IsDigit(u[k])
    ensures AllDigits(u[..k + 1]) && DigitsOf(u[..k + 1]) == DigitsOf(u[..k]) + [DigitOf(u[k])]
  {
  }

  lemma {:induction false} WordIs(u: string, n: nat)
    requires n <= |u| && (forall m :: 0 <= m < n ==> !IsSpace(u[m])) && (n < |u| ==> IsSpace(u[n]))
    ensures WordLength(u) == n
    decreases n
  {
    if n > 0 {
      WordIs(u[1..], n - 1);
    }
  }

  /** The bytes from `it` on, after some zeros. */
  method CopyOut(b256: array<nat>, from: nat, zeroes: nat) returns (vch: Bytes)
    requires Digits(b256[..], 256) && from <= b256.Length
    ensures vch == ZeroBytes(zeroes) + b256[..][from..]
  {
    ghost var d := b256[..];
    vch := ZeroBytes(zeroes);
    var it := from;
    while it < b256.Length
      invariant from <= it <= b256.Length
      invariant vch == ZeroBytes(zeroes) + d[from..it]
    {
      assert b256[it] == d[it];
      vch := vch + [b256[it]];
      it := it + 1;
    }
  }

  /** What decoding comes to, step by step. */
  lemma DecodeSteps(psz: string, start: nat, zeroes: nat, word: string)
    requires start <= |psz| && psz[start..] == SkipSpaces(psz) && zeroes == CountOnes(psz[start..])
    requires word == psz[start + zeroes..][..WordLength(psz[start + zeroes..])]
    ensures Decode(psz) ==
            if AllDigits(word) && SkipSpaces(psz[start + zeroes + |word|..]) == []
            then Some(ZeroBytes(zeroes) + BytesOf(Num(DigitsOf(word), 58))) else None
  {
    assert psz[start..][zeroes..] == psz[start + zeroes..];
    assert psz[start + zeroes..][|word|..] == psz[start + zeroes + |word|..];
  }

  lemma BytesAreDigits(n: nat)
    ensures BytesOf(n) == Rep(n, 256)
  {
  }

  method DecodeBase58(psz: string) returns (ok: bool, vch: Bytes)
    ensures Decode(psz) == if ok then Some(vch) else None
  {
    hide Pow, Num, Rep, IsDigit, Decode, SkipSpaces, CountOnes, WordLength, AllDigits, DigitsOf;
    vch := [];
    assert psz[0..] == psz;
    var start := SkipSpacesFrom(psz, 0);
    var zeroes := CountOnesFrom(psz, start);
    ghost var word := psz[start + zeroes..][..WordLength(psz[start + zeroes..])];
    DecodeSteps(psz, start, zeroes, word);
    var fine, i, b256 := ToBase256(psz, start + zeroes);
    if !fine {
      return false, [];
    }
    var end := SkipSpacesFrom(psz, i);
    assert psz[end..] == [] <==> end == |psz|;
    if end != |psz| {
      return false, [];
    }
    StrippedBuffer(b256[..], 256);
    var it := SkipZeros(b256);
    vch := CopyOut(b256, it, zeroes);
    BytesAreDigits(Num(b256[..], 256));
    ok := true;
  }

  // ---------- Checksums ----------

  /** With the first four bytes of a hash at the end. */
  function WithChecksum(hash: Bytes -> Bytes, v: Bytes): Bytes
    requires |hash(v)| >= 4
  {
    v + hash(v)[..4]
  }

  function DecodeCheck(hash: Bytes -> Bytes, s: string): Option<Bytes>
    requires forall v :: |hash(v)| >= 4
  {
    match Decode(s)
    case None => None
    case Some(v) =>
      if |v| < 4 || hash(v[..|v| - 4])[..4] != v[|v| - 4..] then None else Some(v[..|v| - 4])
  }

  method EncodeBase58Check(hash: Bytes -> Bytes, v: Bytes) returns (str: string)
    requires |hash(v)| >= 4
    ensures str == Encode(WithChecksum(hash, v))
  {
    str := EncodeBase58(v + hash(v)[..4]);
  }

  method DecodeBase58Check(hash: Bytes -> Bytes, psz: string) returns (ok: bool, vch: Bytes)
    requires forall v :: |hash(v)| >= 4
    ensures DecodeCheck(hash, psz) == if ok then Some(vch) else None
    ensures !ok ==> vch == []
  {
    ok, vch := DecodeBase58(psz);
    if !ok || |vch| < 4 {
      return false, [];
    }
    if hash(vch[..|vch| - 4])[..4] != vch[|vch| - 4..] {
      return false, [];
    }
    vch := vch[..|vch| - 4];
  }

  /** What was encoded with a checksum is decoded. */
  lemma CheckedRoundTrip(hash: Bytes -> Bytes, v: Bytes)
    requires forall v :: |hash(v)| >= 4
    ensures DecodeCheck(hash, Encode(WithChecksum(hash, v))) == Some(v)
  {
    DecodeEncoded(WithChecksum(hash, v));
    assert WithChecksum(hash, v)[..|v|] == v && WithChecksum(hash, v)[|v|..] == hash(v)[..4];
  }

  /** A string is accepted exactly if it is, but for spaces around it, the encoding of something with its checksum. */
  lemma AcceptedIff(hash: Bytes -> Bytes, s: string, v: Bytes)
    requires forall v :: |hash(v)| >= 4
    ensures DecodeCheck(hash, s) == Some(v) <==> Decode(s).Some? && Stripped(s) == Encode(WithChecksum(hash, v))
  {
    var w := WithChecksum(hash, v);
    if Decode(s).Some? {
      EncodeDecoded(s);
      var d := Decode(s).value;
      if DecodeCheck(hash, s) == Some(v) {
        assert d == d[..|d| - 4] + d[|d| - 4..];
      }
      if Stripped(s) == Encode(w) {
        DecodeEncoded(w);
        DecodeEncoded(d);
        assert w[..|v|] == v && w[|v|..] == hash(v)[..4];
      }
    }
  }
}
