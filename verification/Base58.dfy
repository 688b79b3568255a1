/** Base58: bytes to strings of 58 characters and back, ten digits at a time. */
module Base58 {
  import opened Digits

  type Byte = b: nat | b < 256

  datatype Option<+T> = None | Some(value: T)

  // ----- the alphabet: digits and letters without 0, I, O and l

  function CharOf(d: nat): char
    requires d < 58
  {
    if d < 9 then '1' + d as char
    else if d < 17 then 'A' + (d - 9) as char
    else if d < 22 then 'J' + (d - 17) as char
    else if d < 33 then 'P' + (d - 22) as char
    else if d < 44 then 'a' + (d - 33) as char
    else 'm' + (d - 44) as char
  }

  function DigitOf(c: char): Option<nat> {
    if '1' <= c <= '9' then Some((c - '1') as nat)
    else if 'A' <= c <= 'H' then Some((c - 'A') as nat + 9)
    else if 'J' <= c <= 'N' then Some((c - 'J') as nat + 17)
    else if 'P' <= c <= 'Z' then Some((c - 'P') as nat + 22)
    else if 'a' <= c <= 'k' then Some((c - 'a') as nat + 33)
    else if 'm' <= c <= 'z' then Some((c - 'm') as nat + 44)
    else None
  }

  lemma {:induction false} AlphabetInverse(d: nat, c: char)
    ensures d < 58 ==> DigitOf(CharOf(d)) == Some(d)
    ensures DigitOf(c).Some? ==> DigitOf(c).value < 58 && CharOf(DigitOf(c).value) == c
  {
  }

  predicate InAlphabet(s: string) {
    forall i | 0 <= i < |s| :: DigitOf(s[i]).Some?
  }

  function Spell(ds: seq<nat>): string
    requires Valid(ds, 58)
  {
    if ds == [] then ""
    else
      Spell(ds[..|ds| - 1]) + [CharOf(ds[|ds| - 1])]
  }

  function Read(s: string): seq<nat>
    requires InAlphabet(s)
  {
    if s == "" then []
    else
      Read(s[..|s| - 1]) + [DigitOf(s[|s| - 1]).value]
  }

  lemma {:induction false} SpellRead(s: string)
    requires InAlphabet(s)
    ensures Valid(Read(s), 58) && Spell(Read(s)) == s && |Read(s)| == |s|
    decreases |s|
  {
    if s != "" {
      var init, last := s[..|s| - 1], s[|s| - 1];
      assert s == init + [last];
      SpellRead(init);
      AlphabetInverse(0, last);
      var ds := Read(s);
      assert ds[..|ds| - 1] == Read(init);
    }
  }

  lemma {:induction false} ReadSpell(ds: seq<nat>)
    requires Valid(ds, 58)
    ensures InAlphabet(Spell(ds)) && Read(Spell(ds)) == ds && |Spell(ds)| == |ds|
    decreases |ds|
  {
    if ds != [] {
      var init, last := ds[..|ds| - 1], ds[|ds| - 1];
      assert ds == init + [last];
      ReadSpell(init);
      AlphabetInverse(last, '1');
      var s := Spell(ds);
      assert s[..|s| - 1] == Spell(init);
    }
  }

  // ----- the one-digit-at-a-time definitions

  function Plain(bs: seq<Byte>): seq<nat> { seq(|bs|, i requires 0 <= i < |bs| => bs[i] as nat) }

  function EncodeSpec(bs: seq<Byte>): string {
    ConvertInverse(Plain(bs), 256, 58);
    Spell(Convert(Plain(bs), 256, 58))
  }

  function ByteAt(ds: seq<nat>, i: nat): Byte
    requires Valid(ds, 256) && i < |ds|
  {
    ds[i]
  }

  function Bytes(ds: seq<nat>): seq<Byte>
    requires Valid(ds, 256)
  {
    seq(|ds|, i requires 0 <= i < |ds| => ByteAt(ds, i))
  }

  /** Strings with other characters decode to nothing. */
  function DecodeSpec(s: string): seq<Byte> {
    if !InAlphabet(s) then []
    else
      SpellRead(s);
      ConvertInverse(Read(s), 58, 256);
      Bytes(Convert(Read(s), 58, 256))
  }

  /** Every byte string is the decoding of its encoding, leading zeros included. */
  lemma {:induction false} DecodeEncode(bs: seq<Byte>)
    ensures InAlphabet(EncodeSpec(bs)) && DecodeSpec(EncodeSpec(bs)) == bs
  {
    var ds := Plain(bs);
    assert Valid(ds, 256);
    ConvertInverse(ds, 256, 58);
    ReadSpell(Convert(ds, 256, 58));
    assert Bytes(ds) == bs;
  }

  /** Every alphabet string is the encoding of its decoding. */
  lemma {:induction false} EncodeDecode(s: string)
    requires InAlphabet(s)
    ensures EncodeSpec(DecodeSpec(s)) == s
  {
    SpellRead(s);
    var ds := Read(s);
    ConvertInverse(ds, 58, 256);
    var c := Convert(ds, 58, 256);
    assert Plain(Bytes(c)) == c;
  }

  // ----- the code

  const RADIX10 := 430804206899405824  // 58 to the tenth

  lemma {:induction false} Radix10Is()
    ensures Pow(58, 10) == RADIX10 < 0x8000000000000000
  {
    assert Pow(58, 0) == 1;
    assert Pow(58, 1) == 58;
    assert Pow(58, 2) == 3364;
    assert Pow(58, 3) == 195112;
    assert Pow(58, 4) == 11316496;
    assert Pow(58, 5) == 656356768;
    assert Pow(58, 6) == 38068692544;
    assert Pow(58, 7) == 2207984167552;
    assert Pow(58, 8) == 128063081718016;
    assert Pow(58, 9) == 7427658739644928;
  }

  /** Up to ten characters as one number, in 64 bits without wrapping. */
  method ReadChunk(t: string, n: nat) returns (total: Option<nat>)
    requires n <= |t| && n <= 10
    ensures total.Some? <==> InAlphabet(t[..n])
    ensures total.Some? ==> total.value == Value(Read(t[..n]), 58) && total.value < Pow(58, n)
  {
    var v := 0;
    for i := 0 to n
      invariant InAlphabet(t[..i]) && v == Value(Read(t[..i]), 58) && v < Pow(58, i)
    {
      var d := DigitOf(t[i]);
      if d.None? {
        assert t[..n][i] == t[i];
        return None;
      }
      ReadDigit(t, i, v);
      v := v * 58 + d.value;
    }
    return Some(v);
  }

  lemma {:induction false} ReadDigit(t: string, i: nat, v: nat)
    requires i < |t| && InAlphabet(t[..i]) && DigitOf(t[i]).Some? && v == Value(Read(t[..i]), 58) < Pow(58, i)
    ensures InAlphabet(t[..i + 1]) && v * 58 + DigitOf(t[i]).value == Value(Read(t[..i + 1]), 58) < Pow(58, i + 1)
  {
    var s := t[..i + 1];
    assert s[..i] == t[..i];
    AlphabetInverse(0, t[i]);
    ValueSnoc(Read(t[..i]), DigitOf(t[i]).value, 58);
  }

  /** The next ten characters, or as many as are left, behind the number read so far. */
  method AddChunk(b: string, k: nat, x: nat) returns (n: nat, y: Option<nat>)
    requires k < |b| && InAlphabet(b[..k]) && x == Value(Read(b[..k]), 58)
    ensures 0 < n <= |b| - k
    ensures y.None? ==> !InAlphabet(b)
    ensures y.Some? ==> InAlphabet(b[..k + n]) && y.value == Value(Read(b[..k + n]), 58)
  {
    n := if |b| - k > 10 then 10 else |b| - k;
    var total := ReadChunk(b[k..], n);
    if total.None? {
      ChunkAlphabet(b, k, n);
      return n, None;
    }
    ChunkStep(b, k, n);
    return n, Some(x * Pow(58, n) + total.value);
  }

  /** Chunks of ten digits, joined by multiplication with a power of 58, give the same number as
      digit by digit. */
  method DecodeNumber(b: string) returns (answer: Option<nat>)
    ensures answer.Some? <==> InAlphabet(b)
    ensures answer.Some? ==> answer.value == Value(Read(b), 58)
  {
    var x, k := 0, 0;
    while k < |b|
      invariant k <= |b| && InAlphabet(b[..k]) && x == Value(Read(b[..k]), 58)
    {
      var n, y := AddChunk(b, k, x);
      if y.None? {
        return None;
      }
      x, k := y.value, k + n;
    }
    assert b[..k] == b;
    return Some(x);
  }

  lemma {:induction false} ChunkAlphabet(b: string, k: nat, n: nat)
    requires k + n <= |b|
    ensures InAlphabet(b) ==> InAlphabet(b[k..][..n])
  {
    assert forall i | 0 <= i < n :: b[k..][..n][i] == b[k + i];
  }

  lemma {:induction false} ChunkStep(b: string, k: nat, n: nat)
    requires k + n <= |b| && InAlphabet(b[..k]) && InAlphabet(b[k..][..n])
    ensures InAlphabet(b[..k + n])
    ensures Value(Read(b[..k + n]), 58) == Value(Read(b[..k]), 58) * Pow(58, n) + Value(Read(b[k..][..n]), 58)
  {
    assert b[..k + n] == b[..k] + b[k..][..n];
    ReadAppend(b[..k], b[k..][..n]);
    ValueAppend(Read(b[..k]), Read(b[k..][..n]), 58);
  }

  lemma {:induction false} ReadAppend(s: string, t: string)
    requires InAlphabet(s) && InAlphabet(t)
    ensures InAlphabet(s + t) && Read(s + t) == Read(s) + Read(t) && |Read(t)| == |t|
    decreases |t|
  {
    if t == "" {
      assert s + t == s;
    } else {
      var init := t[..|t| - 1];
      ReadAppend(s, init);
      var d := [DigitOf(t[|t| - 1]).value];
      assert (s + t)[..|s + t| - 1] == s + init && (s + t)[|s + t| - 1] == t[|t| - 1];
      assert Read(s + t) == (Read(s) + Read(init)) + d;
      assert (Read(s) + Read(init)) + d == Read(s) + (Read(init) + d);
    }
  }

  method LeadingOnes(b: string) returns (n: nat)
    requires InAlphabet(b)
    ensures n == Leading(Read(b))
  {
    n := 0;
    SpellRead(b);
    while n < |b| && b[n] == '1'
      invariant n <= |b| && Leading(Read(b)) == n + Leading(Read(b)[n..])
    {
      ReadAt(b, n);
      assert Read(b)[n..][1..] == Read(b)[n + 1..];
      n := n + 1;
    }
    if n < |b| {
      ReadAt(b, n);
    }
  }

  lemma {:induction false} ReadAt(b: string, i: nat)
    requires InAlphabet(b) && i < |b|
    ensures |Read(b)| == |b| && DigitOf(b[i]).Some? && Read(b)[i] == DigitOf(b[i]).value
    ensures Read(b)[i] == 0 <==> b[i] == '1'
    decreases |b|
  {
    var init := b[..|b| - 1];
    AlphabetInverse(0, b[i]);
    SpellRead(b);
    SpellRead(init);
    if i < |init| {
      ReadAt(init, i);
    }
  }

  method Decode(b: string) returns (val: seq<Byte>)
    ensures val == DecodeSpec(b)
  {
    var answer := DecodeNumber(b);
    if answer.None? {
      return [];
    }
    SpellRead(b);
    ConvertInverse(Read(b), 58, 256);
    var numZeros := LeadingOnes(b);
    val := Bytes(Zeros(numZeros) + Canonical(answer.value, 256));
  }

  // ----- encoding

  function Reverse(s: string): string {
    if s == "" then "" else [s[|s| - 1]] + Reverse(s[..|s| - 1])
  }

  lemma {:induction false} ReverseCons(s: string, c: char)
    ensures Reverse(s + [c]) == [c] + Reverse(s)
  {
    assert (s + [c])[..|s|] == s;
  }

  lemma {:induction false} SpellAppend(a: seq<nat>, b: seq<nat>)
    requires Valid(a, 58) && Valid(b, 58)
    ensures Valid(a + b, 58) && Spell(a + b) == Spell(a) + Spell(b)
    decreases |b|
  {
    if b == [] {
      assert a + b == a;
    } else {
      var init := b[..|b| - 1];
      SpellAppend(a, init);
      assert (a + b)[..|a + b| - 1] == a + init;
    }
  }

  lemma {:induction false} FixedValid(m: nat, k: nat)
    ensures Valid(Fixed(m, 58, k), 58) && |Fixed(m, 58, k)| == k
  {
    if k > 0 {
      FixedValid(m / 58, k - 1);
    }
  }

  /** Appending a digit to the reversed answer puts it in front of the digits so far. */
  lemma {:induction false} DigitStep(r: string, rest: string, low: seq<nat>, d: nat)
    requires Valid(low, 58) && d < 58 && Reverse(r) == Spell(low) + rest
    ensures Valid([d] + low, 58) && Reverse(r + [CharOf(d)]) == Spell([d] + low) + rest
  {
    ReverseCons(r, CharOf(d));
    SpellAppend([d], low);
    assert Spell([d]) == [CharOf(d)];
  }

  /** Exactly ten digits, least significant first, onto the reversed answer. */
  method AppendTen(answer: string, m: nat) returns (r: string)
    ensures Valid(Fixed(m, 58, 10), 58) && Reverse(r) == Spell(Fixed(m, 58, 10)) + Reverse(answer)
  {
    r := answer;
    var v := m;
    ghost var low: seq<nat> := [];
    for i := 0 to 10
      invariant Valid(low, 58) && Reverse(r) == Spell(low) + Reverse(answer)
      invariant Fixed(m, 58, 10) == Fixed(v, 58, 10 - i) + low
    {
      DigitStep(r, Reverse(answer), low, v % 58);
      assert Fixed(v, 58, 10 - i) + low == Fixed(v / 58, 58, 9 - i) + ([v % 58] + low);
      low := [v % 58] + low;
      r := r + [CharOf(v % 58)];
      v := v / 58;
    }
    FixedValid(m, 10);
    assert Fixed(v, 58, 0) + low == low;
  }

  /** The last chunk, without leading zeros. */
  method AppendRest(answer: string, m: nat) returns (r: string)
    ensures Valid(Canonical(m, 58), 58) && Reverse(r) == Spell(Canonical(m, 58)) + Reverse(answer)
  {
    r := answer;
    var v := m;
    ghost var low: seq<nat> := [];
    while v > 0
      invariant Valid(low, 58) && Reverse(r) == Spell(low) + Reverse(answer)
      invariant Canonical(m, 58) == Canonical(v, 58) + low
    {
      DigitStep(r, Reverse(answer), low, v % 58);
      assert Canonical(v, 58) + low == Canonical(v / 58, 58) + ([v % 58] + low);
      low := [v % 58] + low;
      r := r + [CharOf(v % 58)];
      v := v / 58;
    }
    assert Canonical(0, 58) + low == low;
  }

  /** Splitting ten digits off a number that has more. */
  lemma {:induction false} SplitTen(x: nat, low: seq<nat>)
    requires x / RADIX10 > 0 && Valid(low, 58)
    ensures var q, m := x / RADIX10, x % RADIX10;
            && Valid(Fixed(m, 58, 10), 58)
            && Canonical(x, 58) + low == Canonical(q, 58) + (Fixed(m, 58, 10) + low)
            && Spell(Fixed(m, 58, 10) + low) == Spell(Fixed(m, 58, 10)) + Spell(low)
  {
    var q, m := x / RADIX10, x % RADIX10;
    Radix10Is();
    CanonicalSplit(q, m, 58, 10);
    FixedValid(m, 10);
    SpellAppend(Fixed(m, 58, 10), low);
  }

  /** What is left below ten digits. */
  lemma {:induction false} LastTen(x: nat, low: seq<nat>)
    requires x / RADIX10 == 0 && Valid(low, 58)
    ensures x % RADIX10 == x && Canonical(0, 58) == [] && Valid(Canonical(x, 58), 58) &&
            Valid(Canonical(x, 58) + low, 58)
    ensures Spell(Canonical(x, 58) + low) == Spell(Canonical(x, 58)) + Spell(low)
    ensures Canonical(0, 58) + (Canonical(x, 58) + low) == Canonical(x, 58) + low
  {
    ValueCanonical(x, 58);
    SpellAppend(Canonical(x, 58), low);
  }

  /** Ten digits at a time give the same digits as one at a time. */
  method EncodeNumber(n: nat) returns (answer: string)
    ensures Valid(Canonical(n, 58), 58) && Reverse(answer) == Spell(Canonical(n, 58))
  {
    ValueCanonical(n, 58);
    answer := "";
    var x: nat := n;
    ghost var low: seq<nat> := [];
    while x > 0
      invariant Valid(low, 58) && Reverse(answer) == Spell(low)
      invariant Canonical(n, 58) == Canonical(x, 58) + low
      decreases x
    {
      var q, m := x / RADIX10, x % RADIX10;
      if q == 0 {
        LastTen(x, low);
        low := Canonical(x, 58) + low;
        answer := AppendRest(answer, m);
      } else {
        SplitTen(x, low);
        low := Fixed(m, 58, 10) + low;
        answer := AppendTen(answer, m);
      }
      x := q;
    }
    assert Canonical(0, 58) + low == low;
  }

  /** The reversal swaps in place. */
  method ReverseInPlace(a: array<char>)
    modifies a
    ensures a[..] == Reverse(old(a[..]))
  {
    var n := a.Length;
    for i := 0 to n / 2
      invariant forall k | 0 <= k < i :: a[k] == old(a[n - 1 - k]) && a[n - 1 - k] == old(a[k])
      invariant forall k | i <= k < n - i :: a[k] == old(a[k])
    {
      a[i], a[n - 1 - i] := a[n - 1 - i], a[i];
    }
    ghost var was := old(a[..]);
    forall k | 0 <= k < n
      ensures |Reverse(was)| == n && a[..][k] == Reverse(was)[k]
    {
      ReverseAt(was, k);
    }
    assert n == 0 ==> was == "";
  }

  lemma {:induction false} ReverseAt(s: string, k: nat)
    requires k < |s|
    ensures |Reverse(s)| == |s| && Reverse(s)[k] == s[|s| - 1 - k]
    decreases |s|
  {
    if |s| > 1 {
      ReverseAt(s[..|s| - 1], if k > 0 then k - 1 else 0);
    }
  }

  lemma {:induction false} ZerosValid(n: nat)
    ensures Valid(Zeros(n), 58)
  {
    ZerosValue(n, 58);
  }

  /** One '1' for each leading zero byte, onto the reversed answer. */
  method AppendZeros(b: seq<Byte>, answer: string) returns (r: string)
    ensures Valid(Zeros(Leading(Plain(b))), 58) && Reverse(r) == Spell(Zeros(Leading(Plain(b)))) + Reverse(answer)
  {
    ghost var ds := Plain(b);
    r := answer;
    var n := 0;
    ZerosValid(0);
    while n < |b| && b[n] == 0
      invariant n <= |b| && Leading(ds) == n + Leading(ds[n..])
      invariant Valid(Zeros(n), 58) && Reverse(r) == Spell(Zeros(n)) + Reverse(answer)
    {
      assert ds[n..][1..] == ds[n + 1..];
      ZerosFront(n + 1);
      DigitStep(r, Reverse(answer), Zeros(n), 0);
      r := r + "1";
      n := n + 1;
    }
  }

  method Encode(b: seq<Byte>) returns (s: string)
    ensures s == EncodeSpec(b)
  {
    var x := Value(Plain(b), 256);
    var answer := EncodeNumber(x);
    answer := AppendZeros(b, answer);
    SpellAppend(Zeros(Leading(Plain(b))), Canonical(x, 58));
    var a := new char[|answer|](i requires 0 <= i < |answer| => answer[i]);
    assert a[..] == answer;
    ReverseInPlace(a);
    s := a[..];
  }
}
