/** Bech32 and bech32m: data in base 32 behind a human-readable part, with a checksum that is
    linear over bits.

    Strings are byte sequences.  The 30-bit checksum register is its list of bits, most
    significant first: shifting left by five drops the first five bits and appends five. */
module Bech32 {
  type Byte = nat
  type Text = seq<Byte>
  type Bits = seq<bool>

  datatype Option<+T> = None | Some(value: T)

  // ----- bits

  function ToBits(v: nat, n: nat): (r: Bits)
    ensures |r| == n
  {
    if n == 0 then [] else ToBits(v / 2, n - 1) + [v % 2 == 1]
  }

  function FromBits(bs: Bits): nat {
    if bs == [] then 0 else FromBits(bs[..|bs| - 1]) * 2 + (if bs[|bs| - 1] then 1 else 0)
  }

  function Pow2(n: nat): (r: nat)
    ensures r >= 1
  {
    if n == 0 then 1 else 2 * Pow2(n - 1)
  }

  lemma {:induction false} FromToBits(v: nat, n: nat)
    requires v < Pow2(n)
    ensures FromBits(ToBits(v, n)) == v
  {
    if n > 0 {
      FromToBits(v / 2, n - 1);
      var bs := ToBits(v, n);
      assert bs[..n - 1] == ToBits(v / 2, n - 1);
    }
  }

  lemma {:induction false} ToFromBits(bs: Bits)
    ensures ToBits(FromBits(bs), |bs|) == bs && FromBits(bs) < Pow2(|bs|)
    decreases |bs|
  {
    if bs != [] {
      ToFromBits(bs[..|bs| - 1]);
    }
  }

  function Xor(a: Bits, b: Bits): (r: Bits)
    requires |a| == |b|
    ensures |r| == |a| && forall i | 0 <= i < |a| :: r[i] == (a[i] != b[i])
  {
    seq(|a|, i requires 0 <= i < |a| => a[i] != b[i])
  }

  function Zero(n: nat): (r: Bits)
    ensures |r| == n && forall i | 0 <= i < n :: !r[i]
  {
    seq(n, i => false)
  }

  // ----- the checksum register

  const REGISTER := 30

  function Gen(i: nat): Bits
    requires i < 5
  {
    ToBits(if i == 0 then 0x3b6a57b2 else if i == 1 then 0x26508e6d else if i == 2 then 0x1ea119fa
           else if i == 3 then 0x3d4233dd else 0x2a1462b3, REGISTER)
  }

  /** The generators picked by the five bits shifted out; bit `i` counts from the least
      significant. */
  function Mix(top: Bits, n: nat): (r: Bits)
    requires |top| == 5 && n <= 5
    ensures |r| == REGISTER
  {
    if n == 0 then Zero(REGISTER)
    else if top[5 - n] then Xor(Mix(top, n - 1), Gen(n - 1))
    else Mix(top, n - 1)
  }

  function Step(s: Bits, v: Bits): (r: Bits)
    requires |s| == REGISTER && |v| == 5
    ensures |r| == REGISTER
  {
    Xor(s[5..] + v, Mix(s[..5], 5))
  }

  predicate Fives(vs: seq<Bits>) {
    forall i | 0 <= i < |vs| :: |vs[i]| == 5
  }

  function Poly(s: Bits, vs: seq<Bits>): (r: Bits)
    requires |s| == REGISTER && Fives(vs)
    ensures |r| == REGISTER
  {
    if vs == [] then s else Step(Poly(s, vs[..|vs| - 1]), vs[|vs| - 1])
  }

  // ----- linearity

  lemma {:induction false} MixLinear(a: Bits, b: Bits, n: nat)
    requires |a| == |b| == 5 && n <= 5
    ensures Mix(Xor(a, b), n) == Xor(Mix(a, n), Mix(b, n))
  {
    if n > 0 {
      MixLinear(a, b, n - 1);
    }
  }

  lemma {:induction false} StepLinear(s: Bits, t: Bits, u: Bits, v: Bits)
    requires |s| == |t| == REGISTER && |u| == |v| == 5
    ensures Step(Xor(s, t), Xor(u, v)) == Xor(Step(s, u), Step(t, v))
  {
    assert Xor(s, t)[..5] == Xor(s[..5], t[..5]);
    assert Xor(s, t)[5..] + Xor(u, v) == Xor(s[5..] + u, t[5..] + v);
    MixLinear(s[..5], t[..5], 5);
  }

  /** The register is linear in what it started from and in everything fed to it. */
  lemma {:induction false} PolyLinear(s: Bits, t: Bits, us: seq<Bits>, vs: seq<Bits>, ws: seq<Bits>)
    requires |s| == |t| == REGISTER && Fives(us) && Fives(vs) && |us| == |vs| == |ws|
    requires forall i | 0 <= i < |us| :: ws[i] == Xor(us[i], vs[i])
    ensures Fives(ws) && Poly(Xor(s, t), ws) == Xor(Poly(s, us), Poly(t, vs))
    decreases |us|
  {
    if us != [] {
      var n := |us| - 1;
      PolyLinear(s, t, us[..n], vs[..n], ws[..n]);
      StepLinear(Poly(s, us[..n]), Poly(t, vs[..n]), us[n], vs[n]);
    }
  }

  lemma {:induction false} PolyAppend(s: Bits, us: seq<Bits>, vs: seq<Bits>)
    requires |s| == REGISTER && Fives(us) && Fives(vs)
    ensures Fives(us + vs) && Poly(s, us + vs) == Poly(Poly(s, us), vs)
    decreases |vs|
  {
    if vs == [] {
      assert us + vs == us;
    } else {
      var n := |vs| - 1;
      PolyAppend(s, us, vs[..n]);
      assert (us + vs)[..|us + vs| - 1] == us + vs[..n];
    }
  }

  lemma {:induction false} MixZero(n: nat)
    requires n <= 5
    ensures Mix(Zero(5), n) == Zero(REGISTER)
  {
    if n > 0 {
      MixZero(n - 1);
    }
  }

  /** The pieces of a register, five bits each. */
  function Pieces(p: Bits, k: nat): (r: seq<Bits>)
    requires |p| == REGISTER && k <= 6
    ensures |r| == k && Fives(r)
  {
    if k == 0 then [] else Pieces(p, k - 1) + [p[5 * (k - 1)..5 * k]]
  }

  /** While the bits shifted out are zero, a step is a plain shift. */
  lemma {:induction false} PlainShift(s: Bits, v: Bits)
    requires |s| == REGISTER && |v| == 5 && s[..5] == Zero(5)
    ensures Step(s, v) == s[5..] + v
  {
    MixZero(5);
  }

  lemma {:induction false} ShiftPiece(p: Bits, n: nat)
    requires |p| == REGISTER && n + 5 <= REGISTER
    ensures Step(Zero(REGISTER - n) + p[..n], p[n..n + 5]) == Zero(REGISTER - n - 5) + p[..n + 5]
  {
    var s := Zero(REGISTER - n) + p[..n];
    assert s[..5] == Zero(5);
    PlainShift(s, p[n..n + 5]);
    assert s[5..] == Zero(REGISTER - n - 5) + p[..n];
    assert p[..n] + p[n..n + 5] == p[..n + 5];
  }

  lemma {:induction false} PolySnoc(s: Bits, vs: seq<Bits>, v: Bits)
    requires |s| == REGISTER && Fives(vs) && |v| == 5
    ensures Fives(vs + [v]) && Poly(s, vs + [v]) == Step(Poly(s, vs), v)
  {
    assert (vs + [v])[..|vs|] == vs;
  }

  lemma {:induction false} PiecesSnoc(p: Bits, k: nat, n: nat)
    requires |p| == REGISTER && 0 < k <= 6 && n == 5 * (k - 1)
    ensures Pieces(p, k) == Pieces(p, k - 1) + [p[n..n + 5]] && n + 5 == 5 * k <= REGISTER
  {
  }

  /** From an empty register, the pieces simply line up. */
  lemma {:induction false} PiecesLineUp(p: Bits, k: nat)
    requires |p| == REGISTER && k <= 6
    ensures Poly(Zero(REGISTER), Pieces(p, k)) == Zero(REGISTER - 5 * k) + p[..5 * k]
  {
    if k == 0 {
      assert Zero(REGISTER) + p[..0] == Zero(REGISTER);
    } else {
      var n := 5 * (k - 1);
      PiecesLineUp(p, k - 1);
      PiecesSnoc(p, k, n);
      PolySnoc(Zero(REGISTER), Pieces(p, k - 1), p[n..n + 5]);
      ShiftPiece(p, n);
    }
  }

  function Zeros6(): (r: seq<Bits>)
    ensures |r| == 6 && Fives(r)
  {
    [Zero(5), Zero(5), Zero(5), Zero(5), Zero(5), Zero(5)]
  }

  /** Feeding the pieces of "what six zeros would give, xor the constant" yields the constant:
      every checksum that is written verifies. */
  lemma {:induction false} ChecksumVerifies(s: Bits, k: Bits, p: Bits)
    requires |s| == |k| == REGISTER && p == Xor(Poly(s, Zeros6()), k)
    ensures Poly(s, Pieces(p, 6)) == k
  {
    var cs := Pieces(p, 6);
    assert forall i | 0 <= i < 6 :: cs[i] == Xor(Zeros6()[i], cs[i]);
    assert Xor(s, Zero(REGISTER)) == s;
    PolyLinear(s, Zero(REGISTER), Zeros6(), cs, cs);
    PiecesLineUp(p, 6);
    assert Zero(0) + p[..30] == p;
    assert Xor(Poly(s, Zeros6()), p) == k;
  }

  // ----- the characters

  const ONE: Byte := 49

  /** "qpzry9x8gf2tvdw0s3jn54khce6mua7l". */
  const CHARSET: seq<nat> :=
    [113, 112, 122, 114, 121, 57, 120, 56, 103, 102, 50, 116, 118, 100, 119, 48,
     115, 51, 106, 110, 53, 52, 107, 104, 99, 101, 54, 109, 117, 97, 55, 108]

  /** What the code relies on in its character set: 32 different printable characters, none of
      them the separator or upper case. */
  ghost predicate Alphabet(ab: Text) {
    && |ab| == 32 && (forall i, j | 0 <= i < j < 32 :: ab[i] != ab[j])
    && (forall i | 0 <= i < 32 :: ab[i] != ONE && Printable(ab[i]) && !IsUpper(ab[i]))
  }

  function Charset(): Text { CHARSET }

  /** The place of a character in the set. */
  ghost function Rank(c: nat): nat {
    if c == 113 then 0
    else if c == 112 then 1
    else if c == 122 then 2
    else if c == 114 then 3
    else if c == 121 then 4
    else if c == 57 then 5
    else if c == 120 then 6
    else if c == 56 then 7
    else if c == 103 then 8
    else if c == 102 then 9
    else if c == 50 then 10
    else if c == 116 then 11
    else if c == 118 then 12
    else if c == 100 then 13
    else if c == 119 then 14
    else if c == 48 then 15
    else if c == 115 then 16
    else if c == 51 then 17
    else if c == 106 then 18
    else if c == 110 then 19
    else if c == 53 then 20
    else if c == 52 then 21
    else if c == 107 then 22
    else if c == 104 then 23
    else if c == 99 then 24
    else if c == 101 then 25
    else if c == 54 then 26
    else if c == 109 then 27
    else if c == 117 then 28
    else if c == 97 then 29
    else if c == 55 then 30
    else if c == 108 then 31
    else 32
  }

  ghost predicate Ranked(ab: Text) {
    |ab| == 32 && forall i | 0 <= i < 32 :: Rank(ab[i]) == i && ab[i] != ONE && 48 <= ab[i] <= 122 && !IsUpper(ab[i])
  }

  lemma {:induction false} CharsetIsRanked()
    ensures Ranked(Charset())
  {
  }

  lemma {:induction false} RankedIsAlphabet(ab: Text)
    requires Ranked(ab)
    ensures Alphabet(ab)
  {
    forall i, j | 0 <= i < j < 32
      ensures ab[i] != ab[j]
    {
      assert Rank(ab[i]) == i && Rank(ab[j]) == j;
    }
  }

  lemma {:induction false} CharsetIsAlphabet()
    ensures Alphabet(Charset())
  {
    CharsetIsRanked();
    RankedIsAlphabet(Charset());
  }

  function IndexOf(ab: Text, c: Byte): (r: Option<nat>)
    ensures r.Some? ==> r.value < |ab| && ab[r.value] == c
    ensures r.None? ==> forall i | 0 <= i < |ab| :: ab[i] != c
  {
    if ab == [] then None else if ab[|ab| - 1] == c then Some(|ab| - 1) else IndexOf(ab[..|ab| - 1], c)
  }

  predicate Printable(c: Byte) { 33 <= c <= 126 }

  predicate IsUpper(c: Byte) { 65 <= c <= 90 }

  predicate IsLower(c: Byte) { 97 <= c <= 122 }

  function LowerByte(c: Byte): Byte { if IsUpper(c) then c + 32 else c }

  function Lower(t: Text): (r: Text)
    ensures |r| == |t| && forall i | 0 <= i < |t| :: r[i] == LowerByte(t[i])
  {
    if t == [] then [] else Lower(t[..|t| - 1]) + [LowerByte(t[|t| - 1])]
  }

  function Letters(ab: Text, ds: seq<nat>): (r: Text)
    requires |ab| == 32 && Base32(ds)
    ensures |r| == |ds| && forall i | 0 <= i < |ds| :: r[i] == ab[ds[i]]
  {
    if ds == [] then [] else Letters(ab, ds[..|ds| - 1]) + [ab[ds[|ds| - 1]]]
  }

  // ----- the specification

  datatype Version = Version0 | VersionM

  function Const(v: Version): (r: Bits)
    ensures |r| == REGISTER
  {
    ToBits(if v.Version0? then 1 else 0x2bc830a3, REGISTER)
  }

  function His(hrp: Text): (r: seq<Bits>)
    ensures |r| == |hrp| && Fives(r)
  {
    if hrp == [] then [] else His(hrp[..|hrp| - 1]) + [ToBits(hrp[|hrp| - 1] / 32, 5)]
  }

  function Los(hrp: Text): (r: seq<Bits>)
    ensures |r| == |hrp| && Fives(r)
  {
    if hrp == [] then [] else Los(hrp[..|hrp| - 1]) + [ToBits(hrp[|hrp| - 1] % 32, 5)]
  }

  function Values(ds: seq<nat>): (r: seq<Bits>)
    ensures |r| == |ds| && Fives(r) && forall i | 0 <= i < |ds| :: r[i] == ToBits(ds[i], 5)
  {
    if ds == [] then [] else Values(ds[..|ds| - 1]) + [ToBits(ds[|ds| - 1], 5)]
  }

  /** The register after the human-readable part and the data. */
  function Prefix(hrp: Text, data: seq<nat>): (r: Bits)
    ensures |r| == REGISTER
  {
    Poly(ToBits(1, REGISTER), His(hrp) + [Zero(5)] + Los(hrp) + Values(data))
  }

  function Numbers(ps: seq<Bits>): (r: seq<nat>)
    ensures |r| == |ps| && forall i | 0 <= i < |ps| :: r[i] == FromBits(ps[i])
  {
    if ps == [] then [] else Numbers(ps[..|ps| - 1]) + [FromBits(ps[|ps| - 1])]
  }

  function Checksum(hrp: Text, data: seq<nat>, v: Version): (r: seq<nat>)
    ensures |r| == 6
  {
    Numbers(Pieces(Xor(Poly(Prefix(hrp, data), Zeros6()), Const(v)), 6))
  }

  lemma {:induction false} ChecksumFives(hrp: Text, data: seq<nat>, v: Version)
    ensures forall i | 0 <= i < 6 :: Checksum(hrp, data, v)[i] < 32
    ensures Values(Checksum(hrp, data, v)) == Pieces(Xor(Poly(Prefix(hrp, data), Zeros6()), Const(v)), 6)
  {
    var ps, cs := Pieces(Xor(Poly(Prefix(hrp, data), Zeros6()), Const(v)), 6), Checksum(hrp, data, v);
    forall i | 0 <= i < 6
      ensures cs[i] < 32 && Values(cs)[i] == ps[i]
    {
      ToFromBits(ps[i]);
      assert Pow2(5) == 32 by { assert Pow2(0) == 1 && Pow2(1) == 2 && Pow2(2) == 4 && Pow2(3) == 8 && Pow2(4) == 16; }
    }
  }

  predicate Base32(data: seq<nat>) {
    forall i | 0 <= i < |data| :: data[i] < 32
  }

  predicate NoUpper(t: Text) {
    forall i | 0 <= i < |t| :: !IsUpper(t[i])
  }

  predicate AllPrintable(t: Text) {
    forall i | 0 <= i < |t| :: Printable(t[i])
  }

  /** Lower-casing of a whole text leaves no upper-case letter of the alphabet; what it does to
      other characters, and whether it keeps the length, is left open. */
  ghost predicate LowerCases(lower: Text -> Text) {
    forall t: Text :: NoUpper(lower(t))
  }

  function EncodeSpec(ab: Text, lower: Text -> Text, hrp: Text, data: seq<nat>, v: Version): Option<Text>
    requires |ab| == 32
  {
    if !Base32(data) then None
    else
      var h := lower(hrp);
      ChecksumFives(h, data, v);
      Some(h + [ONE] + Letters(ab, data) + Letters(ab, Checksum(h, data, v)))
  }

  function LastOne(t: Text): (r: int)
    ensures -1 <= r < |t|
  {
    if t == [] then -1 else if t[|t| - 1] == ONE then |t| - 1 else LastOne(t[..|t| - 1])
  }

  function Indices(ab: Text, t: Text): (r: Option<seq<nat>>)
    ensures r.Some? ==> |r.value| == |t|
  {
    if t == [] then Some([])
    else
      var init, d := Indices(ab, t[..|t| - 1]), IndexOf(ab, t[|t| - 1]);
      if init.None? || d.None? then None else Some(init.value + [d.value])
  }

  predicate MixedCase(t: Text) {
    (exists i | 0 <= i < |t| :: IsUpper(t[i])) && exists i | 0 <= i < |t| :: IsLower(t[i])
  }

  function VersionOf(k: Bits): Option<Version> {
    if k == Const(Version0) then Some(Version0) else if k == Const(VersionM) then Some(VersionM) else None
  }

  datatype Decoded = Decoded(hrp: Text, data: seq<nat>, version: Version)

  /** The part after the checks on length, range and case. */
  function DecodeLower(ab: Text, t: Text): Option<Decoded> {
    var one := LastOne(t);
    if one < 1 || one + 7 > |t| then None
    else
      var hrp, decoded := t[..one], Indices(ab, t[one + 1..]);
      if decoded.None? then None
      else
        var ds := decoded.value;
        var values, checksum := ds[..|ds| - 6], ds[|ds| - 6..];
        var version := VersionOf(Poly(Prefix(hrp, values), Values(checksum)));
        if version.None? then None else Some(Decoded(hrp, values, version.value))
  }

  function DecodeSpec(ab: Text, t: Text): Option<Decoded> {
    if |t| < 8 || !AllPrintable(t) || MixedCase(t) then None
    else DecodeLower(ab, Lower(t))
  }

  // ----- the round trip

  lemma {:induction false} LowerLower(t: Text)
    requires NoUpper(t)
    ensures Lower(t) == t
    decreases |t|
  {
    if t != [] {
      LowerLower(t[..|t| - 1]);
    }
  }

  lemma {:induction false} LastOneAt(t: Text, k: nat)
    requires k < |t| && t[k] == ONE && forall i | k < i < |t| :: t[i] != ONE
    ensures LastOne(t) == k
    decreases |t|
  {
    if k < |t| - 1 {
      LastOneAt(t[..|t| - 1], k);
    }
  }

  lemma {:induction false} IndexUnique(ab: Text, d: nat)
    requires Alphabet(ab) && d < 32
    ensures IndexOf(ab, ab[d]) == Some(d)
  {
  }

  lemma {:induction false} IndicesSnoc(ab: Text, t: Text, c: Byte)
    requires Indices(ab, t).Some? && IndexOf(ab, c).Some?
    ensures Indices(ab, t + [c]) == Some(Indices(ab, t).value + [IndexOf(ab, c).value])
  {
    assert (t + [c])[..|t|] == t;
  }

  lemma {:induction false} NextLetter(ab: Text, ds: seq<nat>, d: nat)
    requires Alphabet(ab) && Base32(ds) && d < 32 && Indices(ab, Letters(ab, ds)) == Some(ds)
    ensures Indices(ab, Letters(ab, ds) + [ab[d]]) == Some(ds + [d])
  {
    IndexUnique(ab, d);
    IndicesSnoc(ab, Letters(ab, ds), ab[d]);
  }

  lemma {:induction false} IndicesLetters(ab: Text, ds: seq<nat>)
    requires Alphabet(ab) && Base32(ds)
    ensures Indices(ab, Letters(ab, ds)) == Some(ds)
    decreases |ds|
  {
    if ds != [] {
      var n := |ds| - 1;
      IndicesLetters(ab, ds[..n]);
      NextLetter(ab, ds[..n], ds[n]);
      assert ds == ds[..n] + [ds[n]];
    }
  }

  lemma {:induction false} LettersAppend(ab: Text, a: seq<nat>, b: seq<nat>)
    requires |ab| == 32 && Base32(a) && Base32(b)
    ensures Base32(a + b) && Letters(ab, a + b) == Letters(ab, a) + Letters(ab, b)
  {
  }

  /** The two constants differ in their second bit from the right. */
  lemma {:induction false} ConstsDiffer()
    ensures Const(Version0) != Const(VersionM)
  {
    assert ToBits(1, 30)[28] == ToBits(0, 29)[28] == false;
    assert ToBits(0x2bc830a3, 30)[28] == ToBits(0x15e41851, 29)[28] == true;
  }

  lemma {:induction false} VersionRead(v: Version)
    ensures VersionOf(Const(v)) == Some(v)
  {
    ConstsDiffer();
  }

  /** The checksum part: the register ends in the constant of the version. */
  lemma {:induction false} ChecksumReads(h: Text, data: seq<nat>, v: Version)
    ensures Base32(Checksum(h, data, v))
    ensures VersionOf(Poly(Prefix(h, data), Values(Checksum(h, data, v)))) == Some(v)
  {
    ChecksumFives(h, data, v);
    ChecksumVerifies(Prefix(h, data), Const(v), Xor(Poly(Prefix(h, data), Zeros6()), Const(v)));
    VersionRead(v);
  }

  lemma {:induction false} SeparatorFound(ab: Text, h: Text, ds: seq<nat>)
    requires Alphabet(ab) && Base32(ds)
    ensures LastOne(h + [ONE] + Letters(ab, ds)) == |h|
  {
    var t := h + [ONE] + Letters(ab, ds);
    forall i | |h| < i < |t|
      ensures t[i] != ONE
    {
      assert t[i] == Letters(ab, ds)[i - |h| - 1];
    }
    LastOneAt(t, |h|);
  }

  lemma {:induction false} SplitSix(data: seq<nat>, cs: seq<nat>)
    requires |cs| == 6
    ensures var ds := data + cs; ds[..|ds| - 6] == data && ds[|ds| - 6..] == cs
  {
  }

  lemma {:induction false} DecodeParts(ab: Text, t: Text, h: Text, ds: seq<nat>, v: Version)
    requires h != [] && LastOne(t) == |h| && |t| == |h| + 1 + |ds| && t[..|h|] == h
    requires Indices(ab, t[|h| + 1..]) == Some(ds) && |ds| >= 6
    requires VersionOf(Poly(Prefix(h, ds[..|ds| - 6]), Values(ds[|ds| - 6..]))) == Some(v)
    ensures DecodeLower(ab, t) == Some(Decoded(h, ds[..|ds| - 6], v))
  {
  }

  lemma {:induction false} DecodeEncoded(ab: Text, h: Text, data: seq<nat>, cs: seq<nat>, v: Version)
    requires Alphabet(ab) && h != [] && Base32(data) && Base32(cs) && |cs| == 6
    requires VersionOf(Poly(Prefix(h, data), Values(cs))) == Some(v)
    ensures Base32(data + cs) && DecodeLower(ab, h + [ONE] + Letters(ab, data + cs)) == Some(Decoded(h, data, v))
  {
    var ds := data + cs;
    var t := h + [ONE] + Letters(ab, ds);
    IndicesLetters(ab, ds);
    SeparatorFound(ab, h, ds);
    SplitAfter(h, Letters(ab, ds));
    SplitSix(data, cs);
    DecodeParts(ab, t, h, ds, v);
  }

  lemma {:induction false} SplitAfter(h: Text, t: Text)
    ensures var u := h + [ONE] + t; |u| == |h| + 1 + |t| && u[..|h|] == h && u[|h| + 1..] == t
  {
  }

  lemma {:induction false} EncodedPlain(ab: Text, h: Text, ds: seq<nat>, t: Text)
    requires Alphabet(ab) && Base32(ds) && t == h + [ONE] + Letters(ab, ds) && NoUpper(h)
    ensures NoUpper(t) && (AllPrintable(t) <==> AllPrintable(h))
  {
    forall i | |h| < i < |t|
      ensures !IsUpper(t[i]) && Printable(t[i])
    {
      assert t[i] == Letters(ab, ds)[i - |h| - 1];
    }
    assert forall i | 0 <= i < |h| :: t[i] == h[i];
  }

  lemma {:induction false} AssocText(a: Text, b: Text, c: Text)
    ensures (a + b) + c == a + (b + c)
  {
  }

  lemma {:induction false} EncodedIs(ab: Text, lower: Text -> Text, hrp: Text, data: seq<nat>, v: Version, cs: seq<nat>)
    requires |ab| == 32 && Base32(data) && cs == Checksum(lower(hrp), data, v)
    ensures Base32(cs) && EncodeSpec(ab, lower, hrp, data, v) == Some(lower(hrp) + [ONE] + Letters(ab, data + cs))
  {
    var h := lower(hrp);
    ChecksumFives(h, data, v);
    LettersAppend(ab, data, cs);
    AssocText(h + [ONE], Letters(ab, data), Letters(ab, cs));
  }

  /** Decoding undoes encoding, up to the case of the human-readable part, if and only if that part
      is not empty and printable once lower-cased. */
  lemma {:induction false} DecodeEncodeIff(ab: Text, lower: Text -> Text, hrp: Text, data: seq<nat>, v: Version)
    requires Alphabet(ab) && Base32(data) && LowerCases(lower)
    ensures EncodeSpec(ab, lower, hrp, data, v).Some?
    ensures DecodeSpec(ab, EncodeSpec(ab, lower, hrp, data, v).value) == Some(Decoded(lower(hrp), data, v)) <==>
            lower(hrp) != [] && AllPrintable(lower(hrp))
  {
    var h := lower(hrp);
    var cs := Checksum(h, data, v);
    EncodedIs(ab, lower, hrp, data, v, cs);
    assert NoUpper(h);
    DecodesIff(ab, h, data + cs, h + [ONE] + Letters(ab, data + cs));
    if h != [] {
      ChecksumReads(h, data, v);
      DecodeEncoded(ab, h, data, cs, v);
    }
  }

  /** The checks on length, range, case and separator, for an encoded string. */
  lemma {:induction false} DecodesIff(ab: Text, h: Text, ds: seq<nat>, t: Text)
    requires Alphabet(ab) && Base32(ds) && |ds| >= 6 && NoUpper(h) && t == h + [ONE] + Letters(ab, ds)
    ensures if h != [] && AllPrintable(h) then DecodeSpec(ab, t) == DecodeLower(ab, t) else DecodeSpec(ab, t).None?
  {
    EncodedPlain(ab, h, ds, t);
    LowerLower(t);
    SeparatorFound(ab, h, ds);
    PlainChecks(ab, t);
  }

  lemma {:induction false} LowerPrintable(t: Text)
    ensures NoUpper(Lower(t)) && (AllPrintable(Lower(t)) <==> AllPrintable(t))
  {
    forall i | 0 <= i < |t|
      ensures Printable(Lower(t)[i]) <==> Printable(t[i])
    {
    }
  }

  lemma {:induction false} PlainChecks(ab: Text, t: Text)
    requires |t| >= 7 && Lower(t) == t && NoUpper(t)
    ensures DecodeSpec(ab, t) == if |t| >= 8 && AllPrintable(t) then DecodeLower(ab, t) else None
  {
  }

  /** Where lower-casing only touches the letters of the alphabet, as it does in ASCII, the condition
      is one on the part itself. */
  lemma {:induction false} AsciiPart(ab: Text, lower: Text -> Text, hrp: Text, data: seq<nat>, v: Version)
    requires Alphabet(ab) && Base32(data) && LowerCases(lower) && lower(hrp) == Lower(hrp)
    ensures EncodeSpec(ab, lower, hrp, data, v).Some?
    ensures DecodeSpec(ab, EncodeSpec(ab, lower, hrp, data, v).value) == Some(Decoded(Lower(hrp), data, v)) <==>
            hrp != [] && AllPrintable(hrp)
  {
    DecodeEncodeIff(ab, lower, hrp, data, v);
    LowerPrintable(hrp);
  }

  /** The three bytes of the Kelvin sign, U+212A. */
  predicate IsKelvin(t: Text) {
    |t| == 3 && t[0] == 0xE2 && t[1] == 0x84 && t[2] == 0xAA
  }

  predicate IsLetterK(t: Text) {
    |t| == 1 && t[0] == 'k' as nat
  }

  lemma {:induction false} LetterKPrints(t: Text)
    requires IsLetterK(t)
    ensures t != [] && AllPrintable(t)
  {
  }

  /** The text encodes, and decodes to its lower-cased part, its data and its version. */
  predicate RoundTrips(ab: Text, lower: Text -> Text, hrp: Text, data: seq<nat>, v: Version)
    requires |ab| == 32
  {
    var e := EncodeSpec(ab, lower, hrp, data, v);
    e.Some? && DecodeSpec(ab, e.value) == Some(Decoded(lower(hrp), data, v))
  }

  /** Beyond ASCII it is not: the Kelvin sign is lower-cased to the letter k, and what it is part of
      decodes although none of its bytes is printable. */
  lemma {:induction false} KelvinPart(ab: Text, lower: Text -> Text, hrp: Text, data: seq<nat>, v: Version)
    requires Alphabet(ab) && Base32(data) && LowerCases(lower)
    requires IsKelvin(hrp) && IsLetterK(lower(hrp))
    ensures !Printable(hrp[0]) && !Printable(hrp[1]) && !Printable(hrp[2])
    ensures RoundTrips(ab, lower, hrp, data, v)
  {
    LetterKPrints(lower(hrp));
    FoldedPart(ab, lower, hrp, data, v);
  }

  lemma {:induction false} FoldedPart(ab: Text, lower: Text -> Text, hrp: Text, data: seq<nat>, v: Version)
    requires Alphabet(ab) && Base32(data) && LowerCases(lower) && lower(hrp) != [] && AllPrintable(lower(hrp))
    ensures RoundTrips(ab, lower, hrp, data, v)
  {
    DecodeEncodeIff(ab, lower, hrp, data, v);
  }

  // ----- regrouping bits

  function AllBits(data: seq<nat>, n: nat): Bits {
    if data == [] then [] else ToBits(data[0], n) + AllBits(data[1..], n)
  }

  /** The whole groups of `n` bits, as numbers. */
  function Groups(bs: Bits, n: nat): seq<nat>
    requires n > 0
    decreases |bs|
  {
    if |bs| < n then [] else [FromBits(bs[..n])] + Groups(bs[n..], n)
  }

  /** The bits left over. */
  function Rest(bs: Bits, n: nat): (r: Bits)
    requires n > 0
    ensures |r| < n
    decreases |bs|
  {
    if |bs| < n then bs else Rest(bs[n..], n)
  }

  /** Groups of `to` bits; an unfinished group is padded with zeros, or else must be at most four
      zero bits. */
  function ConvertSpec(data: seq<nat>, from: nat, to: nat, pad: bool): Option<seq<nat>> {
    if !(1 <= from <= 8 && 1 <= to <= 8) then None
    else
      var bs := AllBits(data, from);
      var rest := Rest(bs, to);
      if pad then Some(Groups(bs, to) + if rest == [] then [] else [FromBits(rest + Zero(to - |rest|))])
      else if |rest| > 4 || rest != Zero(|rest|) then None
      else Some(Groups(bs, to))
  }

  lemma {:induction false} GroupsJoin(a: Bits, b: Bits, n: nat)
    requires n > 0 && |a| == n
    ensures Groups(a + b, n) == [FromBits(a)] + Groups(b, n) && Rest(a + b, n) == Rest(b, n)
  {
    assert (a + b)[..n] == a && (a + b)[n..] == b;
  }

  lemma {:induction false} Assoc(a: Bits, b: Bits, c: Bits)
    ensures (a + b) + c == a + (b + c)
  {
  }

  /** Bits that are whole groups and a short tail. */
  lemma {:induction false} GroupsBits(data: seq<nat>, n: nat, tail: Bits)
    requires n > 0 && |tail| < n && forall i | 0 <= i < |data| :: data[i] < Pow2(n)
    ensures Groups(AllBits(data, n) + tail, n) == data && Rest(AllBits(data, n) + tail, n) == tail
    decreases |data|
  {
    if data == [] {
      assert AllBits(data, n) + tail == tail;
    } else {
      var first, rest := ToBits(data[0], n), AllBits(data[1..], n);
      GroupsBits(data[1..], n, tail);
      Assoc(first, rest, tail);
      GroupsJoin(first, rest + tail, n);
      FromToBits(data[0], n);
    }
  }

  lemma {:induction false} AllBitsCons(x: nat, data: seq<nat>, n: nat)
    ensures AllBits([x] + data, n) == ToBits(x, n) + AllBits(data, n)
  {
    assert ([x] + data)[1..] == data;
  }

  /** The bits of the groups, and what is left, are the bits. */
  lemma {:induction false} BitsGroups(bs: Bits, n: nat)
    requires n > 0
    ensures AllBits(Groups(bs, n), n) + Rest(bs, n) == bs
    decreases |bs|
  {
    if |bs| >= n {
      var first, rest := bs[..n], bs[n..];
      BitsGroups(rest, n);
      ToFromBits(first);
      AllBitsCons(FromBits(first), Groups(rest, n), n);
      Assoc(first, AllBits(Groups(rest, n), n), Rest(rest, n));
      assert first + rest == bs;
    } else {
      assert AllBits([], n) + bs == bs;
    }
  }

  lemma {:induction false} GroupsSmall(bs: Bits, n: nat)
    requires n > 0
    ensures forall i | 0 <= i < |Groups(bs, n)| :: Groups(bs, n)[i] < Pow2(n)
    decreases |bs|
  {
    if |bs| >= n {
      GroupsSmall(bs[n..], n);
      ToFromBits(bs[..n]);
    }
  }

  lemma {:induction false} AllBitsSnoc(data: seq<nat>, x: nat, n: nat)
    ensures AllBits(data + [x], n) == AllBits(data, n) + ToBits(x, n)
    decreases |data|
  {
    if data == [] {
      assert data + [x] == [x] + [];
      AllBitsCons(x, [], n);
      assert ToBits(x, n) + [] == [] + ToBits(x, n);
    } else {
      var rest := data[1..];
      AllBitsSnoc(rest, x, n);
      assert data + [x] == [data[0]] + (rest + [x]);
      AllBitsCons(data[0], rest + [x], n);
      Assoc(ToBits(data[0], n), AllBits(rest, n), ToBits(x, n));
    }
  }

  /** Padded five-bit groups of bytes hold the bits of the bytes followed by fewer than five
      zeros. */
  lemma {:induction false} PaddedBits(data: seq<nat>) returns (out: seq<nat>, k: nat)
    ensures ConvertSpec(data, 8, 5, true) == Some(out) && Base32(out)
    ensures k < 5 && AllBits(out, 5) == AllBits(data, 8) + Zero(k)
  {
    var bs := AllBits(data, 8);
    var groups, rest := Groups(bs, 5), Rest(bs, 5);
    BitsGroups(bs, 5);
    GroupsSmall(bs, 5);
    assert Pow2(5) == 32 by { assert Pow2(0) == 1 && Pow2(1) == 2 && Pow2(2) == 4 && Pow2(3) == 8 && Pow2(4) == 16; }
    if rest == [] {
      out, k := groups, 0;
      assert groups + [] == groups && AllBits(groups, 5) + rest == AllBits(groups, 5);
      assert bs + Zero(0) == bs;
    } else {
      k := 5 - |rest|;
      var last := rest + Zero(k);
      out := groups + [FromBits(last)];
      ToFromBits(last);
      AllBitsSnoc(groups, FromBits(last), 5);
      assert AllBits(groups, 5) + (rest + Zero(k)) == (AllBits(groups, 5) + rest) + Zero(k);
    }
  }

  /** Bytes regrouped to five bits with padding and back without it are the same bytes. */
  lemma {:induction false} ConvertRoundTrip(data: seq<nat>)
    requires forall i | 0 <= i < |data| :: data[i] < 256
    ensures ConvertSpec(data, 8, 5, true).Some?
    ensures ConvertSpec(ConvertSpec(data, 8, 5, true).value, 5, 8, false) == Some(data)
  {
    var out, k := PaddedBits(data);
    assert Pow2(8) == 256 by {
      assert Pow2(0) == 1 && Pow2(1) == 2 && Pow2(2) == 4 && Pow2(3) == 8;
      assert Pow2(4) == 16 && Pow2(5) == 32 && Pow2(6) == 64 && Pow2(7) == 128;
    }
    GroupsBits(data, 8, Zero(k));
  }

  // ----- the code

  /** One step of the register: the top five bits leave, five enter, and each bit that left brings
      in its generator. */
  method Feed(chk: Bits, v: Bits) returns (r: Bits)
    requires |chk| == REGISTER && |v| == 5
    ensures r == Step(chk, v)
  {
    var top, mix := chk[..5], Zero(REGISTER);
    for i := 0 to 5
      invariant mix == Mix(top, i)
    {
      if top[4 - i] {
        mix := Xor(mix, Gen(i));
      }
    }
    r := Xor(chk[5..] + v, mix);
  }

  method FeedAll(chk: Bits, vs: seq<Bits>) returns (r: Bits)
    requires |chk| == REGISTER && Fives(vs)
    ensures r == Poly(chk, vs)
  {
    r := chk;
    for n := 0 to |vs|
      invariant |r| == REGISTER && r == Poly(chk, vs[..n])
    {
      assert vs[..n + 1][..n] == vs[..n];
      r := Feed(r, vs[n]);
    }
    assert vs[..|vs|] == vs;
  }

  /** High bits, separator and low bits of the human-readable part, the data, and a checksum of
      zeros if none is given. */
  method Polymod(hrp: Text, values: seq<nat>, checksum: Option<seq<nat>>) returns (chk: Bits)
    ensures chk == Poly(Prefix(hrp, values), if checksum.Some? then Values(checksum.value) else Zeros6())
  {
    chk := FeedAll(ToBits(1, REGISTER), His(hrp));
    chk := FeedAll(chk, [Zero(5)]);
    PolyAppend(ToBits(1, REGISTER), His(hrp), [Zero(5)]);
    chk := FeedAll(chk, Los(hrp));
    PolyAppend(ToBits(1, REGISTER), His(hrp) + [Zero(5)], Los(hrp));
    chk := FeedAll(chk, Values(values));
    PolyAppend(ToBits(1, REGISTER), His(hrp) + [Zero(5)] + Los(hrp), Values(values));
    chk := FeedAll(chk, if checksum.Some? then Values(checksum.value) else Zeros6());
  }

  method ToBytes(chars: Text) returns (decoded: Option<seq<nat>>)
    ensures decoded == Indices(Charset(), chars)
  {
    var ds := [];
    for n := 0 to |chars|
      invariant Indices(Charset(), chars[..n]) == Some(ds)
    {
      assert chars[..n + 1][..n] == chars[..n];
      var d := IndexOf(Charset(), chars[n]);
      if d.None? {
        IndicesFail(Charset(), chars, n + 1);
        return None;
      }
      ds := ds + [d.value];
    }
    assert chars[..|chars|] == chars;
    return Some(ds);
  }

  lemma {:induction false} IndicesFail(ab: Text, t: Text, n: nat)
    requires n <= |t| && Indices(ab, t[..n]).None?
    ensures Indices(ab, t).None?
    decreases |t|
  {
    if n < |t| {
      assert t[..|t| - 1][..n] == t[..n];
      IndicesFail(ab, t[..|t| - 1], n);
    } else {
      assert t[..n] == t;
    }
  }

  method ToChars(data: seq<nat>) returns (r: Option<Text>)
    ensures r.Some? <==> Base32(data)
    ensures |Charset()| == 32 && (r.Some? ==> r.value == Letters(Charset(), data))
  {
    CharsetIsAlphabet();
    var body: Text := [];
    for n := 0 to |data|
      invariant Base32(data[..n]) && body == Letters(Charset(), data[..n])
    {
      if data[n] >= 32 {
        return None;
      }
      assert data[..n + 1][..n] == data[..n];
      body := body + [Charset()[data[n]]];
    }
    assert data[..|data|] == data;
    return Some(body);
  }

  method Encode(lower: Text -> Text, hrp: Text, data: seq<nat>, v: Version) returns (r: Option<Text>)
    ensures |Charset()| == 32 && r == EncodeSpec(Charset(), lower, hrp, data, v)
    ensures r.Some? <==> Base32(data)
  {
    CharsetIsAlphabet();
    var h := lower(hrp);
    var body := ToChars(data);
    if body.None? {
      return None;
    }
    var polymod := Polymod(h, data, None);
    var p := Xor(polymod, Const(v));
    ChecksumFives(h, data, v);
    var sum := Numbers(Pieces(p, 6));
    r := Some(h + [ONE] + body.value + Letters(Charset(), sum));
  }

  /** The range and case checks, in one pass. */
  method CheckCharacters(t: Text) returns (ok: bool)
    ensures ok <==> AllPrintable(t) && !MixedCase(t)
  {
    var lower, upper := false, false;
    for n := 0 to |t|
      invariant forall i | 0 <= i < n :: Printable(t[i])
      invariant upper <==> exists i | 0 <= i < n :: IsUpper(t[i])
      invariant lower <==> exists i | 0 <= i < n :: IsLower(t[i])
      invariant !(lower && upper)
    {
      if !Printable(t[n]) {
        return false;
      }
      lower, upper := lower || IsLower(t[n]), upper || IsUpper(t[n]);
      if lower && upper {
        return false;
      }
    }
    return true;
  }

  method LastSeparator(t: Text) returns (one: int)
    ensures one == LastOne(t)
  {
    one := |t| - 1;
    assert t[..|t|] == t;
    while one >= 0 && t[one] != ONE
      invariant -1 <= one < |t| && LastOne(t) == LastOne(t[..one + 1])
    {
      assert t[..one + 1][..one] == t[..one];
      one := one - 1;
    }
    if one >= 0 {
      assert t[..one + 1][one] == ONE;
    }
  }

  method VerifyChecksum(hrp: Text, ds: seq<nat>) returns (v: Option<Version>)
    requires |ds| >= 6
    ensures v == VersionOf(Poly(Prefix(hrp, ds[..|ds| - 6]), Values(ds[|ds| - 6..])))
  {
    var polymod := Polymod(hrp, ds[..|ds| - 6], Some(ds[|ds| - 6..]));
    if polymod == Const(Version0) {
      return Some(Version0);
    } else if polymod == Const(VersionM) {
      return Some(VersionM);
    }
    return None;
  }

  method SplitAndVerify(t: Text) returns (r: Option<Decoded>)
    ensures r == DecodeLower(Charset(), t)
  {
    var one := LastSeparator(t);
    if one < 1 || one + 7 > |t| {
      return None;
    }
    var decoded := ToBytes(t[one + 1..]);
    if decoded.None? {
      return None;
    }
    var ds := decoded.value;
    var v := VerifyChecksum(t[..one], ds);
    if v.None? {
      return None;
    }
    return Some(Decoded(t[..one], ds[..|ds| - 6], v.value));
  }

  method Decode(bech: Text) returns (r: Option<Decoded>)
    ensures r == DecodeSpec(Charset(), bech)
  {
    if |bech| < 8 {
      return None;
    }
    var ok := CheckCharacters(bech);
    if !ok {
      return None;
    }
    r := SplitAndVerify(Lower(bech));
  }

  /** What `Encode` writes, `Decode` reads, exactly for parts that are printable and not empty once
      lower-cased. */
  method EncodeThenDecode(lower: Text -> Text, hrp: Text, data: seq<nat>, v: Version) returns (r: Option<Decoded>)
    requires Base32(data) && LowerCases(lower)
    ensures r == Some(Decoded(lower(hrp), data, v)) <==> lower(hrp) != [] && AllPrintable(lower(hrp))
  {
    CharsetIsAlphabet();
    DecodeEncodeIff(Charset(), lower, hrp, data, v);
    var e := Encode(lower, hrp, data, v);
    r := Decode(e.value);
  }

  /** Moves bits from the bytes of `data` into groups, as many at a time as both sides allow. */
  method Regroup(data: seq<nat>, from: nat, to: nat) returns (regrouped: seq<nat>, next: Bits)
    requires to > 0
    ensures regrouped == Groups(AllBits(data, from), to) && next == Rest(AllBits(data, from), to)
  {
    regrouped, next := [], [];
    for n := 0 to |data|
      invariant |next| < to && AllBits(regrouped, to) + next == AllBits(data[..n], from)
      invariant forall i | 0 <= i < |regrouped| :: regrouped[i] < Pow2(to)
    {
      assert data[..n + 1] == data[..n] + [data[n]];
      AllBitsSnoc(data[..n], data[n], from);
      regrouped, next := MoveByte(regrouped, next, ToBits(data[n], from), to);
    }
    assert data[..|data|] == data;
    GroupsBits(regrouped, to, next);
  }

  method ConvertBits(data: seq<nat>, from: nat, to: nat, pad: bool) returns (r: Option<seq<nat>>)
    ensures r == ConvertSpec(data, from, to, pad)
  {
    if !(1 <= from <= 8 && 1 <= to <= 8) {
      return None;
    }
    var regrouped, next := Regroup(data, from, to);
    if pad && |next| > 0 {
      return Some(regrouped + [FromBits(next + Zero(to - |next|))]);
    }
    if |next| > 0 && (|next| > 4 || FromBits(next) != 0) {
      ZeroBits(next);
      return None;
    }
    ZeroBits(next);
    assert regrouped + [] == regrouped;
    return Some(regrouped);
  }

  lemma {:induction false} ZeroBits(bs: Bits)
    ensures FromBits(bs) == 0 <==> bs == Zero(|bs|)
    decreases |bs|
  {
    if bs != [] {
      var n := |bs| - 1;
      ZeroBits(bs[..n]);
      assert bs == bs[..n] + [bs[n]];
      assert bs == Zero(|bs|) ==> bs[..n] == Zero(n);
    }
  }

  method MoveByte(regrouped: seq<nat>, next: Bits, b: Bits, to: nat) returns (regrouped': seq<nat>, next': Bits)
    requires to > 0 && |next| < to && forall i | 0 <= i < |regrouped| :: regrouped[i] < Pow2(to)
    ensures |next'| < to && AllBits(regrouped', to) + next' == (AllBits(regrouped, to) + next) + b
    ensures forall i | 0 <= i < |regrouped'| :: regrouped'[i] < Pow2(to)
  {
    regrouped', next' := regrouped, next;
    ghost var start := AllBits(regrouped, to) + next;
    var rem := b;
    ghost var moved: Bits := [];
    while rem != []
      invariant |next'| < to && moved + rem == b && AllBits(regrouped', to) + next' == start + moved
      invariant forall i | 0 <= i < |regrouped'| :: regrouped'[i] < Pow2(to)
      decreases |rem|
    {
      var extract := if |rem| < to - |next'| then |rem| else to - |next'|;
      ghost var piece := rem[..extract];
      PieceMoved(AllBits(regrouped', to), next', start, moved, rem, extract, b);
      next' := next' + rem[..extract];
      moved := moved + piece;
      rem := rem[extract..];
      if |next'| == to {
        GroupFull(regrouped', next', to);
        regrouped', next' := regrouped' + [FromBits(next')], [];
      }
    }
  }

  lemma {:induction false} PieceMoved(all: Bits, next: Bits, start: Bits, moved: Bits, rem: Bits, k: nat, b: Bits)
    requires k <= |rem| && moved + rem == b && all + next == start + moved
    ensures (moved + rem[..k]) + rem[k..] == b && all + (next + rem[..k]) == start + (moved + rem[..k])
  {
    Assoc(all, next, rem[..k]);
    Assoc(start, moved, rem[..k]);
    Assoc(moved, rem[..k], rem[k..]);
    assert rem[..k] + rem[k..] == rem;
  }

  lemma {:induction false} GroupFull(regrouped: seq<nat>, next: Bits, to: nat)
    requires |next| == to
    ensures FromBits(next) < Pow2(to) && AllBits(regrouped + [FromBits(next)], to) + [] == AllBits(regrouped, to) + next
  {
    ToFromBits(next);
    AllBitsSnoc(regrouped, FromBits(next), to);
  }
}
