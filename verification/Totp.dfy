/** Bytes assembled into a word, in bits and in numbers. */
module Bits {
  lemma LowNibble(b: bv8)
    ensures (b & 0x0f) as int == b as int % 16
  {
  }

  lemma LowSeven(b: bv8)
    ensures (b & 0x7f) as int == b as int % 128
  {
  }

  lemma MaskFirst(b: bv8)
    ensures b as bv32 & 0x7f == (b & 0x7f) as bv32
  {
  }

  /** Four bytes, most significant first. */
  function Join(b0: bv8, b1: bv8, b2: bv8, b3: bv8): (w: nat)
    ensures w == b0 as nat * 0x100_0000 + b1 as nat * 0x1_0000 + b2 as nat * 0x100 + b3 as nat
  {
    ((b0 as bv32 << 24) | (b1 as bv32 << 16) | (b2 as bv32 << 8) | b3 as bv32) as nat
  }

  /** The same without the top bit, as the code masks and shifts. */
  function Word(b0: bv8, b1: bv8, b2: bv8, b3: bv8): nat {
    (((b0 as bv32 & 0x7f) << 24) | (b1 as bv32 << 16) | (b2 as bv32 << 8) | b3 as bv32) as nat
  }

  lemma WordIsJoin(b0: bv8, b1: bv8, b2: bv8, b3: bv8)
    ensures Word(b0, b1, b2, b3) == Join(b0 & 0x7f, b1, b2, b3)
  {
    MaskFirst(b0);
  }
}

/** HOTP truncation (section 5.3 of RFC 4226) and the TOTP window (section 5.2 of RFC 6238).
    HMAC-SHA1 is an arbitrary function to 20-byte values, base32 an arbitrary decoder. */
module Totp {
  import opened Common
  import opened Text
  import Bits

  const PERIOD := 30
  const DIGITS := 6
  const MODULUS := 1_000_000
  const U64 := 0x1_0000_0000_0000_0000

  type Mac = s: seq<bv8> | |s| == 20 witness seq(20, _ => 0 as bv8)
  type Secret = seq<bv8>

  // ---------- as the code computes it ----------

  function Offset(m: Mac): nat {
    (m[|m| - 1] & 0x0f) as int
  }

  function Bin(m: Mac): nat {
    var o := Offset(m);
    Bits.LowNibble(m[|m| - 1]);
    Bits.Word(m[o], m[o + 1], m[o + 2], m[o + 3])
  }

  function Zeros(n: nat): string {
    seq(n, _ => '0')
  }

  /** Decimal with leading zeros up to `width`. */
  function Padded(n: nat, width: nat): string {
    var s := PrintNat(n);
    if |s| >= width then s else Zeros(width - |s|) + s
  }

  function Hotp(mac: (Secret, nat) -> Mac, secret: Secret, counter: nat): string {
    Padded(Bin(mac(secret, counter)) % MODULUS, DIGITS)
  }

  function TrimStart(s: string): string {
    if s != "" && IsSpace(s[0]) then TrimStart(s[1..]) else s
  }

  function TrimEnd(s: string): string {
    if s != "" && IsSpace(s[|s| - 1]) then TrimEnd(s[..|s| - 1]) else s
  }

  function WithoutBlanks(s: string): string {
    if s == "" then "" else (if s[0] == ' ' then "" else [s[0]]) + WithoutBlanks(s[1..])
  }

  function Candidate(code: string): string {
    WithoutBlanks(TrimEnd(TrimStart(code)))
  }

  /** The counters tried at second `t`, with 64-bit wrap-around. */
  function Window(t: nat): seq<nat> {
    var step := t / PERIOD;
    [(step + U64 - 1) % U64, step, (step + 1) % U64]
  }

  predicate TotpMatches(mac: (Secret, nat) -> Mac, decoded: Option<Secret>, code: string, t: nat) {
    match decoded
    case None => false
    case Some(secret) =>
      var candidate := Candidate(code);
      if |candidate| != DIGITS || !AllDigits(candidate) then false
      else
        || Hotp(mac, secret, Window(t)[0]) == candidate
        || Hotp(mac, secret, Window(t)[1]) == candidate
        || Hotp(mac, secret, Window(t)[2]) == candidate
  }

  // ---------- as the standard defines it ----------

  function BigEndian(bytes: seq<bv8>): nat {
    if bytes == [] then 0 else BigEndian(bytes[..|bytes| - 1]) * 256 + bytes[|bytes| - 1] as nat
  }

  /** The last 31 bits of the four bytes that start at the low four bits of the last byte. */
  function DynamicTruncation(m: Mac): nat {
    var offset := m[19] as nat % 16;
    BigEndian(m[offset..offset + 4]) % 0x8000_0000
  }

  // ---------- they agree ----------

  lemma BigEndianFour(b: seq<bv8>)
    requires |b| == 4
    ensures BigEndian(b) == b[0] as nat * 0x100_0000 + b[1] as nat * 0x1_0000 + b[2] as nat * 0x100 + b[3] as nat
  {
    assert b[..3][..2][..1][..0] == [];
    assert BigEndian(b[..3][..2][..1]) == b[0] as nat;
    assert BigEndian(b[..3][..2]) == b[0] as nat * 256 + b[1] as nat;
  }

  lemma DropTopBit(high: nat, low: nat)
    requires high < 256 && low < 0x100_0000
    ensures (high * 0x100_0000 + low) % 0x8000_0000 == (high % 128) * 0x100_0000 + low < 0x8000_0000
  {
    assert high == high / 128 * 128 + high % 128;
    assert high * 0x100_0000 + low == high / 128 * 0x8000_0000 + ((high % 128) * 0x100_0000 + low);
  }

  /** The same in integers: `v` is the assembled value of four bytes. */
  lemma FourBytes(b: seq<bv8>, n0: nat, n1: nat, n2: nat, n3: nat)
    requires |b| == 4 && n0 == b[0] as nat && n1 == b[1] as nat && n2 == b[2] as nat && n3 == b[3] as nat
    requires n0 < 256 && n1 < 256 && n2 < 256 && n3 < 256
    ensures BigEndian(b) % 0x8000_0000 == (n0 % 128) * 0x100_0000 + n1 * 0x1_0000 + n2 * 0x100 + n3 < 0x8000_0000
  {
    BigEndianFour(b);
    DropTopBit(n0, n1 * 0x1_0000 + n2 * 0x100 + n3);
  }

  lemma ByteRange(b: bv8)
    ensures 0 <= b as int < 256
  {
  }

  /** The masked and shifted bytes in numbers. */
  lemma WordValue(b0: bv8, b1: bv8, b2: bv8, b3: bv8)
    ensures Bits.Word(b0, b1, b2, b3) ==
      (b0 as nat % 128) * 0x100_0000 + b1 as nat * 0x1_0000 + b2 as nat * 0x100 + b3 as nat
  {
    Bits.WordIsJoin(b0, b1, b2, b3);
    Bits.LowSeven(b0);
  }

  lemma WordIsLast31Bits(b: seq<bv8>)
    requires |b| == 4
    ensures Bits.Word(b[0], b[1], b[2], b[3]) == BigEndian(b) % 0x8000_0000 < 0x8000_0000
  {
    WordValue(b[0], b[1], b[2], b[3]);
    ByteRange(b[0]);
    ByteRange(b[1]);
    ByteRange(b[2]);
    ByteRange(b[3]);
    FourBytes(b, b[0] as nat, b[1] as nat, b[2] as nat, b[3] as nat);
  }

  /** For every 20-byte MAC the four bytes are in bounds, and the masked and shifted value is
      the standard's dynamic truncation, a 31-bit number. */
  lemma BinIsDynamicTruncation(m: Mac)
    ensures Offset(m) + 3 < |m|
    ensures Bin(m) == DynamicTruncation(m) < 0x8000_0000
  {
    var o := Offset(m);
    Bits.LowNibble(m[19]);
    var b := m[o..o + 4];
    assert forall i :: 0 <= i < 4 ==> b[i] == m[o + i];
    WordIsLast31Bits(b);
  }

  // ---------- six digits ----------

  function Pow10(k: nat): nat {
    if k == 0 then 1 else 10 * Pow10(k - 1)
  }

  lemma {:induction false} PrintNatLength(n: nat, k: nat)
    requires k >= 1 && n < Pow10(k)
    ensures |PrintNat(n)| <= k
  {
    if n >= 10 {
      assert k > 1;
      PrintNatLength(n / 10, k - 1);
    }
  }

  lemma {:induction false} LeadingZeros(z: nat, s: string)
    requires AllDigits(s)
    ensures AllDigits(Zeros(z) + s) && ParseNat(Zeros(z) + s) == ParseNat(s)
    decreases |s|, z
  {
    var zs := Zeros(z) + s;
    if s != "" {
      assert zs[..|zs| - 1] == Zeros(z) + s[..|s| - 1];
      LeadingZeros(z, s[..|s| - 1]);
    } else if z > 0 {
      assert zs[..|zs| - 1] == Zeros(z - 1) + s;
      LeadingZeros(z - 1, s);
    } else {
      assert zs == s;
    }
  }

  lemma LastDigit(x: nat, y: nat, d: nat, e: nat)
    requires d < 10 && e < 10 && x * 10 + d == y * 10 + e
    ensures x == y && d == e
  {
  }

  lemma DigitAt(c: char)
    requires IsDigit(c)
    ensures DigitValue(c) < 10 && DigitChar(DigitValue(c)) == c
  {
  }

  lemma {:induction false} SameLengthSameValue(a: string, b: string)
    requires AllDigits(a) && AllDigits(b) && |a| == |b| && ParseNat(a) == ParseNat(b)
    ensures a == b
  {
    if a != "" {
      var n := |a| - 1;
      DigitAt(a[n]);
      DigitAt(b[n]);
      LastDigit(ParseNat(a[..n]), ParseNat(b[..n]), DigitValue(a[n]), DigitValue(b[n]));
      SameLengthSameValue(a[..n], b[..n]);
      assert a == a[..n] + [a[n]] && b == b[..n] + [b[n]];
    }
  }

  /** A HOTP value prints as exactly six digits, which parse back to it. */
  lemma HotpIsSixDigits(mac: (Secret, nat) -> Mac, secret: Secret, counter: nat)
    ensures var s := Hotp(mac, secret, counter);
      |s| == 6 && AllDigits(s) && ParseNat(s) == DynamicTruncation(mac(secret, counter)) % 1_000_000
  {
    var n := Bin(mac(secret, counter)) % MODULUS;
    BinIsDynamicTruncation(mac(secret, counter));
    assert Pow10(6) == 1_000_000 by { assert Pow10(3) == 1000; assert Pow10(5) == 100_000; }
    PrintNatLength(n, 6);
    ParsePrint(n);
    LeadingZeros(6 - |PrintNat(n)|, PrintNat(n));
    assert |PrintNat(n)| == 6 ==> Zeros(0) + PrintNat(n) == PrintNat(n);
  }

  predicate CodeFor(mac: (Secret, nat) -> Mac, secret: Secret, counter: nat, value: nat) {
    DynamicTruncation(mac(secret, counter)) % 1_000_000 == value
  }

  /** Comparing strings accepts exactly the numeric matches of the counters tried. */
  lemma MatchesByValue(mac: (Secret, nat) -> Mac, decoded: Option<Secret>, code: string, t: nat)
    ensures TotpMatches(mac, decoded, code, t) <==>
      && decoded.Some? && |Candidate(code)| == 6 && AllDigits(Candidate(code))
      && exists c :: c in Window(t) && CodeFor(mac, decoded.value, c, ParseNat(Candidate(code)))
  {
    if decoded.Some? && |Candidate(code)| == 6 && AllDigits(Candidate(code)) {
      var w := Window(t);
      forall c | c in w
        ensures Hotp(mac, decoded.value, c) == Candidate(code)
                <==> CodeFor(mac, decoded.value, c, ParseNat(Candidate(code)))
      {
        HotpIsSixDigits(mac, decoded.value, c);
        if CodeFor(mac, decoded.value, c, ParseNat(Candidate(code))) {
          SameLengthSameValue(Hotp(mac, decoded.value, c), Candidate(code));
        }
      }
      assert w[0] in w && w[1] in w && w[2] in w;
      assert forall c :: c in w ==> c == w[0] || c == w[1] || c == w[2];
    }
  }

  // ---------- what is compared, said of the text itself ----------

  /** `code[lo..hi]` is the code without the whitespace at its ends. */
  ghost predicate Stripped(code: string, lo: nat, hi: nat) {
    && lo <= hi <= |code|
    && (forall i :: 0 <= i < lo || hi <= i < |code| ==> IsSpace(code[i]))
    && (lo < hi ==> !IsSpace(code[lo]) && !IsSpace(code[hi - 1]))
  }

  /** `ps` are the places, in order, of the characters between `lo` and `hi` other than ' '. */
  ghost predicate Places(code: string, lo: nat, hi: nat, ps: seq<nat>) {
    && (forall k, m :: 0 <= k < m < |ps| ==> ps[k] < ps[m])
    && (forall p: nat :: p in ps <==> lo <= p < hi && p < |code| && code[p] != ' ')
  }

  function CharsAt(s: string, ps: seq<nat>): string
    requires forall p :: p in ps ==> p < |s|
  {
    seq(|ps|, k requires 0 <= k < |ps| => (assert ps[k] in ps; s[ps[k]]))
  }

  lemma {:induction false} TrimStartIs(s: string, lo: nat)
    requires lo <= |s| && (forall i :: 0 <= i < lo ==> IsSpace(s[i])) && (lo < |s| ==> !IsSpace(s[lo]))
    ensures TrimStart(s) == s[lo..]
  {
    if lo > 0 {
      TrimStartIs(s[1..], lo - 1);
      assert s[1..][lo - 1..] == s[lo..];
    }
  }

  lemma {:induction false} TrimEndIs(s: string, hi: nat)
    requires hi <= |s| && (forall i :: hi <= i < |s| ==> IsSpace(s[i])) && (hi > 0 ==> !IsSpace(s[hi - 1]))
    ensures TrimEnd(s) == s[..hi]
  {
    if hi < |s| {
      TrimEndIs(s[..|s| - 1], hi);
      assert s[..|s| - 1][..hi] == s[..hi];
    } else {
      assert s[..hi] == s;
    }
  }

  lemma TrimIs(code: string, lo: nat, hi: nat)
    requires Stripped(code, lo, hi)
    ensures TrimEnd(TrimStart(code)) == code[lo..hi]
  {
    if lo < hi {
      TrimStartIs(code, lo);
      assert forall i :: 0 <= i < |code[lo..]| ==> code[lo..][i] == code[lo + i];
      TrimEndIs(code[lo..], hi - lo);
      assert code[lo..][..hi - lo] == code[lo..hi];
    } else {
      TrimStartIs(code, |code|);
    }
  }

  lemma FirstIsLeast(code: string, lo: nat, hi: nat, ps: seq<nat>, k: nat)
    requires Places(code, lo, hi, ps) && k < |ps|
    ensures ps[0] <= ps[k]
  {
  }

  /** What is left of the places after the first character. */
  lemma FirstPlace(code: string, lo: nat, hi: nat, ps: seq<nat>)
    requires lo < hi <= |code| && Places(code, lo, hi, ps)
    ensures code[lo] == ' ' ==> Places(code, lo + 1, hi, ps)
    ensures code[lo] != ' ' ==> ps != [] && ps[0] == lo && Places(code, lo + 1, hi, ps[1..])
  {
    if code[lo] != ' ' {
      assert lo in ps;
      var k :| 0 <= k < |ps| && ps[k] == lo;
      PlacesInRange(code, lo, hi, ps);
      FirstIsLeast(code, lo, hi, ps, k);
      var rest := ps[1..];
      assert forall m :: 0 <= m < |rest| ==> rest[m] == ps[m + 1] > lo;
      forall p: nat ensures p in rest <==> lo + 1 <= p < hi && p < |code| && code[p] != ' ' {
        assert p in ps <==> p == lo || p in rest by { assert ps == [lo] + rest; }
      }
    }
  }

  lemma PlacesInRange(code: string, lo: nat, hi: nat, ps: seq<nat>)
    requires Places(code, lo, hi, ps)
    ensures forall k :: 0 <= k < |ps| ==> lo <= ps[k] < hi && ps[k] < |code|
  {
    forall k | 0 <= k < |ps| ensures lo <= ps[k] < hi && ps[k] < |code| { assert ps[k] in ps; }
  }

  lemma {:induction false} BlanksAre(code: string, lo: nat, hi: nat, ps: seq<nat>)
    requires lo <= hi <= |code| && Places(code, lo, hi, ps)
    ensures WithoutBlanks(code[lo..hi]) == CharsAt(code, ps)
    decreases hi - lo
  {
    PlacesInRange(code, lo, hi, ps);
    if lo == hi {
      assert ps == [] && code[lo..hi] == "";
    } else {
      var rest := if code[lo] == ' ' then ps else ps[1..];
      FirstPlace(code, lo, hi, ps);
      BlanksAre(code, lo + 1, hi, rest);
      assert code[lo..hi][0] == code[lo] && code[lo..hi][1..] == code[lo + 1..hi];
      assert CharsAt(code, ps) == (if code[lo] == ' ' then "" else [code[lo]]) + CharsAt(code, rest);
    }
  }

  lemma CandidateIs(code: string, lo: nat, hi: nat, ps: seq<nat>)
    requires Stripped(code, lo, hi) && Places(code, lo, hi, ps)
    ensures forall p :: p in ps ==> p < |code|
    ensures Candidate(code) == CharsAt(code, ps)
  {
    TrimIs(code, lo, hi);
    BlanksAre(code, lo, hi, ps);
  }

  /** Every code can be read that way. */
  lemma {:induction false} Readable(code: string) returns (lo: nat, hi: nat, ps: seq<nat>)
    ensures Stripped(code, lo, hi) && Places(code, lo, hi, ps)
  {
    lo, hi := 0, |code|;
    while lo < |code| && IsSpace(code[lo])
      invariant lo <= |code| && forall i :: 0 <= i < lo ==> IsSpace(code[i])
    {
      lo := lo + 1;
    }
    while hi > lo && IsSpace(code[hi - 1])
      invariant lo <= hi <= |code| && forall i :: hi <= i < |code| ==> IsSpace(code[i])
    {
      hi := hi - 1;
    }
    ps := [];
    var p := lo;
    while p < hi
      invariant lo <= p <= hi && Places(code, lo, p, ps)
    {
      PlacesInRange(code, lo, p, ps);
      if code[p] != ' ' { ps := ps + [p]; }
      p := p + 1;
    }
  }

  lemma ParseSix(s: string)
    requires |s| == 6 && AllDigits(s)
    ensures ParseNat(s) == DigitValue(s[0]) * 100_000 + DigitValue(s[1]) * 10_000 + DigitValue(s[2]) * 1_000
                         + DigitValue(s[3]) * 100 + DigitValue(s[4]) * 10 + DigitValue(s[5])
  {
    assert s[..5][..4] == s[..4] && s[..4][..3] == s[..3] && s[..3][..2] == s[..2] && s[..2][..1] == s[..1];
    assert ParseNat(s[..1]) == DigitValue(s[0]) by { assert s[..1][..0] == ""; }
    assert ParseNat(s[..2]) == ParseNat(s[..1]) * 10 + DigitValue(s[1]);
    assert ParseNat(s[..3]) == ParseNat(s[..2]) * 10 + DigitValue(s[2]);
    assert ParseNat(s[..4]) == ParseNat(s[..3]) * 10 + DigitValue(s[3]);
    assert ParseNat(s[..5]) == ParseNat(s[..4]) * 10 + DigitValue(s[4]);
  }

  /** The counters tried at second `t` are the current step and its neighbours, modulo 2^64. */
  lemma TriedIff(t: nat, c: nat)
    requires t < 0x1_0000_0000_0000_0000
    ensures c in Window(t) <==>
      && c < 0x1_0000_0000_0000_0000
      && (c == t / 30 || (c + 1) % 0x1_0000_0000_0000_0000 == t / 30 || c == (t / 30 + 1) % 0x1_0000_0000_0000_0000)
  {
    var w := Window(t);
    assert w[0] in w && w[1] in w && w[2] in w;
    if t / 30 == 0 { assert w[0] == 0x1_0000_0000_0000_0000 - 1; } else { assert w[0] == t / 30 - 1; }
  }

  lemma TriedCounters(mac: (Secret, nat) -> Mac, secret: Secret, t: nat, v: nat)
    requires t < 0x1_0000_0000_0000_0000
    ensures (exists c :: c in Window(t) && CodeFor(mac, secret, c, v)) <==>
      exists c: nat ::
        && c < 0x1_0000_0000_0000_0000
        && (c == t / 30 || (c + 1) % 0x1_0000_0000_0000_0000 == t / 30 || c == (t / 30 + 1) % 0x1_0000_0000_0000_0000)
        && DynamicTruncation(mac(secret, c)) % 1_000_000 == v
  {
    if c :| c in Window(t) && CodeFor(mac, secret, c, v) { TriedIff(t, c); }
    if c: nat :|
      && c < 0x1_0000_0000_0000_0000
      && (c == t / 30 || (c + 1) % 0x1_0000_0000_0000_0000 == t / 30 || c == (t / 30 + 1) % 0x1_0000_0000_0000_0000)
      && DynamicTruncation(mac(secret, c)) % 1_000_000 == v
    {
      TriedIff(t, c);
      assert CodeFor(mac, secret, c, v);
    }
  }

  /** The number that six digits at these places write. */
  lemma SixAt(code: string, ps: seq<nat>, s: string)
    requires (forall p :: p in ps ==> p < |code|) && s == CharsAt(code, ps)
    ensures |s| == |ps| && (forall k :: 0 <= k < |ps| ==> ps[k] < |code| && s[k] == code[ps[k]])
    ensures |ps| == 6 && AllDigits(s) ==>
      (ParseNat(s) ==
       (code[ps[0]] as int - 48) * 100_000 + (code[ps[1]] as int - 48) * 10_000 + (code[ps[2]] as int - 48) * 1_000
       + (code[ps[3]] as int - 48) * 100 + (code[ps[4]] as int - 48) * 10 + (code[ps[5]] as int - 48))
  {
    forall k | 0 <= k < |ps| ensures ps[k] < |code| && s[k] == code[ps[k]] { assert ps[k] in ps; }
    if |ps| == 6 && AllDigits(s) { ParseSix(s); }
  }

  /** A code is accepted if and only if, stripped of whitespace at its ends and of blanks inside,
      it is six digits whose value is that of the standard for a counter c such that c, c + 1
      or c - 1 is the current 30-second step modulo 2^64. */
  lemma AcceptsExactlyTheWindow(mac: (Secret, nat) -> Mac, decoded: Option<Secret>, code: string, t: nat,
                                lo: nat, hi: nat, ps: seq<nat>)
    requires t < 0x1_0000_0000_0000_0000 && Stripped(code, lo, hi) && Places(code, lo, hi, ps)
    ensures forall k :: 0 <= k < |ps| ==> ps[k] < |code|
    ensures TotpMatches(mac, decoded, code, t) <==>
      && decoded.Some? && |ps| == 6 && (forall k :: 0 <= k < 6 ==> '0' <= code[ps[k]] <= '9')
      && exists c: nat ::
           && c < 0x1_0000_0000_0000_0000
           && (c == t / 30 || (c + 1) % 0x1_0000_0000_0000_0000 == t / 30 || c == (t / 30 + 1) % 0x1_0000_0000_0000_0000)
           && DynamicTruncation(mac(decoded.value, c)) % 1_000_000 ==
              (code[ps[0]] as int - 48) * 100_000 + (code[ps[1]] as int - 48) * 10_000 + (code[ps[2]] as int - 48) * 1_000
              + (code[ps[3]] as int - 48) * 100 + (code[ps[4]] as int - 48) * 10 + (code[ps[5]] as int - 48)
  {
    var s := Candidate(code);
    CandidateIs(code, lo, hi, ps);
    SixAt(code, ps, s);
    MatchesByValue(mac, decoded, code, t);
    if decoded.Some? && |s| == 6 && AllDigits(s) { TriedCounters(mac, decoded.value, t, ParseNat(s)); }
  }
}
