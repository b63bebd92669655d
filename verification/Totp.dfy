/**
 The tamper-lockout override code, computed twice: by the server in Python
 (app/totp.py) and by the agent in Go (agent/internal/totp/totp.go).

 HMAC-SHA1 is any function to twenty bytes; what a base32 text decodes to, and what
 the agent's decoder makes of a text that is not one, are any functions. Masks, shifts
 and ors of disjoint bits are written as remainders and sums.
 */
module Totp {
  import opened Decimals
  import opened Whitespace
  import opened Wrappers

  const STEP_SECONDS := 30
  const DIGITS := 6
  const TWO_64 := 0x1_0000_0000_0000_0000

  type Key = seq<byte>

  datatype Crypto = Crypto(hmac: (Key, seq<byte>) -> seq<byte>, b32: string -> Key, goOther: string -> Option<Key>)

  ghost predicate IsSha1(c: Crypto) {
    forall key, msg :: |c.hmac(key, msg)| == 20
  }

  /** struct.pack(">Q", n) and binary.BigEndian.PutUint64 */
  function BigEndian(n: nat, width: nat): (r: seq<byte>)
    ensures |r| == width
  {
    if width == 0 then [] else BigEndian(n / 256, width - 1) + [(n % 256) as byte]
  }

  // ---- Section 5.3 of RFC 4226 ----------------------------------------------------------------

  /** The 31 bits at the offset the last byte names. */
  function Truncated(mac: seq<byte>): (r: nat)
    requires |mac| == 20
    ensures r < 0x8000_0000
  {
    var offset := (mac[19] % 16) as int;
    (mac[offset] % 128) as int * 0x100_0000 + mac[offset + 1] as int * 0x1_0000 + mac[offset + 2] as int * 0x100
        + mac[offset + 3] as int
  }

  /** The number eight-bit digits stand for, the most significant first. */
  function FromBytes(bytes: seq<byte>): nat {
    if bytes == [] then 0 else 256 * FromBytes(bytes[..|bytes| - 1]) + bytes[|bytes| - 1] as int
  }

  /** Packing a number that fits loses nothing. */
  lemma {:induction false} BigEndianReadsBack(n: nat, width: nat)
    requires n < Power256(width)
    ensures FromBytes(BigEndian(n, width)) == n
  {
    if width > 0 {
      BigEndianReadsBack(n / 256, width - 1);
      assert BigEndian(n, width)[..width - 1] == BigEndian(n / 256, width - 1);
    }
  }

  function Power256(n: nat): nat {
    if n == 0 then 1 else 256 * Power256(n - 1)
  }

  /** Dynamic truncation is the last 31 bits of the four bytes at the offset in the low half of the last byte. */
  lemma TruncatedIsFourBytes(mac: seq<byte>)
    requires |mac| == 20
    ensures var offset := (mac[19] % 16) as int;
            Truncated(mac) == FromBytes(mac[offset..offset + 4]) % 0x8000_0000
  {
    var offset := (mac[19] % 16) as int;
    var four := mac[offset..offset + 4];
    assert four[..3][..2][..1][..0] == [] && four[..3][..2][..1] == four[..1] && four[..3][..2] == four[..2];
    assert four[..1][..0] == [];
    assert FromBytes(four[..1]) == four[0] as int;
    assert FromBytes(four[..2])
             == 256 * FromBytes(four[..1]) + four[1] as int by { assert four[..2][..1] == four[..1]; }
    assert FromBytes(four[..3])
             == 256 * FromBytes(four[..2]) + four[2] as int by { assert four[..3][..2] == four[..2]; }
    assert FromBytes(four) == 256 * FromBytes(four[..3]) + four[3] as int;
  }

  /** The example of section 5.4 of RFC 4226. */
  lemma TruncationExample()
    ensures Truncated([0x1f, 0x86, 0x98, 0x69, 0x0e, 0x02, 0xca, 0x16, 0x61, 0x85, 0x50, 0xef, 0x7f, 0x19, 0xda, 0x8e,
                       0x94, 0x5b, 0x55, 0x5a]) == 0x50ef_7f19
  {}

  /** Six digits, zeros included, whose value is the number modulo a million: there is one such text. */
  predicate IsCodeOf(s: string, truncated: nat) {
    |s| == DIGITS && AllDigits(s) && Value(s) == truncated % 1_000_000
  }

  // ---- app/totp.py ------------------------------------------------------------------------------------

  /** s.zfill(width), without a sign */
  function Zfill(s: string, width: nat): string
    decreases width - |s|
  {
    if |s| >= width then s else Zfill("0" + s, width)
  }

  lemma {:induction false} ZeroInFront(s: string)
    requires AllDigits(s)
    ensures AllDigits("0" + s) && Value("0" + s) == Value(s)
  {
    if s != [] {
      var last := |s| - 1;
      ZeroInFront(s[..last]);
      assert ("0" + s)[..last + 1] == "0" + s[..last];
    }
  }

  lemma {:induction false} ZfillValue(s: string, width: nat)
    requires |s| <= width && AllDigits(s)
    ensures var z := Zfill(s, width); |z| == width && AllDigits(z) && Value(z) == Value(s)
    decreases width - |s|
  {
    if |s| < width {
      ZeroInFront(s);
      ZfillValue("0" + s, width);
    }
  }

  /** secret + "=" * ((8 - len(secret) % 8) % 8) */
  function Pad(secret: string): string {
    secret + seq((8 - |secret| % 8) % 8, _ => '=')
  }

  /** str.upper on the letters a base32 secret has */
  function Upper(s: string): (r: string)
    ensures |r| == |s|
  {
    seq(|s|, i requires 0 <= i < |s| => if 'a' <= s[i] <= 'z' then (s[i] as int - 32) as char else s[i])
  }

  function TrimEquals(s: string): string {
    if s != [] && s[|s| - 1] == '=' then TrimEquals(s[..|s| - 1]) else s
  }

  /** The alphabet of section 6 of RFC 4648. */
  predicate InAlphabet(text: string) {
    forall i | 0 <= i < |text| :: 'A' <= text[i] <= 'Z' || '2' <= text[i] <= '7'
  }

  /** What an unpadded text can have beyond whole groups of eight. */
  predicate HasLength(text: string) {
    |text| % 8 in {0, 2, 4, 5, 7}
  }

  /** base64.b32decode, on a text whose length is a multiple of eight. */
  function PythonDecode(c: Crypto, padded: string): Option<Key> {
    var text := TrimEquals(padded);
    if InAlphabet(text) && |padded| - |text| in {0, 1, 3, 4, 6} then Some(c.b32(text)) else None
  }

  /** DecodeString without padding, which also takes lengths that are not possible. */
  function GoDecode(c: Crypto, text: string): Option<Key> {
    if InAlphabet(text) && HasLength(text) then Some(c.b32(text)) else c.goOther(text)
  }

  function PythonKey(c: Crypto, secret: string): Option<Key> {
    PythonDecode(c, Pad(Upper(secret)))
  }

  function GoKey(c: Crypto, secret: string): Option<Key> {
    GoDecode(c, TrimEquals(Upper(Trim(secret, Go))))
  }

  /** _code with the key decoded */
  function Code(c: Crypto, key: Key, counter: nat): (code: string)
    requires IsSha1(c)
  {
    Zfill(Decimal(Truncated(c.hmac(key, BigEndian(counter, 8))) % 1_000_000), DIGITS)
  }

  /** _code; None where it raises: the secret does not decode, or the counter does not fit. */
  function PythonCode(c: Crypto, secret: string, counter: int): Option<string>
    requires IsSha1(c)
  {
    match PythonKey(c, secret)
    case Some(key) => if 0 <= counter < TWO_64 then Some(Code(c, key, counter)) else None
    case None => None
  }

  lemma CodeHasSixDigits(c: Crypto, key: Key, counter: nat)
    requires IsSha1(c)
    ensures IsCodeOf(Code(c, key, counter), Truncated(c.hmac(key, BigEndian(counter, 8))))
  {
    var n := Truncated(c.hmac(key, BigEndian(counter, 8))) % 1_000_000;
    SixDigitsAreAMillion();
    DecimalValue(n, DIGITS);
    ZfillValue(Decimal(n), DIGITS);
  }

  lemma SixDigitsAreAMillion()
    ensures Power10(6) == 1_000_000
  {
    assert Power10(3) == 1_000;
  }

  // ---- agent/internal/totp/totp.go ---------------------------------------------------------------------

  /** Sprintf("%0*d", width, n): the digits from the right, and zeros to the width. */
  function Padded(n: nat, width: nat): (s: string)
    ensures |s| == width && AllDigits(s)
  {
    if width == 0 then [] else Padded(n / 10, width - 1) + [Digit(n % 10)]
  }

  lemma {:induction false} PaddedValue(n: nat, width: nat)
    requires n < Power10(width)
    ensures Value(Padded(n, width)) == n
  {
    if width > 0 {
      PaddedValue(n / 10, width - 1);
      assert Padded(n, width)[..width - 1] == Padded(n / 10, width - 1);
    }
  }

  /** code, in uint32 arithmetic for the modulus. It gives the server's digits. */
  method GoCode(c: Crypto, secret: string, counter: nat) returns (code: Option<string>)
    requires IsSha1(c) && counter < TWO_64
    ensures code == match GoKey(c, secret)
              case Some(key) => Some(Code(c, key, counter))
              case None => None
  {
    var key := GoKey(c, secret);
    if key.None? {
      return None;
    }
    var truncated := Truncated(c.hmac(key.value, BigEndian(counter, 8)));
    var modulus := 1;
    for i := 0 to DIGITS
      invariant modulus == Power10(i)
    {
      modulus := modulus * 10 % 0x1_0000_0000;
      SmallPowers(i + 1);
    }
    SixDigitsAreAMillion();
    PaddedValue(truncated % modulus, DIGITS);
    CodeHasSixDigits(c, key.value, counter);
    ValueDetermines(Padded(truncated % modulus, DIGITS), Code(c, key.value, counter));
    code := Some(Padded(truncated % modulus, DIGITS));
  }

  lemma SmallPowers(i: nat)
    requires i <= 6
    ensures Power10(i) <= 1_000_000
  {
    SixDigitsAreAMillion();
    assert Power10(5) == 100_000 && Power10(4) == 10_000 && Power10(3) == 1_000 && Power10(2) == 100;
  }

  /** The counters tried at a time step: it, the one before and the one after, as uint64. */
  function Neighbour(step: nat, delta: int): nat
    requires delta >= -1
  {
    (step + delta) % TWO_64
  }

  ghost predicate Accepted(c: Crypto, key: Key, step: nat, candidate: string)
    requires IsSha1(c)
  {
    exists delta: int | -1 <= delta <= 1 :: candidate == Code(c, key, Neighbour(step, delta))
  }

  /** One of three adjacent time steps has the candidate as its code. */
  ghost predicate GoAccepts(c: Crypto, secret: string, candidate: string, now: nat)
    requires IsSha1(c)
  {
    GoKey(c, secret).Some? && Accepted(c, GoKey(c, secret).value, now / STEP_SECONDS, Trim(candidate, Go))
  }

  /** Verify, at Unix time `now`. A text that is not ASCII is no code, however its length is counted. */
  method GoVerify(c: Crypto, secret: string, candidate: string, now: nat) returns (ok: bool)
    requires IsSha1(c) && now / STEP_SECONDS < TWO_64
    ensures ok <==> GoAccepts(c, secret, candidate, now)
  {
    hide Code, Neighbour;
    var trimmed := Trim(candidate, Go);
    var step := now / STEP_SECONDS;
    var deltas := [0, -1, 1];
    if |trimmed| != DIGITS {
      WrongLength(c, secret, trimmed, step);
      return false;
    }
    for i := 0 to 3
      invariant i > 0 ==> GoKey(c, secret).Some?
      invariant forall k | 0 <= k < i :: trimmed != Code(c, GoKey(c, secret).value, Neighbour(step, deltas[k]))
    {
      NeighbourFits(step, deltas[i]);
      var expected := GoCode(c, secret, Neighbour(step, deltas[i]));
      if expected.None? {
        return false;
      }
      if expected.value == trimmed {
        return true;
      }
    }
    ok := false;
    assert deltas[0] == 0 && deltas[1] == -1 && deltas[2] == 1;
  }

  lemma NeighbourFits(step: nat, delta: int)
    requires delta >= -1
    ensures Neighbour(step, delta) < TWO_64
  {}

  lemma WrongLength(c: Crypto, secret: string, trimmed: string, step: nat)
    requires IsSha1(c) && |trimmed| != DIGITS
    ensures GoKey(c, secret).Some? ==> !Accepted(c, GoKey(c, secret).value, step, trimmed)
  {
    if GoKey(c, secret).Some? {
      var key := GoKey(c, secret).value;
      forall delta: int | -1 <= delta <= 1
        ensures trimmed != Code(c, key, Neighbour(step, delta))
      {
        CodeHasSixDigits(c, key, Neighbour(step, delta));
      }
    }
  }

  // ---- The server's own verify --------------------------------------------------------------------------

  datatype Verdict = Yes | No | Raises

  predicate IsAscii(s: string) {
    forall i | 0 <= i < |s| :: s[i] as int < 128
  }

  /**
   In the first thirty seconds of the epoch the step before is negative and does
   not pack; compare_digest refuses what is not ASCII.
   */
  ghost function PythonVerdict(c: Crypto, secret: string, candidate: string, now: int): Verdict
    requires IsSha1(c)
  {
    var trimmed := Trim(candidate, Python);
    var step := now / STEP_SECONDS;
    if |trimmed| != DIGITS then No
    else match PythonKey(c, secret)
      case None => Raises
      case Some(key) =>
        if !(0 <= step < TWO_64) || !IsAscii(trimmed) then Raises
        else if trimmed == Code(c, key, step) then Yes
        else if step == 0 then Raises
        else if trimmed == Code(c, key, step - 1) then Yes
        else if step + 1 == TWO_64 then Raises
        else if trimmed == Code(c, key, step + 1) then Yes
        else No
  }

  method PythonVerify(c: Crypto, secret: string, candidate: string, now: int) returns (verdict: Verdict)
    requires IsSha1(c)
    ensures verdict == PythonVerdict(c, secret, candidate, now)
  {
    hide Code;
    var trimmed := Trim(candidate, Python);
    if |trimmed| != DIGITS {
      return No;
    }
    var step := now / STEP_SECONDS;
    var deltas := [0, -1, 1];
    for i := 0 to 3
      invariant i > 0 ==> IsAscii(trimmed)
      invariant forall k | 0 <= k < i ::
                  PythonCode(c, secret, step + deltas[k]).Some?
                      && PythonCode(c, secret, step + deltas[k]).value != trimmed
    {
      assert deltas[0] == 0 && deltas[1] == -1 && deltas[2] == 1;
      assert i > 0 ==> PythonCode(c, secret, step + deltas[0]).Some? && PythonCode(c, secret, step).value != trimmed;
      assert i > 1 ==>
               PythonCode(c, secret, step + deltas[1]).Some? && PythonCode(c, secret, step - 1).value != trimmed;
      var expected := PythonCode(c, secret, step + deltas[i]);
      if expected.None? || !IsAscii(trimmed) {
        return Raises;
      }
      if expected.value == trimmed {
        return Yes;
      }
    }
    verdict := No;
    assert deltas[0] == 0 && deltas[1] == -1 && deltas[2] == 1;
  }

  // ---- The two together --------------------------------------------------------------------------------------

  /** A secret as it is generated: no padding, and nothing around it. */
  predicate IsPlain(secret: string) {
    '=' !in secret && Trim(secret, Go) == secret
  }

  lemma {:induction false} OnlyPaddingIsTrimmed(s: string, n: nat)
    requires '=' !in s
    ensures TrimEquals(s + seq(n, _ => '=')) == s
  {
    var whole := s + seq(n, _ => '=');
    if n == 0 {
      assert whole == s;
    } else {
      assert whole[..|whole| - 1] == s + seq(n - 1, _ => '=');
      OnlyPaddingIsTrimmed(s, n - 1);
    }
  }

  lemma UpperKeepsPlain(s: string)
    requires '=' !in s
    ensures '=' !in Upper(s)
  {}

  /** base32 of twenty bytes, as generate_secret and GenerateSecret give it. */
  predicate IsGenerated(secret: string) {
    |secret| == 32 && InAlphabet(secret)
  }

  /**
   What the server pads is what the agent trims. The server decodes exactly texts
   over the alphabet of a possible length, and on these the agent has the same key.
   */
  lemma SameKey(c: Crypto, secret: string)
    requires IsPlain(secret)
    ensures PythonKey(c, secret).Some? <==> InAlphabet(Upper(secret)) && HasLength(secret)
    ensures PythonKey(c, secret).Some? ==> GoKey(c, secret) == PythonKey(c, secret)
  {
    UpperKeepsPlain(secret);
    var upper := Upper(secret);
    var n := (8 - |upper| % 8) % 8;
    OnlyPaddingIsTrimmed(upper, n);
    OnlyPaddingIsTrimmed(upper, 0);
    assert upper + seq(0, _ => '=') == upper;
    assert |Pad(upper)| - |upper| == n;
  }

  lemma GeneratedSecretsDecode(c: Crypto, secret: string)
    requires IsGenerated(secret)
    ensures PythonKey(c, secret) == Some(c.b32(secret)) && GoKey(c, secret) == Some(c.b32(secret))
  {
    assert Upper(secret) == secret;
    GeneratedIsPlain(secret);
    SameKey(c, secret);
    OnlyPaddingIsTrimmed(secret, 0);
    assert secret + seq(0, _ => '=') == secret && Pad(secret) == secret;
  }

  lemma GeneratedIsPlain(secret: string)
    ensures IsGenerated(secret) ==> IsPlain(secret)
  {}

  lemma WindowOfSteps(a: nat, b: nat)
    ensures -30 <= a - b <= 30 ==> -1 <= a / STEP_SECONDS - b / STEP_SECONDS <= 1
    ensures -1 <= a / STEP_SECONDS - b / STEP_SECONDS <= 1 ==> -60 < a - b < 60
  {}

  lemma DigitsAreNotTrimmed(s: string, language: Language)
    requires AllDigits(s)
    ensures Trim(s, language) == s
  {}

  /**
   A code the server shows is accepted by an agent whose clock is at most thirty
   seconds away; and by the server, once its clock has passed the first step.
   */
  lemma ShownCodeIsAccepted(c: Crypto, secret: string, shownAt: nat, checkedAt: nat)
    requires IsSha1(c) && IsPlain(secret) && PythonKey(c, secret).Some?
    requires -30 <= shownAt - checkedAt <= 30 && checkedAt / STEP_SECONDS + 1 < TWO_64
    ensures var shown := PythonCode(c, secret, shownAt / STEP_SECONDS);
            && shown.Some?
            && GoAccepts(c, secret, shown.value, checkedAt)
            && (checkedAt >= STEP_SECONDS ==> PythonVerdict(c, secret, shown.value, checkedAt) == Yes)
  {
    hide Code, Trim, PythonKey, GoKey, IsPlain, IsAscii;
    SameKey(c, secret);
    WindowOfSteps(shownAt, checkedAt);
    var key, step := PythonKey(c, secret).value, checkedAt / STEP_SECONDS;
    var shown := Code(c, key, shownAt / STEP_SECONDS);
    CodeIsNotTrimmed(c, key, shownAt / STEP_SECONDS);
    var delta := shownAt / STEP_SECONDS - step;
    assert Neighbour(step, delta) == step + delta;
    assert shown == Code(c, key, Neighbour(step, delta));
  }

  lemma CodeIsNotTrimmed(c: Crypto, key: Key, counter: nat)
    requires IsSha1(c)
    ensures var code := Code(c, key, counter);
            |code| == DIGITS && IsAscii(code) && Trim(code, Go) == code && Trim(code, Python) == code
  {
    CodeHasSixDigits(c, key, counter);
    var code := Code(c, key, counter);
    DigitsAreNotTrimmed(code, Go);
    DigitsAreNotTrimmed(code, Python);
  }

  /**
   What the agent accepts, spelled out: the code of the present step, of the one before or of the
   next, and no other.
   */
  lemma AcceptsThreeSteps(c: Crypto, secret: string, candidate: string, now: nat)
    requires IsSha1(c) && GoKey(c, secret).Some? && now >= 30 && now / 30 + 1 < TWO_64
    ensures var key, code := GoKey(c, secret).value, Trim(candidate, Go);
            GoAccepts(c, secret, candidate, now)
            <==> code in {Code(c, key, now / 30 - 1), Code(c, key, now / 30), Code(c, key, now / 30 + 1)}
  {
    hide Code, Trim;
    var key, step, code := GoKey(c, secret).value, now / 30, Trim(candidate, Go);
    assert Neighbour(step, 0) == step && Neighbour(step, -1) == step - 1 && Neighbour(step, 1) == step + 1;
    if GoAccepts(c, secret, candidate, now) {
      var delta: int :| -1 <= delta <= 1 && code == Code(c, key, Neighbour(step, delta));
      assert delta in {-1, 0, 1};
    }
  }

  /** From the second time step on, server and agent judge an ordinary text alike. */
  lemma VerifiersAgree(c: Crypto, secret: string, candidate: string, now: nat)
    requires IsSha1(c) && IsPlain(secret) && now >= STEP_SECONDS && now / STEP_SECONDS + 1 < TWO_64
    requires PythonKey(c, secret).Some?
    requires IsAscii(Trim(candidate, Python)) && Trim(candidate, Python) == Trim(candidate, Go)
    ensures PythonVerdict(c, secret, candidate, now) == if GoAccepts(c, secret, candidate, now) then Yes else No
  {
    hide Code, Trim, PythonKey, GoKey, IsPlain, IsAscii;
    SameKey(c, secret);
    var key, step, trimmed := PythonKey(c, secret).value, now / STEP_SECONDS, Trim(candidate, Go);
    if |trimmed| != DIGITS {
      WrongLength(c, secret, trimmed, step);
    }
    assert Neighbour(step, 0) == step && Neighbour(step, -1) == step - 1 && Neighbour(step, 1) == step + 1;
    if Accepted(c, key, step, trimmed) {
      var delta: int :| -1 <= delta <= 1 && trimmed == Code(c, key, Neighbour(step, delta));
      assert delta == 0 || delta == -1 || delta == 1;
    }
  }

  /** seconds_remaining: so long, and no longer, the same time step goes on. */
  function SecondsRemaining(at: nat): (r: nat)
    ensures 1 <= r <= 30
    ensures forall later: nat | later >= at :: later / STEP_SECONDS == at / STEP_SECONDS <==> later < at + r
  {
    STEP_SECONDS - at % STEP_SECONDS
  }
}
