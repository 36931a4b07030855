/**
 Time-based one-time passwords (backend/app/core/totp.py): RFC 6238 over the dynamic truncation
 of section 5.3 of RFC 4226. The HMAC-SHA-1 digest itself is a parameter.
 */
module Totp {
  import opened Wrappers

  newtype Byte = b: int | 0 <= b < 256

  const PERIOD := 30.0
  const DIGITS := 6

  type Digest = d: seq<Byte> | |d| == 20 witness seq(20, i => 0)

  /** Four bytes from the offset named by the low nibble of the last byte, top bit cleared. */
  function Truncate(d: Digest): (r: nat)
    ensures r < 0x8000_0000
  {
    var offset := d[19] as nat % 16;
    (d[offset] as nat % 128) * 0x100_0000 + d[offset + 1] as nat * 0x1_0000
    + d[offset + 2] as nat * 0x100 + d[offset + 3] as nat
  }

  function Pow10(n: nat): (r: nat)
    ensures r > 0
  {
    if n == 0 then 1 else 10 * Pow10(n - 1)
  }

  function Digit(n: nat): char
    requires n < 10
  {
    '0' + n as char
  }

  predicate IsDigits(s: string) {
    forall i :: 0 <= i < |s| ==> '0' <= s[i] <= '9'
  }

  /** `str(n)` for a natural number. */
  function Str(n: nat): string {
    if n < 10 then [Digit(n)] else Str(n / 10) + [Digit(n % 10)]
  }

  function Zeros(n: nat): string { seq(n, i => '0') }

  /** `str.zfill`. */
  function Zfill(s: string, width: nat): string {
    if |s| >= width then s else Zeros(width - |s|) + s
  }

  /** The number a digit string denotes. */
  function Value(s: string): nat
    requires IsDigits(s)
  {
    if s == [] then 0 else 10 * Value(s[..|s| - 1]) + (s[|s| - 1] as int - '0' as int)
  }

  lemma {:induction false} StrDenotes(n: nat, width: nat)
    requires n < Pow10(width) && width > 0
    ensures IsDigits(Str(n)) && Value(Str(n)) == n && 1 <= |Str(n)| <= width
  {
    if n >= 10 {
      assert n / 10 < Pow10(width - 1);
      StrDenotes(n / 10, width - 1);
      assert Str(n)[..|Str(n)| - 1] == Str(n / 10);
    } else {
      assert Str(n) == [Digit(n)] && [Digit(n)][..0] == [];
    }
  }

  lemma {:induction false} ZerosDenoteNothing(k: nat, s: string)
    requires IsDigits(s)
    ensures IsDigits(Zeros(k) + s) && Value(Zeros(k) + s) == Value(s)
    decreases |s|, k
  {
    assert IsDigits(Zeros(k));
    if s == [] {
      if k > 0 {
        assert Zeros(k) + s == Zeros(k) && (Zeros(k) + s)[..k - 1] == Zeros(k - 1) + s;
        ZerosDenoteNothing(k - 1, s);
      } else {
        assert Zeros(k) + s == [];
      }
    } else {
      assert (Zeros(k) + s)[..|Zeros(k) + s| - 1] == Zeros(k) + s[..|s| - 1];
      ZerosDenoteNothing(k, s[..|s| - 1]);
    }
  }

  /** The code for a digest: the truncated number modulo a million, padded to six digits. */
  function Code(d: Digest): string {
    Zfill(Str(Truncate(d) % Pow10(DIGITS)), DIGITS)
  }

  /** What `re.fullmatch("[0-9]{6}")` accepts. */
  predicate WellFormed(code: string) {
    |code| == DIGITS && IsDigits(code)
  }

  /** Every code is six digits that denote the truncated number modulo a million, so two digests
      share a code exactly when their truncations agree modulo a million. */
  lemma CodeIsTruncation(d: Digest, e: Digest)
    ensures WellFormed(Code(d)) && Value(Code(d)) == Truncate(d) % 1_000_000
    ensures Code(d) == Code(e) <==> Truncate(d) % 1_000_000 == Truncate(e) % 1_000_000
  {
    assert Pow10(6) == 1_000_000;
    CodeDenotes(d);
    CodeDenotes(e);
  }

  lemma CodeDenotes(d: Digest)
    ensures WellFormed(Code(d)) && Value(Code(d)) == Truncate(d) % Pow10(DIGITS)
  {
    hide Truncate, Pow10, Str, Zfill, Value;
    PaddedDenotes(Truncate(d) % Pow10(DIGITS));
  }

  lemma PaddedDenotes(n: nat)
    requires n < Pow10(DIGITS)
    ensures WellFormed(Zfill(Str(n), DIGITS)) && Value(Zfill(Str(n), DIGITS)) == n
  {
    hide Str, Value, Pow10;
    StrDenotes(n, DIGITS);
    var s := Str(n);
    ZerosDenoteNothing(DIGITS - |s|, s);
    if |s| >= DIGITS {
      assert Zfill(s, DIGITS) == s;
    } else {
      assert Zfill(s, DIGITS) == Zeros(DIGITS - |s|) + s;
    }
  }

  /** The number that bytes denote, most significant first. */
  function BigEndian(bytes: seq<Byte>): nat {
    if bytes == [] then 0 else 256 * BigEndian(bytes[..|bytes| - 1]) + bytes[|bytes| - 1] as nat
  }

  lemma FourBytes(b: seq<Byte>)
    requires |b| == 4
    ensures BigEndian(b) == b[0] as nat * 0x100_0000 + b[1] as nat * 0x1_0000 + b[2] as nat * 0x100 + b[3] as nat
  {
    assert b[..3][..2] == b[..2] && b[..3][..2][..1] == b[..1] && b[..2][..1] == b[..1] && b[..1][..0] == [];
    assert BigEndian(b[..1]) == b[0] as nat;
    assert BigEndian(b[..2]) == 256 * BigEndian(b[..1]) + b[1] as nat;
    assert BigEndian(b[..3]) == 256 * BigEndian(b[..2]) + b[2] as nat;
  }

  /** Four bytes in network order from the offset in the low nibble of the last one, without the top bit. */
  lemma TruncationIsBigEndian(d: Digest)
    ensures var offset := d[19] as nat % 16;
            offset + 4 <= 20 && Truncate(d) == BigEndian(d[offset..offset + 4]) % 0x8000_0000
  {
    var offset := d[19] as nat % 16;
    var b := d[offset..offset + 4];
    FourBytes(b);
    var rest := b[1] as nat * 0x1_0000 + b[2] as nat * 0x100 + b[3] as nat;
    assert b[0] as nat == 128 * (b[0] as nat / 128) + b[0] as nat % 128;
    assert BigEndian(b) == 0x8000_0000 * (b[0] as nat / 128) + ((b[0] as nat % 128) * 0x100_0000 + rest);
  }

  const EXAMPLE: Digest := [0x1f, 0x86, 0x98, 0x69, 0x0e, 0x02, 0xca, 0x16, 0x61, 0x85, 0x50, 0xef, 0x7f, 0x19, 0xda, 0x8e,
                            0x94, 0x5b, 0x55, 0x5a]

  /** The example of section 5.4 of RFC 4226. */
  lemma ExampleOfTheStandard()
    ensures Truncate(EXAMPLE) == 0x50ef7f19 && WellFormed(Code(EXAMPLE)) && Value(Code(EXAMPLE)) == 872921
  {
    CodeIsTruncation(EXAMPLE, EXAMPLE);
  }

  // ---------- matching ----------

  /** Counters advance every 30 seconds. */
  lemma CounterOfClock(now: real)
    ensures 30.0 * Current(now) as real <= now < 30.0 * (Current(now) + 1) as real
  {
    var q := now / PERIOD;
    assert q * PERIOD == now;
  }

  function Current(now: real): int { (now / PERIOD).Floor }

  /** The counters in `[lo, hi)` that match and are newer than the last one used, ascending. */
  function Matches(codeAt: nat -> string, code: string, lo: nat, hi: int, last: int): seq<nat>
    decreases hi - lo
  {
    if lo >= hi then []
    else (if codeAt(lo) == code && lo > last then [lo] else []) + Matches(codeAt, code, lo + 1, hi, last)
  }

  function MaxOf(s: seq<nat>): nat
    requires s != []
  {
    if |s| == 1 then s[0]
    else
      var rest := MaxOf(s[1..]);
      if s[0] > rest then s[0] else rest
  }

  /** The newest unused counter, one step either side of `now`, whose code is `code`. */
  function MatchingCounter(codeAt: nat -> string, code: string, now: real, last: int): Option<nat> {
    if !WellFormed(code) then None
    else
      var current := Current(now);
      var matches := Matches(codeAt, code, if current - 1 > 0 then current - 1 else 0, current + 2, last);
      if matches == [] then None else Some(MaxOf(matches))
  }

  predicate Acceptable(codeAt: nat -> string, code: string, now: real, last: int, c: nat) {
    && WellFormed(code)
    && Current(now) - 1 <= c <= Current(now) + 1
    && codeAt(c) == code
    && c > last
  }

  lemma {:induction false} MatchesAre(codeAt: nat -> string, code: string, lo: nat, hi: int, last: int)
    ensures forall c: nat :: c in Matches(codeAt, code, lo, hi, last) <==> lo <= c < hi && codeAt(c) == code && c > last
    decreases hi - lo
  {
    if lo < hi {
      MatchesAre(codeAt, code, lo + 1, hi, last);
    }
  }

  lemma {:induction false} MaxOfIsMax(s: seq<nat>)
    requires s != []
    ensures MaxOf(s) in s && forall c :: c in s ==> c <= MaxOf(s)
  {
    if |s| > 1 {
      MaxOfIsMax(s[1..]);
      assert forall c :: c in s <==> c == s[0] || c in s[1..];
    }
  }

  /** A counter is found exactly when an acceptable one exists, and then it is the newest of them. */
  lemma MatchingCounterIsNewest(codeAt: nat -> string, code: string, now: real, last: int)
    ensures var found := MatchingCounter(codeAt, code, now, last);
            && (found.Some? <==> exists c: nat :: Acceptable(codeAt, code, now, last, c))
            && (found.Some? ==>
                  && Acceptable(codeAt, code, now, last, found.value)
                  && forall c: nat :: Acceptable(codeAt, code, now, last, c) ==> c <= found.value)
  {
    if WellFormed(code) {
      var current := Current(now);
      var lo := if current - 1 > 0 then current - 1 else 0;
      var matches := Matches(codeAt, code, lo, current + 2, last);
      MatchesAre(codeAt, code, lo, current + 2, last);
      assert forall c: nat :: Acceptable(codeAt, code, now, last, c) <==> c in matches;
      if matches != [] {
        MaxOfIsMax(matches);
        assert Acceptable(codeAt, code, now, last, MaxOf(matches));
      }
    }
  }
}
