/**
 Request ids: how they are generated, written in front of a request, and read back from the response.
 */
module RequestIds {
  import opened Basics
  import opened Buffers
  import opened Framing

  /** Zero is skipped, so ids repeat after this many. */
  const CYCLE: nat := UINT32 - 1

  // ----- generation

  /** Incrementing an unsigned 32-bit id, past zero. */
  function NextId(id: nat): (next: nat)
    requires id < UINT32
    ensures 0 < next < UINT32
  {
    var next := (id + 1) % UINT32;
    if next == 0 then (next + 1) % UINT32 else next
  }

  /** The id after `n` calls of generateId; it starts at zero. */
  function NthId(n: nat): (id: nat)
    ensures id < UINT32 && (n > 0 ==> id > 0)
  {
    if n == 0 then 0 else NextId(NthId(n - 1))
  }

  lemma ModNext(n: nat)
    ensures (n + 1) % CYCLE == if n % CYCLE == CYCLE - 1 then 0 else n % CYCLE + 1
  {
    var q, r := n / CYCLE, n % CYCLE;
    assert n == q * CYCLE + r;
    if r == CYCLE - 1 {
      assert n + 1 == (q + 1) * CYCLE;
      assert (n + 1) % CYCLE == 0;
    } else {
      assert n + 1 == q * CYCLE + (r + 1);
      assert (n + 1) % CYCLE == r + 1;
    }
  }

  lemma {:induction false} NthIdIs(n: nat)
    requires n > 0
    ensures NthId(n) == (n - 1) % CYCLE + 1
  {
    if n > 1 {
      NthIdIs(n - 1);
      ModNext(n - 2);
      NextIdIs(NthId(n - 1));
      assert NthId(n) == NextId(NthId(n - 1));
    }
  }

  lemma NextIdIs(id: nat)
    requires id < UINT32
    ensures NextId(id) == if id == CYCLE then 1 else id + 1
  {}

  lemma ModGap(m: nat, n: nat)
    requires m <= n
    ensures m % CYCLE == n % CYCLE <==> (n - m) % CYCLE == 0
  {
    var d := n / CYCLE - m / CYCLE;
    var e := n % CYCLE - m % CYCLE;
    assert n - m == d * CYCLE + e;
    if e >= 0 {
      assert (n - m) % CYCLE == e;
    } else {
      assert n - m == (d - 1) * CYCLE + (e + CYCLE);
      assert (n - m) % CYCLE == e + CYCLE;
    }
  }

  /** Two generations give the same id exactly when a multiple of 2^32 - 1 lies between them; so ids do not
      repeat within 2^32 - 1 consecutive generations. */
  lemma IdsRepeat(m: nat, n: nat)
    requires 0 < m <= n
    ensures NthId(m) == NthId(n) <==> (n - m) % CYCLE == 0
    ensures m < n < m + CYCLE ==> NthId(m) != NthId(n)
  {
    NthIdIs(m);
    NthIdIs(n);
    ModGap(m - 1, n - 1);
  }

  // ----- 32-bit conversions

  /** unsigned to int: the request id is kept in an int. */
  function ToInt32(u: nat): (i: int)
    requires u < UINT32
    ensures -INT32_LIMIT <= i < INT32_LIMIT
  {
    if u < INT32_LIMIT then u else u - UINT32
  }

  /** int or long to unsigned: the key in the queue. */
  function ToUint32(i: int): (u: nat)
    ensures u < UINT32
  {
    i % UINT32
  }

  // ----- decimal text

  const ZERO: byte := 48
  const MINUS: byte := 45
  const PLUS: byte := 43

  predicate IsDigit(b: byte) { ZERO <= b <= ZERO + 9 }

  predicate IsSpace(b: byte) { b == 32 || 9 <= b <= 13 }

  function Digits(n: nat): Bytes {
    if n < 10 then [(48 + n) as byte] else Digits(n / 10) + [(48 + n % 10) as byte]
  }

  /** std::to_string(int). */
  function Decimal(i: int): Bytes {
    if i < 0 then [MINUS] + Digits(-i) else Digits(i)
  }

  /** The digits in front, as a number appended to `acc`. */
  function ParseDigits(s: Bytes, acc: nat): nat {
    if s == [] || !IsDigit(s[0]) then acc else ParseDigits(s[1..], 10 * acc + (s[0] - ZERO) as nat)
  }

  /** strtol in base ten: white space, a sign, digits; nothing numeric is zero. Beyond 64 bits it saturates. */
  function Strtol(s: Bytes): int {
    if s == [] then 0
    else if IsSpace(s[0]) then Strtol(s[1..])
    else Saturate(if s[0] == MINUS then 0 - ParseDigits(s[1..], 0)
                  else if s[0] == PLUS then ParseDigits(s[1..], 0)
                  else ParseDigits(s, 0))
  }

  function Saturate(i: int): int {
    var top: int := MAX_BUFFER_SIZE; if i > top then top else if i < -top - 1 then -top - 1 else i
  }

  /** response.substr(0, response.find(":")). */
  function BeforeColon(s: Bytes): Bytes {
    if s == [] || s[0] == COLON then [] else [s[0]] + BeforeColon(s[1..])
  }

  /** The key that finishInvoke looks up. */
  function KeyOf(response: Bytes): (id: nat)
    ensures id < UINT32
  {
    ToUint32(Strtol(BeforeColon(response)))
  }

  /** What sendReqMessage puts in front of a request. */
  function Tagged(id: nat, request: Bytes): Bytes
    requires id < UINT32
  {
    Decimal(ToInt32(id)) + [COLON] + request
  }

  lemma {:induction false} DigitsParse(n: nat, rest: Bytes)
    ensures ParseDigits(Digits(n) + rest, 0) == ParseDigits(rest, n)
  {
    if n < 10 {
      var s := Digits(n) + rest;
      assert s[1..] == rest;
    } else {
      var d := [(48 + n % 10) as byte];
      assert Digits(n) + rest == Digits(n / 10) + (d + rest);
      DigitsParse(n / 10, d + rest);
      assert (d + rest)[1..] == rest;
      assert ParseDigits(d + rest, n / 10) == ParseDigits(rest, 10 * (n / 10) + n % 10);
    }
  }

  lemma {:induction false} DigitsAreDigits(n: nat)
    ensures Digits(n) != [] && forall k :: 0 <= k < |Digits(n)| ==> IsDigit(Digits(n)[k])
  {
    if n >= 10 {
      DigitsAreDigits(n / 10);
    }
  }

  function Power10(k: nat): (p: nat)
    ensures p > 0
  {
    if k == 0 then 1 else 10 * Power10(k - 1)
  }

  lemma DivDiv(n: nat, p: nat)
    requires p > 0
    ensures n / (10 * p) == n / 10 / p
  {
    var q, r := n / 10 / p, n / 10 % p;
    assert n == 10 * (p * q) + (10 * r + n % 10);
    assert 10 * (p * q) == (10 * p) * q;
    QuotientIs(n, 10 * p, q, 10 * r + n % 10);
  }

  lemma QuotientIs(n: nat, p: nat, q: nat, r: nat)
    requires n == p * q + r && r < p
    ensures n / p == q
  {
    var d := n / p - q;
    assert p * d == p * (n / p) - p * q;
    assert p * d == r - n % p;
    Multiples(p, d);
  }

  lemma Multiples(p: nat, d: int)
    requires p > 0
    ensures d >= 1 ==> p * d >= p
    ensures d <= -1 ==> p * d <= 0 - p
  {
    assert d >= 1 ==> p * d == p + p * (d - 1);
    assert d <= -1 ==> p * d == p * (d + 1) - p;
  }

  /** to_string is decimal: the k-th digit from the right counts the powers 10^k, and a number of more than one digit
      does not start with zero. */
  lemma {:induction false} DigitsAreDecimal(n: nat, k: nat)
    requires k < |Digits(n)|
    ensures Digits(n)[|Digits(n)| - 1 - k] as int == 48 + n / Power10(k) % 10
    ensures |Digits(n)| > 1 ==> Digits(n)[0] != ZERO
    decreases n
  {
    if n >= 10 {
      if k > 0 {
        DigitsAreDecimal(n / 10, k - 1);
        DivDiv(n, Power10(k - 1));
      } else {
        DigitsAreDecimal(n / 10, 0);
      }
    }
  }

  /** Everything up to the first colon, or everything. */
  lemma {:induction false} BeforeColonIs(s: Bytes)
    ensures COLON !in BeforeColon(s)
    ensures if COLON in s then BeforeColon(s) + [COLON] <= s else BeforeColon(s) == s
  {
    if s != [] && s[0] != COLON {
      BeforeColonIs(s[1..]);
      assert s == [s[0]] + s[1..];
    }
  }

  lemma {:induction false} BeforeColonStops(s: Bytes, rest: Bytes)
    requires COLON !in s
    ensures BeforeColon(s + [COLON] + rest) == s
  {
    if s != [] {
      BeforeColonStops(s[1..], rest);
      assert (s + [COLON] + rest)[1..] == s[1..] + [COLON] + rest;
    }
  }

  /** Reading what to_string wrote, for every int. */
  lemma DecimalRoundTrip(i: int)
    requires -INT32_LIMIT <= i < INT32_LIMIT
    ensures Strtol(Decimal(i)) == i && COLON !in Decimal(i)
  {
    var n: nat := if i < 0 then -i else i;
    DigitsAreDigits(n);
    DigitsParse(n, []);
    assert Digits(n) + [] == Digits(n);
    assert ParseDigits([], n) == n;
    if i < 0 {
      assert Decimal(i)[1..] == Digits(n);
    } else {
      assert IsDigit(Decimal(i)[0]);
    }
  }

  ghost predicate Spaces(s: Bytes) {
    forall k :: 0 <= k < |s| ==> IsSpace(s[k])
  }

  /** What atoi reads: any white space, a sign or none, and digits up to whatever is no digit. */
  lemma {:induction false} StrtolReads(spaces: Bytes, sign: Bytes, n: nat, rest: Bytes)
    requires Spaces(spaces) && sign in {[], [MINUS], [PLUS]} && (rest == [] || !IsDigit(rest[0]))
    ensures Strtol(spaces + sign + Digits(n) + rest) == Saturate(if sign == [MINUS] then 0 - n else n)
    decreases |spaces|
  {
    var s := spaces + sign + Digits(n) + rest;
    if spaces != [] {
      StrtolReads(spaces[1..], sign, n, rest);
      assert s[1..] == spaces[1..] + sign + Digits(n) + rest;
    } else {
      var digits := Digits(n) + rest;
      assert s == sign + digits;
      DigitsAreDigits(n);
      DigitsParse(n, rest);
      assert IsDigit(digits[0]);
      if sign == [] {
        assert s == digits;
      } else {
        assert s[0] == sign[0] && s[1..] == digits;
      }
    }
  }

  lemma SaturateIs(i: int)
    ensures -0x8000_0000_0000_0000 <= Saturate(i) <= 0x7FFF_FFFF_FFFF_FFFF
    ensures -0x8000_0000_0000_0000 <= i <= 0x7FFF_FFFF_FFFF_FFFF ==> Saturate(i) == i
    ensures (i >= 0 ==> Saturate(i) >= 0) && (i < 0 ==> Saturate(i) < 0)
  {}

  /** The request a response names: the number it starts with, whatever follows it, as 32 bits. */
  lemma KeyIs(spaces: Bytes, sign: Bytes, n: nat, junk: Bytes, rest: Bytes)
    requires Spaces(spaces) && sign in {[], [MINUS], [PLUS]} && n <= MAX_BUFFER_SIZE
    requires COLON !in junk && (junk == [] || !IsDigit(junk[0]))
    ensures KeyOf(spaces + sign + Digits(n) + junk + [COLON] + rest) == (if sign == [MINUS] then 0 - n else n) % UINT32
  {
    StrtolReads(spaces, sign, n, junk);
    DigitsAreDigits(n);
    BeforeColonStops(spaces + sign + Digits(n) + junk, rest);
  }

  /** The round trip of an id: through int, decimal text, the first colon, atoi and back to unsigned, it is the
      key the request was registered under; whatever follows the colon. */
  lemma TagRoundTrip(id: nat, rest: Bytes)
    requires id < UINT32
    ensures KeyOf(Tagged(id, rest)) == id
  {
    DecimalRoundTrip(ToInt32(id));
    BeforeColonStops(Decimal(ToInt32(id)), rest);
  }

  /** A response that does not start with a number asks for id zero, which no request ever has. */
  lemma NoNumberIsZero(response: Bytes)
    requires response == [] || !(IsDigit(response[0]) || IsSpace(response[0]) || response[0] in {MINUS, PLUS})
    ensures KeyOf(response) == 0
  {
    if response != [] && response[0] != COLON {
      assert BeforeColon(response)[0] == response[0];
    }
  }
}
