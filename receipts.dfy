/**
 * The receipt that a paid registration sends with its gateway order:
 * "webinar_<webinar id>_reg_<registration id>", ids written in decimal.
 * The receipt determines the (webinar, registration) pair it was made from.
 */
module Receipts {
  import opened Results

  const Prefix: string := "webinar_"
  const Separator: string := "_reg_"

  predicate IsDigit(c: char) {
    '0' <= c <= '9'
  }

  predicate AllDigits(s: string) {
    forall i | 0 <= i < |s| :: IsDigit(s[i])
  }

  function DigitChar(d: nat): (c: char)
    requires d < 10
    ensures IsDigit(c)
  {
    ('0' as int + d) as char
  }

  function DigitValue(c: char): (d: nat)
    requires IsDigit(c)
    ensures d < 10
  {
    c as int - '0' as int
  }

  /** The decimal spelling of a natural number, as an f-string writes it. */
  function NatToString(n: nat): (s: string)
    ensures |s| >= 1 && AllDigits(s)
  {
    if n < 10 then [DigitChar(n)] else NatToString(n / 10) + [DigitChar(n % 10)]
  }

  /** The value of a non-empty string of decimal digits. */
  function ParseNat(s: string): nat
    requires |s| >= 1 && AllDigits(s)
  {
    if |s| == 1 then DigitValue(s[0])
    else ParseNat(s[..|s| - 1]) * 10 + DigitValue(s[|s| - 1])
  }

  /** Reading back the decimal spelling of a number gives the number. */
  lemma {:induction false} ParseNatToString(n: nat)
    ensures ParseNat(NatToString(n)) == n
  {
    if n >= 10 {
      var s := NatToString(n);
      assert s[..|s| - 1] == NatToString(n / 10);
      ParseNatToString(n / 10);
    }
  }

  /** The length of the longest prefix of `s` made of digits. */
  function DigitRun(s: string): (k: nat)
    ensures k <= |s|
    ensures AllDigits(s[..k])
    ensures k < |s| ==> !IsDigit(s[k])
  {
    if s == [] || !IsDigit(s[0]) then 0
    else
      var k := 1 + DigitRun(s[1..]);
      assert s[..k] == [s[0]] + s[1..][..k - 1];
      k
  }

  lemma {:induction false} DigitRunStopsAfterDigits(d: string, t: string)
    requires AllDigits(d)
    requires t != [] && !IsDigit(t[0])
    ensures DigitRun(d + t) == |d|
  {
    if d != [] {
      assert (d + t)[1..] == d[1..] + t;
      DigitRunStopsAfterDigits(d[1..], t);
    }
  }

  /** The receipt of the order for registration `registrationId` of webinar `webinarId`. */
  function Receipt(webinarId: nat, registrationId: nat): string {
    Prefix + NatToString(webinarId) + Separator + NatToString(registrationId)
  }

  /** Recovers the pair of ids from a receipt, or None when the text is not shaped like one. */
  function ParseReceipt(s: string): Option<(nat, nat)> {
    if |s| < |Prefix| || s[..|Prefix|] != Prefix then None
    else ParseIds(s[|Prefix|..])
  }

  /** Recovers "<digits>_reg_<digits>" as a pair of numbers. */
  function ParseIds(rest: string): Option<(nat, nat)> {
    var k := DigitRun(rest);
    if k == 0 || |rest| < k + |Separator| + 1 || rest[k..k + |Separator|] != Separator then None
    else
      var tail := rest[k + |Separator|..];
      if AllDigits(tail) then Some((ParseNat(rest[..k]), ParseNat(tail))) else None
  }

  lemma ParseIdsRoundTrip(a: string, b: string)
    requires |a| >= 1 && AllDigits(a) && |b| >= 1 && AllDigits(b)
    ensures ParseIds(a + (Separator + b)) == Some((ParseNat(a), ParseNat(b)))
  {
    var rest := a + (Separator + b);
    DigitRunStopsAfterDigits(a, Separator + b);
    ThreePartSlices(a, Separator, b);
    var k := DigitRun(rest);
    assert k == |a|;
    assert rest[k..k + |Separator|] == Separator;
    var tail := rest[k + |Separator|..];
    assert tail == b;
    assert rest[..k] == a;
  }

  /** The three parts of `a + (m + b)`, recovered by slicing. */
  lemma ThreePartSlices<T>(a: seq<T>, m: seq<T>, b: seq<T>)
    ensures (a + (m + b))[..|a|] == a
    ensures (a + (m + b))[|a|..|a| + |m|] == m
    ensures (a + (m + b))[|a| + |m|..] == b
  {
  }

  /** Parsing a receipt gives back the webinar and registration it was made for. */
  lemma ReceiptRoundTrip(webinarId: nat, registrationId: nat)
    ensures ParseReceipt(Receipt(webinarId, registrationId)) == Some((webinarId, registrationId))
  {
    var a, b := NatToString(webinarId), NatToString(registrationId);
    var s := Receipt(webinarId, registrationId);
    assert s == Prefix + (a + (Separator + b));
    assert s[..|Prefix|] == Prefix;
    assert s[|Prefix|..] == a + (Separator + b);
    ParseIdsRoundTrip(a, b);
    ParseNatToString(webinarId);
    ParseNatToString(registrationId);
  }

  /** Distinct (webinar, registration) pairs never share a receipt. */
  lemma ReceiptInjective(w1: nat, r1: nat, w2: nat, r2: nat)
    requires Receipt(w1, r1) == Receipt(w2, r2)
    ensures w1 == w2 && r1 == r2
  {
    ReceiptRoundTrip(w1, r1);
    ReceiptRoundTrip(w2, r2);
  }
}
