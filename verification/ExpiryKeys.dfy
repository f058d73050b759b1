/**
 Text keys of the expiry tables: a zero-padded decimal timestamp, a colon and the
 subject. The tables iterate in text order, so cleanup relies on text order being
 timestamp order.
 */
module ExpiryKeys {
  import opened Common

  const WIDTH: nat := 20

  function Digit(d: nat): char
    requires d < 10
  {
    '0' + d as char
  }

  /** The last `width` decimal digits of `n`. */
  function Digits(n: nat, width: nat): (s: string)
    ensures |s| == width
    ensures forall i :: 0 <= i < width ==> '0' <= s[i] <= '9'
  {
    if width == 0 then "" else Digits(n / 10, width - 1) + [Digit(n % 10)]
  }

  function Pow10(e: nat): nat {
    if e == 0 then 1 else 10 * Pow10(e - 1)
  }

  function ExpiryKey(expiresAt: int, subject: string): string {
    Digits(if expiresAt < 0 then 0 else expiresAt, WIDTH) + ":" + subject
  }

  function SplitOnce(key: string): Option<(string, string)> {
    if key == "" then None
    else if key[0] == ':' then Some(("", key[1..]))
    else
      match SplitOnce(key[1..])
      case None => None
      case Some((before, after)) => Some(([key[0]] + before, after))
  }

  function ParseNat(s: string): Option<nat>
    decreases |s|
  {
    if s == "" then None
    else
      var last := s[|s| - 1];
      if !('0' <= last <= '9') then None
      else if |s| == 1 then Some(last as nat - '0' as nat)
      else
        match ParseNat(s[..|s| - 1])
        case None => None
        case Some(n) => Some(10 * n + (last as nat - '0' as nat))
  }

  /** Parsing an `i64` refuses values beyond its range. */
  function ExpiryTimestamp(key: string): Option<nat> {
    match SplitOnce(key)
    case None => None
    case Some((timestamp, _)) =>
      match ParseNat(timestamp)
      case None => None
      case Some(n) => if n <= I64_MAX then Some(n) else None
  }

  function ExpirySubject(key: string): Option<string> {
    match SplitOnce(key)
    case None => None
    case Some((_, subject)) => if subject == "" then None else Some(subject)
  }

  // ----- text order -----

  datatype Order = Less | Equal | Greater

  function Compare(a: string, b: string): Order {
    if a == "" && b == "" then Equal
    else if a == "" then Less
    else if b == "" then Greater
    else if a[0] < b[0] then Less
    else if a[0] > b[0] then Greater
    else Compare(a[1..], b[1..])
  }

  lemma {:induction false} CompareSelf(a: string)
    ensures Compare(a, a) == Equal
  {
    if a != "" { CompareSelf(a[1..]); }
  }

  lemma {:induction false} CompareFlips(a: string, b: string)
    ensures Compare(a, b) == Less <==> Compare(b, a) == Greater
    ensures Compare(a, b) == Equal <==> a == b
  {
    if a == "" || b == "" || a[0] != b[0] {
    } else {
      CompareFlips(a[1..], b[1..]);
      assert a == [a[0]] + a[1..] && b == [b[0]] + b[1..];
    }
  }

  lemma {:induction false} CompareTransitive(a: string, b: string, c: string)
    requires Compare(a, b) != Greater && Compare(b, c) != Greater
    ensures Compare(a, c) != Greater
  {
    if a != "" && b != "" && c != "" && a[0] == b[0] == c[0] {
      CompareTransitive(a[1..], b[1..], c[1..]);
    }
  }

  lemma {:induction false} ComparePrefix(p: string, q: string, s: string, t: string)
    requires |p| == |q|
    ensures Compare(p + s, q + t) == if Compare(p, q) == Equal then Compare(s, t) else Compare(p, q)
  {
    if p == "" {
      assert p + s == s && q + t == t;
    } else {
      assert (p + s)[1..] == p[1..] + s && (q + t)[1..] == q[1..] + t;
      ComparePrefix(p[1..], q[1..], s, t);
    }
  }

  function CompareNat(n: nat, m: nat): Order {
    if n < m then Less else if n == m then Equal else Greater
  }

  lemma {:induction false} DigitsOrder(n: nat, m: nat, width: nat)
    requires n < Pow10(width) && m < Pow10(width)
    ensures Compare(Digits(n, width), Digits(m, width)) == CompareNat(n, m)
  {
    if width > 0 {
      DigitsOrder(n / 10, m / 10, width - 1);
      ComparePrefix(Digits(n / 10, width - 1), Digits(m / 10, width - 1), [Digit(n % 10)], [Digit(m % 10)]);
    }
  }

  lemma I64Fits()
    ensures I64_MAX < Pow10(WIDTH)
  {
    assert Pow10(5) == 100_000;
    assert Pow10(10) == 100_000 * Pow10(5);
    assert Pow10(15) == 100_000 * Pow10(10);
    assert Pow10(20) == 100_000 * Pow10(15);
  }

  /** Keys sort as text exactly by timestamp and then by subject; in particular they are injective. */
  lemma KeysSortByTimeThenSubject(t: nat, subject: string, t': nat, subject': string)
    requires t <= I64_MAX && t' <= I64_MAX
    ensures Compare(ExpiryKey(t, subject), ExpiryKey(t', subject')) ==
            if t != t' then CompareNat(t, t') else Compare(subject, subject')
    ensures ExpiryKey(t, subject) == ExpiryKey(t', subject') <==> t == t' && subject == subject'
  {
    I64Fits();
    DigitsOrder(t, t', WIDTH);
    var p, q := Digits(t, WIDTH) + ":", Digits(t', WIDTH) + ":";
    ComparePrefix(Digits(t, WIDTH), Digits(t', WIDTH), ":", ":");
    CompareSelf(":");
    ComparePrefix(p, q, subject, subject');
    CompareSelf(ExpiryKey(t, subject));
    if ExpiryKey(t, subject) == ExpiryKey(t', subject') {
      assert subject == ExpiryKey(t, subject)[WIDTH + 1..];
      assert subject' == ExpiryKey(t', subject')[WIDTH + 1..];
    }
  }

  lemma {:induction false} SplitAfterDigits(digits: string, rest: string)
    requires forall i :: 0 <= i < |digits| ==> digits[i] != ':'
    ensures SplitOnce(digits + ":" + rest) == Some((digits, rest))
  {
    var key := digits + ":" + rest;
    if digits == "" {
      assert key[1..] == rest;
    } else {
      assert key[1..] == digits[1..] + ":" + rest;
      SplitAfterDigits(digits[1..], rest);
      assert [digits[0]] + digits[1..] == digits;
    }
  }

  lemma {:induction false} ParseDigits(n: nat, width: nat)
    requires 0 < width && n < Pow10(width)
    ensures ParseNat(Digits(n, width)) == Some(n)
  {
    var s := Digits(n, width);
    assert s[|s| - 1] == Digit(n % 10);
    assert s[..|s| - 1] == Digits(n / 10, width - 1);
    if width > 1 {
      ParseDigits(n / 10, width - 1);
    } else {
      assert Pow10(1) == 10 * Pow10(0);
    }
  }

  /** Both parts of a key parse back, also for subjects that contain colons; a negative time reads back as 0. */
  lemma KeyParsesBack(expiresAt: int, subject: string)
    requires expiresAt <= I64_MAX && subject != ""
    ensures ExpiryTimestamp(ExpiryKey(expiresAt, subject)) == Some(if expiresAt < 0 then 0 else expiresAt)
    ensures ExpirySubject(ExpiryKey(expiresAt, subject)) == Some(subject)
  {
    var n := if expiresAt < 0 then 0 else expiresAt;
    I64Fits();
    SplitAfterDigits(Digits(n, WIDTH), subject);
    ParseDigits(n, WIDTH);
  }
}
