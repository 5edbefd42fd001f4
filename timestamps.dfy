/**
 * Wall-clock instants and the two strftime layouts the service writes them in:
 * `%Y%m%d%H%M%S` (storage file names) and `%Y%m%d%H%M%S%f` (job ids). Every
 * field is a zero-padded run of decimal digits.
 */
module Timestamps {
  import opened Text

  /** A calendar instant as Python's `datetime` holds it, to the microsecond. */
  datatype Instant = Instant(year: int, month: int, day: int, hour: int, minute: int, second: int, micro: int)

  predicate Valid(t: Instant) {
    && 1 <= t.year <= 9999
    && 1 <= t.month <= 12
    && 1 <= t.day <= 31
    && 0 <= t.hour <= 23
    && 0 <= t.minute <= 59
    && 0 <= t.second <= 59
    && 0 <= t.micro <= 999999
  }

  /** The instant's fields down to the second, read as one number `YYYYMMDDHHMMSS`. */
  function SecondKey(t: Instant): int {
    ((((t.year * 100 + t.month) * 100 + t.day) * 100 + t.hour) * 100 + t.minute) * 100 + t.second
  }

  predicate SameSecond(a: Instant, b: Instant) {
    a.year == b.year && a.month == b.month && a.day == b.day
    && a.hour == b.hour && a.minute == b.minute && a.second == b.second
  }

  /** Appending a zero-padded field shifts the digits before it by the field's width. */
  lemma {:induction false} AppendField(prefix: string, n: nat, width: nat)
    requires AllDigits(prefix) && n < Pow10(width)
    ensures AllDigits(prefix + Pad(n, width))
    ensures DigitsValue(prefix + Pad(n, width)) == DigitsValue(prefix) * Pow10(width) + n
  {
    DigitsValueAppend(prefix, Pad(n, width));
  }

  /** strftime("%Y%m%d%H%M%S"). */
  function Stamp14(t: Instant): (s: string)
    requires Valid(t)
    ensures |s| == 14 && AllDigits(s)
  {
    Pad(t.year, 4) + Pad(t.month, 2) + Pad(t.day, 2) + Pad(t.hour, 2) + Pad(t.minute, 2) + Pad(t.second, 2)
  }

  /** Appending a two-digit field to a digit string worth `k` gives one worth `k * 100 + n`. */
  lemma TwoDigitField(prefix: string, k: int, n: int)
    requires AllDigits(prefix) && DigitsValue(prefix) == k && 0 <= n < 100
    ensures AllDigits(prefix + Pad(n, 2)) && DigitsValue(prefix + Pad(n, 2)) == k * 100 + n
  {
    SmallPowers();
    AppendField(prefix, n, 2);
  }

  /** The 14-digit stamp denotes the instant's `YYYYMMDDHHMMSS` number. */
  lemma Stamp14Value(t: Instant)
    requires Valid(t)
    ensures DigitsValue(Stamp14(t)) == SecondKey(t)
  {
    SmallPowers();
    var k1 := t.year * 100 + t.month;
    var k2 := k1 * 100 + t.day;
    var k3 := k2 * 100 + t.hour;
    var k4 := k3 * 100 + t.minute;
    var s1 := Pad(t.year, 4);
    var s2 := s1 + Pad(t.month, 2);
    var s3 := s2 + Pad(t.day, 2);
    var s4 := s3 + Pad(t.hour, 2);
    var s5 := s4 + Pad(t.minute, 2);
    TwoDigitField(s1, t.year, t.month);
    TwoDigitField(s2, k1, t.day);
    TwoDigitField(s3, k2, t.hour);
    TwoDigitField(s4, k3, t.minute);
    TwoDigitField(s5, k4, t.second);
    assert SecondKey(t) == k4 * 100 + t.second;
    assert s5 + Pad(t.second, 2) == Stamp14(t);
  }

  lemma SmallPowers()
    ensures Pow10(2) == 100 && Pow10(4) == 10000 && Pow10(6) == 1000000
  {
    assert Pow10(2) == 100;
    assert Pow10(4) == 100 * Pow10(2);
    assert Pow10(6) == 100 * Pow10(4);
  }

  /** strftime("%Y%m%d%H%M%S%f"): the 14-digit stamp followed by six digits of microseconds. */
  function Stamp20(t: Instant): (s: string)
    requires Valid(t)
    ensures |s| == 20 && AllDigits(s)
    ensures s[..14] == Stamp14(t)
    ensures DigitsValue(s) == SecondKey(t) * 1000000 + t.micro
  {
    var stamp := Stamp14(t);
    Stamp14Value(t);
    var us := Pad(t.micro, 6);
    DigitsValueAppend(stamp, us);
    SmallPowers();
    assert (stamp + us)[..14] == stamp;
    stamp + us
  }

  /**
   * Stamps of valid instants compare as strings exactly as the instants compare
   * in time, to the second.
   */
  lemma StampOrder(a: Instant, b: Instant)
    requires Valid(a) && Valid(b)
    ensures LexLe(Stamp14(a), Stamp14(b)) <==> SecondKey(a) <= SecondKey(b)
  {
    LexLeDigits(Stamp14(a), Stamp14(b));
    Stamp14Value(a);
    Stamp14Value(b);
  }

  /** Where each field sits inside the 14-digit stamp. */
  lemma FieldsOfStamp(t: Instant)
    requires Valid(t)
    ensures Stamp14(t)[0..4] == Pad(t.year, 4)
    ensures Stamp14(t)[4..6] == Pad(t.month, 2)
    ensures Stamp14(t)[6..8] == Pad(t.day, 2)
    ensures Stamp14(t)[8..10] == Pad(t.hour, 2)
    ensures Stamp14(t)[10..12] == Pad(t.minute, 2)
    ensures Stamp14(t)[12..14] == Pad(t.second, 2)
  {
    SmallPowers();
    var y, mo, d, h, mi, sec := Pad(t.year, 4), Pad(t.month, 2), Pad(t.day, 2), Pad(t.hour, 2), Pad(t.minute, 2), Pad(t.second, 2);
    assert Stamp14(t) == y + mo + d + h + mi + sec;
    Middle([], y, mo + d + h + mi + sec);
    Middle(y, mo, d + h + mi + sec);
    Middle(y + mo, d, h + mi + sec);
    Middle(y + mo + d, h, mi + sec);
    Middle(y + mo + d + h, mi, sec);
    Middle(y + mo + d + h + mi, sec, []);
  }

  /** The middle part of a three-part concatenation is found at its offset. */
  lemma Middle(a: string, m: string, b: string)
    ensures (a + m + b)[|a|..|a| + |m|] == m
    ensures a + m + b == a + (m + b)
  {
  }

  /** Two instants get the same 14-digit stamp exactly when they fall in the same second. */
  lemma StampCollision(a: Instant, b: Instant)
    requires Valid(a) && Valid(b)
    ensures Stamp14(a) == Stamp14(b) <==> SameSecond(a, b)
  {
    if Stamp14(a) == Stamp14(b) {
      FieldsOfStamp(a);
      FieldsOfStamp(b);
    }
  }
}
