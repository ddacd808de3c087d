/** The `User` entity (src/Entity/User.php): an immutable value with four
    properties, and the `Y-m-d H:i:s` rendering of its registration time. */
module Entity {

  /** A calendar date and a wall-clock time to the second. */
  datatype DateTime = DateTime(year: nat, month: nat, day: nat, hour: nat, minute: nat, second: nat)

  /** The ranges a real date and time of day fall in, with a four-digit year. */
  predicate IsCalendarTime(t: DateTime) {
    t.year <= 9999 && 1 <= t.month <= 12 && 1 <= t.day <= 31 &&
    t.hour < 24 && t.minute < 60 && t.second < 60
  }

  predicate IsDigit(c: char) {
    '0' <= c <= '9'
  }

  function DigitChar(d: nat): (c: char)
    requires d < 10
    ensures IsDigit(c) && c as int - '0' as int == d
  {
    ('0' as int + d) as char
  }

  /** `n` in decimal, padded on the left with zeros to at least `width` digits,
      as the `Y`, `m`, `d`, `H`, `i` and `s` format characters print it. */
  function Decimal(n: nat, width: nat): (r: string)
    ensures |r| >= 1 && |r| >= width
    ensures forall i :: 0 <= i < |r| ==> IsDigit(r[i])
    decreases n + width
  {
    if n < 10 && width <= 1 then [DigitChar(n)]
    else Decimal(n / 10, if width == 0 then 0 else width - 1) + [DigitChar(n % 10)]
  }

  /** The number a string of decimal digits denotes. */
  function DigitsValue(s: string): nat
    requires forall i :: 0 <= i < |s| ==> IsDigit(s[i])
  {
    if s == [] then 0
    else
      assert IsDigit(s[|s| - 1]);
      DigitsValue(s[..|s| - 1]) * 10 + (s[|s| - 1] as int - '0' as int)
  }

  function Pow10(k: nat): nat {
    if k == 0 then 1 else 10 * Pow10(k - 1)
  }

  /** Reading the digits back gives the number that was printed. */
  lemma {:induction false} DecimalValue(n: nat, width: nat)
    ensures DigitsValue(Decimal(n, width)) == n
    decreases n + width
  {
    if !(n < 10 && width <= 1) {
      var w := if width == 0 then 0 else width - 1;
      DecimalValue(n / 10, w);
      var r := Decimal(n, width);
      assert r[..|r| - 1] == Decimal(n / 10, w);
    }
  }

  /** A number below 10^width is printed in exactly `width` digits. */
  lemma {:induction false} DecimalLength(n: nat, width: nat)
    requires 1 <= width && n < Pow10(width)
    ensures |Decimal(n, width)| == width
  {
    if width > 1 {
      DecimalLength(n / 10, width - 1);
    }
  }

  predicate IsTimestampChar(c: char) {
    IsDigit(c) || c == '-' || c == ' ' || c == ':'
  }

  /** `$dateTime->format('Y-m-d H:i:s')`. */
  function Format(t: DateTime): (r: string)
    ensures |r| >= 19
    ensures forall i :: 0 <= i < |r| ==> IsTimestampChar(r[i])
    ensures IsDigit(r[0]) && IsDigit(r[|r| - 1])
  {
    Decimal(t.year, 4) + "-" + Decimal(t.month, 2) + "-" + Decimal(t.day, 2) + " " +
    Decimal(t.hour, 2) + ":" + Decimal(t.minute, 2) + ":" + Decimal(t.second, 2)
  }

  /** The rendering holds nothing but digits, dashes, a space and colons. */
  lemma FormatHasNo(t: DateTime, c: char)
    requires !IsTimestampChar(c)
    ensures c !in Format(t)
  {
  }

  /** Two calendar times with the same rendering are the same time: the format
      drops nothing above the second. */
  lemma FormatInjective(t1: DateTime, t2: DateTime)
    requires IsCalendarTime(t1) && IsCalendarTime(t2)
    requires Format(t1) == Format(t2)
    ensures t1 == t2
  {
    FormatFields(t1);
    FormatFields(t2);
  }

  /** Each field of a calendar time is printed at a fixed place of its rendering. */
  lemma FormatFields(t: DateTime)
    requires IsCalendarTime(t)
    ensures |Format(t)| == 19
    ensures DigitsValue(Format(t)[0..4]) == t.year
    ensures DigitsValue(Format(t)[5..7]) == t.month
    ensures DigitsValue(Format(t)[8..10]) == t.day
    ensures DigitsValue(Format(t)[11..13]) == t.hour
    ensures DigitsValue(Format(t)[14..16]) == t.minute
    ensures DigitsValue(Format(t)[17..19]) == t.second
  {
    FormatSlices(t);
    DecimalValue(t.year, 4);
    DecimalValue(t.month, 2);
    DecimalValue(t.day, 2);
    DecimalValue(t.hour, 2);
    DecimalValue(t.minute, 2);
    DecimalValue(t.second, 2);
  }

  lemma FormatSlices(t: DateTime)
    requires IsCalendarTime(t)
    ensures |Format(t)| == 19
    ensures Format(t)[0..4] == Decimal(t.year, 4)
    ensures Format(t)[5..7] == Decimal(t.month, 2)
    ensures Format(t)[8..10] == Decimal(t.day, 2)
    ensures Format(t)[11..13] == Decimal(t.hour, 2)
    ensures Format(t)[14..16] == Decimal(t.minute, 2)
    ensures Format(t)[17..19] == Decimal(t.second, 2)
  {
    assert Pow10(2) == 100 && Pow10(4) == 10000 by {
      assert Pow10(1) == 10;
      assert Pow10(3) == 1000;
    }
    DecimalLength(t.year, 4);
    DecimalLength(t.month, 2);
    DecimalLength(t.day, 2);
    DecimalLength(t.hour, 2);
    DecimalLength(t.minute, 2);
    DecimalLength(t.second, 2);
    var f := Format(t);
    assert f[0..4] == Decimal(t.year, 4);
    assert f[5..7] == Decimal(t.month, 2);
    assert f[8..10] == Decimal(t.day, 2);
    assert f[11..13] == Decimal(t.hour, 2);
    assert f[14..16] == Decimal(t.minute, 2);
    assert f[17..19] == Decimal(t.second, 2);
  }

  /** `final readonly class User`: the getters are the datatype's destructors,
      and nothing can change a field after construction. */
  datatype User = User(name: string, email: string, hashedPassword: string, registeredAt: DateTime)

  /** `User::toArray`. */
  function ToArray(u: User): (m: map<string, string>)
    ensures m.Keys == {"name", "email", "hashedPassword", "registeredAt"}
    ensures m["name"] == u.name && m["email"] == u.email && m["hashedPassword"] == u.hashedPassword
    ensures m["registeredAt"] == Format(u.registeredAt)
  {
    map["name" := u.name, "email" := u.email, "hashedPassword" := u.hashedPassword,
        "registeredAt" := Format(u.registeredAt)]
  }

  /** The array form loses nothing: users with calendar registration times and
      the same `toArray` are the same user. */
  lemma ToArrayInjective(u1: User, u2: User)
    requires IsCalendarTime(u1.registeredAt) && IsCalendarTime(u2.registeredAt)
    requires ToArray(u1) == ToArray(u2)
    ensures u1 == u2
  {
    assert Format(u1.registeredAt) == ToArray(u1)["registeredAt"];
    FormatInjective(u1.registeredAt, u2.registeredAt);
  }
}
