/**
 * The two timestamp layouts of utils.py: `now_str` ("%Y-%m-%d %H:%M:%S", stored in notes)
 * and the compact "%Y%m%d_%H%M%S" stamp embedded in backup file names. The clock itself is
 * not modelled: callers pass the instant in.
 */
module Stamps {
  import opened Text

  /** A wall-clock instant at one-second resolution. */
  datatype DateTime = DateTime(year: nat, month: nat, day: nat, hour: nat, minute: nat, second: nat)
  {
    /** Ranges of Python's datetime fields, with a four-digit year. */
    predicate Valid() {
      1000 <= year <= 9999 && 1 <= month <= 12 && 1 <= day <= 31
      && hour < 24 && minute < 60 && second < 60
    }
  }

  /** t1 is a strictly earlier second than t2. */
  predicate Before(t1: DateTime, t2: DateTime) {
    if t1.year != t2.year then t1.year < t2.year
    else if t1.month != t2.month then t1.month < t2.month
    else if t1.day != t2.day then t1.day < t2.day
    else if t1.hour != t2.hour then t1.hour < t2.hour
    else if t1.minute != t2.minute then t1.minute < t2.minute
    else t1.second < t2.second
  }

  /** Three fields joined by one separator character, as `strftime` writes "%Y-%m-%d". */
  function Join3(a: string, sep: char, b: string, c: string): string {
    a + [sep] + b + [sep] + c
  }

  /** Where each field and separator of `Join3` sits. */
  lemma Join3Layout(a: string, sep: char, b: string, c: string)
    ensures var r := Join3(a, sep, b, c);
      |r| == |a| + |b| + |c| + 2 && r[..|a|] == a && r[|a|] == sep
      && r[|a| + 1..|a| + 1 + |b|] == b && r[|a| + 1 + |b|] == sep
      && r[|a| + 2 + |b|..] == c
  {
  }

  /** A joined text is a digit wherever its fields are. */
  lemma Join3Digits(a: string, sep: char, b: string, c: string)
    requires AllDigits(a) && AllDigits(b) && AllDigits(c)
    ensures var r := Join3(a, sep, b, c);
      forall i :: 0 <= i < |r| && i != |a| && i != |a| + 1 + |b| ==> IsDigit(r[i])
  {
    var r := Join3(a, sep, b, c);
    forall i | 0 <= i < |r| && i != |a| && i != |a| + 1 + |b|
      ensures IsDigit(r[i])
    {
      if i < |a| {
        assert r[i] == a[i];
      } else if i < |a| + 1 + |b| {
        assert r[i] == b[i - |a| - 1];
      } else {
        assert r[i] == c[i - |a| - 2 - |b|];
      }
    }
  }

  /** "%Y-%m-%d" */
  function DateText(t: DateTime): string {
    Join3(Pad(t.year, 4), '-', Pad(t.month, 2), Pad(t.day, 2))
  }

  /** "%H:%M:%S" */
  function TimeText(t: DateTime): string {
    Join3(Pad(t.hour, 2), ':', Pad(t.minute, 2), Pad(t.second, 2))
  }

  /** The date part's layout, digits and the numbers its fields spell. */
  lemma DateFields(t: DateTime)
    requires t.Valid()
    ensures var r := DateText(t);
      |r| == 10 && r[4] == '-' && r[7] == '-'
      && (forall i :: 0 <= i < 10 && i != 4 && i != 7 ==> IsDigit(r[i]))
      && DigitsValue(r[..4]) == t.year && DigitsValue(r[5..7]) == t.month
      && DigitsValue(r[8..]) == t.day
  {
    Join3Layout(Pad(t.year, 4), '-', Pad(t.month, 2), Pad(t.day, 2));
    Join3Digits(Pad(t.year, 4), '-', Pad(t.month, 2), Pad(t.day, 2));
    assert Pow10(2) == 100 && Pow10(4) == 10000;
    PadValue(t.year, 4);
    PadValue(t.month, 2);
    PadValue(t.day, 2);
  }

  /** The time part's layout, digits and the numbers its fields spell. */
  lemma TimeFields(t: DateTime)
    requires t.Valid()
    ensures var r := TimeText(t);
      |r| == 8 && r[2] == ':' && r[5] == ':'
      && (forall i :: 0 <= i < 8 && i != 2 && i != 5 ==> IsDigit(r[i]))
      && DigitsValue(r[..2]) == t.hour && DigitsValue(r[3..5]) == t.minute
      && DigitsValue(r[6..]) == t.second
  {
    Join3Layout(Pad(t.hour, 2), ':', Pad(t.minute, 2), Pad(t.second, 2));
    Join3Digits(Pad(t.hour, 2), ':', Pad(t.minute, 2), Pad(t.second, 2));
    assert Pow10(2) == 100;
    PadValue(t.hour, 2);
    PadValue(t.minute, 2);
    PadValue(t.second, 2);
  }

  /** Date and time parts around the space at position 10. */
  lemma DateTimeSplit(d: string, e: string, r: string)
    requires |d| == 10 && |e| == 8 && r == d + " " + e
    ensures |r| == 19 && r[10] == ' '
    ensures r[..4] == d[..4] && r[5..7] == d[5..7] && r[8..10] == d[8..]
    ensures r[11..13] == e[..2] && r[14..16] == e[3..5] && r[17..] == e[6..]
    ensures forall i :: 0 <= i < 10 ==> r[i] == d[i]
    ensures forall i :: 11 <= i < 19 ==> r[i] == e[i - 11]
  {
  }

  /**
   * `now_str()`: "YYYY-MM-DD HH:MM:SS" for the current instant; reading each digit field
   * back gives that field of the instant.
   */
  function NowStr(t: DateTime): (r: string)
    requires t.Valid()
    ensures |r| == 19
    ensures r[4] == '-' && r[7] == '-' && r[10] == ' ' && r[13] == ':' && r[16] == ':'
    ensures forall i :: 0 <= i < 19 && i !in {4, 7, 10, 13, 16} ==> IsDigit(r[i])
    ensures DigitsValue(r[..4]) == t.year && DigitsValue(r[5..7]) == t.month
    ensures DigitsValue(r[8..10]) == t.day && DigitsValue(r[11..13]) == t.hour
    ensures DigitsValue(r[14..16]) == t.minute && DigitsValue(r[17..]) == t.second
  {
    var d, e := DateText(t), TimeText(t);
    DateFields(t);
    TimeFields(t);
    DateTimeSplit(d, e, d + " " + e);
    d + " " + e
  }

  /** The backup stamp "YYYYMMDD_HHMMSS", written block by block. */
  function BackupStamp(t: DateTime): (r: string)
    ensures |r| == 15 && r[8] == '_'
  {
    Pad(t.year, 4) + (Pad(t.month, 2) + (Pad(t.day, 2) + ("_" + (Pad(t.hour, 2) + (Pad(t.minute, 2) + Pad(t.second, 2))))))
  }

  /** The stamp's fields read back as the instant's fields, around the '_' at position 8. */
  lemma BackupStampFields(t: DateTime)
    requires t.Valid()
    ensures var r := BackupStamp(t);
      r[8] == '_' && DigitsValue(r[..4]) == t.year && DigitsValue(r[4..6]) == t.month
      && DigitsValue(r[6..8]) == t.day && DigitsValue(r[9..11]) == t.hour
      && DigitsValue(r[11..13]) == t.minute && DigitsValue(r[13..]) == t.second
  {
    var r := BackupStamp(t);
    assert r[..4] == Pad(t.year, 4) && r[4..6] == Pad(t.month, 2) && r[6..8] == Pad(t.day, 2);
    assert r[9..11] == Pad(t.hour, 2) && r[11..13] == Pad(t.minute, 2) && r[13..] == Pad(t.second, 2);
    assert Pow10(2) == 100 && Pow10(4) == 10000;
    PadValue(t.year, 4);
    PadValue(t.month, 2);
    PadValue(t.day, 2);
    PadValue(t.hour, 2);
    PadValue(t.minute, 2);
    PadValue(t.second, 2);
  }

  /** Comparing two fixed-width fields then the rest: the string order is the field order first. */
  lemma FieldThenRest(a: nat, b: nat, w: nat, x: string, y: string)
    requires a < Pow10(w) && b < Pow10(w)
    ensures LexLess(Pad(a, w) + x, Pad(b, w) + y) <==> a < b || (a == b && LexLess(x, y))
  {
    PadOrder(a, b, w);
    LexConcat(Pad(a, w), x, Pad(b, w), y);
  }

  /**
   * The backup stamp sorts as time does: for valid instants the string order of the stamps
   * is exactly the chronological order.
   */
  lemma StampOrder(t1: DateTime, t2: DateTime)
    requires t1.Valid() && t2.Valid()
    ensures LexLess(BackupStamp(t1), BackupStamp(t2)) <==> Before(t1, t2)
  {
    assert Pow10(2) == 100 && Pow10(4) == 10000;
    var s1 := Pad(t1.second, 2);
    var s2 := Pad(t2.second, 2);
    var mi1 := Pad(t1.minute, 2) + s1;
    var mi2 := Pad(t2.minute, 2) + s2;
    var h1 := Pad(t1.hour, 2) + mi1;
    var h2 := Pad(t2.hour, 2) + mi2;
    var u1 := "_" + h1;
    var u2 := "_" + h2;
    var d1 := Pad(t1.day, 2) + u1;
    var d2 := Pad(t2.day, 2) + u2;
    var m1 := Pad(t1.month, 2) + d1;
    var m2 := Pad(t2.month, 2) + d2;
    PadOrder(t1.second, t2.second, 2);
    FieldThenRest(t1.minute, t2.minute, 2, s1, s2);
    FieldThenRest(t1.hour, t2.hour, 2, mi1, mi2);
    LexConcat("_", h1, "_", h2);
    FieldThenRest(t1.day, t2.day, 2, u1, u2);
    FieldThenRest(t1.month, t2.month, 2, d1, d2);
    FieldThenRest(t1.year, t2.year, 4, m1, m2);
    LexIrreflexive("_");
  }

  /** Two valid instants give the same backup stamp only when they are the same second. */
  lemma StampInjective(t1: DateTime, t2: DateTime)
    requires t1.Valid() && t2.Valid()
    ensures BackupStamp(t1) == BackupStamp(t2) <==> t1 == t2
  {
    if t1 != t2 {
      if Before(t1, t2) {
        StampOrder(t1, t2);
      } else {
        StampOrder(t2, t1);
      }
      LexIrreflexive(BackupStamp(t1));
    }
  }
}
