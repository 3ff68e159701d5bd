/** Public order codes `TXR-YYYYMMDD-NNN`: the UTC date of the order and a
    three-digit random number. */
module OrderCode {
  import opened Wrappers
  import opened Text
  import opened Seqs

  /** A point in time as `Date.prototype.toISOString` sees it, in UTC. */
  datatype Instant = Instant(year: int, month: int, day: int,
                             hour: int, minute: int, second: int, millis: int)
  {
    /** Four-digit years only: outside 0..9999 the ISO string uses a six-digit
        signed year. Days are 1..31 for every month. */
    predicate Valid() {
      0 <= year <= 9999 && 1 <= month <= 12 && 1 <= day <= 31
      && 0 <= hour < 24 && 0 <= minute < 60 && 0 <= second < 60 && 0 <= millis < 1000
    }
  }

  /** `toISOString()`: `YYYY-MM-DDTHH:mm:ss.sssZ`. */
  function IsoString(t: Instant): (r: string)
    requires t.Valid()
    ensures |r| == 24
  {
    IsoDate(t) + "T" + IsoTime(t)
  }

  /** `YYYY-MM-DD`. */
  function IsoDate(t: Instant): (r: string)
    requires t.Valid()
    ensures |r| == 10 && 'T' !in r
  {
    var y, m, d := FixedDigits(t.year, 4), FixedDigits(t.month, 2), FixedDigits(t.day, 2);
    NoLetterInDigits(y, 'T');
    NoLetterInDigits(m, 'T');
    NoLetterInDigits(d, 'T');
    y + "-" + m + "-" + d
  }

  /** `HH:mm:ss.sssZ`. */
  function IsoTime(t: Instant): (r: string)
    requires t.Valid()
    ensures |r| == 13
  {
    FixedDigits(t.hour, 2) + ":" + FixedDigits(t.minute, 2) + ":" + FixedDigits(t.second, 2)
    + "." + FixedDigits(t.millis, 3) + "Z"
  }

  lemma NoLetterInDigits(s: string, c: char)
    requires AllDigits(s) && !IsDigit(c)
    ensures c !in s
  {
  }

  /** `s.split(sep)[0]`: everything before the first `sep`, or all of `s`. */
  function TakeUntil(s: string, sep: char): (r: string)
    ensures |r| <= |s| && sep !in r
    ensures r == s[..|r|]
    ensures |r| < |s| ==> s[|r|] == sep
  {
    if |s| == 0 then []
    else if s[0] == sep then []
    else [s[0]] + TakeUntil(s[1..], sep)
  }

  predicate NotDash(c: char) {
    c != '-'
  }

  /** `s.replace(/-/g, '')`. */
  function RemoveDashes(s: string): (r: string)
    ensures '-' !in r
    ensures forall c :: c != '-' ==> (c in r <==> c in s)
    ensures IsSubsequence(r, s)
    ensures multiset(r) == multiset(s)['-' := 0]
  {
    FilterIsSubsequence(s, NotDash);
    forall c
      ensures multiset(Filter(s, NotDash))[c] == multiset(s)['-' := 0][c]
    {
      FilterMultiset(s, NotDash, c);
    }
    Filter(s, NotDash)
  }

  /** The eight digits of a UTC date, `YYYYMMDD`. */
  function DateDigits(t: Instant): (r: string)
    requires t.Valid()
    ensures |r| == 8 && AllDigits(r)
    ensures r[..4] == FixedDigits(t.year, 4) && r[4..6] == FixedDigits(t.month, 2) && r[6..] == FixedDigits(t.day, 2)
  {
    FixedDigits(t.year, 4) + FixedDigits(t.month, 2) + FixedDigits(t.day, 2)
  }

  /** The order code for an order placed at `now`, where `random` is
      `Math.floor(Math.random() * 1000)`. */
  function GenerateOrderId(now: Instant, random: int): (r: string)
    requires now.Valid() && 0 <= random < 1000
    ensures r == "TXR-" + DateDigits(now) + "-" + FixedDigits(random, 3)
    ensures |r| == 16
  {
    var date := RemoveDashes(TakeUntil(IsoString(now), 'T'));
    var number := PadStart(ToDecimal(random), 3, '0');
    DatePartOfIso(now);
    PadDecimalIsFixed(random, 3);
    "TXR-" + date + "-" + number
  }

  /** The date part of the ISO string, dashes removed, is the eight date digits. */
  lemma DatePartOfIso(t: Instant)
    requires t.Valid()
    ensures RemoveDashes(TakeUntil(IsoString(t), 'T')) == DateDigits(t)
  {
    TakeUntilFirst(IsoDate(t), 'T', IsoTime(t));
    DashesBetweenDigits(FixedDigits(t.year, 4), FixedDigits(t.month, 2), FixedDigits(t.day, 2));
  }

  /** Removing the dashes of `y-m-d` joins the three digit groups. */
  lemma DashesBetweenDigits(y: string, m: string, d: string)
    requires AllDigits(y) && AllDigits(m) && AllDigits(d)
    ensures RemoveDashes(y + "-" + m + "-" + d) == y + m + d
  {
    DashThenDigits(y + "-" + m, d);
    DashThenDigits(y, m);
    DigitsKeptByNotDash(y);
  }

  lemma DashThenDigits(x: string, y: string)
    requires AllDigits(y)
    ensures RemoveDashes(x + "-" + y) == RemoveDashes(x) + y
  {
    FilterConcat(x + "-", y, NotDash);
    FilterConcat(x, "-", NotDash);
    DigitsKeptByNotDash(y);
  }

  lemma DigitsKeptByNotDash(s: string)
    requires AllDigits(s)
    ensures Filter(s, NotDash) == s
  {
    FilterKeepsAll(s, NotDash);
  }

  /** Splitting at a separator that does not occur in `a` gives back `a`. */
  lemma {:induction false} TakeUntilFirst(a: string, sep: char, b: string)
    requires sep !in a
    ensures TakeUntil(a + [sep] + b, sep) == a
  {
    if |a| > 0 {
      assert (a + [sep] + b)[1..] == a[1..] + [sep] + b;
      TakeUntilFirst(a[1..], sep, b);
    }
  }

  /** What an order code says: its UTC date and its random number. */
  datatype CodeParts = CodeParts(year: int, month: int, day: int, random: int)

  predicate WellFormedCode(s: string) {
    |s| == 16 && s[..4] == "TXR-" && s[12] == '-'
    && AllDigits(s[4..8]) && AllDigits(s[8..10]) && AllDigits(s[10..12]) && AllDigits(s[13..])
  }

  /** Reads an order code back; `None` for anything not of the form `TXR-dddddddd-ddd`. */
  function ParseOrderCode(s: string): (r: Option<CodeParts>)
    ensures r.Some? <==> WellFormedCode(s)
    ensures r.Some? ==> 0 <= r.value.random < 1000 && 0 <= r.value.year < 10000
  {
    if WellFormedCode(s) then
      Some(CodeParts(ParseDigits(s[4..8]), ParseDigits(s[8..10]), ParseDigits(s[10..12]), ParseDigits(s[13..])))
    else None
  }

  /** Every generated code is well formed and reads back as the date it was
      generated on and the random number it was given. */
  lemma ParseGenerated(now: Instant, random: int)
    requires now.Valid() && 0 <= random < 1000
    ensures WellFormedCode(GenerateOrderId(now, random))
    ensures ParseOrderCode(GenerateOrderId(now, random))
            == Some(CodeParts(now.year, now.month, now.day, random))
  {
    var date := DateDigits(now);
    CodeSlices(date, FixedDigits(random, 3));
    ParseFixedDigits(now.year, 4);
    ParseFixedDigits(now.month, 2);
    ParseFixedDigits(now.day, 2);
    ParseFixedDigits(random, 3);
  }

  /** Where each part of `TXR-` + date + `-` + n sits. */
  lemma CodeSlices(date: string, n: string)
    requires |date| == 8 && |n| == 3
    ensures var s := "TXR-" + date + "-" + n;
            s[..4] == "TXR-" && s[4..8] == date[..4] && s[8..10] == date[4..6] && s[10..12] == date[6..]
            && s[12] == '-' && s[13..] == n
  {
  }

  /** Two orders get the same code exactly when they fall on the same UTC day
      and draw the same random number; the time of day plays no part. */
  lemma SameCodeIff(a: Instant, ra: int, b: Instant, rb: int)
    requires a.Valid() && 0 <= ra < 1000 && b.Valid() && 0 <= rb < 1000
    ensures GenerateOrderId(a, ra) == GenerateOrderId(b, rb)
            <==> a.year == b.year && a.month == b.month && a.day == b.day && ra == rb
  {
    ParseGenerated(a, ra);
    ParseGenerated(b, rb);
  }
}
