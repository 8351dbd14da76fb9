/** Crontab expressions: the five time-and-date fields of a crontab entry
    (minute, hour, day of month, month, day of week) as in the crontab input
    files section of POSIX.1-2017, including its rule that two restricted day
    fields are alternatives, with the `/step` extension of Vixie cron on `*`
    and on ranges.  Parsing, rendering back to text, and matching a
    timestamp against an expression. */
module Cron {
  import opened Wrappers
  import opened Text
  import opened Calendar

  // One comma-separated element of a field: a star with an optional step
  // (`*`, `*` `/s`), a number, or a range with an optional step (`a-b`, `a-b/s`).
  // A step of 1 is the form written without `/s`.
  datatype Item = All(step: nat) | Single(value: nat) | Span(first: nat, last: nat, step: nat)

  /** A field is its list of elements, in the order written. */
  type Field = seq<Item>

  datatype CronSpec = CronSpec(minute: Field, hour: Field, dayOfMonth: Field, month: Field, dayOfWeek: Field)

  /** The range of values a field may hold. */
  datatype Bounds = Bounds(lo: nat, hi: nat)

  const MinuteBounds := Bounds(0, 59)
  const HourBounds := Bounds(0, 23)
  const DayOfMonthBounds := Bounds(1, 31)
  const MonthBounds := Bounds(1, 12)
  const DayOfWeekBounds := Bounds(0, 6)

  /** The characters that separate the five fields. */
  const Blanks: set<char> := {' ', '\t'}

  predicate ValidItem(it: Item, b: Bounds) {
    match it
    case All(s) => s >= 1
    case Single(v) => b.lo <= v <= b.hi
    case Span(f, l, s) => b.lo <= f <= l <= b.hi && s >= 1
  }

  predicate ValidField(f: Field, b: Bounds) {
    |f| >= 1 && forall k :: 0 <= k < |f| ==> ValidItem(f[k], b)
  }

  predicate ValidSpec(e: CronSpec) {
    && ValidField(e.minute, MinuteBounds)
    && ValidField(e.hour, HourBounds)
    && ValidField(e.dayOfMonth, DayOfMonthBounds)
    && ValidField(e.month, MonthBounds)
    && ValidField(e.dayOfWeek, DayOfWeekBounds)
  }

  // ---------------------------------------------------------------- meaning

  /** Whether `x` is one of first, first + step, first + 2 * step, ... up to `last`. */
  predicate OnStep(x: int, first: int, last: int, step: nat)
    decreases last - first
  {
    first <= x <= last && (x == first || (step >= 1 && OnStep(x, first + step, last, step)))
  }

  lemma {:induction false} MulAtLeast(k: int, s: int)
    requires k >= 1 && s >= 0
    ensures k * s >= s
    decreases k
  {
    if k > 1 {
      MulAtLeast(k - 1, s);
      assert k * s == (k - 1) * s + s;
    }
  }
  /** Euclidean remainder is unique. */
  lemma ModUnique(n: int, s: int, q: int, r: int)
    requires s >= 1 && 0 <= r < s && n == q * s + r
    ensures n % s == r
  {
    var q' := n / s;
    var r' := n % s;
    assert n == q' * s + r';
    var c := q - q';
    assert c * s == r' - r by {
      assert q * s - q' * s == (q - q') * s;
    }
    if c > 0 {
      MulAtLeast(c, s);
    } else if c < 0 {
      MulAtLeast(-c, s);
    }
  }
  lemma ModStep(d: int, s: int)
    requires s >= 1
    ensures (d + s) % s == d % s
  {
    var q := d / s;
    assert d + s == (q + 1) * s + d % s;
    ModUnique(d + s, s, q + 1, d % s);
  }
  /** The stepping is the modular test: `x` is reached from `first` in whole
      steps without passing `last`. */
  lemma {:induction false} OnStepMod(x: int, first: int, last: int, step: nat)
    requires step >= 1
    ensures OnStep(x, first, last, step) <==> first <= x <= last && (x - first) % step == 0
    decreases last - first
  {
    if !(first <= x <= last) {
      assert !OnStep(x, first, last, step);
    } else if x == first {
      assert OnStep(x, first, last, step);
      ModUnique(0, step, 0, 0);
    } else if x < first + step {
      assert !OnStep(x, first, last, step);
      ModUnique(x - first, step, 0, x - first);
    } else {
      assert OnStep(x, first, last, step) == OnStep(x, first + step, last, step);
      OnStepMod(x, first + step, last, step);
      var d := x - (first + step);
      ModStep(d, step);
      assert x - first == d + step;
    }
  }

  /** Whether element `it` of a field with bounds `b` selects the value `x`:
      a stepped range keeps every step-th value starting at its first. */
  predicate ItemAllows(it: Item, b: Bounds, x: int) {
    match it
    case All(s) => OnStep(x, b.lo, b.hi, s)
    case Single(v) => x == v
    case Span(f, l, s) => OnStep(x, f, l, s)
  }

  /** A field selects the union of what its elements select. */
  predicate FieldAllows(f: Field, b: Bounds, x: int) {
    |f| > 0 && (ItemAllows(f[0], b, x) || FieldAllows(f[1..], b, x))
  }

  /** The set of values a field stands for. */
  function Values(f: Field, b: Bounds): set<int> {
    set x | b.lo <= x <= b.hi && FieldAllows(f, b, x)
  }

  lemma {:induction false} FieldAllowsWithin(f: Field, b: Bounds, x: int)
    requires ValidField(f, b) && FieldAllows(f, b, x)
    ensures b.lo <= x <= b.hi
  {
    if !ItemAllows(f[0], b, x) {
      if |f| > 1 {
        FieldAllowsWithin(f[1..], b, x);
      }
    }
  }

  /** The smallest value the first element of a field selects. */
  function FirstValue(it: Item, b: Bounds): int {
    match it
    case All(_) => b.lo
    case Single(v) => v
    case Span(f, _, _) => f
  }

  /** A parsed field is never empty, and every value it allows lies within its
      bounds, so its set of values holds all it allows. */
  lemma FieldValues(f: Field, b: Bounds)
    requires ValidField(f, b) && b.lo <= b.hi
    ensures FirstValue(f[0], b) in Values(f, b)
    ensures forall x :: x in Values(f, b) ==> b.lo <= x <= b.hi
    ensures forall x :: FieldAllows(f, b, x) ==> x in Values(f, b)
  {
    assert ItemAllows(f[0], b, FirstValue(f[0], b));
    forall x | FieldAllows(f, b, x) ensures x in Values(f, b) {
      FieldAllowsWithin(f, b, x);
    }
  }


  /** Whether a field is written `*`: it leaves its values unrestricted. */
  predicate Unrestricted(f: Field) {
    f == [All(1)]
  }

  /** The day rule of cron: when both the day-of-month and the day-of-week
      field are restricted, a day is allowed when either field allows it;
      otherwise both must allow it, so only the restricted one, if any, decides. */
  predicate DayAllowed(e: CronSpec, day: int, weekday: int) {
    var byDay := FieldAllows(e.dayOfMonth, DayOfMonthBounds, day);
    var byWeekday := FieldAllows(e.dayOfWeek, DayOfWeekBounds, weekday);
    if Unrestricted(e.dayOfMonth) || Unrestricted(e.dayOfWeek) then byDay && byWeekday else byDay || byWeekday
  }

  /** A field written `*` allows every value within its bounds. */
  lemma StarAllows(b: Bounds, x: int)
    requires b.lo <= x <= b.hi
    ensures FieldAllows([All(1)], b, x)
  {
    OnStepMod(x, b.lo, b.hi, 1);
  }

  /** For a day and a weekday within bounds: an unrestricted day field leaves
      the decision to the other one, and two restricted fields are alternatives. */
  lemma DayRule(e: CronSpec, day: int, weekday: int)
    requires DayOfMonthBounds.lo <= day <= DayOfMonthBounds.hi && DayOfWeekBounds.lo <= weekday <= DayOfWeekBounds.hi
    ensures Unrestricted(e.dayOfMonth) ==>
      (DayAllowed(e, day, weekday) <==> FieldAllows(e.dayOfWeek, DayOfWeekBounds, weekday))
    ensures Unrestricted(e.dayOfWeek) ==>
      (DayAllowed(e, day, weekday) <==> FieldAllows(e.dayOfMonth, DayOfMonthBounds, day))
    ensures !Unrestricted(e.dayOfMonth) && !Unrestricted(e.dayOfWeek) ==>
      (DayAllowed(e, day, weekday) <==>
         FieldAllows(e.dayOfMonth, DayOfMonthBounds, day) || FieldAllows(e.dayOfWeek, DayOfWeekBounds, weekday))
  {
    StarAllows(DayOfMonthBounds, day);
    StarAllows(DayOfWeekBounds, weekday);
  }

  /** Whether the expression fires at the minute `t`. */
  predicate Matches(e: CronSpec, t: nat) {
    var c := Civil(t);
    && FieldAllows(e.minute, MinuteBounds, c.minute)
    && FieldAllows(e.hour, HourBounds, c.hour)
    && FieldAllows(e.month, MonthBounds, c.date.month)
    && DayAllowed(e, c.date.day, Weekday(t / MinutesPerDay))
  }

  // ---------------------------------------------------------------- parsing

  /** `a-b` with two decimal numbers. */
  function ParseRange(s: string): (r: Option<(nat, nat)>)
  {
    var i := IndexOf(s, {'-'});
    if i == |s| then None
    else match (ParseNat(s[..i]), ParseNat(s[i + 1..]))
      case (Some(a), Some(z)) => Some((a, z))
      case _ => None
  }

  function ParseSpan(s: string, step: nat, b: Bounds): Option<Item>
  {
    match ParseRange(s)
    case Some((f, l)) => if b.lo <= f <= l <= b.hi then Some(Span(f, l, step)) else None
    case None => None
  }

  /** The part of an element before any `/`: a star, or a range. */
  function ParseBase(s: string, step: nat, b: Bounds): Option<Item>
  {
    if s == "*" then Some(All(step)) else ParseSpan(s, step, b)
  }

  /** An element written with a step `base/step`; the step must be positive. */
  function ParseStepped(base: string, stepText: string, b: Bounds): Option<Item>
  {
    match ParseNat(stepText)
    case None => None
    case Some(step) => if step == 0 then None else ParseBase(base, step, b)
  }

  /** An element written without a step: a star, a range, or a single number. */
  function ParsePlain(s: string, b: Bounds): Option<Item>
  {
    if s == "*" then Some(All(1))
    else if IndexOf(s, {'-'}) < |s| then ParseSpan(s, 1, b)
    else match ParseNat(s)
      case Some(v) => if b.lo <= v <= b.hi then Some(Single(v)) else None
      case None => None
  }

  /** One element of a field; None when it is malformed, reversed, out of range or has a zero step. */
  function ParseItem(s: string, b: Bounds): (r: Option<Item>)
    ensures r.Some? ==> ValidItem(r.value, b)
  {
    var k := IndexOf(s, {'/'});
    if k < |s| then ParseStepped(s[..k], s[k + 1..], b) else ParsePlain(s, b)
  }

  function ParseItems(parts: seq<string>, b: Bounds): (r: Option<Field>)
    ensures r.Some? ==> |r.value| == |parts| && forall k :: 0 <= k < |r.value| ==> ValidItem(r.value[k], b)
  {
    if |parts| == 0 then Some([])
    else match (ParseItem(parts[0], b), ParseItems(parts[1..], b))
      case (Some(it), Some(rest)) => Some([it] + rest)
      case _ => None
  }

  /** A comma-separated field. */
  function ParseField(s: string, b: Bounds): (r: Option<Field>)
    ensures r.Some? ==> ValidField(r.value, b)
  {
    ParseItems(Split(s, {','}), b)
  }

  function ParseFields(fields: seq<string>): (r: Option<CronSpec>)
    requires |fields| == 5
    ensures r.Some? ==> ValidSpec(r.value)
  {
    match ParseField(fields[0], MinuteBounds)
    case None => None
    case Some(mi) =>
      match ParseField(fields[1], HourBounds)
      case None => None
      case Some(h) =>
        match ParseField(fields[2], DayOfMonthBounds)
        case None => None
        case Some(dom) =>
          match ParseField(fields[3], MonthBounds)
          case None => None
          case Some(mo) =>
            match ParseField(fields[4], DayOfWeekBounds)
            case None => None
            case Some(dow) => Some(CronSpec(mi, h, dom, mo, dow))
  }

  /** A crontab expression: exactly five blank-separated fields. */
  function Parse(s: string): (r: Option<CronSpec>)
    ensures r.Some? ==> ValidSpec(r.value)
  {
    var fields := NonEmpty(Split(s, Blanks));
    if |fields| != 5 then None else ParseFields(fields)
  }

  // ---------------------------------------------------------------- rendering

  function StepSuffix(s: nat): string {
    if s == 1 then "" else "/" + ShowNat(s)
  }

  function FormatItem(it: Item): string {
    match it
    case All(s) => "*" + StepSuffix(s)
    case Single(v) => ShowNat(v)
    case Span(f, l, s) => ShowNat(f) + "-" + ShowNat(l) + StepSuffix(s)
  }

  function FormatItems(f: Field): (r: seq<string>)
    ensures |r| == |f| && forall k :: 0 <= k < |f| ==> r[k] == FormatItem(f[k])
  {
    if |f| == 0 then [] else [FormatItem(f[0])] + FormatItems(f[1..])
  }

  function FormatField(f: Field): string {
    Join(FormatItems(f), ',')
  }

  /** The canonical text of an expression: fields separated by one space. */
  function Format(e: CronSpec): string {
    Join([FormatField(e.minute), FormatField(e.hour), FormatField(e.dayOfMonth),
          FormatField(e.month), FormatField(e.dayOfWeek)], ' ')
  }

  // ---------------------------------------------------------------- round trip

  lemma DigitsFree(s: string, seps: set<char>)
    requires AllDigits(s) && forall c :: c in seps ==> c < '0'
    ensures Free(s, seps)
  {
  }

  lemma ShowNatFree(n: nat)
    ensures Free(ShowNat(n), {'/'}) && Free(ShowNat(n), {'-'})
    ensures Free(ShowNat(n), {','}) && Free(ShowNat(n), Blanks)
    ensures ShowNat(n)[0] != '*'
  {
    DigitsFree(ShowNat(n), {'/'});
    DigitsFree(ShowNat(n), {'-'});
    DigitsFree(ShowNat(n), {','});
    DigitsFree(ShowNat(n), Blanks);
  }

  lemma FormatItemFree(it: Item)
    ensures Free(FormatItem(it), {','}) && Free(FormatItem(it), Blanks)
    ensures |FormatItem(it)| > 0
  {
    match it
    case All(s) => if s != 1 { ShowNatFree(s); }
    case Single(v) => ShowNatFree(v);
    case Span(f, l, s) => ShowNatFree(f); ShowNatFree(l); if s != 1 { ShowNatFree(s); }
  }

  lemma ParseRangeShow(f: nat, l: nat)
    ensures ParseRange(ShowNat(f) + "-" + ShowNat(l)) == Some((f, l))
  {
    var a, z := ShowNat(f), ShowNat(l);
    var s := a + "-" + z;
    ShowNatFree(f);
    IndexOfFree(a, '-', z, {'-'});
    assert s[..|a|] == a && s[|a| + 1..] == z;
    ParseShowNat(f);
    ParseShowNat(l);
  }

  lemma ParseAllStepped(st: nat, b: Bounds)
    requires st > 1
    ensures ParseItem("*" + StepSuffix(st), b) == Some(All(st))
  {
    var n := ShowNat(st);
    var s := "*" + StepSuffix(st);
    assert s == "*" + ['/'] + n;
    IndexOfFree("*", '/', n, {'/'});
    assert s[..1] == "*" && s[2..] == n;
    ParseShowNat(st);
  }

  lemma NotStar(s: string, a: string)
    requires |a| > 0 && a[0] != '*' && |s| >= |a| && s[..|a|] == a
    ensures s != "*"
  {
    assert s[0] == a[0];
  }

  lemma ParseSingle(v: nat, b: Bounds)
    requires b.lo <= v <= b.hi
    ensures ParseItem(ShowNat(v), b) == Some(Single(v))
  {
    var s := ShowNat(v);
    ShowNatFree(v);
    IndexOfFree(s, '/', "", {'/'});
    IndexOfFree(s, '-', "", {'-'});
    NotStar(s, s);
    assert ParsePlain(s, b) == Some(Single(v)) by {
      ParseShowNat(v);
    }
  }

  lemma ParseSpanPlain(f: nat, l: nat, b: Bounds)
    requires b.lo <= f <= l <= b.hi
    ensures ParseItem(ShowNat(f) + "-" + ShowNat(l), b) == Some(Span(f, l, 1))
  {
    var a, z := ShowNat(f), ShowNat(l);
    var s := a + "-" + z;
    ShowNatFree(f);
    ShowNatFree(l);
    assert Free(s, {'/'});
    IndexOfFree(s, '/', "", {'/'});
    IndexOfFree(a, '-', z, {'-'});
    NotStar(s, a);
    assert ParsePlain(s, b) == Some(Span(f, l, 1)) by {
      ParseRangeShow(f, l);
    }
  }

  lemma ParseSpanStepped(f: nat, l: nat, st: nat, b: Bounds)
    requires b.lo <= f <= l <= b.hi && st > 1
    ensures ParseItem(ShowNat(f) + "-" + ShowNat(l) + StepSuffix(st), b) == Some(Span(f, l, st))
  {
    var r := ShowNat(f) + "-" + ShowNat(l);
    ShowNatFree(f);
    ShowNatFree(l);
    assert Free(r, {'/'});
    assert r + StepSuffix(st) == r + ['/'] + ShowNat(st);
    ParseSlashed(r, ShowNat(st), b);
    SteppedSpan(f, l, st, b);
  }

  /** An item with one `/` is parsed as its range and its step. */
  lemma ParseSlashed(r: string, n: string, b: Bounds)
    requires Free(r, {'/'})
    ensures ParseItem(r + ['/'] + n, b) == ParseStepped(r, n, b)
  {
    var s := r + ['/'] + n;
    IndexOfFree(r, '/', n, {'/'});
    assert s[..|r|] == r && s[|r| + 1..] == n;
  }

  /** The part after the `/` is the step, the part before it the range. */
  lemma SteppedSpan(f: nat, l: nat, st: nat, b: Bounds)
    requires b.lo <= f <= l <= b.hi && st > 1
    ensures ParseStepped(ShowNat(f) + "-" + ShowNat(l), ShowNat(st), b) == Some(Span(f, l, st))
  {
    var a := ShowNat(f);
    NotStar(a + "-" + ShowNat(l), a);
    ParseShowNat(st);
    ParseRangeShow(f, l);
  }

  lemma ParseFormatItem(it: Item, b: Bounds)
    requires ValidItem(it, b)
    ensures ParseItem(FormatItem(it), b) == Some(it)
  {
    match it
    case All(st) =>
      if st == 1 {
        assert FormatItem(it) == "*";
      } else {
        ParseAllStepped(st, b);
      }
    case Single(v) =>
      ParseSingle(v, b);
    case Span(f, l, st) =>
      if st == 1 {
        assert FormatItem(it) == ShowNat(f) + "-" + ShowNat(l);
        ParseSpanPlain(f, l, b);
      } else {
        ParseSpanStepped(f, l, st, b);
      }
  }

  lemma {:induction false} ParseFormatItems(f: Field, b: Bounds)
    requires forall k :: 0 <= k < |f| ==> ValidItem(f[k], b)
    ensures ParseItems(FormatItems(f), b) == Some(f)
  {
    if |f| > 0 {
      ParseFormatItem(f[0], b);
      ParseFormatItems(f[1..], b);
      assert FormatItems(f)[1..] == FormatItems(f[1..]);
      assert [f[0]] + f[1..] == f;
    }
  }

  lemma ParseFormatField(f: Field, b: Bounds)
    requires ValidField(f, b)
    ensures ParseField(FormatField(f), b) == Some(f)
    ensures Free(FormatField(f), Blanks) && |FormatField(f)| > 0
  {
    var parts := FormatItems(f);
    forall k | 0 <= k < |parts| ensures Free(parts[k], {','}) && Free(parts[k], Blanks) {
      FormatItemFree(f[k]);
    }
    SplitJoin(parts, ',', {','});
    ParseFormatItems(f, b);
    JoinFree(parts, ',', Blanks);
    FormatItemFree(f[0]);
    JoinNonEmpty(parts, ',');
  }

  lemma {:induction false} JoinFree(parts: seq<string>, sep: char, seps: set<char>)
    requires sep !in seps
    requires forall k :: 0 <= k < |parts| ==> Free(parts[k], seps)
    ensures Free(Join(parts, sep), seps)
  {
    if |parts| > 1 {
      JoinFree(parts[1..], sep, seps);
    }
  }

  lemma JoinNonEmpty(parts: seq<string>, sep: char)
    requires |parts| > 0 && |parts[0]| > 0
    ensures |Join(parts, sep)| > 0
  {
  }

  lemma ParseFieldsFormatted(e: CronSpec, fields: seq<string>)
    requires ValidSpec(e)
    requires fields == [FormatField(e.minute), FormatField(e.hour), FormatField(e.dayOfMonth),
                        FormatField(e.month), FormatField(e.dayOfWeek)]
    ensures ParseFields(fields) == Some(e)
  {
    ParseFormatField(e.minute, MinuteBounds);
    ParseFormatField(e.hour, HourBounds);
    ParseFormatField(e.dayOfMonth, DayOfMonthBounds);
    ParseFormatField(e.month, MonthBounds);
    ParseFormatField(e.dayOfWeek, DayOfWeekBounds);
  }

  /** Parsing recovers every well-formed expression from its canonical text. */
  lemma ParseFormat(e: CronSpec)
    requires ValidSpec(e)
    ensures Parse(Format(e)) == Some(e)
  {
    var fields := [FormatField(e.minute), FormatField(e.hour), FormatField(e.dayOfMonth),
                   FormatField(e.month), FormatField(e.dayOfWeek)];
    forall k | 0 <= k < 5 ensures Free(fields[k], Blanks) && |fields[k]| > 0 {
      var f := [e.minute, e.hour, e.dayOfMonth, e.month, e.dayOfWeek][k];
      var b := [MinuteBounds, HourBounds, DayOfMonthBounds, MonthBounds, DayOfWeekBounds][k];
      ParseFormatField(f, b);
    }
    SplitJoin(fields, ' ', Blanks);
    NonEmptyKeeps(fields);
    ParseFieldsFormatted(e, fields);
  }
}
