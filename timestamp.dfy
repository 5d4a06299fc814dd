/** `normalize_date` of tools/import_posts_from_api.py: the four `strptime`
    layouts tried in order, the `fromisoformat` fallback, and the
    `isoformat(sep=" ")` rendering with seconds or microseconds precision. */
module Timestamp {
  import opened Wrappers
  import opened Text

  /** A `datetime` value as its seven fields (naive: no time zone). */
  datatype DateTime = DateTime(year: int, month: int, day: int,
                               hour: int, minute: int, second: int, micro: int)

  predicate IsLeap(y: int) {
    y % 4 == 0 && (y % 100 != 0 || y % 400 == 0)
  }

  function DaysIn(y: int, m: int): int {
    if m == 2 then (if IsLeap(y) then 29 else 28)
    else if m == 4 || m == 6 || m == 9 || m == 11 then 30
    else 31
  }

  /** The checks the `datetime` constructor makes on its arguments. */
  predicate Valid(d: DateTime) {
    && 1 <= d.year <= 9999
    && 1 <= d.month <= 12
    && 1 <= d.day <= DaysIn(d.year, d.month)
    && 0 <= d.hour <= 23
    && 0 <= d.minute <= 59
    && 0 <= d.second <= 59
    && 0 <= d.micro <= 999999
  }

  /** A `datetime` that could be constructed. */
  type Stamp = d: DateTime | Valid(d) witness DateTime(1, 1, 1, 0, 0, 0, 0)

  // ---------------------------------------------------------------- digits

  predicate IsDigit(c: char) {
    '0' <= c <= '9'
  }

  predicate AllDigits(s: string) {
    forall i | 0 <= i < |s| :: IsDigit(s[i])
  }

  function DigitValue(c: char): nat
    requires IsDigit(c)
  {
    c as int - '0' as int
  }

  function DigitChar(n: nat): (c: char)
    requires n < 10
    ensures IsDigit(c) && DigitValue(c) == n
  {
    ('0' as int + n) as char
  }

  function Pow10(w: nat): nat {
    if w == 0 then 1 else 10 * Pow10(w - 1)
  }

  /** `int(ds)` for a string of ASCII digits. */
  function Value(ds: string): nat
    requires AllDigits(ds)
  {
    if ds == [] then 0 else Value(ds[..|ds| - 1]) * 10 + DigitValue(ds[|ds| - 1])
  }

  /** `"%0{w}d" % n`: the last `w` decimal digits of `n`, zero-padded. */
  function Pad(n: nat, w: nat): (r: string)
    ensures |r| == w && AllDigits(r)
  {
    if w == 0 then [] else Pad(n / 10, w - 1) + [DigitChar(n % 10)]
  }

  /** Reading back a padded number gives the number, when it fits the width. */
  lemma {:induction false} ValuePad(n: nat, w: nat)
    requires n < Pow10(w)
    ensures Value(Pad(n, w)) == n
  {
    if w > 0 {
      ValuePad(n / 10, w - 1);
      var p := Pad(n, w);
      assert p[..|p| - 1] == Pad(n / 10, w - 1);
    }
  }

  /** How many ASCII digits `s` starts with. */
  function DigitPrefix(s: string): (k: nat)
    ensures k <= |s| && AllDigits(s[..k])
    ensures k == |s| || !IsDigit(s[k])
  {
    if s != [] && IsDigit(s[0]) then
      var k := 1 + DigitPrefix(s[1..]);
      assert s[..k] == [s[0]] + s[1..][..k - 1];
      k
    else 0
  }

  lemma {:induction false} DigitPrefixOf(ds: string, rest: string)
    requires AllDigits(ds)
    requires rest == [] || !IsDigit(rest[0])
    ensures DigitPrefix(ds + rest) == |ds|
  {
    if ds != [] {
      assert (ds + rest)[1..] == ds[1..] + rest;
      DigitPrefixOf(ds[1..], rest);
    }
  }

  // ------------------------------------------------- the strptime formats

  /** One directive of a `strptime` format, as `_strptime` turns it into a
      piece of regular expression. */
  datatype Directive =
    | Year         // %Y: exactly four digits
    | Month        // %m: 1..12
    | Day          // %d: 1..31, or a blank and a digit 1..9
    | Hour         // %H: 0..23
    | Minute       // %M: 0..59
    | Second       // %S: 0..61
    | Micro        // %f: one to six digits, right-padded with zeros
    | Char(c: char) // a literal character of the format
    | Blank        // whitespace of the format, which matches `\s+`
    | LetterT      // the letter T, matched ignoring case

  type Format = seq<Directive>

  predicate Numeric(d: Directive) {
    d.Year? || d.Month? || d.Day? || d.Hour? || d.Minute? || d.Second?
  }

  /** How many digits a numeric directive accepts. */
  function Width(d: Directive): (nat, nat) {
    if d.Year? then (4, 4) else (1, 2)
  }

  /** The values a numeric directive's regex accepts. */
  function Range(d: Directive): (nat, nat) {
    match d
    case Month => (1, 12)
    case Day => (1, 31)
    case Hour => (0, 23)
    case Minute => (0, 59)
    case Second => (0, 61)
    case _ => (0, 9999)
  }

  /** Records the value read for a numeric directive. */
  function Store(acc: DateTime, d: Directive, v: nat): DateTime {
    match d
    case Year => acc.(year := v)
    case Month => acc.(month := v)
    case Day => acc.(day := v)
    case Hour => acc.(hour := v)
    case Minute => acc.(minute := v)
    case Second => acc.(second := v)
    case _ => acc
  }

  /** A numeric directive reads the ASCII digits at the front of `s`.  In every
      format of `normalize_date` a numeric field is followed by a non-digit or
      by the end of the input, so the regex's alternatives (two digits before
      one) succeed exactly on such a maximal run of admissible length and value. */
  function Number(s: string, d: Directive, acc: DateTime): Option<(DateTime, string)>
    requires Numeric(d)
  {
    var k := DigitPrefix(s);
    if Width(d).0 <= k <= Width(d).1 && Range(d).0 <= Value(s[..k]) <= Range(d).1
    then Some((Store(acc, d, Value(s[..k])), s[k..]))
    else None
  }

  /** `%f`: one to six digits, read as microseconds after padding with zeros. */
  function Micros(s: string, acc: DateTime): Option<(DateTime, string)> {
    var k := DigitPrefix(s);
    if 1 <= k <= 6 then
      var f := s[..k] + Zeros(6 - k);
      assert AllDigits(f);
      Some((acc.(micro := Value(f)), s[k..]))
    else None
  }

  function Zeros(n: nat): (z: string)
    ensures |z| == n && AllDigits(z)
  {
    seq(n, _ => '0')
  }

  /** One directive matched at the front of `s`: the fields read so far and
      what follows. */
  function Step(s: string, d: Directive, acc: DateTime): Option<(DateTime, string)> {
    match d
    case Char(c) => if s != [] && s[0] == c then Some((acc, s[1..])) else None
    case Blank =>
      var t := LStrip(s);
      if |t| < |s| then Some((acc, t)) else None
    case LetterT => if s != [] && (s[0] == 'T' || s[0] == 't') then Some((acc, s[1..])) else None
    case Micro => Micros(s, acc)
    case Day =>
      if s != [] && s[0] == ' ' then
        if |s| >= 2 && '1' <= s[1] <= '9' then Some((acc.(day := DigitValue(s[1])), s[2..])) else None
      else Number(s, d, acc)
    case _ => Number(s, d, acc)
  }

  /** The directives of `fmt` matched one after another from the front of `s`. */
  function Scan(s: string, fmt: Format, acc: DateTime): Option<(DateTime, string)>
    decreases |fmt|
  {
    if fmt == [] then Some((acc, s))
    else
      var p :- Step(s, fmt[0], acc);
      Scan(p.1, fmt[1..], p.0)
  }

  /** The fields `_strptime` starts from when a format does not set them. */
  const Start: DateTime := DateTime(1900, 1, 1, 0, 0, 0, 0)

  /** `datetime.strptime(s, fmt)`: the format must match all of `s` (otherwise
      Python reports unconverted data) and the fields must make a valid
      `datetime`; `None` stands for the `ValueError` raised otherwise. */
  function Strptime(s: string, fmt: Format): Option<Stamp> {
    var p :- Scan(s, fmt, Start);
    if p.1 == [] && Valid(p.0) then Some(p.0) else None
  }

  const DateFormat: Format := [Year, Char('-'), Month, Char('-'), Day]
  const ClockFormat: Format := [Hour, Char(':'), Minute, Char(':'), Second]
  const FractionFormat: Format := [Char('.'), Micro]

  function FractionTail(fraction: bool): Format {
    if fraction then FractionFormat else []
  }

  /** `%Y-%m-%d<sep>%H:%M:%S`, followed by `.%f` when `fraction` holds. */
  function Layout(sep: Directive, fraction: bool): Format {
    DateFormat + ([sep] + (ClockFormat + FractionTail(fraction)))
  }

  /** The four formats of `normalize_date`, in the order it tries them. */
  const Layouts: seq<Format> := [Layout(Blank, true), Layout(Blank, false),
                                 Layout(LetterT, true), Layout(LetterT, false)]

  /** The loop over the formats: the first that parses wins. */
  function ParseFirst(s: string, ls: seq<Format>): Option<Stamp> {
    if ls == [] then None
    else match Strptime(s, ls[0])
      case Some(d) => Some(d)
      case None => ParseFirst(s, ls[1..])
  }

  /** Format `i` is the first of `ls` that parses `s`. */
  predicate FirstParse(s: string, ls: seq<Format>, i: nat) {
    && i < |ls|
    && Strptime(s, ls[i]).Some?
    && forall j | 0 <= j < i :: Strptime(s, ls[j]).None?
  }

  // ------------------------------------------------------------ rendering

  /** Three numbers written with the given widths and one separator between
      them, followed by `rest`: a date `YYYY-MM-DD` or a clock `HH:MM:SS`. */
  function Triple(a: nat, wa: nat, sep: char, b: nat, wb: nat, c: nat, wc: nat, rest: string): string {
    Pad(a, wa) + ([sep] + (Pad(b, wb) + ([sep] + (Pad(c, wc) + rest))))
  }

  function Fractional(us: nat): string {
    if us == 0 then "" else "." + Pad(us, 6)
  }

  /** `d.isoformat(sep=" ", timespec="microseconds")` when `d` has microseconds,
      `timespec="seconds"` otherwise. */
  function Render(d: Stamp): string {
    Triple(d.year, 4, '-', d.month, 2, d.day, 2,
      " " + Triple(d.hour, 2, ':', d.minute, 2, d.second, 2, Fractional(d.micro)))
  }

  /** `normalize_date(s)`, with `fromisoformat` given as `fallback`: the
      rendering of the datetime read from `s`, or `s` itself when no format
      reads it. */
  function Normalize(s: string, fallback: string -> Option<Stamp>): (r: string)
    ensures r == s || exists d: Stamp :: r == Render(d)
  {
    match ParseFirst(s, Layouts)
    case Some(d) => Render(d)
    case None =>
      match fallback(s)
      case Some(d) => Render(d)
      case None => s
  }

  /** `r` is the rendering of the datetime the formats read from it. */
  predicate Canonical(r: string) {
    var d := ParseFirst(r, Layouts);
    d.Some? && Render(d.value) == r
  }

  /** A rendering has the shape `YYYY-MM-DD HH:MM:SS`, with `.ffffff` exactly
      when there are microseconds. */
  lemma RenderShape(d: Stamp)
    ensures |Render(d)| == if d.micro == 0 then 19 else 26
    ensures var r := Render(d);
            r[4] == '-' && r[7] == '-' && r[10] == ' ' && r[13] == ':' && r[16] == ':'
    ensures d.micro != 0 ==> Render(d)[19] == '.'
  {
  }

  // ------------------------------------------------------ scanning lemmas

  /** Scanning is the first directive's step, then the rest of the format. */
  lemma ScanStep(s: string, fmt: Format, acc: DateTime)
    requires fmt != []
    ensures Scan(s, fmt, acc) ==
            match Step(s, fmt[0], acc)
            case None => None
            case Some(p) => Scan(p.1, fmt[1..], p.0)
  {
  }

  /** Matching a concatenation of formats is matching one after the other. */
  lemma {:induction false} ScanAppend(s: string, f1: Format, f2: Format, acc: DateTime)
    ensures Scan(s, f1 + f2, acc) ==
            match Scan(s, f1, acc)
            case None => None
            case Some(p) => Scan(p.1, f2, p.0)
    decreases |f1|
  {
    if f1 == [] {
      assert f1 + f2 == f2;
    } else {
      assert (f1 + f2)[0] == f1[0];
      assert (f1 + f2)[1..] == f1[1..] + f2;
      var x := Step(s, f1[0], acc);
      if x.Some? {
        ScanAppend(x.value.1, f1[1..], f2, x.value.0);
      }
    }
  }

  /** `n` written with `w` digits is admitted by the numeric directive `d`. */
  predicate Admits(d: Directive, n: nat, w: nat) {
    Numeric(d) && Width(d).0 <= w <= Width(d).1 && n < Pow10(w) && Range(d).0 <= n <= Range(d).1
  }

  /** A zero-padded number is read by a numeric directive that admits its
      width and value. */
  lemma ScanNumber(n: nat, w: nat, rest: string, fmt: Format, acc: DateTime)
    requires fmt != [] && Admits(fmt[0], n, w)
    requires rest == [] || !IsDigit(rest[0])
    ensures Scan(Pad(n, w) + rest, fmt, acc) == Scan(rest, fmt[1..], Store(acc, fmt[0], n))
  {
    var s := Pad(n, w) + rest;
    DigitPrefixOf(Pad(n, w), rest);
    assert s[..w] == Pad(n, w);
    assert s[w..] == rest;
    ValuePad(n, w);
    assert s[0] != ' ';
    assert Step(s, fmt[0], acc) == Some((Store(acc, fmt[0], n), rest));
  }

  lemma ScanChar(c: char, rest: string, fmt: Format, acc: DateTime)
    requires fmt != [] && fmt[0] == Char(c)
    ensures Scan([c] + rest, fmt, acc) == Scan(rest, fmt[1..], acc)
  {
    assert ([c] + rest)[1..] == rest;
  }

  /** A number and the separator after it are read by a numeric directive
      and the literal after it. */
  lemma ScanNumberChar(n: nat, w: nat, sep: char, rest: string, fmt: Format, acc: DateTime)
    requires |fmt| >= 2 && Admits(fmt[0], n, w) && fmt[1] == Char(sep) && !IsDigit(sep)
    ensures Scan(Pad(n, w) + ([sep] + rest), fmt, acc) == Scan(rest, fmt[2..], Store(acc, fmt[0], n))
  {
    ScanNumber(n, w, [sep] + rest, fmt, acc);
    ScanChar(sep, rest, fmt[1..], Store(acc, fmt[0], n));
    assert fmt[1..][1..] == fmt[2..];
  }

  /** Three numbers with separators are read by three numeric directives with
      literal separators between them. */
  lemma ScanTriple(a: nat, wa: nat, sep: char, b: nat, wb: nat, c: nat, wc: nat, rest: string,
                   fmt: Format, acc: DateTime)
    requires |fmt| == 5 && fmt[1] == fmt[3] == Char(sep) && !IsDigit(sep)
    requires Admits(fmt[0], a, wa) && Admits(fmt[2], b, wb) && Admits(fmt[4], c, wc)
    requires rest == [] || !IsDigit(rest[0])
    ensures Scan(Triple(a, wa, sep, b, wb, c, wc, rest), fmt, acc)
            == Some((Store(Store(Store(acc, fmt[0], a), fmt[2], b), fmt[4], c), rest))
  {
    var t3 := Pad(c, wc) + rest;
    var t2 := Pad(b, wb) + ([sep] + t3);
    var acc1 := Store(acc, fmt[0], a);
    var acc2 := Store(acc1, fmt[2], b);
    ScanNumberChar(a, wa, sep, t2, fmt, acc);
    ScanNumberChar(b, wb, sep, t3, fmt[2..], acc1);
    assert fmt[2..][2..] == fmt[4..];
    ScanNumber(c, wc, rest, fmt[4..], acc2);
    assert fmt[4..][1..] == [];
  }

  /** A date with the given month and day widths that `%Y-%m-%d` admits. */
  predicate DateFits(y: nat, mo: nat, day: nat, wm: nat, wd: nat) {
    Admits(Year, y, 4) && Admits(Month, mo, wm) && Admits(Day, day, wd)
  }

  /** A clock with the given widths that `%H:%M:%S` admits. */
  predicate ClockFits(h: nat, mi: nat, se: nat, wh: nat, wmi: nat, wse: nat) {
    Admits(Hour, h, wh) && Admits(Minute, mi, wmi) && Admits(Second, se, wse)
  }

  /** Every datetime's fields fit the two-digit widths of a rendering. */
  lemma StampFits(d: Stamp)
    ensures DateFits(d.year, d.month, d.day, 2, 2)
    ensures ClockFits(d.hour, d.minute, d.second, 2, 2, 2)
  {
    assert Pow10(4) == 10000 && Pow10(2) == 100;
  }

  /** `%Y-%m-%d` reads a year, month and day written with one- or two-digit
      month and day. */
  lemma ScanDate(y: nat, mo: nat, day: nat, wm: nat, wd: nat, rest: string, acc: DateTime)
    requires DateFits(y, mo, day, wm, wd)
    requires rest == [] || !IsDigit(rest[0])
    ensures Scan(Triple(y, 4, '-', mo, wm, day, wd, rest), DateFormat, acc)
            == Some((acc.(year := y, month := mo, day := day), rest))
  {
    ScanTriple(y, 4, '-', mo, wm, day, wd, rest, DateFormat, acc);
  }

  /** `%H:%M:%S` reads an hour, minute and second written with one or two
      digits each. */
  lemma ScanClock(h: nat, mi: nat, se: nat, wh: nat, wmi: nat, wse: nat, rest: string, acc: DateTime)
    requires ClockFits(h, mi, se, wh, wmi, wse)
    requires rest == [] || !IsDigit(rest[0])
    ensures Scan(Triple(h, wh, ':', mi, wmi, se, wse, rest), ClockFormat, acc)
            == Some((acc.(hour := h, minute := mi, second := se), rest))
  {
    ScanTriple(h, wh, ':', mi, wmi, se, wse, rest, ClockFormat, acc);
  }

  /** A layout reads the date at the front and goes on after it. */
  lemma ScanLayoutDate(y: nat, mo: nat, day: nat, wm: nat, wd: nat, rest: string,
                       sep: Directive, fraction: bool)
    requires DateFits(y, mo, day, wm, wd)
    requires rest == [] || !IsDigit(rest[0])
    ensures Scan(Triple(y, 4, '-', mo, wm, day, wd, rest), Layout(sep, fraction), Start)
            == Scan(rest, [sep] + (ClockFormat + FractionTail(fraction)), DateTime(y, mo, day, 0, 0, 0, 0))
  {
    var text := Triple(y, 4, '-', mo, wm, day, wd, rest);
    ScanAppend(text, DateFormat, [sep] + (ClockFormat + FractionTail(fraction)), Start);
    ScanDate(y, mo, day, wm, wd, rest, Start);
  }

  /** The blank or the `T` of a layout is read before a digit. */
  lemma ScanSeparator(sep: Directive, clock: string, fmt: Format, acc: DateTime)
    requires fmt != [] && fmt[0] == sep && (sep == Blank || sep == LetterT)
    requires clock != [] && IsDigit(clock[0])
    ensures Scan([if sep == Blank then ' ' else 'T'] + clock, fmt, acc) == Scan(clock, fmt[1..], acc)
  {
    var t := [if sep == Blank then ' ' else 'T'] + clock;
    assert t[1..] == clock;
    if sep == Blank {
      LStripOne(' ', clock);
    }
    assert Step(t, sep, acc) == Some((acc, clock));
  }

  /** The blank of a layout is not found before a letter `T`. */
  lemma ScanBlankMissing(rest: string, fmt: Format, acc: DateTime)
    requires fmt != [] && fmt[0] == Blank
    ensures Scan("T" + rest, fmt, acc) == None
  {
    assert Step("T" + rest, Blank, acc) == None by {
      LStripNone("T" + rest);
    }
    ScanStep("T" + rest, fmt, acc);
  }

  lemma ScanLayoutClock(h: nat, mi: nat, se: nat, wh: nat, wmi: nat, wse: nat, tail: string,
                        fraction: bool, acc: DateTime)
    requires ClockFits(h, mi, se, wh, wmi, wse)
    requires tail == [] || !IsDigit(tail[0])
    ensures Scan(Triple(h, wh, ':', mi, wmi, se, wse, tail), ClockFormat + FractionTail(fraction), acc)
            == Scan(tail, FractionTail(fraction), acc.(hour := h, minute := mi, second := se))
  {
    ScanAppend(Triple(h, wh, ':', mi, wmi, se, wse, tail), ClockFormat, FractionTail(fraction), acc);
    ScanClock(h, mi, se, wh, wmi, wse, tail, acc);
  }

  /** A date, a separator and a clock are read by a layout, which leaves
      `tail` to the fraction directives. */
  lemma ScanLayout(y: nat, mo: nat, day: nat, wm: nat, wd: nat, sep: Directive,
                   h: nat, mi: nat, se: nat, wh: nat, wmi: nat, wse: nat,
                   tail: string, fraction: bool)
    requires DateFits(y, mo, day, wm, wd) && ClockFits(h, mi, se, wh, wmi, wse)
    requires sep == Blank || sep == LetterT
    requires tail == [] || !IsDigit(tail[0])
    ensures Scan(Triple(y, 4, '-', mo, wm, day, wd,
                   [if sep == Blank then ' ' else 'T'] + Triple(h, wh, ':', mi, wmi, se, wse, tail)),
                 Layout(sep, fraction), Start)
            == Scan(tail, FractionTail(fraction), DateTime(y, mo, day, h, mi, se, 0))
  {
    var clock := Triple(h, wh, ':', mi, wmi, se, wse, tail);
    var rest := [if sep == Blank then ' ' else 'T'] + clock;
    var fmt := [sep] + (ClockFormat + FractionTail(fraction));
    var dated := DateTime(y, mo, day, 0, 0, 0, 0);
    var text := Triple(y, 4, '-', mo, wm, day, wd, rest);
    assert Scan(text, Layout(sep, fraction), Start) == Scan(rest, fmt, dated) by {
      ScanLayoutDate(y, mo, day, wm, wd, rest, sep, fraction);
    }
    assert Scan(rest, fmt, dated) == Scan(clock, ClockFormat + FractionTail(fraction), dated) by {
      ScanSeparator(sep, clock, fmt, dated);
      assert fmt[1..] == ClockFormat + FractionTail(fraction);
    }
    ScanLayoutClock(h, mi, se, wh, wmi, wse, tail, fraction, dated);
  }

  /** Six digits after the point are read back as the microseconds they encode. */
  lemma ScanFraction(us: nat, acc: DateTime)
    requires us <= 999999
    ensures Scan("." + Pad(us, 6), FractionFormat, acc) == Some((acc.(micro := us), []))
  {
    var f := Pad(us, 6);
    ScanChar('.', f, FractionFormat, acc);
    DigitPrefixOf(f, []);
    assert f[..6] == f && f[6..] == [];
    assert f + Zeros(0) == f;
    ValuePad(us, 6);
    assert Micros(f, acc) == Some((acc.(micro := us), []));
  }

  /** What the fraction directives leave of a rendering's tail. */
  lemma ScanTail(us: nat, fraction: bool, acc: DateTime)
    requires us <= 999999
    ensures Scan(Fractional(us), FractionTail(fraction), acc)
            == if !fraction then Some((acc, Fractional(us)))
               else if us == 0 then None
               else Some((acc.(micro := us), []))
  {
    if fraction && us != 0 {
      ScanFraction(us, acc);
    }
  }

  // ---------------------------------------------------------- round trip

  /** Each blank-separated layout reads a rendering back exactly when it
      agrees with the rendering on the presence of microseconds. */
  lemma StrptimeRendered(d: Stamp, fraction: bool)
    ensures Strptime(Render(d), Layout(Blank, fraction)) ==
            if fraction == (d.micro != 0) then Some(d) else None
  {
    StampFits(d);
    var acc := DateTime(d.year, d.month, d.day, d.hour, d.minute, d.second, 0);
    ScanLayout(d.year, d.month, d.day, 2, 2, Blank, d.hour, d.minute, d.second, 2, 2, 2,
               Fractional(d.micro), fraction);
    ScanTail(d.micro, fraction, acc);
    if fraction && d.micro != 0 {
      assert acc.(micro := d.micro) == d;
    }
  }

  /** The layouts read a rendering back as the datetime it came from. */
  lemma ParseRendered(d: Stamp)
    ensures ParseFirst(Render(d), Layouts) == Some(d)
  {
    StrptimeRendered(d, true);
    StrptimeRendered(d, false);
  }

  // ---------------------------------------------------------- properties

  /** A canonical timestamp is left unchanged. */
  lemma NormalizeCanonical(d: Stamp, fallback: string -> Option<Stamp>)
    ensures Normalize(Render(d), fallback) == Render(d)
  {
    ParseRendered(d);
  }

  /** `normalize_date` returns its input or a canonical timestamp. */
  lemma NormalizeResult(s: string, fallback: string -> Option<Stamp>)
    ensures Normalize(s, fallback) == s || Canonical(Normalize(s, fallback))
  {
    match ParseFirst(s, Layouts)
    case Some(d) => ParseRendered(d);
    case None =>
      match fallback(s)
      case Some(d) => ParseRendered(d);
      case None =>
  }

  /** Normalising twice is normalising once. */
  lemma NormalizeIdempotent(s: string, fallback: string -> Option<Stamp>)
    ensures Normalize(Normalize(s, fallback), fallback) == Normalize(s, fallback)
  {
    match ParseFirst(s, Layouts)
    case Some(d) => NormalizeCanonical(d, fallback);
    case None =>
      match fallback(s)
      case Some(d) => NormalizeCanonical(d, fallback);
      case None =>
  }

  /** The first format that parses decides the result. */
  lemma {:induction false} ParseFirstIs(s: string, ls: seq<Format>, k: nat)
    requires FirstParse(s, ls, k)
    ensures ParseFirst(s, ls) == Strptime(s, ls[k])
  {
    if k > 0 {
      assert FirstParse(s, ls[1..], k - 1);
      ParseFirstIs(s, ls[1..], k - 1);
    }
  }

  /** Nothing is read exactly when no format parses. */
  lemma {:induction false} ParseFirstNone(s: string, ls: seq<Format>)
    ensures ParseFirst(s, ls).None? <==> forall i | 0 <= i < |ls| :: Strptime(s, ls[i]).None?
  {
    if ls != [] {
      ParseFirstNone(s, ls[1..]);
      assert forall i | 1 <= i < |ls| :: ls[i] == ls[1..][i - 1];
    }
  }

  /** What is read comes from the first format that parses. */
  lemma {:induction false} ParseFirstSome(s: string, ls: seq<Format>)
    requires ParseFirst(s, ls).Some?
    ensures exists k | 0 <= k < |ls| :: FirstParse(s, ls, k) && ParseFirst(s, ls) == Strptime(s, ls[k])
  {
    if Strptime(s, ls[0]).Some? {
      assert FirstParse(s, ls, 0);
    } else {
      ParseFirstSome(s, ls[1..]);
      var k :| 0 <= k < |ls| - 1 && FirstParse(s, ls[1..], k) && ParseFirst(s, ls[1..]) == Strptime(s, ls[1..][k]);
      assert FirstParse(s, ls, k + 1);
    }
  }

  /** When format `k` is the first to parse `s`, `s` becomes the rendering of
      what it read. */
  lemma NormalizeFirst(s: string, k: nat, d: Stamp, fallback: string -> Option<Stamp>)
    requires k < |Layouts|
    requires forall j | 0 <= j < k :: Strptime(s, Layouts[j]).None?
    requires Strptime(s, Layouts[k]) == Some(d)
    ensures Normalize(s, fallback) == Render(d)
  {
    assert FirstParse(s, Layouts, k);
    ParseFirstIs(s, Layouts, k);
  }

  /** Like `fromisoformat`, the fallback accepts only strings that begin
      with a four-digit year. */
  ghost predicate YearFirst(fallback: string -> Option<Stamp>) {
    forall s :: fallback(s).Some? ==> |s| >= 4 && AllDigits(s[..4])
  }

  /** No layout reads text that begins with no digit: each starts with the
      year. */
  lemma NonDateUnparsed(s: string)
    requires s == [] || !IsDigit(s[0])
    ensures ParseFirst(s, Layouts).None?
  {
    assert DigitPrefix(s) == 0;
    forall i | 0 <= i < |Layouts|
      ensures Strptime(s, Layouts[i]).None?
    {
      assert Layouts[i][0] == Year;
    }
    ParseFirstNone(s, Layouts);
  }

  /** Text that begins with no digit is returned unchanged. */
  lemma NormalizeNonDate(s: string, fallback: string -> Option<Stamp>)
    requires YearFirst(fallback)
    requires s == [] || !IsDigit(s[0])
    ensures Normalize(s, fallback) == s
  {
    NonDateUnparsed(s);
    assert !(|s| >= 4 && AllDigits(s[..4])) by {
      if |s| >= 4 {
        assert s[..4][0] == s[0];
      }
    }
    assert fallback(s).None?;
  }


  /** The text `isoformat` writes with `T` between date and time. */
  function RenderT(d: Stamp): string {
    Triple(d.year, 4, '-', d.month, 2, d.day, 2,
      "T" + Triple(d.hour, 2, ':', d.minute, 2, d.second, 2, Fractional(d.micro)))
  }

  /** Each `T`-separated layout reads such a text back exactly when it agrees
      with it on the presence of microseconds. */
  lemma StrptimeT(d: Stamp, fraction: bool)
    ensures Strptime(RenderT(d), Layout(LetterT, fraction)) ==
            if fraction == (d.micro != 0) then Some(d) else None
  {
    StampFits(d);
    var acc := DateTime(d.year, d.month, d.day, d.hour, d.minute, d.second, 0);
    ScanLayout(d.year, d.month, d.day, 2, 2, LetterT, d.hour, d.minute, d.second, 2, 2, 2,
               Fractional(d.micro), fraction);
    ScanTail(d.micro, fraction, acc);
    if fraction && d.micro != 0 {
      assert acc.(micro := d.micro) == d;
    }
  }

  /** A `T` between date and time is read by the third or fourth layout and
      written back as a blank. */
  lemma NormalizeT(d: Stamp, fallback: string -> Option<Stamp>)
    ensures Normalize(RenderT(d), fallback) == Render(d)
  {
    var clock := Triple(d.hour, 2, ':', d.minute, 2, d.second, 2, Fractional(d.micro));
    BlankRejectsT(d.year, d.month, d.day, clock, true);
    BlankRejectsT(d.year, d.month, d.day, clock, false);
    StrptimeT(d, true);
    StrptimeT(d, false);
    NormalizeFirst(RenderT(d), if d.micro != 0 then 2 else 3, d, fallback);
  }

  /** The blank-separated layouts reject a `T` after the date. */
  lemma BlankRejectsT(y: nat, mo: nat, day: nat, rest: string, fraction: bool)
    requires y < 10000 && 1 <= mo <= 12 && 1 <= day <= 31
    ensures Strptime(Triple(y, 4, '-', mo, 2, day, 2, "T" + rest), Layout(Blank, fraction)) == None
  {
    ScanLayoutDate(y, mo, day, 2, 2, "T" + rest, Blank, fraction);
    ScanBlankMissing(rest, [Blank] + (ClockFormat + FractionTail(fraction)), DateTime(y, mo, day, 0, 0, 0, 0));
  }

  /** Text appended after a date or clock is appended to what follows it. */
  lemma TripleAppend(a: nat, wa: nat, sep: char, b: nat, wb: nat, c: nat, wc: nat, rest: string, more: string)
    ensures Triple(a, wa, sep, b, wb, c, wc, rest) + more == Triple(a, wa, sep, b, wb, c, wc, rest + more)
  {
    AppendNested(Pad(a, wa), [sep], Pad(b, wb), [sep], Pad(c, wc), rest, more);
  }

  lemma AppendNested(p1: string, p2: string, p3: string, p4: string, p5: string, rest: string, more: string)
    ensures (p1 + (p2 + (p3 + (p4 + (p5 + rest))))) + more == p1 + (p2 + (p3 + (p4 + (p5 + (rest + more)))))
  {
  }

  /** The first layout reads a rendering followed by six zero digits of
      fraction. */
  lemma StrptimeZeroMicros(d: Stamp)
    requires d.micro == 0
    ensures Strptime(Render(d) + ".000000", Layout(Blank, true)) == Some(d)
  {
    StampFits(d);
    RenderZeroFraction(d);
    ScanLayout(d.year, d.month, d.day, 2, 2, Blank, d.hour, d.minute, d.second, 2, 2, 2, ".000000", true);
    ScanFraction(0, d);
    ZeroFractionText();
  }

  lemma ZeroFractionText()
    ensures "." + Pad(0, 6) == ".000000"
  {
    assert Pad(0, 6) == "000000";
  }

  lemma RenderZeroFraction(d: Stamp)
    requires d.micro == 0
    ensures Render(d) + ".000000" == Triple(d.year, 4, '-', d.month, 2, d.day, 2,
              " " + Triple(d.hour, 2, ':', d.minute, 2, d.second, 2, ".000000"))
  {
    var clock := Triple(d.hour, 2, ':', d.minute, 2, d.second, 2, "");
    TripleAppend(d.hour, 2, ':', d.minute, 2, d.second, 2, "", ".000000");
    assert (" " + clock) + ".000000" == " " + (clock + ".000000");
    TripleAppend(d.year, 4, '-', d.month, 2, d.day, 2, " " + clock, ".000000");
  }

  /** Six zero digits of fraction are read and dropped. */
  lemma NormalizeZeroMicros(d: Stamp, fallback: string -> Option<Stamp>)
    requires d.micro == 0
    ensures Normalize(Render(d) + ".000000", fallback) == Render(d)
  {
    StrptimeZeroMicros(d);
    NormalizeFirst(Render(d) + ".000000", 0, d, fallback);
  }

  /** A datetime written with one-digit month, day, hour, minute and second,
      which `strptime` also accepts. */
  function ShortText(d: Stamp): string
    requires d.month < 10 && d.day < 10 && d.hour < 10 && d.minute < 10 && d.second < 10
  {
    Triple(d.year, 4, '-', d.month, 1, d.day, 1, " " + Triple(d.hour, 1, ':', d.minute, 1, d.second, 1, ""))
  }

  lemma StrptimeShortFields(d: Stamp, fraction: bool)
    requires d.month < 10 && d.day < 10 && d.hour < 10 && d.minute < 10 && d.second < 10
    requires d.micro == 0
    ensures Strptime(ShortText(d), Layout(Blank, fraction)) == if fraction then None else Some(d)
  {
    ShortFits(d);
    ScanLayout(d.year, d.month, d.day, 1, 1, Blank, d.hour, d.minute, d.second, 1, 1, 1, "", fraction);
  }

  lemma ShortFits(d: Stamp)
    requires d.month < 10 && d.day < 10 && d.hour < 10 && d.minute < 10 && d.second < 10
    ensures DateFits(d.year, d.month, d.day, 1, 1) && ClockFits(d.hour, d.minute, d.second, 1, 1, 1)
  {
    assert Pow10(4) == 10000 && Pow10(1) == 10;
  }

  /** One-digit month, day, hour, minute and second are read and written back
      zero-padded. */
  lemma NormalizeShortFields(d: Stamp, fallback: string -> Option<Stamp>)
    requires d.month < 10 && d.day < 10 && d.hour < 10 && d.minute < 10 && d.second < 10
    requires d.micro == 0
    ensures Normalize(ShortText(d), fallback) == Render(d)
  {
    StrptimeShortFields(d, true);
    StrptimeShortFields(d, false);
    NormalizeFirst(ShortText(d), 1, d, fallback);
  }

  lemma ExampleCanonical(fallback: string -> Option<Stamp>)
    ensures Normalize("2024-03-01 12:00:00", fallback) == "2024-03-01 12:00:00"
  {
    var d: Stamp := DateTime(2024, 3, 1, 12, 0, 0, 0);
    RenderExample();
    NormalizeCanonical(d, fallback);
  }

  lemma RenderExample()
    ensures Render(DateTime(2024, 3, 1, 12, 0, 0, 0)) == "2024-03-01 12:00:00"
  {
    PadsOfExample();
  }

  lemma PadsOfExample()
    ensures Pad(2024, 4) == "2024" && Pad(3, 2) == "03" && Pad(1, 2) == "01"
    ensures Pad(12, 2) == "12" && Pad(0, 2) == "00"
  {
    PadOfYear();
  }

  lemma PadOfYear()
    ensures Pad(2024, 4) == "2024"
  {
  }

  lemma ExampleUnknown(fallback: string -> Option<Stamp>)
    requires YearFirst(fallback)
    ensures Normalize("unknown", fallback) == "unknown"
    ensures Normalize("", fallback) == ""
  {
    NormalizeNonDate("unknown", fallback);
    NormalizeNonDate("", fallback);
  }
}
