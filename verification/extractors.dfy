/** The field extractors of the text fallback: the title line filter and
    the prize, organizer and deadline pattern ladders. */
module Extractors {
  import opened Wrappers
  import opened Text
  import opened Calendar
  import opened Patterns

  // ----- title -----

  /** A line that mentions a competition word in any letter case. */
  predicate IsCompetitionLine(line: string) {
    var lower := LowerStr(line);
    Includes(lower, "vinn") || Includes(lower, "konkurranse")
    || Includes(lower, "premie") || Includes(lower, "gavekort")
  }

  /** A line that is longer than five characters once trimmed. */
  predicate IsLong(line: string) {
    |Trim(line)| > 5
  }

  /** The lines, trimmed, that are longer than five characters, in order. */
  function LongLines(lines: seq<string>): (r: seq<string>)
    ensures forall k :: 0 <= k < |r| ==> |r[k]| > 5
    ensures r == [] <==> forall k :: 0 <= k < |lines| ==> !IsLong(lines[k])
  {
    if lines == [] then []
    else if IsLong(lines[0]) then [Trim(lines[0])] + LongLines(lines[1..])
    else
      var rest := LongLines(lines[1..]);
      assert forall k :: 1 <= k < |lines| ==> lines[k] == lines[1..][k - 1];
      rest
  }

  /** One line contributes itself, trimmed, exactly when it is long. */
  lemma LongLinesSingle(line: string)
    ensures LongLines([line]) == if IsLong(line) then [Trim(line)] else []
  {
    assert [line][1..] == [];
  }

  /** The filter works line by line: the long lines of two pieces of text
      are those of the first piece followed by those of the second. */
  lemma {:induction false} LongLinesAppend(a: seq<string>, b: seq<string>)
    ensures LongLines(a + b) == LongLines(a) + LongLines(b)
    decreases |a|
  {
    if a == [] {
      assert a + b == b;
    } else {
      assert (a + b)[0] == a[0];
      assert (a + b)[1..] == a[1..] + b;
      LongLinesAppend(a[1..], b);
    }
  }

  /** The first long line, trimmed, heads the list. */
  lemma {:induction false} LongLinesHead(lines: seq<string>, k: nat)
    requires k < |lines| && IsLong(lines[k])
    requires forall j :: 0 <= j < k ==> !IsLong(lines[j])
    ensures LongLines(lines) != [] && LongLines(lines)[0] == Trim(lines[k])
  {
    if k > 0 {
      assert lines[1..][k - 1] == lines[k];
      assert forall j :: 0 <= j < k - 1 ==> lines[1..][j] == lines[j + 1];
      LongLinesHead(lines[1..], k - 1);
    }
  }

  /** The index of the first competition line. */
  function FirstCompetitionLine(lines: seq<string>): (r: Option<nat>)
    ensures r.Some? ==> r.value < |lines| && IsCompetitionLine(lines[r.value])
    ensures r.Some? ==> forall j :: 0 <= j < r.value ==> !IsCompetitionLine(lines[j])
    ensures r.None? ==> forall j :: 0 <= j < |lines| ==> !IsCompetitionLine(lines[j])
  {
    if lines == [] then None
    else if IsCompetitionLine(lines[0]) then Some(0)
    else
      match FirstCompetitionLine(lines[1..])
      case None => None
      case Some(k) => Some(k + 1)
  }

  /** `extractTitle(text)`: among the trimmed lines longer than five
      characters, the first competition line, else the first line;
      `None` (JavaScript `null`) only when there is no such line. */
  function TitleOf(text: string): (r: Option<string>)
    ensures var lines := LongLines(Split(text, '\n'));
      && (r.None? <==> lines == [])
      && ((exists k :: 0 <= k < |lines| && IsCompetitionLine(lines[k])) ==>
            exists k :: 0 <= k < |lines| && IsCompetitionLine(lines[k]) && r == Some(lines[k])
              && forall j :: 0 <= j < k ==> !IsCompetitionLine(lines[j]))
      && ((forall k :: 0 <= k < |lines| ==> !IsCompetitionLine(lines[k])) && lines != [] ==>
            r == Some(lines[0]))
  {
    var lines := LongLines(Split(text, '\n'));
    match FirstCompetitionLine(lines)
    case Some(k) => Some(lines[k])
    case None => if lines == [] then None else Some(lines[0])
  }

  // ----- pattern ladders -----

  /** Which pattern of a ladder matched, and its match. */
  datatype Hit = Hit(index: nat, m: Match)

  /** The first pattern of `ps`, from index `k` on, that matches `s`. */
  function FirstHitFrom(ps: seq<Pattern>, s: string, k: nat): (r: Option<Hit>)
    requires k <= |ps|
    ensures r.Some? ==> k <= r.value.index < |ps| && Search(ps[r.value.index], s) == Some(r.value.m)
    ensures r.Some? ==> forall j :: k <= j < r.value.index ==> Search(ps[j], s).None?
    ensures r.None? ==> forall j :: k <= j < |ps| ==> Search(ps[j], s).None?
    decreases |ps| - k
  {
    if k == |ps| then None
    else
      match Search(ps[k], s)
      case Some(m) => Some(Hit(k, m))
      case None => FirstHitFrom(ps, s, k + 1)
  }

  /** A ladder finds nothing exactly when the shape of none of its
      patterns occurs anywhere in the text. */
  lemma FirstHitNoneIff(ps: seq<Pattern>, s: string)
    ensures FirstHitFrom(ps, s, 0).None? <==>
      forall k, m: Match :: 0 <= k < |ps| && WellPlaced(s, m.whole.start, m) ==> !Shape(ps[k], s, m)
  {
    forall k | 0 <= k < |ps| {
      SearchExact(ps[k], s);
    }
    if FirstHitFrom(ps, s, 0).Some? {
      var h := FirstHitFrom(ps, s, 0).value;
      assert Shape(ps[h.index], s, h.m);
    }
  }

  const PRIZE_PATTERNS: seq<Pattern> := [WinPhrase, PrizePhrase, GiftCard, Amount]
  const ORGANIZER_PATTERNS: seq<Pattern> := [OrganizerLabel, ByName, Brand]
  const DEADLINE_PATTERNS: seq<Pattern> := [DayMonthYear, YearMonthDay, DaySlashMonthSlashYear]

  // ----- prize -----

  /** `extractPrize(text)`: the trimmed text of the first prize pattern
      that matches; `None` exactly when none does. */
  function PrizeOf(text: string): (r: Option<string>)
    ensures r.None? <==> forall k :: 0 <= k < |PRIZE_PATTERNS| ==> Search(PRIZE_PATTERNS[k], text).None?
    ensures r.Some? ==>
      exists k :: 0 <= k < |PRIZE_PATTERNS| && Search(PRIZE_PATTERNS[k], text).Some?
        && (forall j :: 0 <= j < k ==> Search(PRIZE_PATTERNS[j], text).None?)
        && r.value == Trim(Whole(text, Search(PRIZE_PATTERNS[k], text).value))
  {
    match FirstHitFrom(PRIZE_PATTERNS, text, 0)
    case None => None
    case Some(h) => Some(Trim(Whole(text, h.m)))
  }

  /** The loop over the prize patterns with its early return. */
  method ExtractPrize(text: string) returns (r: Option<string>)
    ensures r == PrizeOf(text)
  {
    for k := 0 to |PRIZE_PATTERNS|
      invariant FirstHitFrom(PRIZE_PATTERNS, text, k) == FirstHitFrom(PRIZE_PATTERNS, text, 0)
    {
      var m := Search(PRIZE_PATTERNS[k], text);
      if m.Some? {
        return Some(Trim(Whole(text, m.value)));
      }
    }
    return None;
  }

  // ----- organizer -----

  /** The length of a capture group of an organizer pattern is at most 31:
      30 for the label form, a capital and 30 more for the `av` form, and
      the longest brand name for the brand form. */
  lemma OrganizerGroupBound(k: nat, text: string)
    requires k < |ORGANIZER_PATTERNS| && Search(ORGANIZER_PATTERNS[k], text).Some?
    ensures var m := Search(ORGANIZER_PATTERNS[k], text).value;
      1 <= |Group(text, m, 0)| <= 31
  {
    var p := ORGANIZER_PATTERNS[k];
    SearchExact(p, text);
    if k == 2 {
      assert forall b :: 0 <= b < |BRANDS| ==> |BRANDS[b]| <= 9;
    }
  }

  /** `extractOrganizer(text, hostname)`: the trimmed first capture group
      of the first organizer pattern that matches (at most 31 characters),
      else the hostname with its first character upper-cased. */
  function OrganizerOf(text: string, hostname: string): (r: string)
    ensures FirstHitFrom(ORGANIZER_PATTERNS, text, 0).None? ==> r == UpperFirst(hostname)
    ensures FirstHitFrom(ORGANIZER_PATTERNS, text, 0).Some? ==>
      var h := FirstHitFrom(ORGANIZER_PATTERNS, text, 0).value;
      Group(text, h.m, 0) != "" && r == Trim(Group(text, h.m, 0)) && |r| <= 31
  {
    match FirstHitFrom(ORGANIZER_PATTERNS, text, 0)
    case None => UpperFirst(hostname)
    case Some(h) =>
      OrganizerGroupBound(h.index, text);
      GroupOrWhole(text, h.m)
  }

  /** `match[1] ? match[1].trim() : match[0].trim()`. */
  function GroupOrWhole(text: string, m: Match): string
    requires WellPlaced(text, m.whole.start, m)
  {
    var g := Group(text, m, 0);
    if g != "" then Trim(g) else Trim(Whole(text, m))
  }

  /** The loop over the organizer patterns with its early return. */
  method ExtractOrganizer(text: string, hostname: string) returns (r: string)
    ensures r == OrganizerOf(text, hostname)
  {
    for k := 0 to |ORGANIZER_PATTERNS|
      invariant FirstHitFrom(ORGANIZER_PATTERNS, text, k) == FirstHitFrom(ORGANIZER_PATTERNS, text, 0)
    {
      var m := Search(ORGANIZER_PATTERNS[k], text);
      if m.Some? {
        return GroupOrWhole(text, m.value);
      }
    }
    return UpperFirst(hostname);
  }

  // ----- deadline -----

  const MONTH_NAMES: seq<string> := [
    "januar", "februar", "mars", "april", "mai", "juni",
    "juli", "august", "september", "oktober", "november", "desember"]

  /** The month table as an own-property lookup: `MM` for the twelve
      Norwegian month names. */
  function MonthNumber(word: string): (r: Option<string>)
    ensures r.Some? ==> |r.value| == 2 && AllDigits(r.value)
  {
    MonthFrom(word, 0)
  }

  function MonthFrom(word: string, k: nat): (r: Option<string>)
    requires k <= 12
    ensures r.Some? ==> |r.value| == 2 && AllDigits(r.value)
    decreases 12 - k
  {
    if k == 12 then None
    else if MONTH_NAMES[k] == word then Some(PadNumber(k + 1, 2))
    else MonthFrom(word, k + 1)
  }

  /** The table finds exactly the twelve names, and the `k`-th name gives
      the month number `k + 1` written with two digits. */
  lemma MonthNumberSpec(word: string)
    ensures MonthNumber(word).Some? <==> word in MONTH_NAMES
    ensures forall k :: 0 <= k < 12 && MONTH_NAMES[k] == word ==> MonthNumber(word) == Some(PadNumber(k + 1, 2))
  {
    MonthFromSpec(word, 0);
  }

  lemma {:induction false} MonthFromSpec(word: string, k: nat)
    requires k <= 12
    ensures MonthFrom(word, k).Some? <==> word in MONTH_NAMES[k..]
    ensures forall j :: k <= j < 12 && MONTH_NAMES[j] == word ==> MonthFrom(word, k) == Some(PadNumber(j + 1, 2))
    decreases 12 - k
  {
    if k < 12 {
      assert MONTH_NAMES[k..] == [MONTH_NAMES[k]] + MONTH_NAMES[k + 1..];
      MonthFromSpec(word, k + 1);
      if MONTH_NAMES[k] == word {
        MonthNamesDistinct();
      }
    }
  }

  /** No month name occurs twice in the table. */
  lemma MonthNamesDistinct()
    ensures forall j, k :: 0 <= j < k < 12 ==> MONTH_NAMES[j] != MONTH_NAMES[k]
  {
  }

  /** The month table as the source looks it up, `monthMap[word]` on a
      plain object: besides the twelve names, the two lower-case names
      the object inherits from `Object.prototype` are found too, and
      interpolating them writes the text of a function and of an object. */
  function MonthLookupAsWritten(word: string): (r: Option<string>)
    ensures MonthNumber(word).Some? ==> r == MonthNumber(word)
    ensures r.Some? && MonthNumber(word).None? ==> word == "constructor" || word == "__proto__"
  {
    if MonthNumber(word).Some? then MonthNumber(word)
    else if word == "constructor" then Some("function Object() { [native code] }")
    else if word == "__proto__" then Some("[object Object]")
    else None
  }

  lemma MonthNamesShort()
    ensures forall k :: 0 <= k < |MONTH_NAMES| ==> |MONTH_NAMES[k]| <= 9
  {
  }

  /** How the month name is looked up: among the table's own names only,
      or as a property of a plain object, as the source does. */
  datatype MonthTable = OwnNames | PlainObject

  function LookupMonth(table: MonthTable, word: string): Option<string> {
    match table
    case OwnNames => MonthNumber(word)
    case PlainObject => MonthLookupAsWritten(word)
  }

  /** `${year}-${month}-${day.padStart(2, '0')}`. */
  function MonthNameDate(year: string, month: string, day: string): string {
    year + "-" + month + "-" + PadStart(day, 2, '0')
  }

  /** Four year digits, a two-digit month and a day of one or two digits
      make a `YYYY-MM-DD` string. */
  lemma MonthNameDateShaped(year: string, month: string, day: string)
    requires |year| == 4 && AllDigits(year) && |month| == 2 && AllDigits(month)
    requires 1 <= |day| <= 2 && AllDigits(day)
    ensures DateShaped(MonthNameDate(year, month, day))
  {
    var padded := PadStart(day, 2, '0');
    assert AllDigits(padded) by {
      forall k | 0 <= k < 2
        ensures IsDigit(padded[k])
      {
        if k < 2 - |day| {
        } else {
          assert padded[k] == padded[2 - |day|..][k - (2 - |day|)] == day[k - (2 - |day|)];
        }
      }
    }
    var r := MonthNameDate(year, month, day);
    assert r[..4] == year && r[5..7] == month && r[8..] == padded;
  }

  /** The body of the `try` block for one match: the month-name form is
      written out from its groups when the month is found (a non-empty
      entry); any other match is read by `new Date` and written as its
      UTC date, and an invalid date (which makes `toISOString` throw)
      yields `None`. */
  function DateFromMatch(table: MonthTable, legacy: string -> Option<Time>,
                         p: Pattern, text: string, m: Match): Option<string>
    requires WellPlaced(text, m.whole.start, m)
  {
    var month := if p == DayMonthYear then LookupMonth(table, LowerStr(Group(text, m, 1))) else None;
    if month.Some? && month.value != "" then
      Some(MonthNameDate(Group(text, m, 2), month.value, Group(text, m, 0)))
    else
      match ParseDate(legacy, Whole(text, m))
      case Some(t) => Some(DateString(t))
      case None => None
  }

  /** The deadline ladder from pattern `k` on: a pattern that does not
      match, or whose match yields no date, passes to the next one. */
  function DeadlineFrom(table: MonthTable, legacy: string -> Option<Time>, text: string, k: nat): (r: Option<string>)
    requires k <= |DEADLINE_PATTERNS|
    ensures r.Some? ==>
      exists j :: k <= j < |DEADLINE_PATTERNS| && Search(DEADLINE_PATTERNS[j], text).Some?
        && r == DateFromMatch(table, legacy, DEADLINE_PATTERNS[j], text, Search(DEADLINE_PATTERNS[j], text).value)
    ensures r.None? ==> forall j :: k <= j < |DEADLINE_PATTERNS| && Search(DEADLINE_PATTERNS[j], text).Some? ==>
      DateFromMatch(table, legacy, DEADLINE_PATTERNS[j], text, Search(DEADLINE_PATTERNS[j], text).value).None?
    decreases |DEADLINE_PATTERNS| - k
  {
    if k == |DEADLINE_PATTERNS| then None
    else
      match Search(DEADLINE_PATTERNS[k], text)
      case None => DeadlineFrom(table, legacy, text, k + 1)
      case Some(m) =>
        var d := DateFromMatch(table, legacy, DEADLINE_PATTERNS[k], text, m);
        if d.Some? then d else DeadlineFrom(table, legacy, text, k + 1)
  }

  /** No pattern from `k` up to `j` yields a date: each misses, or its
      first match throws. */
  predicate NoDateBetween(table: MonthTable, legacy: string -> Option<Time>, text: string, k: nat, j: nat)
    requires j <= |DEADLINE_PATTERNS|
  {
    forall i :: k <= i < j && Search(DEADLINE_PATTERNS[i], text).Some? ==>
      DateFromMatch(table, legacy, DEADLINE_PATTERNS[i], text, Search(DEADLINE_PATTERNS[i], text).value).None?
  }

  /** The ladder's order: the date it gives comes from the first pattern,
      from `k` on, whose first match yields one. */
  lemma {:induction false} DeadlineFromFirst(table: MonthTable, legacy: string -> Option<Time>, text: string, k: nat)
    requires k <= |DEADLINE_PATTERNS|
    ensures var r := DeadlineFrom(table, legacy, text, k);
      r.Some? ==>
        exists j :: k <= j < |DEADLINE_PATTERNS| && Search(DEADLINE_PATTERNS[j], text).Some?
          && r == DateFromMatch(table, legacy, DEADLINE_PATTERNS[j], text, Search(DEADLINE_PATTERNS[j], text).value)
          && NoDateBetween(table, legacy, text, k, j)
    decreases |DEADLINE_PATTERNS| - k
  {
    if k < |DEADLINE_PATTERNS| {
      var r := DeadlineFrom(table, legacy, text, k);
      var d := DateOfMatchAt(table, legacy, text, k);
      if d.Some? {
        assert r == d;
        assert NoDateBetween(table, legacy, text, k, k);
      } else {
        assert r == DeadlineFrom(table, legacy, text, k + 1);
        DeadlineFromFirst(table, legacy, text, k + 1);
        if r.Some? {
          var j :| k + 1 <= j < |DEADLINE_PATTERNS| && Search(DEADLINE_PATTERNS[j], text).Some?
            && r == DateFromMatch(table, legacy, DEADLINE_PATTERNS[j], text, Search(DEADLINE_PATTERNS[j], text).value)
            && NoDateBetween(table, legacy, text, k + 1, j);
          assert NoDateBetween(table, legacy, text, k, j);
        }
      }
    }
  }

  /** The date the first match of pattern `k` yields, if it matches. */
  function DateOfMatchAt(table: MonthTable, legacy: string -> Option<Time>, text: string, k: nat): Option<string>
    requires k < |DEADLINE_PATTERNS|
  {
    match Search(DEADLINE_PATTERNS[k], text)
    case None => None
    case Some(m) => DateFromMatch(table, legacy, DEADLINE_PATTERNS[k], text, m)
  }

  /** `extractDeadline(text)` with the month table read as own properties:
      the date from the first pattern, in ladder order, whose first match
      yields one; every deadline it returns has the shape `YYYY-MM-DD`. */
  function DeadlineOf(legacy: string -> Option<Time>, text: string): (r: Option<string>)
    ensures r.Some? ==> DateShaped(r.value)
    ensures r.Some? ==>
      exists j :: 0 <= j < |DEADLINE_PATTERNS| && Search(DEADLINE_PATTERNS[j], text).Some?
        && r == DateFromMatch(OwnNames, legacy, DEADLINE_PATTERNS[j], text, Search(DEADLINE_PATTERNS[j], text).value)
        && NoDateBetween(OwnNames, legacy, text, 0, j)
    ensures r.None? ==> NoDateBetween(OwnNames, legacy, text, 0, |DEADLINE_PATTERNS|)
  {
    DeadlineShaped(legacy, text, 0);
    DeadlineFromFirst(OwnNames, legacy, text, 0);
    DeadlineFrom(OwnNames, legacy, text, 0)
  }

  /** Every deadline the ladder produces has the shape `YYYY-MM-DD`: the
      month-name form writes four year digits, a table entry and a day of
      one or two digits padded to two; every other form is a written date. */
  lemma {:induction false} DeadlineShaped(legacy: string -> Option<Time>, text: string, k: nat)
    requires k <= |DEADLINE_PATTERNS|
    ensures var r := DeadlineFrom(OwnNames, legacy, text, k); r.Some? ==> DateShaped(r.value)
    decreases |DEADLINE_PATTERNS| - k
  {
    if k < |DEADLINE_PATTERNS| {
      var r := DeadlineFrom(OwnNames, legacy, text, k);
      var p := DEADLINE_PATTERNS[k];
      match Search(p, text)
      case None =>
        assert r == DeadlineFrom(OwnNames, legacy, text, k + 1);
        DeadlineShaped(legacy, text, k + 1);
      case Some(m) =>
        var d := DateFromMatch(OwnNames, legacy, p, text, m);
        if d.Some? {
          assert r == d;
          DateFromMatchShaped(legacy, p, text);
        } else {
          assert r == DeadlineFrom(OwnNames, legacy, text, k + 1);
          DeadlineShaped(legacy, text, k + 1);
        }
    }
  }

  lemma DateFromMatchShaped(legacy: string -> Option<Time>, p: Pattern, text: string)
    requires Search(p, text).Some?
    ensures var d := DateFromMatch(OwnNames, legacy, p, text, Search(p, text).value);
      d.Some? ==> DateShaped(d.value)
  {
    var m := Search(p, text).value;
    var d := DateFromMatch(OwnNames, legacy, p, text, m);
    if p == DayMonthYear && MonthNumber(LowerStr(Group(text, m, 1))).Some? {
      var month := MonthNumber(LowerStr(Group(text, m, 1))).value;
      assert d == Some(MonthNameDate(Group(text, m, 2), month, Group(text, m, 0)));
      SearchExact(DayMonthYear, text);
      MonthFormShaped(text, m);
    } else {
      match ParseDate(legacy, Whole(text, m))
      case Some(t) => assert d == Some(DateString(t));
      case None =>
    }
  }

  lemma MonthFormShaped(text: string, m: Match)
    requires WellPlaced(text, m.whole.start, m) && DayMonthYearShape(text, m)
    requires MonthNumber(LowerStr(Group(text, m, 1))).Some?
    ensures DateShaped(MonthNameDate(Group(text, m, 2), MonthNumber(LowerStr(Group(text, m, 1))).value, Group(text, m, 0)))
  {
    DayAndYearDigits(text, m);
    MonthNameDateShaped(Group(text, m, 2), MonthNumber(LowerStr(Group(text, m, 1))).value, Group(text, m, 0));
  }

  /** The day and year groups of a day-month-year match are one or two
      digits and four digits. */
  lemma DayAndYearDigits(text: string, m: Match)
    requires WellPlaced(text, m.whole.start, m) && DayMonthYearShape(text, m)
    ensures 1 <= |Group(text, m, 0)| <= 2 && AllDigits(Group(text, m, 0))
    ensures |Group(text, m, 2)| == 4 && AllDigits(Group(text, m, 2))
  {
  }

  /** The loop over the date patterns: early return on a date, `continue`
      where the `try` block throws. */
  method ExtractDeadline(legacy: string -> Option<Time>, text: string) returns (r: Option<string>)
    ensures r == DeadlineOf(legacy, text)
  {
    for k := 0 to |DEADLINE_PATTERNS|
      invariant DeadlineFrom(OwnNames, legacy, text, k) == DeadlineFrom(OwnNames, legacy, text, 0)
    {
      var m := Search(DEADLINE_PATTERNS[k], text);
      if m.Some? {
        var d := DateFromMatch(OwnNames, legacy, DEADLINE_PATTERNS[k], text, m.value);
        if d.Some? {
          return d;
        }
      }
    }
    return None;
  }

  /** The month-name form: when the first day-month-year match names one
      of the twelve months in any letter case, the deadline is written
      from its groups as `year-MM-DD`, with the day padded to two digits. */
  lemma DeadlineMonthName(legacy: string -> Option<Time>, text: string, m: Match, k: nat)
    requires Search(DayMonthYear, text) == Some(m) && k < 12
    requires LowerStr(Group(text, m, 1)) == MONTH_NAMES[k]
    ensures DeadlineOf(legacy, text)
      == Some(Group(text, m, 2) + "-" + PadNumber(k + 1, 2) + "-" + PadStart(Group(text, m, 0), 2, '0'))
  {
    MonthNumberSpec(LowerStr(Group(text, m, 1)));
    assert DEADLINE_PATTERNS[0] == DayMonthYear;
    assert DeadlineOf(legacy, text) == DateFromMatch(OwnNames, legacy, DayMonthYear, text, m);
  }

  /** The day-month-year pattern matches a whole text made of a day of one
      or two digits, a dot and a space, a word, a space and four digits. */
  lemma DayWordYearMatch(s: string, a: nat, n: nat)
    requires 1 <= a <= 2 && 1 <= n && |s| == a + n + 7
    requires forall j :: 0 <= j < a ==> IsDigit(s[j])
    requires s[a] == '.' && s[a + 1] == ' ' && s[a + 2 + n] == ' '
    requires forall j :: a + 2 <= j < a + 2 + n ==> IsWordChar(s[j])
    requires forall j :: a + 3 + n <= j < |s| ==> IsDigit(s[j])
    ensures Search(DayMonthYear, s)
      == Some(Match(Span(0, |s|), [Span(0, a), Span(a + 2, a + 2 + n), Span(a + 3 + n, |s|)]))
  {
    var m := Match(Span(0, |s|), [Span(0, a), Span(a + 2, a + 2 + n), Span(a + 3 + n, |s|)]);
    DayWordYearRuns(s, a, n);
    assert DayMonthYearAt(s, 0) == Some(m);
    assert TryAt(DayMonthYear, s, 0) == Some(m);
  }

  /** The runs the day-month-year scanner reads in such a text, and the
      month word it settles on: the whole word. */
  lemma DayWordYearRuns(s: string, a: nat, n: nat)
    requires 1 <= a <= 2 && 1 <= n && |s| == a + n + 7
    requires forall j :: 0 <= j < a ==> IsDigit(s[j])
    requires s[a] == '.' && s[a + 1] == ' ' && s[a + 2 + n] == ' '
    requires forall j :: a + 2 <= j < a + 2 + n ==> IsWordChar(s[j])
    requires forall j :: a + 3 + n <= j < |s| ==> IsDigit(s[j])
    ensures ShortNumber(s, 0) == a && Run(s, a + 1, Space) == 1 && Run(s, a + 2, Word) == n
    ensures MonthWord(s, a + 2, n, n) == Some(n) && YearStart(s, a + 2, n, n) == a + 3 + n
  {
    RunIs(s, 0, Digit, a);
    RunIs(s, a + 1, Space, 1);
    RunIs(s, a + 2, Word, n);
    RunIs(s, a + 2 + n, Space, 1);
    assert FourDigitsAt(s, a + 3 + n);
  }

  const OCTOBER_TEXT: string := "15. oktober 2025"

  /** The day-month-year pattern matches all of `15. oktober 2025`. */
  lemma OctoberMatch()
    ensures Search(DayMonthYear, OCTOBER_TEXT) == Some(Match(Span(0, 16), [Span(0, 2), Span(4, 11), Span(12, 16)]))
  {
    var s := OCTOBER_TEXT;
    assert forall j :: 4 <= j < 11 ==> IsWordChar(s[j]);
    DayWordYearMatch(s, 2, 7);
  }

  /** Its groups are the day, the month name in lower case, and the year. */
  lemma OctoberGroups()
    ensures var m := Match(Span(0, 16), [Span(0, 2), Span(4, 11), Span(12, 16)]);
      && Group(OCTOBER_TEXT, m, 0) == "15" && Group(OCTOBER_TEXT, m, 2) == "2025"
      && LowerStr(Group(OCTOBER_TEXT, m, 1)) == MONTH_NAMES[9]
  {
    var s := OCTOBER_TEXT;
    assert s[0..2] == "15" && s[4..11] == "oktober" && s[12..16] == "2025";
    var w := "oktober";
    assert forall j :: 0 <= j < |w| ==> Lower(w[j]) == w[j];
  }

  /** The month-name form applies to `15. oktober 2025`. */
  lemma OctoberMonthForm(legacy: string -> Option<Time>)
    ensures DeadlineOf(legacy, OCTOBER_TEXT) == Some("2025" + "-" + PadNumber(10, 2) + "-" + PadStart("15", 2, '0'))
  {
    var m := Match(Span(0, 16), [Span(0, 2), Span(4, 11), Span(12, 16)]);
    OctoberMatch();
    OctoberGroups();
    DeadlineMonthName(legacy, OCTOBER_TEXT, m, 9);
  }

  /** `15. oktober 2025` gives the deadline `2025-10-15`. */
  lemma OctoberDeadline(legacy: string -> Option<Time>)
    ensures DeadlineOf(legacy, OCTOBER_TEXT) == Some("2025-10-15")
  {
    assert "2025" + "-" + PadNumber(10, 2) + "-" + PadStart("15", 2, '0') == "2025-10-15" by {
      OctoberNumbers();
    }
    OctoberMonthForm(legacy);
  }

  /** Month 10 is written `10`, and the day `15` needs no padding. */
  lemma OctoberNumbers()
    ensures PadNumber(10, 2) == "10" && PadStart("15", 2, '0') == "15"
  {
    assert PadNumber(1, 1) == "1";
  }

  /** The ISO form: when the day-month-year pattern misses or throws and
      the first ISO match is a valid `YYYY-MM-DD` date, the deadline is
      that text unchanged. */
  lemma DeadlineIso(legacy: string -> Option<Time>, text: string, m: Match)
    requires NoDateBetween(OwnNames, legacy, text, 0, 1)
    requires Search(YearMonthDay, text) == Some(m) && ParseIsoDate(Whole(text, m)).Some?
    ensures DeadlineOf(legacy, text) == Some(Whole(text, m))
  {
    IsoDateStable(legacy, Whole(text, m));
    assert DEADLINE_PATTERNS[0] == DayMonthYear && DEADLINE_PATTERNS[1] == YearMonthDay;
    assert DeadlineFrom(OwnNames, legacy, text, 0) == DeadlineFrom(OwnNames, legacy, text, 1);
    assert DateFromMatch(OwnNames, legacy, YearMonthDay, text, m) == Some(DateString(ParseDate(legacy, Whole(text, m)).value));
  }

  const ISO_TEXT: string := "2025-10-15"

  /** The ISO pattern matches all of `2025-10-15`. */
  lemma IsoMatch()
    ensures Search(YearMonthDay, ISO_TEXT) == Some(Match(Span(0, 10), [Span(0, 4), Span(5, 7), Span(8, 10)]))
  {
    var s := ISO_TEXT;
    var m := Match(Span(0, 10), [Span(0, 4), Span(5, 7), Span(8, 10)]);
    RunIs(s, 5, Digit, 2);
    RunIs(s, 8, Digit, 2);
    assert YearMonthDayAt(s, 0) == Some(m);
    assert TryAt(YearMonthDay, s, 0) == Some(m);
  }

  /** `2025-10-15` has no dot, so the day-month-year pattern misses. */
  lemma IsoNoDayMonthYear()
    ensures Search(DayMonthYear, ISO_TEXT).None?
  {
    assert forall j :: 0 <= j < |ISO_TEXT| ==> ISO_TEXT[j] != '.';
    DayMonthYearNeedsDot(ISO_TEXT);
  }

  /** A text without a dot has no day-month-year match. */
  lemma DayMonthYearNeedsDot(s: string)
    requires forall j :: 0 <= j < |s| ==> s[j] != '.'
    ensures Search(DayMonthYear, s).None?
  {
    SearchExact(DayMonthYear, s);
  }

  /** `2025-10-15` is a valid date. */
  lemma IsoValid()
    ensures ParseIsoDate(ISO_TEXT) == Some(CivilDate(2025, 10, 15))
  {
    var s := ISO_TEXT;
    assert s[..4] == "2025";
    assert s[5..7] == "10" by {
      assert s[5] == '1' && s[6] == '0';
    }
    assert s[8..] == "15";
    assert NumberValue("2025") == 2025 by {
      assert "2025"[..3] == "202" && "202"[..2] == "20" && "20"[..1] == "2";
    }
    assert NumberValue("10") == 10 by {
      assert "10"[..1] == "1";
    }
    assert NumberValue("15") == 15 by {
      assert "15"[..1] == "1";
    }
  }

  /** `2025-10-15` gives the deadline `2025-10-15`. */
  lemma IsoDeadline(legacy: string -> Option<Time>)
    ensures DeadlineOf(legacy, ISO_TEXT) == Some("2025-10-15")
  {
    var m := Match(Span(0, 10), [Span(0, 4), Span(5, 7), Span(8, 10)]);
    IsoMatch();
    IsoNoDayMonthYear();
    IsoValid();
    assert Whole(ISO_TEXT, m) == ISO_TEXT;
    DeadlineIso(legacy, ISO_TEXT, m);
  }

  // ----- the month table as written -----

  const CONSTRUCTOR_TEXT: string := "15. constructor 2025"

  /** The day-month-year pattern matches all of `15. constructor 2025`,
      taking `constructor` as the month word. */
  lemma ConstructorMatch()
    ensures Search(DayMonthYear, CONSTRUCTOR_TEXT) == Some(Match(Span(0, 20), [Span(0, 2), Span(4, 15), Span(16, 20)]))
  {
    var s := CONSTRUCTOR_TEXT;
    assert forall j :: 4 <= j < 15 ==> IsWordChar(s[j]);
    DayWordYearMatch(s, 2, 11);
  }

  /** `constructor` is not one of the twelve month names. */
  lemma ConstructorNotAMonth()
    ensures MonthNumber("constructor").None?
  {
    MonthNumberSpec("constructor");
    assert forall k :: 0 <= k < 12 ==> MONTH_NAMES[k] != "constructor" by {
      MonthNamesShort();
    }
  }

  /** The groups of that match: day, month word and year. */
  lemma ConstructorGroups()
    ensures var m := Match(Span(0, 20), [Span(0, 2), Span(4, 15), Span(16, 20)]);
      && Group(CONSTRUCTOR_TEXT, m, 0) == "15"
      && Group(CONSTRUCTOR_TEXT, m, 1) == "constructor"
      && Group(CONSTRUCTOR_TEXT, m, 2) == "2025"
  {
    var s := CONSTRUCTOR_TEXT;
    assert s[0..2] == "15";
    assert s[4..15] == "constructor";
    assert s[16..20] == "2025";
  }

  /** `constructor` is already in lower case. */
  lemma ConstructorLowerCase()
    ensures LowerStr("constructor") == "constructor"
  {
    var w := "constructor";
    assert forall k :: 0 <= k < |w| ==> Lower(w[k]) == w[k];
  }

  /** The date the month-name form writes for that match. */
  lemma ConstructorDate(legacy: string -> Option<Time>)
    ensures var m := Match(Span(0, 20), [Span(0, 2), Span(4, 15), Span(16, 20)]);
      DateFromMatch(PlainObject, legacy, DayMonthYear, CONSTRUCTOR_TEXT, m)
        == Some("2025-" + "function Object() { [native code] }" + "-15")
  {
    var text := "function Object() { [native code] }";
    ConstructorGroups();
    ConstructorLowerCase();
    ConstructorNotAMonth();
    assert LookupMonth(PlainObject, "constructor") == Some(text);
    assert PadStart("15", 2, '0') == "15";
    assert MonthNameDate("2025", text, "15") == "2025-" + text + "-15";
  }

  /** The month table as written lets the word `constructor` through, and
      the deadline it writes is not a date: `2025-`, the text of the
      `Object` function, and `-15`. */
  lemma ConstructorMonthCounterexample(legacy: string -> Option<Time>)
    ensures DeadlineFrom(PlainObject, legacy, CONSTRUCTOR_TEXT, 0)
      == Some("2025-" + "function Object() { [native code] }" + "-15")
    ensures !DateShaped("2025-" + "function Object() { [native code] }" + "-15")
  {
    ConstructorMatch();
    ConstructorDate(legacy);
    assert DEADLINE_PATTERNS[0] == DayMonthYear;
  }
}
