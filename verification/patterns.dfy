/** The ten regular expressions of the extractors, each as a hand-written
    scanner that finds the match JavaScript's `String.prototype.match`
    reports: the leftmost starting position, and at that position the
    alternative the backtracking engine tries first (greedy quantifiers
    take as much as they can and give back one character at a time). */
module Patterns {
  import opened Wrappers
  import opened Text

  datatype Span = Span(start: nat, end: nat)

  /** `match[0]` and the capture groups `match[1..]` as slices of the text. */
  datatype Match = Match(whole: Span, groups: seq<Span>)

  /** Where a match lies inside `s` starting at `i`. */
  predicate WellPlaced(s: string, i: nat, m: Match) {
    && m.whole.start == i && i < m.whole.end <= |s|
    && forall g :: 0 <= g < |m.groups| ==>
         i <= m.groups[g].start <= m.groups[g].end <= m.whole.end
  }

  // ----- character classes -----

  datatype Class =
    | Space      // \s
    | Digit      // \d
    | Word       // \w
    | Phrase     // [^.!?\n], also written [^\n.!?]
    | Separator  // [:\s]
    | NameTail   // [a-zæøåA-ZÆØÅ\s]

  /** `[A-ZÆØÅ]`. */
  predicate IsNameUpper(c: char) {
    ('A' <= c <= 'Z') || c == '\U{C6}' || c == '\U{D8}' || c == '\U{C5}'
  }

  predicate In(k: Class, c: char) {
    match k
    case Space => IsSpace(c)
    case Digit => IsDigit(c)
    case Word => IsWordChar(c)
    case Phrase => c != '.' && c != '!' && c != '?' && c != '\n'
    case Separator => c == ':' || IsSpace(c)
    case NameTail =>
      ('a' <= c <= 'z') || c == '\U{E6}' || c == '\U{F8}' || c == '\U{E5}'
      || IsNameUpper(c) || IsSpace(c)
  }

  /** How many characters of class `k` follow position `p`: the extent of
      a greedy `k*`. */
  function Run(s: string, p: nat, k: Class): (n: nat)
    requires p <= |s|
    ensures p + n <= |s|
    decreases |s| - p
  {
    if p < |s| && In(k, s[p]) then 1 + Run(s, p + 1, k) else 0
  }

  /** A run is as long as it can be: every character in it has the class,
      and the one after it (if any) does not. */
  lemma {:induction false} RunFacts(s: string, p: nat, k: Class)
    requires p <= |s|
    ensures forall j :: p <= j < p + Run(s, p, k) ==> In(k, s[j])
    ensures p + Run(s, p, k) == |s| || !In(k, s[p + Run(s, p, k)])
    decreases |s| - p
  {
    if p < |s| && In(k, s[p]) {
      RunFacts(s, p + 1, k);
    }
  }

  /** A run is determined by its two facts: `n` characters of class `k`
      followed by the end of `s` or a character of another class. */
  lemma {:induction false} RunIs(s: string, p: nat, k: Class, n: nat)
    requires p + n <= |s|
    requires forall j :: p <= j < p + n ==> In(k, s[j])
    requires p + n == |s| || !In(k, s[p + n])
    ensures Run(s, p, k) == n
    decreases n
  {
    if n > 0 {
      RunIs(s, p + 1, k, n - 1);
    }
  }

  function Min(a: int, b: int): int {
    if a <= b then a else b
  }

  /** `lit` (lower case) occurs at `p` under the `i` flag. */
  predicate LiteralAt(s: string, p: nat, lit: string) {
    p + |lit| <= |s| && LowerStr(s[p..p + |lit|]) == lit
  }

  /** Four digits start at `p`: `\d{4}`. */
  predicate FourDigitsAt(s: string, p: nat) {
    p + 4 <= |s| && forall j :: p <= j < p + 4 ==> IsDigit(s[j])
  }

  /** `\d{1,2}`: the greedy count of at most two digits. */
  function ShortNumber(s: string, p: nat): (n: nat)
    requires p <= |s|
    ensures n <= 2 && p + n <= |s|
  {
    Min(Run(s, p, Digit), 2)
  }

  /** Backtracking a separator run `sep+` of length `k` that is followed
      by `k2{min,}`: the largest separator length, at most `k`, after
      which at least `min` characters of class `k2` follow. */
  function LargestSep(s: string, base: nat, k: nat, k2: Class, min: nat): (r: Option<nat>)
    requires base + k <= |s|
    ensures r.Some? ==> 1 <= r.value <= k
    decreases k
  {
    if k == 0 then None
    else if Run(s, base + k, k2) >= min then Some(k)
    else LargestSep(s, base, k - 1, k2, min)
  }

  /** The separator length `LargestSep` picks leaves at least `min`
      characters of class `k2` after it. */
  lemma {:induction false} LargestSepFacts(s: string, base: nat, k: nat, k2: Class, min: nat)
    requires base + k <= |s| && LargestSep(s, base, k, k2, min).Some?
    ensures Run(s, base + LargestSep(s, base, k, k2, min).value, k2) >= min
    decreases k
  {
    if Run(s, base + k, k2) < min {
      LargestSepFacts(s, base, k - 1, k2, min);
    }
  }

  // ----- the patterns -----

  datatype Pattern =
    | WinPhrase               // /vinn\s+([^.!?\n]{10,80})/i
    | PrizePhrase             // /premie[^.!?\n]{0,20}([^.!?\n]{10,80})/i
    | GiftCard                // /gavekort[^.!?\n]{0,50}/i
    | Amount                  // /(\d+\s*kr[^.!?\n]{0,30})/i
    | OrganizerLabel          // /arrangør[:\s]+([^\n.!?]{2,30})/i
    | ByName                  // /av\s+([A-ZÆØÅ][a-zæøåA-ZÆØÅ\s]{2,30})/
    | Brand                   // /(ikea|apple|samsung|nintendo|sony|microsoft|google)/i
    | DayMonthYear            // /(\d{1,2})\.\s*(\w+)\s*(\d{4})/i
    | YearMonthDay            // /(\d{4})-(\d{1,2})-(\d{1,2})/
    | DaySlashMonthSlashYear  // /(\d{1,2})\/(\d{1,2})\/(\d{4})/

  const BRANDS: seq<string> := ["ikea", "apple", "samsung", "nintendo", "sony", "microsoft", "google"]

  /** `vinn`, one or more spaces, then 10 to 80 characters of a sentence.
      The spaces are given back one at a time until 10 sentence characters
      follow. */
  function WinPhraseAt(s: string, i: nat): (r: Option<Match>)
    requires i <= |s|
    ensures r.Some? ==> WellPlaced(s, i, r.value) && |r.value.groups| == 1
  {
    if !LiteralAt(s, i, "vinn") then None
    else
      var sp := Run(s, i + 4, Space);
      match LargestSep(s, i + 4, sp, Phrase, 10)
      case None => None
      case Some(k) =>
        var p := i + 4 + k;
        var g := Min(Run(s, p, Phrase), 80);
        Some(Match(Span(i, p + g), [Span(p, p + g)]))
  }

  /** `premie`, up to 20 sentence characters, then a group of 10 to 80:
      the first part gives back characters until the group has 10. */
  function PrizePhraseAt(s: string, i: nat): (r: Option<Match>)
    requires i <= |s|
    ensures r.Some? ==> WellPlaced(s, i, r.value) && |r.value.groups| == 1
  {
    if !LiteralAt(s, i, "premie") then None
    else
      var n := Run(s, i + 6, Phrase);
      if n < 10 then None
      else
        var lead := Min(20, n - 10);
        var g := Min(n - lead, 80);
        Some(Match(Span(i, i + 6 + lead + g), [Span(i + 6 + lead, i + 6 + lead + g)]))
  }

  /** `gavekort` and up to 50 sentence characters. */
  function GiftCardAt(s: string, i: nat): (r: Option<Match>)
    requires i <= |s|
    ensures r.Some? ==> WellPlaced(s, i, r.value) && r.value.groups == []
  {
    if !LiteralAt(s, i, "gavekort") then None
    else
      var g := Min(Run(s, i + 8, Phrase), 50);
      Some(Match(Span(i, i + 8 + g), []))
  }

  /** Digits, optional spaces, `kr` and up to 30 sentence characters. The
      digit and space runs never give anything back: a shorter run would be
      followed by a digit or a space where `kr` is needed. */
  function AmountAt(s: string, i: nat): (r: Option<Match>)
    requires i <= |s|
    ensures r.Some? ==> WellPlaced(s, i, r.value) && |r.value.groups| == 1
  {
    var d := Run(s, i, Digit);
    if d == 0 then None
    else
      var sp := Run(s, i + d, Space);
      if !LiteralAt(s, i + d + sp, "kr") then None
      else
        var g := Min(Run(s, i + d + sp + 2, Phrase), 30);
        Some(Match(Span(i, i + d + sp + 2 + g), [Span(i, i + d + sp + 2 + g)]))
  }

  /** `arrangør`, a run of colons and spaces, then a group of 2 to 30
      characters without a sentence end; the separator gives back
      characters until the group has 2. */
  function OrganizerLabelAt(s: string, i: nat): (r: Option<Match>)
    requires i <= |s|
    ensures r.Some? ==> WellPlaced(s, i, r.value) && |r.value.groups| == 1
  {
    if !LiteralAt(s, i, "arrang\U{F8}r") then None
    else
      var sep := Run(s, i + 8, Separator);
      match LargestSep(s, i + 8, sep, Phrase, 2)
      case None => None
      case Some(k) =>
        var p := i + 8 + k;
        var g := Min(Run(s, p, Phrase), 30);
        Some(Match(Span(i, p + g), [Span(p, p + g)]))
  }

  /** `av` (case-sensitive), spaces, then a group of a capital letter and
      2 to 30 letters or spaces. The spaces give nothing back: a shorter
      run would leave a space where the capital is needed. */
  function ByNameAt(s: string, i: nat): (r: Option<Match>)
    requires i <= |s|
    ensures r.Some? ==> WellPlaced(s, i, r.value) && |r.value.groups| == 1
  {
    if !OccursAt(s, "av", i) then None
    else
      var sp := Run(s, i + 2, Space);
      var p := i + 2 + sp;
      if sp == 0 || p == |s| || !IsNameUpper(s[p]) then None
      else
        var n := Run(s, p + 1, NameTail);
        if n < 2 then None
        else
          var g := 1 + Min(n, 30);
          Some(Match(Span(i, p + g), [Span(p, p + g)]))
  }

  /** The first brand, in list order, spelled at `i`. */
  function BrandFrom(s: string, i: nat, b: nat): (r: Option<Match>)
    requires i <= |s| && b <= |BRANDS|
    ensures r.Some? ==> WellPlaced(s, i, r.value) && |r.value.groups| == 1
    decreases |BRANDS| - b
  {
    if b == |BRANDS| then None
    else if LiteralAt(s, i, BRANDS[b]) then
      Some(Match(Span(i, i + |BRANDS[b]|), [Span(i, i + |BRANDS[b]|)]))
    else BrandFrom(s, i, b + 1)
  }

  /** `BrandFrom` reports exactly the brands spelled at `i`: a match is the
      whole brand name, and it reports nothing only when no brand from
      `b` on is spelled there. */
  lemma {:induction false} BrandFromFacts(s: string, i: nat, b: nat)
    requires i <= |s| && b <= |BRANDS|
    ensures var r := BrandFrom(s, i, b);
      && (r.Some? ==> r.value.groups == [r.value.whole])
      && (r.Some? ==> exists k :: b <= k < |BRANDS| && LiteralAt(s, i, BRANDS[k]) && r.value.whole.end == i + |BRANDS[k]|)
      && (r.None? ==> forall k :: b <= k < |BRANDS| ==> !LiteralAt(s, i, BRANDS[k]))
    decreases |BRANDS| - b
  {
    if b < |BRANDS| && !LiteralAt(s, i, BRANDS[b]) {
      BrandFromFacts(s, i, b + 1);
    }
  }

  /** Where the four year digits start once the month word takes `w` of
      the `n` word characters at `p`: right after a shortened word, or
      after the spaces that follow the whole word. */
  function YearStart(s: string, p: nat, n: nat, w: nat): nat
    requires p + n <= |s| && w <= n
  {
    if w == n then p + n + Run(s, p + n, Space) else p + w
  }

  /** `\s*\d{4}` matches once the month word takes `w` characters. */
  predicate YearFollows(s: string, p: nat, n: nat, w: nat)
    requires p + n <= |s| && w <= n
  {
    FourDigitsAt(s, YearStart(s, p, n, w))
  }

  /** Backtracking the month word `\w+` of `n` characters at `p`: the
      longest length, at most `w`, after which `\s*\d{4}` matches. */
  function MonthWord(s: string, p: nat, n: nat, w: nat): (r: Option<nat>)
    requires p + n <= |s| && w <= n
    ensures r.Some? ==> 1 <= r.value <= w
    decreases w
  {
    if w == 0 then None
    else if YearFollows(s, p, n, w) then Some(w)
    else MonthWord(s, p, n, w - 1)
  }

  /** The month word `MonthWord` picks is followed by the year. */
  lemma {:induction false} MonthWordFacts(s: string, p: nat, n: nat, w: nat)
    requires p + n <= |s| && w <= n && MonthWord(s, p, n, w).Some?
    ensures YearFollows(s, p, n, MonthWord(s, p, n, w).value)
    decreases w
  {
    if !YearFollows(s, p, n, w) {
      MonthWordFacts(s, p, n, w - 1);
    }
  }

  /** One or two digits, a dot, optional spaces, a word, optional spaces
      and four digits: day, month word and year. */
  function DayMonthYearAt(s: string, i: nat): (r: Option<Match>)
    requires i <= |s|
    ensures r.Some? ==> WellPlaced(s, i, r.value) && |r.value.groups| == 3
  {
    var a := ShortNumber(s, i);
    if a == 0 || i + a == |s| || s[i + a] != '.' then None
    else
      var p := i + a + 1 + Run(s, i + a + 1, Space);
      var n := Run(s, p, Word);
      match MonthWord(s, p, n, n)
      case None => None
      case Some(w) =>
        MonthWordFacts(s, p, n, n);
        var y := YearStart(s, p, n, w);
        Some(Match(Span(i, y + 4), [Span(i, i + a), Span(p, p + w), Span(y, y + 4)]))
  }

  /** Four digits, a dash, one or two digits, a dash, one or two digits. */
  function YearMonthDayAt(s: string, i: nat): (r: Option<Match>)
    requires i <= |s|
    ensures r.Some? ==> WellPlaced(s, i, r.value) && |r.value.groups| == 3
  {
    if !FourDigitsAt(s, i) || i + 4 == |s| || s[i + 4] != '-' then None
    else
      var a := ShortNumber(s, i + 5);
      if a == 0 || i + 5 + a == |s| || s[i + 5 + a] != '-' then None
      else
        var b := ShortNumber(s, i + 6 + a);
        if b == 0 then None
        else
          Some(Match(Span(i, i + 6 + a + b),
            [Span(i, i + 4), Span(i + 5, i + 5 + a), Span(i + 6 + a, i + 6 + a + b)]))
  }

  /** One or two digits, a slash, one or two digits, a slash, four digits. */
  function DaySlashMonthSlashYearAt(s: string, i: nat): (r: Option<Match>)
    requires i <= |s|
    ensures r.Some? ==> WellPlaced(s, i, r.value) && |r.value.groups| == 3
  {
    var a := ShortNumber(s, i);
    if a == 0 || i + a == |s| || s[i + a] != '/' then None
    else
      var b := ShortNumber(s, i + a + 1);
      var q := i + a + 1 + b;
      if b == 0 || q == |s| || s[q] != '/' || !FourDigitsAt(s, q + 1) then None
      else
        Some(Match(Span(i, q + 5), [Span(i, i + a), Span(i + a + 1, q), Span(q + 1, q + 5)]))
  }

  /** The match of `p` that starts exactly at `i`, if any. */
  function MatchAt(p: Pattern, s: string, i: nat): (r: Option<Match>)
    requires i <= |s|
    ensures r.Some? ==> WellPlaced(s, i, r.value) && |r.value.groups| == GroupCount(p)
  {
    match p
    case WinPhrase => WinPhraseAt(s, i)
    case PrizePhrase => PrizePhraseAt(s, i)
    case GiftCard => GiftCardAt(s, i)
    case Amount => AmountAt(s, i)
    case OrganizerLabel => OrganizerLabelAt(s, i)
    case ByName => ByNameAt(s, i)
    case Brand => BrandFrom(s, i, 0)
    case DayMonthYear => DayMonthYearAt(s, i)
    case YearMonthDay => YearMonthDayAt(s, i)
    case DaySlashMonthSlashYear => DaySlashMonthSlashYearAt(s, i)
  }

  // ----- what a match looks like -----

  /** Characters `lo..hi` of `s` are all of class `k`. */
  predicate AllIn(s: string, lo: nat, hi: nat, k: Class)
    requires lo <= hi <= |s|
  {
    forall j :: lo <= j < hi ==> In(k, s[j])
  }

  /** The text a match of `p` covers, read against the regular expression:
      the literal, the separators and the bounded runs, with the capture
      groups where the expression puts them. */
  ghost predicate Shape(p: Pattern, s: string, m: Match)
    requires WellPlaced(s, m.whole.start, m)
  {
    match p
    case WinPhrase => WinPhraseShape(s, m)
    case PrizePhrase => PrizePhraseShape(s, m)
    case GiftCard => GiftCardShape(s, m)
    case Amount => AmountShape(s, m)
    case OrganizerLabel => OrganizerLabelShape(s, m)
    case ByName => ByNameShape(s, m)
    case Brand => BrandShape(s, m)
    case DayMonthYear => DayMonthYearShape(s, m)
    case YearMonthDay => YearMonthDayShape(s, m)
    case DaySlashMonthSlashYear => DaySlashMonthSlashYearShape(s, m)
  }

  /** `vinn`, at least one space, and a group of 10 to 80 sentence characters that ends the match. */
  predicate WinPhraseShape(s: string, m: Match)
    requires WellPlaced(s, m.whole.start, m)
  {
    var i := m.whole.start;
    && |m.groups| == 1 && LiteralAt(s, i, "vinn")
    && var g := m.groups[0];
    && i + 4 < g.start && g.end == m.whole.end && 10 <= g.end - g.start <= 80
    && AllIn(s, i + 4, g.start, Space) && AllIn(s, g.start, g.end, Phrase)
  }

  /** `premie`, at most 20 sentence characters, and a group of 10 to 80 more that ends the match. */
  predicate PrizePhraseShape(s: string, m: Match)
    requires WellPlaced(s, m.whole.start, m)
  {
    var i := m.whole.start;
    && |m.groups| == 1 && LiteralAt(s, i, "premie")
    && var g := m.groups[0];
    && i + 6 <= g.start <= i + 26 && g.end == m.whole.end && 10 <= g.end - g.start <= 80
    && AllIn(s, i + 6, g.end, Phrase)
  }

  /** `gavekort` and at most 50 sentence characters, with no group. */
  predicate GiftCardShape(s: string, m: Match)
    requires WellPlaced(s, m.whole.start, m)
  {
    var i := m.whole.start;
    && m.groups == [] && LiteralAt(s, i, "gavekort")
    && i + 8 <= m.whole.end <= i + 58 && AllIn(s, i + 8, m.whole.end, Phrase)
  }

  /** Digits, spaces, `kr` and at most 30 sentence characters, all in the group. */
  ghost predicate AmountShape(s: string, m: Match)
    requires WellPlaced(s, m.whole.start, m)
  {
    var i := m.whole.start;
    && |m.groups| == 1 && m.groups[0] == m.whole
    && exists d: nat, sp: nat :: Amounts(s, i, d, sp, m.whole.end)
  }

  /** `arrangør`, colons and spaces, and a group of 2 to 30 sentence characters that ends the match. */
  predicate OrganizerLabelShape(s: string, m: Match)
    requires WellPlaced(s, m.whole.start, m)
  {
    var i := m.whole.start;
    && |m.groups| == 1 && LiteralAt(s, i, "arrang\U{F8}r")
    && var g := m.groups[0];
    && i + 8 < g.start && g.end == m.whole.end && 2 <= g.end - g.start <= 30
    && AllIn(s, i + 8, g.start, Separator) && AllIn(s, g.start, g.end, Phrase)
  }

  /** `av`, at least one space, and a group of a capital and 2 to 30 letters or spaces that ends the match. */
  predicate ByNameShape(s: string, m: Match)
    requires WellPlaced(s, m.whole.start, m)
  {
    var i := m.whole.start;
    && |m.groups| == 1 && OccursAt(s, "av", i)
    && var g := m.groups[0];
    && i + 2 < g.start && g.end == m.whole.end && 3 <= g.end - g.start <= 31
    && IsNameUpper(s[g.start])
    && AllIn(s, i + 2, g.start, Space) && AllIn(s, g.start + 1, g.end, NameTail)
  }

  /** One of the brand names, which is also the group. */
  ghost predicate BrandShape(s: string, m: Match)
    requires WellPlaced(s, m.whole.start, m)
  {
    var i := m.whole.start;
    && |m.groups| == 1 && m.groups[0] == m.whole
    && exists k :: 0 <= k < |BRANDS| && LiteralAt(s, i, BRANDS[k]) && m.whole.end == i + |BRANDS[k]|
  }

  /** A day of one or two digits, a dot, spaces, a word, spaces and a year of four digits. */
  predicate DayMonthYearShape(s: string, m: Match)
    requires WellPlaced(s, m.whole.start, m)
  {
    var i := m.whole.start;
    && |m.groups| == 3
    && var day, word, year := m.groups[0], m.groups[1], m.groups[2];
    && day.start == i && 1 <= day.end - i <= 2 && day.end < word.start < word.end <= year.start
    && year.end == year.start + 4 == m.whole.end
    && AllIn(s, i, day.end, Digit) && s[day.end] == '.' && AllIn(s, day.end + 1, word.start, Space)
    && AllIn(s, word.start, word.end, Word) && AllIn(s, word.end, year.start, Space)
    && AllIn(s, year.start, year.end, Digit)
  }

  /** Four digits, a dash, one or two digits, a dash, one or two digits. */
  predicate YearMonthDayShape(s: string, m: Match)
    requires WellPlaced(s, m.whole.start, m)
  {
    var i := m.whole.start;
    && |m.groups| == 3
    && var year, month, day := m.groups[0], m.groups[1], m.groups[2];
    && year == Span(i, i + 4) && month.start == i + 5 && 1 <= month.end - month.start <= 2
    && day.start == month.end + 1 && 1 <= day.end - day.start <= 2 && day.end == m.whole.end
    && AllIn(s, i, i + 4, Digit) && s[i + 4] == '-'
    && AllIn(s, month.start, month.end, Digit) && s[month.end] == '-'
    && AllIn(s, day.start, day.end, Digit)
  }

  /** One or two digits, a slash, one or two digits, a slash, four digits. */
  predicate DaySlashMonthSlashYearShape(s: string, m: Match)
    requires WellPlaced(s, m.whole.start, m)
  {
    var i := m.whole.start;
    && |m.groups| == 3
    && var day, month, year := m.groups[0], m.groups[1], m.groups[2];
    && day.start == i && 1 <= day.end - i <= 2
    && month.start == day.end + 1 && 1 <= month.end - month.start <= 2
    && year == Span(month.end + 1, month.end + 5) && year.end == m.whole.end
    && AllIn(s, i, day.end, Digit) && s[day.end] == '/'
    && AllIn(s, month.start, month.end, Digit) && s[month.end] == '/'
    && AllIn(s, year.start, year.end, Digit)
  }

  /** `s[i..end]` reads as `d` digits, `sp` spaces, `kr` and sentence
      characters, at most 30 of them. */
  predicate Amounts(s: string, i: nat, d: nat, sp: nat, end: nat) {
    && 1 <= d && i + d + sp + 2 <= end <= i + d + sp + 32 && end <= |s|
    && AllIn(s, i, i + d, Digit) && AllIn(s, i + d, i + d + sp, Space)
    && LiteralAt(s, i + d + sp, "kr") && AllIn(s, i + d + sp + 2, end, Phrase)
  }

  /** A run covers at least the `n` characters of its class that follow `p`. */
  lemma {:induction false} RunAtLeast(s: string, p: nat, n: nat, k: Class)
    requires p + n <= |s| && AllIn(s, p, p + n, k)
    ensures Run(s, p, k) >= n
    decreases n
  {
    if n > 0 {
      assert In(k, s[p]);
      RunAtLeast(s, p + 1, n - 1, k);
    }
  }

  /** Backtracking the separator finds a length whenever some length up
      to `k` leaves `min` characters of class `k2` after it. */
  lemma {:induction false} LargestSepFinds(s: string, base: nat, k: nat, k0: nat, k2: Class, min: nat)
    requires base + k <= |s| && 1 <= k0 <= k && Run(s, base + k0, k2) >= min
    ensures LargestSep(s, base, k, k2, min).Some?
    decreases k
  {
    if Run(s, base + k, k2) < min {
      LargestSepFinds(s, base, k - 1, k0, k2, min);
    }
  }

  /** Backtracking the month word finds a length whenever some length up
      to `w` is followed by the year. */
  lemma {:induction false} MonthWordFinds(s: string, p: nat, n: nat, w: nat, w0: nat)
    requires p + n <= |s| && w <= n && 1 <= w0 <= w && YearFollows(s, p, n, w0)
    ensures MonthWord(s, p, n, w).Some?
    decreases w
  {
    if !YearFollows(s, p, n, w) {
      MonthWordFinds(s, p, n, w - 1, w0);
    }
  }

  /** The first character of an occurrence of `kr` is neither a digit nor
      a space. */
  lemma KrStart(s: string, p: nat)
    requires LiteralAt(s, p, "kr")
    ensures p < |s| && !IsDigit(s[p]) && !IsSpace(s[p])
  {
    assert LowerStr(s[p..p + 2])[0] == Lower(s[p]) == 'k';
  }

  /** The `vinn` scanner reports a match at `i` exactly when the text there
      has the pattern's shape, and what it reports has that shape. */
  lemma WinPhraseExact(s: string, i: nat)
    requires i <= |s|
    ensures WinPhraseAt(s, i).Some? ==> WinPhraseShape(s, WinPhraseAt(s, i).value)
    ensures forall m :: WellPlaced(s, i, m) && WinPhraseShape(s, m) ==> WinPhraseAt(s, i).Some?
  {
    if WinPhraseAt(s, i).Some? {
      WinPhraseSound(s, i);
    }
    forall m | WellPlaced(s, i, m) && WinPhraseShape(s, m)
      ensures WinPhraseAt(s, i).Some?
    {
      WinPhraseComplete(s, i, m);
    }
  }

  lemma WinPhraseSound(s: string, i: nat)
    requires i <= |s| && WinPhraseAt(s, i).Some?
    ensures WinPhraseShape(s, WinPhraseAt(s, i).value)
  {
    var sp := Run(s, i + 4, Space);
    var k := LargestSep(s, i + 4, sp, Phrase, 10).value;
    RunFacts(s, i + 4, Space);
    LargestSepFacts(s, i + 4, sp, Phrase, 10);
    RunFacts(s, i + 4 + k, Phrase);
    var g := Span(i + 4 + k, i + 4 + k + Min(Run(s, i + 4 + k, Phrase), 80));
    assert WinPhraseAt(s, i) == Some(Match(Span(i, g.end), [g]));
    assert AllIn(s, i + 4, g.start, Space) && AllIn(s, g.start, g.end, Phrase);
  }

  lemma WinPhraseComplete(s: string, i: nat, m: Match)
    requires WellPlaced(s, i, m) && WinPhraseShape(s, m)
    ensures WinPhraseAt(s, i).Some?
  {
    var g := m.groups[0];
    RunAtLeast(s, i + 4, g.start - (i + 4), Space);
    RunAtLeast(s, g.start, g.end - g.start, Phrase);
    LargestSepFinds(s, i + 4, Run(s, i + 4, Space), g.start - (i + 4), Phrase, 10);
  }

  /** The `premie` scanner reports a match at `i` exactly when the text
      there has the pattern's shape, and what it reports has that shape. */
  lemma PrizePhraseExact(s: string, i: nat)
    requires i <= |s|
    ensures PrizePhraseAt(s, i).Some? ==> PrizePhraseShape(s, PrizePhraseAt(s, i).value)
    ensures forall m :: WellPlaced(s, i, m) && PrizePhraseShape(s, m) ==> PrizePhraseAt(s, i).Some?
  {
    if LiteralAt(s, i, "premie") {
      RunFacts(s, i + 6, Phrase);
      forall m | WellPlaced(s, i, m) && PrizePhraseShape(s, m)
        ensures PrizePhraseAt(s, i).Some?
      {
        RunAtLeast(s, i + 6, m.groups[0].end - (i + 6), Phrase);
      }
    }
  }

  /** The `gavekort` scanner reports a match at `i` exactly when the text
      there has the pattern's shape, and what it reports has that shape. */
  lemma GiftCardExact(s: string, i: nat)
    requires i <= |s|
    ensures GiftCardAt(s, i).Some? ==> GiftCardShape(s, GiftCardAt(s, i).value)
    ensures forall m :: WellPlaced(s, i, m) && GiftCardShape(s, m) ==> GiftCardAt(s, i).Some?
  {
    if LiteralAt(s, i, "gavekort") {
      RunFacts(s, i + 8, Phrase);
    }
  }

  /** The amount scanner reports a match at `i` exactly when the text
      there has the pattern's shape, and what it reports has that shape. */
  lemma AmountExact(s: string, i: nat)
    requires i <= |s|
    ensures AmountAt(s, i).Some? ==> AmountShape(s, AmountAt(s, i).value)
    ensures forall m :: WellPlaced(s, i, m) && AmountShape(s, m) ==> AmountAt(s, i).Some?
  {
    if AmountAt(s, i).Some? {
      AmountSound(s, i);
    }
    forall m | WellPlaced(s, i, m) && AmountShape(s, m)
      ensures AmountAt(s, i).Some?
    {
      var d0: nat, sp0: nat :| Amounts(s, i, d0, sp0, m.whole.end);
      AmountComplete(s, i, d0, sp0, m.whole.end);
    }
  }

  /** What the amount scanner reports is its digit run, its space run,
      `kr` and the sentence characters after it. */
  lemma AmountSound(s: string, i: nat)
    requires i <= |s| && AmountAt(s, i).Some?
    ensures AmountShape(s, AmountAt(s, i).value)
  {
    var d := Run(s, i, Digit);
    var sp := Run(s, i + d, Space);
    RunFacts(s, i, Digit);
    RunFacts(s, i + d, Space);
    RunFacts(s, i + d + sp + 2, Phrase);
    assert Amounts(s, i, d, sp, AmountAt(s, i).value.whole.end);
  }

  /** Digits, spaces and `kr` at `i`: the scanner's digit and space runs
      are exactly those, so it reports a match. */
  lemma AmountComplete(s: string, i: nat, d: nat, sp: nat, end: nat)
    requires Amounts(s, i, d, sp, end)
    ensures AmountAt(s, i).Some?
  {
    KrStart(s, i + d + sp);
    if sp > 0 {
      assert IsSpace(s[i + d]);
    }
    RunIs(s, i, Digit, d);
    RunIs(s, i + d, Space, sp);
  }

  /** The `arrangør` scanner reports a match at `i` exactly when the text
      there has the pattern's shape, and what it reports has that shape. */
  lemma OrganizerLabelExact(s: string, i: nat)
    requires i <= |s|
    ensures OrganizerLabelAt(s, i).Some? ==> OrganizerLabelShape(s, OrganizerLabelAt(s, i).value)
    ensures forall m :: WellPlaced(s, i, m) && OrganizerLabelShape(s, m) ==> OrganizerLabelAt(s, i).Some?
  {
    if OrganizerLabelAt(s, i).Some? {
      OrganizerLabelSound(s, i);
    }
    forall m | WellPlaced(s, i, m) && OrganizerLabelShape(s, m)
      ensures OrganizerLabelAt(s, i).Some?
    {
      OrganizerLabelComplete(s, i, m);
    }
  }

  lemma OrganizerLabelSound(s: string, i: nat)
    requires i <= |s| && OrganizerLabelAt(s, i).Some?
    ensures OrganizerLabelShape(s, OrganizerLabelAt(s, i).value)
  {
    var sep := Run(s, i + 8, Separator);
    RunFacts(s, i + 8, Separator);
    LargestSepFacts(s, i + 8, sep, Phrase, 2);
    RunFacts(s, i + 8 + LargestSep(s, i + 8, sep, Phrase, 2).value, Phrase);
  }

  lemma OrganizerLabelComplete(s: string, i: nat, m: Match)
    requires WellPlaced(s, i, m) && OrganizerLabelShape(s, m)
    ensures OrganizerLabelAt(s, i).Some?
  {
    var g := m.groups[0];
    RunAtLeast(s, i + 8, g.start - (i + 8), Separator);
    RunAtLeast(s, g.start, g.end - g.start, Phrase);
    LargestSepFinds(s, i + 8, Run(s, i + 8, Separator), g.start - (i + 8), Phrase, 2);
  }

  /** The `av` scanner reports a match at `i` exactly when the text there
      has the pattern's shape, and what it reports has that shape. */
  lemma ByNameExact(s: string, i: nat)
    requires i <= |s|
    ensures ByNameAt(s, i).Some? ==> ByNameShape(s, ByNameAt(s, i).value)
    ensures forall m :: WellPlaced(s, i, m) && ByNameShape(s, m) ==> ByNameAt(s, i).Some?
  {
    if ByNameAt(s, i).Some? {
      ByNameSound(s, i);
    }
    forall m | WellPlaced(s, i, m) && ByNameShape(s, m)
      ensures ByNameAt(s, i).Some?
    {
      ByNameComplete(s, i, m);
    }
  }

  lemma ByNameSound(s: string, i: nat)
    requires i <= |s| && ByNameAt(s, i).Some?
    ensures ByNameShape(s, ByNameAt(s, i).value)
  {
    var sp := Run(s, i + 2, Space);
    RunFacts(s, i + 2, Space);
    RunFacts(s, i + 3 + sp, NameTail);
  }

  lemma ByNameComplete(s: string, i: nat, m: Match)
    requires WellPlaced(s, i, m) && ByNameShape(s, m)
    ensures ByNameAt(s, i).Some?
  {
    var g := m.groups[0];
    RunIs(s, i + 2, Space, g.start - (i + 2));
    RunAtLeast(s, g.start + 1, g.end - g.start - 1, NameTail);
  }

  /** The brand scanner reports a match at `i` exactly when a brand name
      is spelled there, and what it reports is that name. */
  lemma BrandExact(s: string, i: nat)
    requires i <= |s|
    ensures BrandFrom(s, i, 0).Some? ==> BrandShape(s, BrandFrom(s, i, 0).value)
    ensures forall m :: WellPlaced(s, i, m) && BrandShape(s, m) ==> BrandFrom(s, i, 0).Some?
  {
    BrandFromFacts(s, i, 0);
  }

  /** The month word and the year that `DayMonthYearAt` reads from `p`. */
  lemma MonthAndYearFacts(s: string, p: nat, w: nat)
    requires p <= |s|
    requires MonthWord(s, p, Run(s, p, Word), Run(s, p, Word)) == Some(w)
    ensures var y := YearStart(s, p, Run(s, p, Word), w);
      && p + w <= y && y + 4 <= |s|
      && AllIn(s, p, p + w, Word) && AllIn(s, p + w, y, Space) && AllIn(s, y, y + 4, Digit)
  {
    var n := Run(s, p, Word);
    RunFacts(s, p, Word);
    RunFacts(s, p + n, Space);
    MonthWordFacts(s, p, n, n);
  }

  /** The day-month-year scanner reports a match at `i` exactly when the
      text there has the pattern's shape, and what it reports has that
      shape. */
  lemma DayMonthYearExact(s: string, i: nat)
    requires i <= |s|
    ensures DayMonthYearAt(s, i).Some? ==> DayMonthYearShape(s, DayMonthYearAt(s, i).value)
    ensures forall m :: WellPlaced(s, i, m) && DayMonthYearShape(s, m) ==> DayMonthYearAt(s, i).Some?
  {
    if DayMonthYearAt(s, i).Some? {
      DayMonthYearSound(s, i);
    }
    forall m | WellPlaced(s, i, m) && DayMonthYearShape(s, m)
      ensures DayMonthYearAt(s, i).Some?
    {
      DayMonthYearComplete(s, i, m);
    }
  }

  lemma DayMonthYearSound(s: string, i: nat)
    requires i <= |s| && DayMonthYearAt(s, i).Some?
    ensures DayMonthYearShape(s, DayMonthYearAt(s, i).value)
  {
    var a := ShortNumber(s, i);
    RunFacts(s, i, Digit);
    RunFacts(s, i + a + 1, Space);
    var p := i + a + 1 + Run(s, i + a + 1, Space);
    var n := Run(s, p, Word);
    MonthAndYearFacts(s, p, MonthWord(s, p, n, n).value);
  }

  /** A text of the day-month-year shape at `i`: the scanner reads its
      day, its spaces and its word, and the whole word is followed by
      the year. */
  lemma DayMonthYearComplete(s: string, i: nat, m: Match)
    requires WellPlaced(s, i, m) && DayMonthYearShape(s, m)
    ensures DayMonthYearAt(s, i).Some?
  {
    var day, word, year := m.groups[0], m.groups[1], m.groups[2];
    DayAndSpacesRead(s, i, day.end, word.start);
    WordThenYear(s, word.start, word.end, year.start);
  }

  /** A day of one or two digits, a dot and spaces up to a word character:
      the scanner reads exactly that day and those spaces. */
  lemma DayAndSpacesRead(s: string, i: nat, de: nat, ws: nat)
    requires i < de <= i + 2 && de < ws < |s|
    requires AllIn(s, i, de, Digit) && s[de] == '.' && AllIn(s, de + 1, ws, Space) && IsWordChar(s[ws])
    ensures ShortNumber(s, i) == de - i && Run(s, de + 1, Space) == ws - de - 1
  {
    RunIs(s, i, Digit, de - i);
    RunIs(s, de + 1, Space, ws - de - 1);
  }

  /** A word, spaces and four digits at `p`: backtracking the month word
      finds a length followed by the year. */
  lemma WordThenYear(s: string, p: nat, we: nat, ys: nat)
    requires p < we <= ys && ys + 4 <= |s|
    requires AllIn(s, p, we, Word) && AllIn(s, we, ys, Space) && AllIn(s, ys, ys + 4, Digit)
    ensures MonthWord(s, p, Run(s, p, Word), Run(s, p, Word)).Some?
  {
    var n := Run(s, p, Word);
    var w0 := we - p;
    RunAtLeast(s, p, w0, Word);
    if w0 < n {
      RunFacts(s, p, Word);
      assert IsWordChar(s[we]);
    } else {
      RunIs(s, we, Space, ys - we);
    }
    assert YearFollows(s, p, n, w0);
    MonthWordFinds(s, p, n, n, w0);
  }

  /** The ISO date scanner reports a match at `i` exactly when the text
      there has the pattern's shape, and what it reports has that shape. */
  lemma YearMonthDayExact(s: string, i: nat)
    requires i <= |s|
    ensures YearMonthDayAt(s, i).Some? ==> YearMonthDayShape(s, YearMonthDayAt(s, i).value)
    ensures forall m :: WellPlaced(s, i, m) && YearMonthDayShape(s, m) ==> YearMonthDayAt(s, i).Some?
  {
    if YearMonthDayAt(s, i).Some? {
      YearMonthDaySound(s, i);
    }
    forall m | WellPlaced(s, i, m) && YearMonthDayShape(s, m)
      ensures YearMonthDayAt(s, i).Some?
    {
      YearMonthDayComplete(s, i, m);
    }
  }

  lemma YearMonthDaySound(s: string, i: nat)
    requires i <= |s| && YearMonthDayAt(s, i).Some?
    ensures YearMonthDayShape(s, YearMonthDayAt(s, i).value)
  {
    RunFacts(s, i + 5, Digit);
    RunFacts(s, i + 6 + ShortNumber(s, i + 5), Digit);
  }

  lemma YearMonthDayComplete(s: string, i: nat, m: Match)
    requires WellPlaced(s, i, m) && YearMonthDayShape(s, m)
    ensures YearMonthDayAt(s, i).Some?
  {
    var month, day := m.groups[1], m.groups[2];
    RunIs(s, i + 5, Digit, month.end - month.start);
    RunAtLeast(s, day.start, 1, Digit);
  }

  /** The slash date scanner reports a match at `i` exactly when the text
      there has the pattern's shape, and what it reports has that shape. */
  lemma DaySlashMonthSlashYearExact(s: string, i: nat)
    requires i <= |s|
    ensures DaySlashMonthSlashYearAt(s, i).Some? ==>
      DaySlashMonthSlashYearShape(s, DaySlashMonthSlashYearAt(s, i).value)
    ensures forall m :: WellPlaced(s, i, m) && DaySlashMonthSlashYearShape(s, m) ==>
      DaySlashMonthSlashYearAt(s, i).Some?
  {
    if DaySlashMonthSlashYearAt(s, i).Some? {
      DaySlashMonthSlashYearSound(s, i);
    }
    forall m | WellPlaced(s, i, m) && DaySlashMonthSlashYearShape(s, m)
      ensures DaySlashMonthSlashYearAt(s, i).Some?
    {
      DaySlashMonthSlashYearComplete(s, i, m);
    }
  }

  lemma DaySlashMonthSlashYearSound(s: string, i: nat)
    requires i <= |s| && DaySlashMonthSlashYearAt(s, i).Some?
    ensures DaySlashMonthSlashYearShape(s, DaySlashMonthSlashYearAt(s, i).value)
  {
    RunFacts(s, i, Digit);
    RunFacts(s, i + ShortNumber(s, i) + 1, Digit);
  }

  lemma DaySlashMonthSlashYearComplete(s: string, i: nat, m: Match)
    requires WellPlaced(s, i, m) && DaySlashMonthSlashYearShape(s, m)
    ensures DaySlashMonthSlashYearAt(s, i).Some?
  {
    var day, month := m.groups[0], m.groups[1];
    RunIs(s, i, Digit, day.end - i);
    RunIs(s, month.start, Digit, month.end - month.start);
  }

  /** Every scanner reports a match at `i` exactly when the text there has
      the shape of its pattern, and what it reports has that shape. */
  lemma MatchAtExact(p: Pattern, s: string, i: nat)
    requires i <= |s|
    ensures MatchAt(p, s, i).Some? ==> Shape(p, s, MatchAt(p, s, i).value)
    ensures forall m :: WellPlaced(s, i, m) && Shape(p, s, m) ==> MatchAt(p, s, i).Some?
  {
    match p
    case WinPhrase => WinPhraseExact(s, i);
    case PrizePhrase => PrizePhraseExact(s, i);
    case GiftCard => GiftCardExact(s, i);
    case Amount => AmountExact(s, i);
    case OrganizerLabel => OrganizerLabelExact(s, i);
    case ByName => ByNameExact(s, i);
    case Brand => BrandExact(s, i);
    case DayMonthYear => DayMonthYearExact(s, i);
    case YearMonthDay => YearMonthDayExact(s, i);
    case DaySlashMonthSlashYear => DaySlashMonthSlashYearExact(s, i);
  }

  /** How many capture groups a match of `p` has. */
  function GroupCount(p: Pattern): nat {
    match p
    case GiftCard => 0
    case DayMonthYear | YearMonthDay | DaySlashMonthSlashYear => 3
    case _ => 1
  }

  /** `m` is a match of `p` found in `s` at or after `i`. */
  predicate Found(p: Pattern, s: string, i: nat, m: Match) {
    i <= m.whole.start && WellPlaced(s, m.whole.start, m) && |m.groups| == GroupCount(p)
  }

  /** `s.match(p)` searching from `i`: the engine tries one start position
      after the other. */
  function SearchFrom(p: Pattern, s: string, i: nat): (r: Option<Match>)
    requires i <= |s|
    ensures r.Some? ==> Found(p, s, i, r.value)
    decreases |s| - i, 1
  {
    TryAt(p, s, i)
  }

  /** One step of the search: the match at `i`, or else the search from
      `i + 1`. */
  function TryAt(p: Pattern, s: string, i: nat): (r: Option<Match>)
    requires i <= |s|
    ensures r.Some? ==> Found(p, s, i, r.value)
    decreases |s| - i, 0
  {
    match MatchAt(p, s, i)
    case Some(m) => Some(m)
    case None => if i == |s| then None else SearchFrom(p, s, i + 1)
  }

  /** The search reports the match at the leftmost position that has one,
      and reports nothing only when no position has one. */
  lemma SearchFromLeftmost(p: Pattern, s: string, i: nat)
    requires i <= |s|
    ensures var r := SearchFrom(p, s, i);
      && (r.Some? ==> MatchAt(p, s, r.value.whole.start) == r)
      && (r.Some? ==> forall j :: i <= j < r.value.whole.start ==> MatchAt(p, s, j).None?)
      && (r.None? ==> forall j :: i <= j <= |s| ==> MatchAt(p, s, j).None?)
  {
    SearchFromReports(p, s, i);
    SearchFromSkips(p, s, i);
    SearchFromMisses(p, s, i);
  }

  /** A reported match is the scanner's match at its start. */
  lemma {:induction false} SearchFromReports(p: Pattern, s: string, i: nat)
    requires i <= |s|
    ensures var r := SearchFrom(p, s, i);
      r.Some? ==> MatchAt(p, s, r.value.whole.start) == r
    decreases |s| - i
  {
    assert SearchFrom(p, s, i) == TryAt(p, s, i);
    if MatchAt(p, s, i).None? && i < |s| {
      SearchFromReports(p, s, i + 1);
    }
  }

  /** No position before a reported match has one. */
  lemma {:induction false} SearchFromSkips(p: Pattern, s: string, i: nat)
    requires i <= |s|
    ensures var r := SearchFrom(p, s, i);
      r.Some? ==> forall j :: i <= j < r.value.whole.start ==> MatchAt(p, s, j).None?
    decreases |s| - i
  {
    assert SearchFrom(p, s, i) == TryAt(p, s, i);
    if MatchAt(p, s, i).None? && i < |s| {
      SearchFromSkips(p, s, i + 1);
    }
  }

  /** The search reports nothing only when no position has a match. */
  lemma {:induction false} SearchFromMisses(p: Pattern, s: string, i: nat)
    requires i <= |s|
    ensures SearchFrom(p, s, i).None? ==> forall j :: i <= j <= |s| ==> MatchAt(p, s, j).None?
    decreases |s| - i
  {
    assert SearchFrom(p, s, i) == TryAt(p, s, i);
    if MatchAt(p, s, i).None? && i < |s| {
      SearchFromMisses(p, s, i + 1);
    }
  }

  /** `s.match(p)`. */
  function Search(p: Pattern, s: string): (r: Option<Match>)
    ensures r.Some? ==> Found(p, s, 0, r.value)
  {
    SearchFrom(p, s, 0)
  }

  /** What `s.match(p)` reports is the match of `p` at its start. */
  lemma SearchAtStart(p: Pattern, s: string)
    requires Search(p, s).Some?
    ensures MatchAt(p, s, Search(p, s).value.whole.start) == Search(p, s)
  {
    SearchFromLeftmost(p, s, 0);
  }

  /** What `s.match(p)` reports has the shape of `p`; and wherever a text
      of that shape occurs, `s.match(p)` reports a match that starts there
      or earlier. */
  lemma SearchExact(p: Pattern, s: string)
    ensures Search(p, s).Some? ==> Shape(p, s, Search(p, s).value)
    ensures forall m: Match :: WellPlaced(s, m.whole.start, m) && Shape(p, s, m) ==>
      Search(p, s).Some? && Search(p, s).value.whole.start <= m.whole.start
  {
    SearchFromLeftmost(p, s, 0);
    if Search(p, s).Some? {
      MatchAtExact(p, s, Search(p, s).value.whole.start);
    }
    forall m: Match | WellPlaced(s, m.whole.start, m) && Shape(p, s, m)
      ensures Search(p, s).Some? && Search(p, s).value.whole.start <= m.whole.start
    {
      MatchAtExact(p, s, m.whole.start);
    }
  }

  /** The capture group `match[g + 1]`, with the empty string standing
      for a group the pattern does not have (`undefined`). */
  function Group(s: string, m: Match, g: nat): string
    requires WellPlaced(s, m.whole.start, m)
  {
    if g < |m.groups| then s[m.groups[g].start..m.groups[g].end] else ""
  }

  /** The matched text `match[0]`. */
  function Whole(s: string, m: Match): string
    requires m.whole.start <= m.whole.end <= |s|
  {
    s[m.whole.start..m.whole.end]
  }
}
