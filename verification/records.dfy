/** The competition record both back-ends produce, the manual overrides an
    administrator may supply, and the validator that repairs a record. */
module Records {
  import opened Wrappers
  import opened Text
  import opened Calendar

  /** A competition record. A field the parsed reply lacks is `None`
      (`undefined`); `entryType` is the record's `type` property. */
  datatype Record = Record(
    id: Option<int>,
    title: Option<string>,
    description: Option<string>,
    prize: Option<string>,
    organizer: Option<string>,
    deadline: Option<string>,
    category: Option<string>,
    image: Option<string>,
    entryType: Option<string>,
    addedDate: Option<string>,
    sourceUrl: Option<string>,
    aiParsed: Option<bool>)

  /** The record with no properties at all. */
  const EMPTY: Record := Record(None, None, None, None, None, None, None, None, None, None, None, None)

  /** `manualOverrides`: each field may be absent. */
  datatype Overrides = Overrides(
    title: Option<string>,
    organizer: Option<string>,
    prize: Option<string>,
    deadline: Option<string>,
    category: Option<string>,
    entryType: Option<string>)

  /** The default `manualOverrides = {}`. */
  const NO_OVERRIDES: Overrides := Overrides(None, None, None, None, None, None)

  /** A JavaScript string value is truthy when it is present and not empty. */
  predicate Truthy(v: Option<string>) {
    v.Some? && v.value != ""
  }

  /** `a || b` on strings: the first truthy operand, else the second. */
  function Or(a: Option<string>, b: Option<string>): (r: Option<string>)
    ensures Truthy(a) ==> r == a
    ensures !Truthy(a) ==> r == b
  {
    if Truthy(a) then a else b
  }

  /** `a || b || fallback` when the last operand is a plain string. */
  function OrElse(a: Option<string>, b: Option<string>, fallback: string): (r: string)
    ensures Truthy(a) ==> r == a.value
    ensures !Truthy(a) && Truthy(b) ==> r == b.value
    ensures !Truthy(a) && !Truthy(b) ==> r == fallback
  {
    if Truthy(a) then a.value else if Truthy(b) then b.value else fallback
  }

  /** `new URL(url).hostname.replace('www.', '')`, given the host name:
      the first `www.` anywhere in it is removed. */
  function SiteName(hostname: string): (r: string)
    ensures !Includes(hostname, "www.") ==> r == hostname
    ensures Includes(hostname, "www.") ==> |r| == |hostname| - 4
    ensures Includes(hostname, "www.") ==>
      exists i :: && 0 <= i && i + 4 <= |hostname| && OccursAt(hostname, "www.", i)
        && (forall k :: 0 <= k < i ==> !OccursAt(hostname, "www.", k))
        && r == hostname[..i] + hostname[i + 4..]
  {
    ReplaceFirst(hostname, "www.", "")
  }

  // ----- validation -----

  const CATEGORIES: seq<string> := ["teknologi", "reise", "gaming", "sport", "mat", "annet"]

  /** The emoji that goes with each of the six categories. */
  function Emoji(category: string): string {
    match category
    case "teknologi" => "\U{1F4F1}"
    case "reise" => "\U{2708}\U{FE0F}"
    case "gaming" => "\U{1F3AE}"
    case "sport" => "\U{26BD}"
    case "mat" => "\U{1F355}"
    case _ => "\U{1F381}"
  }

  const DEFAULT_TITLE: string := "Ny konkurranse"
  const DEFAULT_ORGANIZER: string := "Ukjent arrangør"
  const DEFAULT_CATEGORY: string := "annet"

  /** The prize text both fallbacks use when no prize is known. */
  const DEFAULT_PRIZE: string := "Se konkurransesiden for premieinformasjon"

  /** A title the validator keeps: present and at least three characters. */
  predicate GoodTitle(t: Option<string>) {
    t.Some? && |t.value| >= 3
  }

  /** An organizer the validator keeps: present and at least two characters. */
  predicate GoodOrganizer(o: Option<string>) {
    o.Some? && |o.value| >= 2
  }

  /** A category the validator keeps: one of the six. */
  predicate GoodCategory(c: Option<string>) {
    c.Some? && c.value in CATEGORIES
  }

  /** A deadline the validator keeps: it parses to a time after `now`
      and at most 365 days later. */
  predicate GoodDeadline(d: Option<string>, now: Time, legacy: string -> Option<Time>) {
    && d.Some?
    && ParseDate(legacy, d.value).Some?
    && now < ParseDate(legacy, d.value).value <= now + YEAR_MS
  }

  /** The date thirty days after `now`, the validator's replacement
      deadline. */
  function DefaultDeadline(now: Now): (r: string)
    ensures DateShaped(r)
  {
    DateString(now + THIRTY_DAYS_MS)
  }

  /** The record after `validateCompetitionData` at time `now`. */
  function Validated(r: Record, now: Now, legacy: string -> Option<Time>): Record {
    r.(title := if GoodTitle(r.title) then r.title else Some(DEFAULT_TITLE),
       organizer := if GoodOrganizer(r.organizer) then r.organizer else Some(DEFAULT_ORGANIZER),
       deadline := if GoodDeadline(r.deadline, now, legacy) then r.deadline else Some(DefaultDeadline(now)),
       category := if GoodCategory(r.category) then r.category else Some(DEFAULT_CATEGORY))
  }

  /** The replacement deadline is itself one the validator keeps. */
  lemma DefaultDeadlineGood(now: Now, legacy: string -> Option<Time>)
    ensures GoodDeadline(Some(DefaultDeadline(now)), now, legacy)
  {
    var t := now + THIRTY_DAYS_MS;
    DateStringRoundTrip(legacy, t);
    assert ParseDate(legacy, DefaultDeadline(now)) == Some(t - t % DAY_MS);
  }

  /** A validated record passes every check of the validator. */
  lemma ValidatedPasses(r: Record, now: Now, legacy: string -> Option<Time>)
    ensures var v := Validated(r, now, legacy);
      && GoodTitle(v.title) && GoodOrganizer(v.organizer)
      && GoodCategory(v.category) && GoodDeadline(v.deadline, now, legacy)
  {
    DefaultDeadlineGood(now, legacy);
  }

  /** Each repaired field is kept when it already passes and otherwise
      receives its default; the other eight fields are left alone. */
  lemma ValidatedFields(r: Record, now: Now, legacy: string -> Option<Time>)
    ensures var v := Validated(r, now, legacy);
      && (v.title == r.title <==> GoodTitle(r.title))
      && (!GoodTitle(r.title) ==> v.title == Some("Ny konkurranse"))
      && (v.organizer == r.organizer <==> GoodOrganizer(r.organizer))
      && (!GoodOrganizer(r.organizer) ==> v.organizer == Some("Ukjent arrangør"))
      && (v.category == r.category <==> GoodCategory(r.category))
      && (!GoodCategory(r.category) ==> v.category == Some("annet"))
      && (GoodDeadline(r.deadline, now, legacy) ==> v.deadline == r.deadline)
      && (!GoodDeadline(r.deadline, now, legacy) ==> v.deadline == Some(DateString(now + THIRTY_DAYS_MS)))
      && v.(title := r.title, organizer := r.organizer, deadline := r.deadline, category := r.category) == r
  {
    assert GoodTitle(Some(DEFAULT_TITLE));
    assert GoodOrganizer(Some(DEFAULT_ORGANIZER));
    assert DEFAULT_CATEGORY == CATEGORIES[5];
  }

  /** The deadline is kept exactly when it already passes, or when it is
      literally the replacement date. */
  lemma ValidatedDeadlineKept(r: Record, now: Now, legacy: string -> Option<Time>)
    ensures Validated(r, now, legacy).deadline == r.deadline
      <==> GoodDeadline(r.deadline, now, legacy) || r.deadline == Some(DefaultDeadline(now))
  {
    DefaultDeadlineGood(now, legacy);
  }

  /** Validating twice at the same time is validating once. */
  lemma ValidatedIdempotent(r: Record, now: Now, legacy: string -> Option<Time>)
    ensures Validated(Validated(r, now, legacy), now, legacy) == Validated(r, now, legacy)
  {
    ValidatedPasses(r, now, legacy);
  }

  // ----- overrides and metadata -----

  /** The record after the six `if (manualOverrides.f) data.f = ...`
      statements of the AI path. */
  function Overridden(r: Record, o: Overrides): Record {
    r.(title := Or(o.title, r.title),
       organizer := Or(o.organizer, r.organizer),
       prize := Or(o.prize, r.prize),
       deadline := Or(o.deadline, r.deadline),
       category := Or(o.category, r.category),
       entryType := Or(o.entryType, r.entryType))
  }

  /** A truthy override replaces its field; every other field, and every
      field whose override is falsy, is left alone. */
  lemma OverriddenFields(r: Record, o: Overrides)
    ensures var v := Overridden(r, o);
      && v.title == (if Truthy(o.title) then o.title else r.title)
      && v.organizer == (if Truthy(o.organizer) then o.organizer else r.organizer)
      && v.prize == (if Truthy(o.prize) then o.prize else r.prize)
      && v.deadline == (if Truthy(o.deadline) then o.deadline else r.deadline)
      && v.category == (if Truthy(o.category) then o.category else r.category)
      && v.entryType == (if Truthy(o.entryType) then o.entryType else r.entryType)
      && v.(title := r.title, organizer := r.organizer, prize := r.prize,
            deadline := r.deadline, category := r.category, entryType := r.entryType) == r
  {
  }

  /** No overrides leave the record unchanged. */
  lemma NoOverridesIdentity(r: Record)
    ensures Overridden(r, NO_OVERRIDES) == r
  {
  }

  /** The record after the four metadata assignments: id and added date
      from the clock, the source URL, and the AI flag. */
  function Stamped(r: Record, now: Time, url: string): Record {
    r.(id := Some(now), addedDate := Some(ToIsoString(now)),
       sourceUrl := Some(url), aiParsed := Some(true))
  }

  /** Stamping sets the four metadata fields, whatever they held, and
      nothing else; doing it twice is doing it once. */
  lemma StampedFields(r: Record, now: Time, url: string)
    ensures var v := Stamped(r, now, url);
      && v.aiParsed == Some(true) && v.sourceUrl == Some(url) && v.id == Some(now)
      && Split(v.addedDate.value, 'T')[0] == DateString(now)
      && v.(id := r.id, addedDate := r.addedDate, sourceUrl := r.sourceUrl, aiParsed := r.aiParsed) == r
      && Stamped(v, now, url) == v
  {
    IsoStringDatePart(now);
  }

  // ----- the record as a mutable object -----

  /** A parsed competition object whose properties are assigned in place. */
  class Competition {
    var id: Option<int>
    var title: Option<string>
    var description: Option<string>
    var prize: Option<string>
    var organizer: Option<string>
    var deadline: Option<string>
    var category: Option<string>
    var image: Option<string>
    var entryType: Option<string>
    var addedDate: Option<string>
    var sourceUrl: Option<string>
    var aiParsed: Option<bool>

    /** The object's properties as a record value. */
    function Value(): Record
      reads this
    {
      Record(id, title, description, prize, organizer, deadline, category,
             image, entryType, addedDate, sourceUrl, aiParsed)
    }

    /** The object `JSON.parse` builds from a parsed record. */
    constructor (r: Record)
      ensures Value() == r
    {
      id, title, description, prize := r.id, r.title, r.description, r.prize;
      organizer, deadline, category, image := r.organizer, r.deadline, r.category, r.image;
      entryType, addedDate, sourceUrl, aiParsed := r.entryType, r.addedDate, r.sourceUrl, r.aiParsed;
    }

    /** Each truthy override is written over its property. */
    method ApplyOverrides(o: Overrides)
      modifies this
      ensures Value() == Overridden(old(Value()), o)
    {
      if Truthy(o.title) { title := o.title; }
      if Truthy(o.organizer) { organizer := o.organizer; }
      if Truthy(o.prize) { prize := o.prize; }
      if Truthy(o.deadline) { deadline := o.deadline; }
      if Truthy(o.category) { category := o.category; }
      if Truthy(o.entryType) { entryType := o.entryType; }
    }

    /** The metadata assignments. */
    method Stamp(now: Time, url: string)
      modifies this
      ensures Value() == Stamped(old(Value()), now, url)
      ensures aiParsed == Some(true) && sourceUrl == Some(url)
    {
      id := Some(now);
      addedDate := Some(ToIsoString(now));
      sourceUrl := Some(url);
      aiParsed := Some(true);
    }

    /** `validateCompetitionData`: repairs title, organizer, deadline and
        category in place. */
    method Validate(now: Now, legacy: string -> Option<Time>)
      modifies this
      ensures Value() == Validated(old(Value()), now, legacy)
    {
      if !GoodTitle(title) {
        title := Some(DEFAULT_TITLE);
      }
      if !GoodOrganizer(organizer) {
        organizer := Some(DEFAULT_ORGANIZER);
      }
      if !GoodDeadline(deadline, now, legacy) {
        deadline := Some(DefaultDeadline(now));
      }
      if !GoodCategory(category) {
        category := Some(DEFAULT_CATEGORY);
      }
    }
  }
}
