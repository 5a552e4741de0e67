/** The text-analysis back-end: the rule-based fallback record built from
    the pasted competition text, and the handling of the language model's
    reply around the network call. */
module TextAnalysis {
  import opened Wrappers
  import opened Text
  import opened Calendar
  import opened Extractors
  import opened Records
  import opened Replies

  const HOUSE: string := "\U{1F3E0}"
  const PHONE: string := "\U{1F4F1}"
  const PLANE: string := "\U{2708}\U{FE0F}"
  const GIFT: string := "\U{1F381}"

  /** Organizer, category and image after the keyword ladder. */
  datatype Look = Look(organizer: string, category: string, image: string)

  /** The keyword ladder on the lower-cased text: `ikea` fills an empty
      organizer and picks the house; `iphone`/`apple` force `teknologi`;
      `reise`/`ferie` force `reise`; otherwise the gift. */
  function Classify(lower: string, organizer: string, category: string): Look {
    if Includes(lower, "ikea") then
      Look(if organizer == "" then "Ikea" else organizer, category, HOUSE)
    else if Includes(lower, "iphone") || Includes(lower, "apple") then
      Look(organizer, "teknologi", PHONE)
    else if Includes(lower, "reise") || Includes(lower, "ferie") then
      Look(organizer, "reise", PLANE)
    else
      Look(organizer, category, GIFT)
  }

  /** The ladder's rungs in order: the first keyword group found decides,
      and the organizer changes only on the `ikea` rung and only when it
      is empty; a category among the six stays among the six. */
  lemma ClassifyLadder(lower: string, organizer: string, category: string)
    ensures var l := Classify(lower, organizer, category);
      var ikea := Includes(lower, "ikea");
      var tech := Includes(lower, "iphone") || Includes(lower, "apple");
      var travel := Includes(lower, "reise") || Includes(lower, "ferie");
      && (ikea ==> l == Look(if organizer == "" then "Ikea" else organizer, category, HOUSE))
      && (!ikea && tech ==> l == Look(organizer, "teknologi", PHONE))
      && (!ikea && !tech && travel ==> l == Look(organizer, "reise", PLANE))
      && (!ikea && !tech && !travel ==> l == Look(organizer, category, GIFT))
      && (l.organizer != organizer <==> ikea && organizer == "")
      && (category in CATEGORIES ==> l.category in CATEGORIES)
  {
  }

  /** Past the `ikea` rung, the ladder shows the emoji the scraping
      back-end pairs with the category it picks, and the gift of `annet`
      when it picks none. */
  lemma ClassifyImage(lower: string, organizer: string, category: string)
    requires !Includes(lower, "ikea")
    ensures var l := Classify(lower, organizer, category);
      var picked := Includes(lower, "iphone") || Includes(lower, "apple")
                    || Includes(lower, "reise") || Includes(lower, "ferie");
      && (picked ==> l.category in CATEGORIES && l.image == Emoji(l.category))
      && (!picked ==> l.category == category && l.image == Emoji("annet"))
  {
    assert Emoji("teknologi") == PHONE;
    assert Emoji("reise") == PLANE;
    assert Emoji("annet") == GIFT;
  }

  /** `createFallbackFromText(text, url, manualOverrides)` at time `now`,
      where `hostname` is the host name of `url` and `legacy` the engine's
      date parser. */
  function FallbackFromText(text: string, url: string, hostname: string, o: Overrides,
                            now: Now, legacy: string -> Option<Time>): Record
  {
    var site := SiteName(hostname);
    var title := OrElse(o.title, TitleOf(text), site + " konkurranse");
    var prize := OrElse(o.prize, PrizeOf(text), DEFAULT_PRIZE);
    var organizer := OrElse(o.organizer, Some(OrganizerOf(text, site)), site);
    var look := Classify(LowerStr(text), organizer, OrElse(o.category, None, "annet"));
    var deadline := OrElse(o.deadline, DeadlineOf(legacy, text), DefaultDeadline(now));
    Record(
      id := Some(now),
      title := Some(Take(title, 80)),
      description := Some("Konkurranse fra " + look.organizer + ". Se lenken for fullstendige detaljer."),
      prize := Some(Take(prize, 100)),
      organizer := Some(Take(look.organizer, 50)),
      deadline := Some(deadline),
      category := Some(look.category),
      image := Some(look.image),
      entryType := Some(OrElse(o.entryType, None, "gratis")),
      addedDate := Some(ToIsoString(now)),
      sourceUrl := Some(url),
      aiParsed := Some(false))
  }

  /** Every field is present; title, prize and organizer are cut to 80,
      100 and 50 characters; the record is marked as not AI-parsed and
      carries the URL and the clock reading. */
  lemma FallbackShape(text: string, url: string, hostname: string, o: Overrides,
                      now: Now, legacy: string -> Option<Time>)
    ensures var r := FallbackFromText(text, url, hostname, o, now, legacy);
      && r.title.Some? && |r.title.value| <= 80
      && r.prize.Some? && |r.prize.value| <= 100
      && r.organizer.Some? && |r.organizer.value| <= 50
      && r.aiParsed == Some(false) && r.sourceUrl == Some(url) && r.id == Some(now)
      && Split(r.addedDate.value, 'T')[0] == DateString(now)
  {
    IsoStringDatePart(now);
  }

  /** Override, then extracted value, then default, for the title, the
      prize, the deadline and the entry type. */
  lemma FallbackPrecedence(text: string, url: string, hostname: string, o: Overrides,
                           now: Now, legacy: string -> Option<Time>)
    ensures var r := FallbackFromText(text, url, hostname, o, now, legacy);
      && r.title == Some(Take(
           if Truthy(o.title) then o.title.value
           else if Truthy(TitleOf(text)) then TitleOf(text).value
           else SiteName(hostname) + " konkurranse", 80))
      && r.prize == Some(Take(
           if Truthy(o.prize) then o.prize.value
           else if Truthy(PrizeOf(text)) then PrizeOf(text).value
           else "Se konkurransesiden for premieinformasjon", 100))
      && r.deadline == Some(
           if Truthy(o.deadline) then o.deadline.value
           else if Truthy(DeadlineOf(legacy, text)) then DeadlineOf(legacy, text).value
           else DateString(now + THIRTY_DAYS_MS))
      && r.entryType == Some(if Truthy(o.entryType) then o.entryType.value else "gratis")
  {
  }

  /** The organizer: override, then the extracted organizer, then the
      site name, passed through the keyword ladder and cut to 50. The
      description names it before the cut. */
  lemma FallbackOrganizer(text: string, url: string, hostname: string, o: Overrides,
                          now: Now, legacy: string -> Option<Time>)
    ensures var r := FallbackFromText(text, url, hostname, o, now, legacy);
      var site := SiteName(hostname);
      var chosen := if Truthy(o.organizer) then o.organizer.value
                    else if OrganizerOf(text, site) != "" then OrganizerOf(text, site)
                    else site;
      var final := if Includes(LowerStr(text), "ikea") && chosen == "" then "Ikea" else chosen;
      && r.organizer == Some(Take(final, 50))
      && r.description == Some("Konkurranse fra " + final + ". Se lenken for fullstendige detaljer.")
  {
    var site := SiteName(hostname);
    var organizer := OrElse(o.organizer, Some(OrganizerOf(text, site)), site);
    ClassifyLadder(LowerStr(text), organizer, OrElse(o.category, None, "annet"));
  }

  /** Category and image come from the keyword ladder alone: an
      `iphone`/`apple` or `reise`/`ferie` hit overrides a manual category,
      and otherwise the manual category (or `annet`) is kept as it is. */
  lemma FallbackCategory(text: string, url: string, hostname: string, o: Overrides,
                         now: Now, legacy: string -> Option<Time>)
    ensures var r := FallbackFromText(text, url, hostname, o, now, legacy);
      var lower := LowerStr(text);
      var manual := if Truthy(o.category) then o.category.value else "annet";
      var l := Classify(lower, "", manual);
      && r.category == Some(l.category) && r.image == Some(l.image)
      && ((!Includes(lower, "iphone") && !Includes(lower, "apple")
           && !Includes(lower, "reise") && !Includes(lower, "ferie")) ==> r.category == Some(manual))
  {
    var site := SiteName(hostname);
    var organizer := OrElse(o.organizer, Some(OrganizerOf(text, site)), site);
    ClassifyLadder(LowerStr(text), organizer, OrElse(o.category, None, "annet"));
    ClassifyLadder(LowerStr(text), "", OrElse(o.category, None, "annet"));
  }

  /** The fallback record does not go through the validator: a manual
      category outside the six, on a text without keywords, is kept. */
  lemma FallbackNotValidated(url: string, hostname: string, now: Now, legacy: string -> Option<Time>)
    ensures var o := NO_OVERRIDES.(category := Some("bil"));
      var r := FallbackFromText("", url, hostname, o, now, legacy);
      r.category == Some("bil") && !GoodCategory(r.category)
  {
    var o := NO_OVERRIDES.(category := Some("bil"));
    assert !Includes("", "ikea") && !Includes("", "iphone") && !Includes("", "apple");
    assert !Includes("", "reise") && !Includes("", "ferie");
    assert LowerStr("") == "";
  }

  // ----- the AI path -----

  /** The record the AI path returns for a parsed reply: overrides merged,
      metadata stamped, then validated. */
  function AiRecord(parsed: Record, url: string, o: Overrides, now: Now,
                    legacy: string -> Option<Time>): Record {
    Validated(Stamped(Overridden(parsed, o), now, url), now, legacy)
  }

  /** An AI-path record is marked AI-parsed, carries the URL, passes the
      validator's checks, and keeps a truthy prize or type override, and a
      truthy title override of at least three characters. */
  lemma AiRecordFields(parsed: Record, url: string, o: Overrides, now: Now,
                       legacy: string -> Option<Time>)
    ensures var r := AiRecord(parsed, url, o, now, legacy);
      && r.aiParsed == Some(true) && r.sourceUrl == Some(url) && r.id == Some(now)
      && GoodTitle(r.title) && GoodOrganizer(r.organizer)
      && GoodCategory(r.category) && GoodDeadline(r.deadline, now, legacy)
      && r.prize == (if Truthy(o.prize) then o.prize else parsed.prize)
      && r.entryType == (if Truthy(o.entryType) then o.entryType else parsed.entryType)
      && r.description == parsed.description && r.image == parsed.image
      && (Truthy(o.title) && |o.title.value| >= 3 ==> r.title == o.title)
  {
    ValidatedPasses(Stamped(Overridden(parsed, o), now, url), now, legacy);
  }

  /** `analyzeTextWithAI` after the network call. `reply` is the model's
      message content (`None` when the request failed) and `parse` is
      `JSON.parse` (`None` when it throws). */
  method AnalyzeTextWithAI(text: string, url: string, hostname: string, o: Overrides,
                           now: Now, legacy: string -> Option<Time>,
                           reply: Option<string>, parse: string -> Option<Record>)
    returns (r: Record)
    ensures reply.None? || parse(Payload(CleanReply(reply.value))).None? ==>
      r == FallbackFromText(text, url, hostname, o, now, legacy)
    ensures reply.Some? && parse(Payload(CleanReply(reply.value))).Some? ==>
      r == AiRecord(parse(Payload(CleanReply(reply.value))).value, url, o, now, legacy)
  {
    if reply.None? {
      return FallbackFromText(text, url, hostname, o, now, legacy);
    }
    var cleaned := CleanReply(reply.value);
    var start := IndexOfChar(cleaned, '{');
    var last := LastIndexOfChar(cleaned, '}');
    if start.Some? && last.Some? && last.value + 1 > start.value {
      cleaned := cleaned[start.value..last.value + 1];
    }
    assert cleaned == Payload(CleanReply(reply.value));
    var parsed := parse(cleaned);
    if parsed.None? {
      return FallbackFromText(text, url, hostname, o, now, legacy);
    }
    var data := new Competition(parsed.value);
    data.ApplyOverrides(o);
    data.Stamp(now, url);
    data.Validate(now, legacy);
    r := data.Value();
  }
}
