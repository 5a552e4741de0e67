/** The scraping back-end: the keyword fallback record built from a
    scraped page, and the handling of the language model's reply around
    the network call. */
module Scrape {
  import opened Wrappers
  import opened Text
  import opened Calendar
  import opened Records
  import opened Replies

  /** What the scraper extracted from a page: its title (absent or empty
      when the page has none), its visible text, and its URL. */
  datatype Scraped = Scraped(title: Option<string>, content: string, url: string)

  const SMART_DESCRIPTION: string := "Se konkurransesiden for fullstendige detaljer og regler"

  /** The category and its emoji. */
  datatype Topic = Topic(category: string, image: string)

  /** The five-rule keyword ladder on the lower-cased page text. */
  function SmartTopic(lower: string): Topic {
    if Includes(lower, "iphone") || Includes(lower, "samsung") || Includes(lower, "mobil")
       || Includes(lower, "tech") || Includes(lower, "pc") || Includes(lower, "laptop") then
      Topic("teknologi", "\U{1F4F1}")
    else if Includes(lower, "reise") || Includes(lower, "ferie") || Includes(lower, "tur")
       || Includes(lower, "hotell") || Includes(lower, "fly") then
      Topic("reise", "\U{2708}\U{FE0F}")
    else if Includes(lower, "gaming") || Includes(lower, "spill") || Includes(lower, "playstation")
       || Includes(lower, "xbox") || Includes(lower, "nintendo") then
      Topic("gaming", "\U{1F3AE}")
    else if Includes(lower, "sport") || Includes(lower, "trening") || Includes(lower, "fotball")
       || Includes(lower, "ski") then
      Topic("sport", "\U{26BD}")
    else if Includes(lower, "mat") || Includes(lower, "restaurant") || Includes(lower, "kaffe")
       || Includes(lower, "pizza") then
      Topic("mat", "\U{1F355}")
    else
      Topic("annet", "\U{1F381}")
  }

  // ----- the ladder as a table -----

  /** One rung: a category and the words that select it. */
  datatype Rule = Rule(category: string, words: seq<string>)

  const RULES: seq<Rule> := [
    Rule("teknologi", ["iphone", "samsung", "mobil", "tech", "pc", "laptop"]),
    Rule("reise", ["reise", "ferie", "tur", "hotell", "fly"]),
    Rule("gaming", ["gaming", "spill", "playstation", "xbox", "nintendo"]),
    Rule("sport", ["sport", "trening", "fotball", "ski"]),
    Rule("mat", ["mat", "restaurant", "kaffe", "pizza"])]

  /** The six outcomes of the ladder. */
  const TOPICS: seq<Topic> := [
    Topic("teknologi", "\U{1F4F1}"), Topic("reise", "\U{2708}\U{FE0F}"),
    Topic("gaming", "\U{1F3AE}"), Topic("sport", "\U{26BD}"),
    Topic("mat", "\U{1F355}"), Topic("annet", "\U{1F381}")]

  /** Each outcome pairs one of the six categories with its emoji. */
  lemma TopicsPaired()
    ensures forall t :: t in TOPICS ==> t.category in CATEGORIES && t.image == Emoji(t.category)
  {
    assert Emoji("teknologi") == "\U{1F4F1}";
    assert Emoji("reise") == "\U{2708}\U{FE0F}";
    assert Emoji("gaming") == "\U{1F3AE}";
    assert Emoji("sport") == "\U{26BD}";
    assert Emoji("mat") == "\U{1F355}";
    assert Emoji("annet") == "\U{1F381}";
  }

  /** Some word of the rung occurs in the text. */
  predicate Fires(lower: string, rule: Rule) {
    exists w :: w in rule.words && Includes(lower, w)
  }

  /** The index of the first rung at or after `k` that fires. */
  function FirstRule(lower: string, k: nat): (r: Option<nat>)
    requires k <= |RULES|
    ensures r.Some? ==> k <= r.value < |RULES| && Fires(lower, RULES[r.value])
    ensures r.Some? ==> forall j :: k <= j < r.value ==> !Fires(lower, RULES[j])
    ensures r.None? ==> forall j :: k <= j < |RULES| ==> !Fires(lower, RULES[j])
    decreases |RULES| - k
  {
    if k == |RULES| then None
    else if Fires(lower, RULES[k]) then Some(k)
    else FirstRule(lower, k + 1)
  }

  /** The ladder picks the category of the first rung with a word in the
      text, or `annet` when none has, and the image is that category's
      emoji. */
  lemma SmartTopicIsFirstRule(lower: string)
    ensures var t := SmartTopic(lower);
      && t.category == (match FirstRule(lower, 0) case Some(k) => RULES[k].category case None => "annet")
      && t.image == Emoji(t.category)
      && t.category in CATEGORIES
  {
    TopicsPaired();
    TechnologyRule(lower);
    TravelRule(lower);
    GamingRule(lower);
    SportRule(lower);
    FoodRule(lower);
    assert FirstRule(lower, 0) ==
      if Fires(lower, RULES[0]) then Some(0)
      else if Fires(lower, RULES[1]) then Some(1)
      else if Fires(lower, RULES[2]) then Some(2)
      else if Fires(lower, RULES[3]) then Some(3)
      else if Fires(lower, RULES[4]) then Some(4)
      else None;
    assert SmartTopic(lower) in TOPICS;
  }

  /** The `teknologi` rung fires exactly when one of its words occurs. */
  lemma TechnologyRule(lower: string)
    ensures Fires(lower, RULES[0]) <==> (Includes(lower, "iphone") || Includes(lower, "samsung") || Includes(lower, "mobil") || Includes(lower, "tech") || Includes(lower, "pc") || Includes(lower, "laptop"))
  {
    assert RULES[0].words == ["iphone", "samsung", "mobil", "tech", "pc", "laptop"];
  }

  /** The `reise` rung fires exactly when one of its words occurs. */
  lemma TravelRule(lower: string)
    ensures Fires(lower, RULES[1]) <==> (Includes(lower, "reise") || Includes(lower, "ferie") || Includes(lower, "tur") || Includes(lower, "hotell") || Includes(lower, "fly"))
  {
    assert RULES[1].words == ["reise", "ferie", "tur", "hotell", "fly"];
  }

  /** The `gaming` rung fires exactly when one of its words occurs. */
  lemma GamingRule(lower: string)
    ensures Fires(lower, RULES[2]) <==> (Includes(lower, "gaming") || Includes(lower, "spill") || Includes(lower, "playstation") || Includes(lower, "xbox") || Includes(lower, "nintendo"))
  {
    assert RULES[2].words == ["gaming", "spill", "playstation", "xbox", "nintendo"];
  }

  /** The `sport` rung fires exactly when one of its words occurs. */
  lemma SportRule(lower: string)
    ensures Fires(lower, RULES[3]) <==> (Includes(lower, "sport") || Includes(lower, "trening") || Includes(lower, "fotball") || Includes(lower, "ski"))
  {
    assert RULES[3].words == ["sport", "trening", "fotball", "ski"];
  }

  /** The `mat` rung fires exactly when one of its words occurs. */
  lemma FoodRule(lower: string)
    ensures Fires(lower, RULES[4]) <==> (Includes(lower, "mat") || Includes(lower, "restaurant") || Includes(lower, "kaffe") || Includes(lower, "pizza"))
  {
    assert RULES[4].words == ["mat", "restaurant", "kaffe", "pizza"];
  }

  // ----- the fallback record -----

  /** `createSmartFallback(scrapedData)` at time `now`, where `hostname`
      is the host name of the page's URL. */
  function SmartFallback(page: Scraped, hostname: string, now: Now): Record {
    var topic := SmartTopic(LowerStr(page.content));
    Record(
      id := Some(now),
      title := Some(Take(OrElse(page.title, None, "Ny konkurranse"), 80)),
      description := Some(SMART_DESCRIPTION),
      prize := Some(DEFAULT_PRIZE),
      organizer := Some(UpperFirst(SiteName(hostname))),
      deadline := Some(DefaultDeadline(now)),
      category := Some(topic.category),
      image := Some(topic.image),
      entryType := Some("gratis"),
      addedDate := Some(ToIsoString(now)),
      sourceUrl := Some(page.url),
      aiParsed := Some(false))
  }

  /** The fallback's title is the page title when there is one, else
      `Ny konkurranse`: its first 80 characters, or all of it when
      shorter; its organizer is the host name without its first `www.`,
      first letter upper-cased; its category is
      one of the six and its image that category's emoji; the remaining
      fields are fixed or come from the clock and the URL. */
  lemma SmartFallbackFields(page: Scraped, hostname: string, now: Now)
    ensures var r := SmartFallback(page, hostname, now);
      var site := SiteName(hostname);
      var source := if Truthy(page.title) then page.title.value else "Ny konkurranse";
      && r.title.Some? && |r.title.value| == (if |source| <= 80 then |source| else 80)
      && r.title.value == source[..|r.title.value|]
      && r.organizer.Some? && |r.organizer.value| == |site|
      && (site != [] ==> r.organizer.value[0] == Upper(site[0]) && r.organizer.value[1..] == site[1..])
      && GoodCategory(r.category) && r.image == Some(Emoji(r.category.value))
      && r.prize == Some("Se konkurransesiden for premieinformasjon")
      && r.description == Some("Se konkurransesiden for fullstendige detaljer og regler")
      && r.entryType == Some("gratis") && r.aiParsed == Some(false) && r.sourceUrl == Some(page.url)
      && r.deadline == Some(DateString(now + THIRTY_DAYS_MS)) && r.id == Some(now)
  {
    SmartTopicIsFirstRule(LowerStr(page.content));
  }

  /** A non-empty title of at most 80 characters is kept as it is. */
  lemma SmartFallbackShortTitle(page: Scraped, hostname: string, now: Now)
    requires page.title.Some? && 0 < |page.title.value| <= 80
    ensures SmartFallback(page, hostname, now).title == page.title
  {
  }

  // ----- the AI path -----

  /** `analyzeWithOpenAI` after the network call. `reply` is the model's
      message content (`None` when the request failed) and `parse` is
      `JSON.parse` (`None` when it throws). Fences are removed but the
      braces are not isolated, and the parsed record is not validated. */
  method AnalyzeWithOpenAI(page: Scraped, hostname: string, now: Now,
                           reply: Option<string>, parse: string -> Option<Record>)
    returns (r: Record)
    ensures reply.None? || parse(CleanReply(reply.value)).None? ==>
      r == SmartFallback(page, hostname, now)
    ensures reply.Some? && parse(CleanReply(reply.value)).Some? ==>
      r == Stamped(parse(CleanReply(reply.value)).value, now, page.url)
  {
    if reply.None? {
      return SmartFallback(page, hostname, now);
    }
    var cleaned := CleanReply(reply.value);
    var parsed := parse(cleaned);
    if parsed.None? {
      return SmartFallback(page, hostname, now);
    }
    var data := new Competition(parsed.value);
    data.Stamp(now, page.url);
    r := data.Value();
  }
}
