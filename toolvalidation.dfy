/**
 * The validator for a candidate tool record, and the name and URL
 * normalisations used as duplicate-detection keys.
 */
module ToolValidation {
  import opened Wrappers
  import opened JsString
  import opened Constants

  /** The six content fields of a candidate tool. */
  datatype ToolData = ToolData(
    name: string,
    iconUrl: string,
    description: string,
    category: string,
    pricingTag: string,
    officialLink: string
  )

  datatype ValidationResult = ValidationResult(valid: bool, errors: seq<string>)

  /** The parts of a parsed URL that `normalizeUrl` reads. */
  datatype ParsedUrl = ParsedUrl(origin: string, pathname: string)

  /**
   * `new URL(url)`: the platform's URL parser, which this model leaves
   * uninterpreted. `None` stands for the parser throwing.
   */
  type UrlParser = string -> Option<ParsedUrl>

  /** `isValidUrl`: the parser accepts the string. */
  predicate IsValidUrl(parse: UrlParser, url: string)
  {
    parse(url).Some?
  }

  /** `description.trim().split(/\s+/).length`, the count the validator checks. */
  function WordCount(description: string): (n: nat)
    ensures n >= 1
  {
    |SplitSpaces(Trim(description))|
  }

  /** `description.trim().split(/\s+/).filter(Boolean).length`, the count the submission form displays. */
  function DisplayedWordCount(description: string): nat
  {
    |Words(Trim(description))|
  }

  /** The six checks, in the order in which they report. */
  datatype Rule = NameRule | IconRule | DescriptionRule | CategoryRule | PricingRule | LinkRule

  const Rules: seq<Rule> := [NameRule, IconRule, DescriptionRule, CategoryRule, PricingRule, LinkRule]

  /** Whether `rule` rejects `data`. */
  predicate Fails(rule: Rule, data: ToolData, parse: UrlParser)
  {
    match rule
    case NameRule => data.name == "" || Trim(data.name) == ""
    case IconRule => data.iconUrl == "" || !IsValidUrl(parse, data.iconUrl)
    case DescriptionRule => WordCount(data.description) < 18 || WordCount(data.description) > 25
    case CategoryRule => data.category !in AllowedCategories
    case PricingRule => data.pricingTag !in AllowedPricingTags
    case LinkRule => data.officialLink == "" || !IsValidUrl(parse, data.officialLink)
  }

  /**
   * The category message: the allowed categories joined by ", ", written out the way
   * `Join` builds them (`AllowedValuesListed` shows the two agree).
   */
  const CategoryMessage: string :=
    "Category must be one of: " +
      ("AI Tools" + ", " + ("Image Tools" + ", " + ("Writing Tools" + ", " + ("Video Tools" + ", " + ("Developer Tools" + ", " + ("SEO Tools" + ", " + ("Student Tools" + ", " + "Business Tools")))))))

  /** The pricing message: the allowed pricing tags joined by ", ". */
  const PricingMessage: string := "Pricing tag must be one of: " + ("Free" + ", " + ("Freemium" + ", " + "Paid"))

  const NameMessage: string := "Tool name is required"
  const IconMessage: string := "Valid icon URL is required"
  const LinkMessage: string := "Valid official link is required"

  /** The description message, which reports the word count it found. */
  function DescriptionMessage(count: nat): string
  {
    "Description must be 18-25 words (current: " + NatToString(count) + ")"
  }

  /** The message a failing `rule` reports. */
  function Message(rule: Rule, data: ToolData): string
  {
    match rule
    case NameRule => NameMessage
    case IconRule => IconMessage
    case DescriptionRule => DescriptionMessage(WordCount(data.description))
    case CategoryRule => CategoryMessage
    case PricingRule => PricingMessage
    case LinkRule => LinkMessage
  }

  /** What one rule adds to the error list: its message when it fails, nothing otherwise. */
  function Contribution(rule: Rule, data: ToolData, parse: UrlParser): seq<string>
  {
    if Fails(rule, data, parse) then [Message(rule, data)] else []
  }

  /** The messages of the rules of `rules` that reject `data`, in the order of `rules`. */
  function ErrorsFor(rules: seq<Rule>, data: ToolData, parse: UrlParser): (errors: seq<string>)
    ensures |errors| <= |rules|
  {
    if rules == [] then []
    else ErrorsFor(rules[..|rules| - 1], data, parse) + Contribution(rules[|rules| - 1], data, parse)
  }

  /** The errors of `validateToolData`: every failing check, none skipped, in rule order. */
  function ValidationErrors(data: ToolData, parse: UrlParser): (errors: seq<string>)
    ensures |errors| <= 6
  {
    ErrorsFor(Rules, data, parse)
  }

  /** The result of `validateToolData`. */
  function Validate(data: ToolData, parse: UrlParser): (r: ValidationResult)
    ensures r.valid <==> r.errors == []
    ensures |r.errors| <= 6
  {
    var errors := ValidationErrors(data, parse);
    ValidationResult(errors == [], errors)
  }

  /**
   * `validateToolData`: six independent checks, run in rule order, each appending its
   * message when it fails.
   */
  method ValidateToolData(data: ToolData, parse: UrlParser) returns (result: ValidationResult)
    ensures result == Validate(data, parse)
    ensures result.valid <==> result.errors == []
  {
    var errors: seq<string> := [];
    errors := CheckName(data, parse, errors);
    errors := CheckIcon(data, parse, errors);
    errors := CheckDescription(data, parse, errors);
    errors := CheckCategory(data, parse, errors);
    errors := CheckPricing(data, parse, errors);
    errors := CheckLink(data, parse, errors);
    assert [] + Contribution(NameRule, data, parse) == Contribution(NameRule, data, parse);
    ValidationErrorsInOrder(data, parse);
    result := ValidationResult(|errors| == 0, errors);
  }

  /** The name check: a missing or all-white-space name. */
  method CheckName(data: ToolData, parse: UrlParser, errors: seq<string>) returns (next: seq<string>)
    ensures next == errors + Contribution(NameRule, data, parse)
  {
    next := errors;
    if data.name == "" || Trim(data.name) == "" {
      next := next + [NameMessage];
    }
  }

  /** The icon check: a missing icon URL or one the URL parser rejects. */
  method CheckIcon(data: ToolData, parse: UrlParser, errors: seq<string>) returns (next: seq<string>)
    ensures next == errors + Contribution(IconRule, data, parse)
  {
    next := errors;
    if data.iconUrl == "" || !IsValidUrl(parse, data.iconUrl) {
      next := next + [IconMessage];
    }
  }

  /** The description check: fewer than 18 or more than 25 words, reporting the count. */
  method CheckDescription(data: ToolData, parse: UrlParser, errors: seq<string>) returns (next: seq<string>)
    ensures next == errors + Contribution(DescriptionRule, data, parse)
  {
    next := errors;
    var wordCount := WordCount(data.description);
    if wordCount < 18 || wordCount > 25 {
      next := next + [DescriptionMessage(wordCount)];
    }
  }

  /** The category check: a category outside the allowed list. */
  method CheckCategory(data: ToolData, parse: UrlParser, errors: seq<string>) returns (next: seq<string>)
    ensures next == errors + Contribution(CategoryRule, data, parse)
  {
    next := errors;
    if data.category !in AllowedCategories {
      next := next + [CategoryMessage];
    }
  }

  /** The pricing check: a pricing tag outside the allowed list. */
  method CheckPricing(data: ToolData, parse: UrlParser, errors: seq<string>) returns (next: seq<string>)
    ensures next == errors + Contribution(PricingRule, data, parse)
  {
    next := errors;
    if data.pricingTag !in AllowedPricingTags {
      next := next + [PricingMessage];
    }
  }

  /** The link check: a missing official link or one the URL parser rejects. */
  method CheckLink(data: ToolData, parse: UrlParser, errors: seq<string>) returns (next: seq<string>)
    ensures next == errors + Contribution(LinkRule, data, parse)
  {
    next := errors;
    if data.officialLink == "" || !IsValidUrl(parse, data.officialLink) {
      next := next + [LinkMessage];
    }
  }

  /** The validation errors are the six contributions, concatenated in rule order. */
  lemma ValidationErrorsInOrder(data: ToolData, parse: UrlParser)
    ensures ValidationErrors(data, parse) ==
      Contribution(NameRule, data, parse) + Contribution(IconRule, data, parse)
      + Contribution(DescriptionRule, data, parse) + Contribution(CategoryRule, data, parse)
      + Contribution(PricingRule, data, parse) + Contribution(LinkRule, data, parse)
  {
    var r1 := [NameRule];
    var r2 := [NameRule, IconRule];
    var r3 := [NameRule, IconRule, DescriptionRule];
    var r4 := [NameRule, IconRule, DescriptionRule, CategoryRule];
    var r5 := [NameRule, IconRule, DescriptionRule, CategoryRule, PricingRule];
    assert ErrorsFor(r1, data, parse) == Contribution(NameRule, data, parse) by { assert r1[..0] == []; }
    assert ErrorsFor(r2, data, parse) == ErrorsFor(r1, data, parse) + Contribution(IconRule, data, parse) by { assert r2[..1] == r1; }
    assert ErrorsFor(r3, data, parse) == ErrorsFor(r2, data, parse) + Contribution(DescriptionRule, data, parse) by { assert r3[..2] == r2; }
    assert ErrorsFor(r4, data, parse) == ErrorsFor(r3, data, parse) + Contribution(CategoryRule, data, parse) by { assert r4[..3] == r3; }
    assert ErrorsFor(r5, data, parse) == ErrorsFor(r4, data, parse) + Contribution(PricingRule, data, parse) by { assert r5[..4] == r4; }
    assert ErrorsFor(Rules, data, parse) == ErrorsFor(r5, data, parse) + Contribution(LinkRule, data, parse) by { assert Rules[..5] == r5; }
  }

  /** The two messages that list allowed values list the constant lists, comma-separated, in their order. */
  lemma AllowedValuesListed()
    ensures CategoryMessage == "Category must be one of: " + Join(AllowedCategories, ", ")
    ensures PricingMessage == "Pricing tag must be one of: " + Join(AllowedPricingTags, ", ")
  {
    var sep := ", ";
    JoinCons("Freemium", ["Paid"], sep);
    JoinCons("Free", ["Freemium", "Paid"], sep);
    assert AllowedPricingTags == ["Free"] + ["Freemium", "Paid"];
    JoinCons("Student Tools", ["Business Tools"], sep);
    JoinCons("SEO Tools", ["Student Tools", "Business Tools"], sep);
    JoinCons("Developer Tools", ["SEO Tools", "Student Tools", "Business Tools"], sep);
    JoinCons("Video Tools", ["Developer Tools", "SEO Tools", "Student Tools", "Business Tools"], sep);
    JoinCons("Writing Tools", ["Video Tools", "Developer Tools", "SEO Tools", "Student Tools", "Business Tools"], sep);
    JoinCons("Image Tools", ["Writing Tools", "Video Tools", "Developer Tools", "SEO Tools", "Student Tools", "Business Tools"], sep);
    JoinCons("AI Tools", ["Image Tools", "Writing Tools", "Video Tools", "Developer Tools", "SEO Tools", "Student Tools", "Business Tools"], sep);
    assert AllowedCategories == ["AI Tools"] + ["Image Tools", "Writing Tools", "Video Tools", "Developer Tools", "SEO Tools", "Student Tools", "Business Tools"];
  }

  /** A message is among the errors of `rules` exactly when some rule of `rules` fails with that message. */
  lemma ErrorsForMembers(rules: seq<Rule>, data: ToolData, parse: UrlParser, m: string)
    ensures m in ErrorsFor(rules, data, parse) <==>
      exists k | 0 <= k < |rules| :: Fails(rules[k], data, parse) && Message(rules[k], data) == m
  {
    if m in ErrorsFor(rules, data, parse) {
      ErrorsComeFromFailures(rules, data, parse, m);
    }
    if exists k | 0 <= k < |rules| :: Fails(rules[k], data, parse) && Message(rules[k], data) == m {
      var k :| 0 <= k < |rules| && Fails(rules[k], data, parse) && Message(rules[k], data) == m;
      FailuresAreReported(rules, data, parse, k);
    }
  }

  /** Every error is the message of a failing rule of the list. */
  lemma {:induction false} ErrorsComeFromFailures(rules: seq<Rule>, data: ToolData, parse: UrlParser, m: string)
    requires m in ErrorsFor(rules, data, parse)
    ensures exists k | 0 <= k < |rules| :: Fails(rules[k], data, parse) && Message(rules[k], data) == m
    decreases |rules|
  {
    var n := |rules| - 1;
    var init := rules[..n];
    if m in ErrorsFor(init, data, parse) {
      ErrorsComeFromFailures(init, data, parse, m);
      var k :| 0 <= k < |init| && Fails(init[k], data, parse) && Message(init[k], data) == m;
      assert rules[k] == init[k];
    } else {
      assert Fails(rules[n], data, parse) && Message(rules[n], data) == m;
    }
  }

  /** The message of every failing rule of the list is among its errors. */
  lemma {:induction false} FailuresAreReported(rules: seq<Rule>, data: ToolData, parse: UrlParser, k: nat)
    requires k < |rules| && Fails(rules[k], data, parse)
    ensures Message(rules[k], data) in ErrorsFor(rules, data, parse)
    decreases |rules|
  {
    var n := |rules| - 1;
    if k < n {
      var init := rules[..n];
      assert init[k] == rules[k];
      FailuresAreReported(init, data, parse, k);
      InPrefix(ErrorsFor(init, data, parse), Contribution(rules[n], data, parse), Message(rules[k], data));
    } else {
      LastRuleReported(rules, data, parse);
    }
  }

  /** A member of a list stays a member after anything is appended. */
  lemma InPrefix(a: seq<string>, b: seq<string>, m: string)
    requires m in a
    ensures m in a + b
  {
  }

  /** The message of a failing last rule is among the errors. */
  lemma LastRuleReported(rules: seq<Rule>, data: ToolData, parse: UrlParser)
    requires rules != [] && Fails(rules[|rules| - 1], data, parse)
    ensures Message(rules[|rules| - 1], data) in ErrorsFor(rules, data, parse)
  {
  }

  /** The errors of `rules` are empty exactly when none of its rules fails. */
  lemma ErrorsForEmpty(rules: seq<Rule>, data: ToolData, parse: UrlParser)
    ensures ErrorsFor(rules, data, parse) == [] <==> forall k | 0 <= k < |rules| :: !Fails(rules[k], data, parse)
  {
    var errors := ErrorsFor(rules, data, parse);
    if errors != [] {
      ErrorsForMembers(rules, data, parse, errors[0]);
    } else {
      forall k | 0 <= k < |rules|
        ensures !Fails(rules[k], data, parse)
      {
        ErrorsForMembers(rules, data, parse, Message(rules[k], data));
      }
    }
  }

  /** Every rule is among the six that run. */
  lemma RuleRuns(rule: Rule)
    ensures exists k | 0 <= k < |Rules| :: Rules[k] == rule
  {
    match rule
    case NameRule => assert Rules[0] == rule;
    case IconRule => assert Rules[1] == rule;
    case DescriptionRule => assert Rules[2] == rule;
    case CategoryRule => assert Rules[3] == rule;
    case PricingRule => assert Rules[4] == rule;
    case LinkRule => assert Rules[5] == rule;
  }

  /** A submission is valid exactly when no check rejects it. */
  lemma ValidExactlyWhenNoRuleFails(data: ToolData, parse: UrlParser)
    ensures Validate(data, parse).valid <==> forall rule: Rule :: !Fails(rule, data, parse)
  {
    ErrorsForEmpty(Rules, data, parse);
    if Validate(data, parse).valid {
      forall rule: Rule
        ensures !Fails(rule, data, parse)
      {
        RuleRuns(rule);
      }
    }
  }

  /** First letter and seventh letter of each message, which tell the six messages apart. */
  function Marks(rule: Rule): (char, char)
  {
    match rule
    case NameRule => ('T', 'a')
    case IconRule => ('V', 'i')
    case DescriptionRule => ('D', 'p')
    case CategoryRule => ('C', 'r')
    case PricingRule => ('P', 'g')
    case LinkRule => ('V', 'o')
  }

  lemma MessageMarks(rule: Rule, data: ToolData)
    ensures |Message(rule, data)| > 6 && (Message(rule, data)[0], Message(rule, data)[6]) == Marks(rule)
  {
    match rule
    case NameRule => assert NameMessage[0] == 'T' && NameMessage[6] == 'a';
    case IconRule => assert IconMessage[0] == 'V' && IconMessage[6] == 'i';
    case DescriptionRule => DescriptionMessageMarks(WordCount(data.description));
    case CategoryRule => ListingMessageMarks("Category must be one of: ", CategoryMessage);
    case PricingRule => ListingMessageMarks("Pricing tag must be one of: ", PricingMessage);
    case LinkRule => assert LinkMessage[0] == 'V' && LinkMessage[6] == 'o';
  }

  lemma DescriptionMessageMarks(count: nat)
    ensures |DescriptionMessage(count)| > 6 && DescriptionMessage(count)[0] == 'D' && DescriptionMessage(count)[6] == 'p'
  {
    var prefix := "Description must be 18-25 words (current: ";
    assert prefix[0] == 'D' && prefix[6] == 'p';
    assert DescriptionMessage(count) == prefix + (NatToString(count) + ")");
  }

  /** A message that starts with `prefix` has the prefix's first and seventh letters. */
  lemma ListingMessageMarks(prefix: string, m: string)
    requires |prefix| > 6 && |m| >= |prefix| && m[..|prefix|] == prefix
    ensures |m| > 6 && m[0] == prefix[0] && m[6] == prefix[6]
  {
    assert m[0] == m[..|prefix|][0] && m[6] == m[..|prefix|][6];
  }

  /** Different checks report different messages. */
  lemma MessagesDistinct(r1: Rule, r2: Rule, data: ToolData)
    requires r1 != r2
    ensures Message(r1, data) != Message(r2, data)
  {
    MessageMarks(r1, data);
    MessageMarks(r2, data);
  }

  /** A check's message is reported exactly when that check fails. */
  lemma ReportedExactlyWhenFails(rule: Rule, data: ToolData, parse: UrlParser)
    ensures Message(rule, data) in ValidationErrors(data, parse) <==> Fails(rule, data, parse)
  {
    ErrorsForMembers(Rules, data, parse, Message(rule, data));
    RuleRuns(rule);
    if Message(rule, data) in ValidationErrors(data, parse) {
      var k :| 0 <= k < |Rules| && Fails(Rules[k], data, parse) && Message(Rules[k], data) == Message(rule, data);
      if Rules[k] != rule {
        MessagesDistinct(Rules[k], rule, data);
      }
    }
  }

  /** The name check rejects exactly the names that are empty or all white space. */
  lemma NameRequiredExactlyWhenBlank(data: ToolData, parse: UrlParser)
    ensures "Tool name is required" in ValidationErrors(data, parse) <==> IsBlank(data.name)
  {
    ReportedExactlyWhenFails(NameRule, data, parse);
  }

  /**
   * The validator's word count agrees with the form's displayed count except on a blank
   * description, which the validator counts as one word and the form as none.
   */
  lemma WordCountAgainstDisplayed(description: string)
    ensures IsBlank(description) ==> WordCount(description) == 1 && DisplayedWordCount(description) == 0
    ensures !IsBlank(description) ==> WordCount(description) == DisplayedWordCount(description) >= 1
  {
    var t := Trim(description);
    if t != [] {
      SplitSpacesFromNonEmpty(t, "");
    }
  }

  /** The description message embeds the word count in decimal, which reads back as the count. */
  lemma DescriptionMessageReportsCount(data: ToolData)
    ensures exists digits: string | (forall i | 0 <= i < |digits| :: '0' <= digits[i] <= '9') ::
      Message(DescriptionRule, data) == "Description must be 18-25 words (current: " + digits + ")"
      && DecimalValue(digits) == WordCount(data.description)
  {
    var digits := NatToString(WordCount(data.description));
    DecimalRoundTrip(WordCount(data.description));
    assert Message(DescriptionRule, data) == "Description must be 18-25 words (current: " + digits + ")";
  }

  /** A description of words separated by single spaces has as many words as the list. */
  lemma WordCountOfWords(words: seq<string>)
    requires |words| >= 1
    requires forall k | 0 <= k < |words| :: words[k] != [] && NoSpace(words[k])
    ensures WordCount(Join(words, " ")) == |words|
  {
    var j := Join(words, " ");
    JoinWordsStartsWithWord(words);
    assert IsTrimmed(j);
    TrimOfTrimmed(j);
    SplitSpacesJoin(words);
    assert WordCount(j) == |SplitSpaces(j)|;
  }

  /** So the description check passes exactly for 18 to 25 such words. */
  lemma DescriptionAcceptsWordRange(data: ToolData, parse: UrlParser, words: seq<string>)
    requires |words| >= 1
    requires forall k | 0 <= k < |words| :: words[k] != [] && NoSpace(words[k])
    requires data.description == Join(words, " ")
    ensures !Fails(DescriptionRule, data, parse) <==> 18 <= |words| <= 25
  {
    WordCountOfWords(words);
  }

  /** `normalizeToolName`: trimmed, lower-cased, white-space runs collapsed to one space. */
  function NormalizeToolName(name: string): string
  {
    CollapseSpaces(ToLower(Trim(name)))
  }

  /** `pathname.replace(/\/$/, '')`: one trailing slash removed. */
  function StripTrailingSlash(path: string): string
  {
    if path != [] && path[|path| - 1] == '/' then path[..|path| - 1] else path
  }

  /** `normalizeUrl`: origin plus path without its trailing slash, or the trimmed lower-cased input when parsing fails. */
  function NormalizeUrl(parse: UrlParser, url: string): string
  {
    match parse(url)
    case Some(p) => p.origin + StripTrailingSlash(p.pathname)
    case None => ToLower(Trim(url))
  }

  /** A string in which lower-casing changes no character. */
  predicate IsLowerCase(s: string)
  {
    forall i | 0 <= i < |s| :: LowerChar(s[i]) == s[i]
  }

  lemma LowerCaseFixed(s: string)
    requires IsLowerCase(s)
    ensures ToLower(s) == s
  {
  }

  /**
   * The duplicate-detection key of a name is trimmed, in lower case, and its only
   * white space is single spaces.
   */
  lemma NormalizedNameShape(name: string)
    ensures IsTrimmed(NormalizeToolName(name))
    ensures IsLowerCase(NormalizeToolName(name))
    ensures var key := NormalizeToolName(name);
      forall i | 0 <= i < |key| :: IsSpace(key[i]) ==> key[i] == ' '
    ensures var key := NormalizeToolName(name);
      forall i | 0 <= i < |key| - 1 :: !(IsSpace(key[i]) && IsSpace(key[i + 1]))
  {
    var lowered := ToLower(Trim(name));
    ToLowerFacts(Trim(name));
    var key := CollapseSpaces(lowered);
    forall i | 0 <= i < |key|
      ensures LowerChar(key[i]) == key[i]
    {
      if key[i] != ' ' {
        var j :| 0 <= j < |lowered| && lowered[j] == key[i];
        LowerCharFacts(Trim(name)[j]);
      }
    }
  }

  /** A name already in normal form is its own key. */
  lemma NormalFormFixed(key: string)
    requires IsTrimmed(key) && IsLowerCase(key)
    requires forall i | 0 <= i < |key| :: IsSpace(key[i]) ==> key[i] == ' '
    requires forall i | 0 <= i < |key| - 1 :: !(IsSpace(key[i]) && IsSpace(key[i + 1]))
    ensures NormalizeToolName(key) == key
  {
    TrimOfTrimmed(key);
    LowerCaseFixed(key);
    CollapseSpacesFixed(key);
  }

  /**
   * The name key is the name's words, lower-cased, joined by single spaces: which white
   * space separates the words, and how much of it, does not matter.
   */
  lemma NormalizeToolNameAsWords(name: string)
    ensures NormalizeToolName(name) == Join(LowerAll(Words(name)), " ")
  {
    TrimLowerCommute(name);
    CollapseTrimmedAsWords(ToLower(name));
    WordsLower(name);
  }

  /** Two names share a key exactly when they have the same words up to ASCII case. */
  lemma SameKeyExactlyWhenSameWords(a: string, b: string)
    ensures NormalizeToolName(a) == NormalizeToolName(b) <==> LowerAll(Words(a)) == LowerAll(Words(b))
  {
    NormalizeToolNameAsWords(a);
    NormalizeToolNameAsWords(b);
    WordsLower(a);
    WordsLower(b);
    WordsAreWords(ToLower(a));
    WordsAreWords(ToLower(b));
    if NormalizeToolName(a) == NormalizeToolName(b) {
      JoinWordsInjective(LowerAll(Words(a)), LowerAll(Words(b)));
    }
  }

  /** Names that differ only in ASCII case share a key. */
  lemma CaseIgnored(a: string, b: string)
    requires ToLower(a) == ToLower(b)
    ensures NormalizeToolName(a) == NormalizeToolName(b)
  {
    TrimLowerCommute(a);
    TrimLowerCommute(b);
  }

  /** Names with the same words share a key, however the words are spaced. */
  lemma SpacingIgnored(a: string, b: string)
    requires Words(a) == Words(b)
    ensures NormalizeToolName(a) == NormalizeToolName(b)
  {
    NormalizeToolNameAsWords(a);
    NormalizeToolNameAsWords(b);
  }

  /** Normalising a key again gives the same key. */
  lemma NormalizeToolNameIdempotent(name: string)
    ensures NormalizeToolName(NormalizeToolName(name)) == NormalizeToolName(name)
  {
    NormalizedNameShape(name);
    NormalFormFixed(NormalizeToolName(name));
  }

  /** When the URL parses, a trailing slash on its path does not change the key. */
  lemma TrailingSlashIgnored(parse: UrlParser, url: string, slashed: string, origin: string, path: string)
    requires path == [] || path[|path| - 1] != '/'
    requires parse(url) == Some(ParsedUrl(origin, path))
    requires parse(slashed) == Some(ParsedUrl(origin, path + "/"))
    ensures NormalizeUrl(parse, url) == NormalizeUrl(parse, slashed) == origin + path
  {
    assert (path + "/")[..|path|] == path;
  }

  /**
   * When the URL does not parse, its key is the trimmed input in lower case; that key is
   * trimmed and lower case, so normalising it the same way changes nothing.
   */
  lemma UnparsedUrlKey(parse: UrlParser, url: string)
    requires parse(url).None?
    ensures NormalizeUrl(parse, url) == ToLower(Trim(url))
    ensures IsTrimmed(NormalizeUrl(parse, url)) && IsLowerCase(NormalizeUrl(parse, url))
    ensures ToLower(Trim(NormalizeUrl(parse, url))) == NormalizeUrl(parse, url)
  {
    var t := Trim(url);
    ToLowerFacts(t);
    TrimOfTrimmed(ToLower(t));
    forall i | 0 <= i < |t|
      ensures LowerChar(ToLower(t)[i]) == ToLower(t)[i]
    {
      LowerCharFacts(t[i]);
    }
  }

  /**
   * Two URLs that do not parse share a key when they differ only in ASCII case and in the
   * white space around them; the key is the lower-cased core.
   */
  lemma UnparsedUrlsSameKey(parse: UrlParser, pre1: string, core1: string, post1: string,
                            pre2: string, core2: string, post2: string)
    requires IsBlank(pre1) && IsTrimmed(core1) && IsBlank(post1)
    requires IsBlank(pre2) && IsTrimmed(core2) && IsBlank(post2)
    requires ToLower(core1) == ToLower(core2)
    requires parse(pre1 + core1 + post1).None? && parse(pre2 + core2 + post2).None?
    ensures NormalizeUrl(parse, pre1 + core1 + post1) == NormalizeUrl(parse, pre2 + core2 + post2) == ToLower(core1)
  {
    TrimOfPadded(pre1, core1, post1);
    TrimOfPadded(pre2, core2, post2);
  }
}
