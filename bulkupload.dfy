/**
 * The administrator's bulk-upload page: a CSV file is parsed, every row is
 * mapped onto the six tool fields (accepting several column spellings),
 * validated, and the valid rows are sent to the backend as new tools.
 */
module BulkUpload {
  import opened Wrappers
  import opened Csv
  import opened ToolValidation
  import opened Backend
  import opened JsString

  // ---------------------------------------------------------------------------
  // Row mapping
  // ---------------------------------------------------------------------------

  /** A column present in `row` with a non-empty value (JavaScript's truthy string). */
  predicate Filled(row: Row, column: string)
  {
    column in row && row[column] != ""
  }

  /**
   * `row[a0] || row[a1] || … || ''`: the value of the first alias whose column is
   * filled, or the empty string when none is.
   */
  function FirstNonEmpty(row: Row, aliases: seq<string>): (v: string)
    ensures v == "" <==> forall k | 0 <= k < |aliases| :: !Filled(row, aliases[k])
    ensures v != "" ==> exists k | 0 <= k < |aliases| ::
      Filled(row, aliases[k]) && row[aliases[k]] == v && forall j | 0 <= j < k :: !Filled(row, aliases[j])
  {
    if aliases == [] then ""
    else if Filled(row, aliases[0]) then row[aliases[0]]
    else
      var v := FirstNonEmpty(row, aliases[1..]);
      assert forall k | 1 <= k < |aliases| :: aliases[k] == aliases[1..][k - 1];
      v
  }

  const NameAliases: seq<string> := ["name", "tool_name"]
  const IconAliases: seq<string> := ["iconUrl", "icon_url", "tool_icon_url"]
  const DescriptionAliases: seq<string> := ["description"]
  const CategoryAliases: seq<string> := ["category"]
  const PricingAliases: seq<string> := ["pricingTag", "pricing_tag"]
  const LinkAliases: seq<string> := ["officialLink", "official_link"]

  /** The candidate tool a CSV row describes. */
  function MapRow(row: Row): ToolData
  {
    ToolData(
      FirstNonEmpty(row, NameAliases),
      FirstNonEmpty(row, IconAliases),
      FirstNonEmpty(row, DescriptionAliases),
      FirstNonEmpty(row, CategoryAliases),
      FirstNonEmpty(row, PricingAliases),
      FirstNonEmpty(row, LinkAliases))
  }

  lemma LastAlias(row: Row, column: string)
    ensures FirstNonEmpty(row, [column]) == if Filled(row, column) then row[column] else ""
  {
    assert [column][1..] == [];
  }

  /** With two spellings, the first is read when filled, the second otherwise. */
  lemma TwoAliases(row: Row, first: string, second: string)
    ensures FirstNonEmpty(row, [first, second]) ==
      if Filled(row, first) then row[first] else if Filled(row, second) then row[second] else ""
  {
    assert [first, second][1..] == [second];
    LastAlias(row, second);
  }

  /** With three spellings, they are tried in order. */
  lemma ThreeAliases(row: Row, first: string, second: string, third: string)
    ensures FirstNonEmpty(row, [first, second, third]) ==
      if Filled(row, first) then row[first] else FirstNonEmpty(row, [second, third])
  {
    assert [first, second, third][1..] == [second, third];
  }

  /**
   * A column spelled the canonical way wins over its aliases; an alias is read only
   * when the spellings before it are empty or absent; a field no spelling fills is empty.
   */
  lemma CanonicalColumnWins(row: Row)
    ensures MapRow(row).name ==
      if Filled(row, "name") then row["name"] else if Filled(row, "tool_name") then row["tool_name"] else ""
    ensures MapRow(row).iconUrl ==
      if Filled(row, "iconUrl") then row["iconUrl"] else if Filled(row, "icon_url") then row["icon_url"]
      else if Filled(row, "tool_icon_url") then row["tool_icon_url"] else ""
    ensures MapRow(row).description == if Filled(row, "description") then row["description"] else ""
    ensures MapRow(row).category == if Filled(row, "category") then row["category"] else ""
    ensures MapRow(row).pricingTag ==
      if Filled(row, "pricingTag") then row["pricingTag"] else if Filled(row, "pricing_tag") then row["pricing_tag"] else ""
    ensures MapRow(row).officialLink ==
      if Filled(row, "officialLink") then row["officialLink"]
      else if Filled(row, "official_link") then row["official_link"] else ""
  {
    TwoAliases(row, "name", "tool_name");
    ThreeAliases(row, "iconUrl", "icon_url", "tool_icon_url");
    TwoAliases(row, "icon_url", "tool_icon_url");
    LastAlias(row, "description");
    LastAlias(row, "category");
    TwoAliases(row, "pricingTag", "pricing_tag");
    TwoAliases(row, "officialLink", "official_link");
  }

  // ---------------------------------------------------------------------------
  // Validation results
  // ---------------------------------------------------------------------------

  /** One line of the results table: the mapped row and the validator's verdict on it. */
  datatype ValidationRow = ValidationRow(row: ToolData, valid: bool, errors: seq<string>)

  /** The result recorded for one mapped row. */
  function ResultFor(data: ToolData, parse: UrlParser): ValidationRow
  {
    var validation := Validate(data, parse);
    ValidationRow(data, validation.valid, validation.errors)
  }

  /** `rows.map(…)`: every parsed row mapped and validated, in order. */
  function ValidateRows(rows: seq<Row>, parse: UrlParser): seq<ValidationRow>
  {
    seq(|rows|, k requires 0 <= k < |rows| => ResultFor(MapRow(rows[k]), parse))
  }

  /** A results table in which every line carries the validator's verdict on its own row. */
  predicate Consistent(results: seq<ValidationRow>, parse: UrlParser)
  {
    forall k | 0 <= k < |results| :: results[k] == ResultFor(results[k].row, parse)
  }

  /**
   * The table has one line per parsed row, in the rows' order; line k holds row k's
   * mapped fields, and it is marked valid exactly when it has no errors, which is
   * exactly when no check rejects the mapped row.
   */
  lemma ValidateRowsFaithful(rows: seq<Row>, parse: UrlParser)
    ensures |ValidateRows(rows, parse)| == |rows|
    ensures Consistent(ValidateRows(rows, parse), parse)
    ensures forall k | 0 <= k < |rows| :: ValidateRows(rows, parse)[k].row == MapRow(rows[k])
    ensures forall k | 0 <= k < |rows| ::
      (ValidateRows(rows, parse)[k].valid <==> ValidateRows(rows, parse)[k].errors == [])
    ensures forall k | 0 <= k < |rows| ::
      (ValidateRows(rows, parse)[k].valid <==> forall rule: Rule :: !Fails(rule, MapRow(rows[k]), parse))
  {
    forall k | 0 <= k < |rows|
      ensures ValidateRows(rows, parse)[k].valid <==> forall rule: Rule :: !Fails(rule, MapRow(rows[k]), parse)
    {
      ValidExactlyWhenNoRuleFails(MapRow(rows[k]), parse);
    }
  }

  /** `results.filter((r) => r.valid)`. */
  function ValidRows(results: seq<ValidationRow>): (valid: seq<ValidationRow>)
    ensures |valid| <= |results|
    ensures forall k | 0 <= k < |valid| :: valid[k].valid && valid[k] in results
  {
    if results == [] then []
    else if results[0].valid then [results[0]] + ValidRows(results[1..])
    else ValidRows(results[1..])
  }

  /** `results.filter((r) => !r.valid)`: the lines the counts call invalid. */
  function InvalidRows(results: seq<ValidationRow>): seq<ValidationRow>
  {
    if results == [] then []
    else if results[0].valid then InvalidRows(results[1..])
    else [results[0]] + InvalidRows(results[1..])
  }

  /** Every valid line of the table is kept, none other, in the table's order. */
  lemma {:induction false} ValidRowsKeepsValid(results: seq<ValidationRow>, x: ValidationRow)
    ensures x in ValidRows(results) <==> x in results && x.valid
    decreases |results|
  {
    if results != [] {
      ValidRowsKeepsValid(results[1..], x);
      assert results == [results[0]] + results[1..];
    }
  }

  /** Filtering keeps order: the valid lines of two tables in a row are those of the first, then those of the second. */
  lemma {:induction false} ValidRowsAppend(a: seq<ValidationRow>, b: seq<ValidationRow>)
    ensures ValidRows(a + b) == ValidRows(a) + ValidRows(b)
    decreases |a|
  {
    if a != [] {
      assert (a + b)[1..] == a[1..] + b;
      ValidRowsAppend(a[1..], b);
    } else {
      assert a + b == b;
    }
  }

  /** Filtering splits the table: the valid lines followed by the invalid ones have the table's length. */
  lemma {:induction false} FilterPartition(results: seq<ValidationRow>)
    ensures |ValidRows(results)| + |InvalidRows(results)| == |results|
    decreases |results|
  {
    if results != [] {
      FilterPartition(results[1..]);
    }
  }

  /** `validCount`. */
  function ValidCount(results: seq<ValidationRow>): nat
  {
    |ValidRows(results)|
  }

  /** `invalidCount = validationResults.length - validCount`. */
  function InvalidCount(results: seq<ValidationRow>): (n: int)
    ensures 0 <= n <= |results|
  {
    |results| - ValidCount(results)
  }

  /** The difference the page computes is the number of invalid lines, so the two counts add up to the table. */
  lemma CountsAddUp(results: seq<ValidationRow>)
    ensures InvalidCount(results) == |InvalidRows(results)|
    ensures ValidCount(results) + InvalidCount(results) == |results|
  {
    FilterPartition(results);
  }

  // ---------------------------------------------------------------------------
  // Tool records
  // ---------------------------------------------------------------------------

  /** The six content fields of a tool record. */
  function ContentOf(tool: Tool): ToolData
  {
    ToolData(tool.name, tool.iconUrl, tool.description, tool.category, tool.pricingTag, tool.officialLink)
  }

  /** `BigInt(Date.now() * 1000000)`: a clock reading `now` (in milliseconds) in nanoseconds. */
  function Nanoseconds(now: int): int
  {
    now * 1000000
  }

  /**
   * The clock as seen by one upload: `clock(n)` is what the n-th call of
   * `Date.now()` during the upload returns, in milliseconds.
   */
  type Clock = nat -> int

  /**
   * A new tool record for one valid line, `created` and `updated` being the two clock
   * readings its object literal takes; the backend assigns the identifier and the slug.
   */
  function NewTool(data: ToolData, created: int, updated: int): Tool
  {
    Tool(0, data.name, data.iconUrl, data.description, data.category, data.pricingTag, data.officialLink,
      Nanoseconds(created), Nanoseconds(updated), false, false, "", None, None, None)
  }

  /**
   * `validRows.map(…)`: one new tool per valid line, in order; the k-th record reads
   * the clock twice, for `createdAt` and then for `updatedAt`, after the 2k readings
   * of the records before it.
   */
  function ToTools(valid: seq<ValidationRow>, clock: Clock): seq<Tool>
  {
    seq(|valid|, k requires 0 <= k < |valid| => NewTool(valid[k].row, clock(2 * k), clock(2 * k + 1)))
  }

  /**
   * The tools sent are one per valid line, in order: each carries that line's content,
   * identifier 0, no flags, an empty slug, no SEO fields, and the two clock readings
   * its record takes, in nanoseconds.
   */
  lemma ToToolsFaithful(valid: seq<ValidationRow>, clock: Clock)
    ensures |ToTools(valid, clock)| == |valid|
    ensures forall k | 0 <= k < |valid| :: ContentOf(ToTools(valid, clock)[k]) == valid[k].row
    ensures forall k | 0 <= k < |valid| ::
      ToTools(valid, clock)[k].createdAt == clock(2 * k) * 1000000
      && ToTools(valid, clock)[k].updatedAt == clock(2 * k + 1) * 1000000
    ensures forall t | t in ToTools(valid, clock) ::
      t.id == 0 && !t.isFeatured && !t.isPopular && t.slug == ""
      && t.seoTitle.None? && t.seoDescription.None? && t.seoKeywords.None?
  {
    forall k | 0 <= k < |valid|
      ensures ContentOf(ToTools(valid, clock)[k]) == valid[k].row
    {
      assert ToTools(valid, clock)[k] == NewTool(valid[k].row, clock(2 * k), clock(2 * k + 1));
    }
  }

  /** A clock that never goes back. */
  ghost predicate Monotonic(clock: Clock)
  {
    forall i: nat, j: nat | i <= j :: clock(i) <= clock(j)
  }

  /**
   * With a clock that never goes back, no record is updated before it is created, and
   * the records are timestamped in the order of their lines.
   */
  lemma TimestampsInLineOrder(valid: seq<ValidationRow>, clock: Clock)
    requires Monotonic(clock)
    ensures forall k | 0 <= k < |valid| :: ToTools(valid, clock)[k].createdAt <= ToTools(valid, clock)[k].updatedAt
    ensures forall j, k | 0 <= j < k < |valid| :: ToTools(valid, clock)[j].updatedAt <= ToTools(valid, clock)[k].createdAt
  {
    var tools := ToTools(valid, clock);
    forall k | 0 <= k < |valid|
      ensures tools[k].createdAt <= tools[k].updatedAt
    {
      assert clock(2 * k) <= clock(2 * k + 1);
    }
    forall j, k | 0 <= j < k < |valid|
      ensures tools[j].updatedAt <= tools[k].createdAt
    {
      assert clock(2 * j + 1) <= clock(2 * k);
    }
  }

  /** Every tool sent from a consistent table has content the validator accepts. */
  lemma UploadedToolsPassValidation(results: seq<ValidationRow>, parse: UrlParser, clock: Clock)
    requires Consistent(results, parse)
    ensures forall t | t in ToTools(ValidRows(results), clock) :: Validate(ContentOf(t), parse).valid
  {
    var valid := ValidRows(results);
    forall t | t in ToTools(valid, clock)
      ensures Validate(ContentOf(t), parse).valid
    {
      var k :| 0 <= k < |valid| && ToTools(valid, clock)[k] == t;
      ToToolsFaithful(valid, clock);
      assert ContentOf(t) == valid[k].row;
      assert valid[k] in results;
    }
  }

  // ---------------------------------------------------------------------------
  // The page
  // ---------------------------------------------------------------------------

  /** A chosen file: its name and the text `file.text()` yields. */
  datatype CsvFile = CsvFile(name: string, content: string)

  /** A toast shown to the administrator. */
  datatype Notice = ErrorNotice(message: string) | SuccessNotice(message: string)

  /** One error toast per message, in order. */
  function ErrorNotices(messages: seq<string>): seq<Notice>
  {
    seq(|messages|, k requires 0 <= k < |messages| => ErrorNotice(messages[k]))
  }

  function UploadedMessage(count: nat): string
  {
    "Successfully uploaded " + NatToString(count) + " tools"
  }

  /** The page's state: the chosen file, the results table, whether it is shown, and the toasts so far. */
  class BulkUploadPage {
    var file: Option<CsvFile>
    var validationResults: seq<ValidationRow>
    var showResults: bool
    var notices: seq<Notice>
    /** The platform URL parser the validator consults. */
    const parse: UrlParser

    /** The results table only ever holds the validator's verdicts. */
    predicate Valid()
      reads this
    {
      Consistent(validationResults, parse)
    }

    constructor(parse: UrlParser)
      ensures Valid()
      ensures file == None && validationResults == [] && !showResults && notices == []
      ensures this.parse == parse
    {
      this.parse := parse;
      file := None;
      validationResults := [];
      showResults := false;
      notices := [];
    }

    /** `handleFileChange`: choosing a file replaces the current one and hides the results; choosing none changes nothing. */
    method HandleFileChange(selected: Option<CsvFile>)
      requires Valid()
      modifies this
      ensures Valid()
      ensures selected.Some? ==> file == selected && !showResults
      ensures selected.None? ==> file == old(file) && showResults == old(showResults)
      ensures validationResults == old(validationResults) && notices == old(notices)
    {
      if selected.Some? {
        file := selected;
        showResults := false;
      }
    }

    /**
     * `handleValidate`: any parse error rejects the whole file (its errors become
     * toasts and the table is left as it was); otherwise every row is validated and
     * the table shown.
     */
    method HandleValidate()
      requires Valid()
      modifies this
      ensures Valid()
      ensures file == old(file)
      ensures old(file).None? ==>
        validationResults == old(validationResults) && showResults == old(showResults) && notices == old(notices)
      ensures old(file).Some? && Parsed(old(file).value.content).errors != [] ==>
        validationResults == old(validationResults) && showResults == old(showResults)
        && notices == old(notices) + ErrorNotices(Parsed(old(file).value.content).errors)
      ensures old(file).Some? && Parsed(old(file).value.content).errors == [] ==>
        validationResults == ValidateRows(Parsed(old(file).value.content).rows, parse)
        && showResults && notices == old(notices)
    {
      if file.None? {
        return;
      }
      var content := file.value.content;
      var parsed := ParseCsv(content);
      if |parsed.errors| > 0 {
        notices := notices + ErrorNotices(parsed.errors);
        return;
      }
      ValidateRowsFaithful(parsed.rows, parse);
      validationResults := ValidateRows(parsed.rows, parse);
      showResults := true;
    }

    /**
     * `handleUpload`: with no valid line nothing is sent; otherwise the valid lines are
     * sent as new tools, and on success the page is reset. `clock` gives the successive
     * `Date.now()` readings and `uploadSucceeds` the backend's answer.
     */
    method HandleUpload(clock: Clock, uploadSucceeds: bool) returns (sent: Option<seq<Tool>>)
      requires Valid()
      modifies this
      ensures Valid()
      ensures ValidRows(old(validationResults)) == [] ==>
        sent == None && notices == old(notices) + [ErrorNotice("No valid rows to upload")]
        && file == old(file) && validationResults == old(validationResults) && showResults == old(showResults)
      ensures ValidRows(old(validationResults)) != [] ==>
        sent == Some(ToTools(ValidRows(old(validationResults)), clock))
      ensures ValidRows(old(validationResults)) != [] && uploadSucceeds ==>
        notices == old(notices) + [SuccessNotice(UploadedMessage(|ValidRows(old(validationResults))|))]
        && file == None && validationResults == [] && !showResults
      ensures ValidRows(old(validationResults)) != [] && !uploadSucceeds ==>
        notices == old(notices) + [ErrorNotice("Failed to upload tools")]
        && file == old(file) && validationResults == old(validationResults) && showResults == old(showResults)
      ensures sent.Some? ==> forall t | t in sent.value :: Validate(ContentOf(t), parse).valid
    {
      var validRows := ValidRows(validationResults);
      if |validRows| == 0 {
        notices := notices + [ErrorNotice("No valid rows to upload")];
        return None;
      }
      var tools := ToTools(validRows, clock);
      UploadedToolsPassValidation(validationResults, parse, clock);
      sent := Some(tools);
      if uploadSucceeds {
        notices := notices + [SuccessNotice(UploadedMessage(|tools|))];
        file := None;
        validationResults := [];
        showResults := false;
      } else {
        notices := notices + [ErrorNotice("Failed to upload tools")];
      }
    }
  }
}
