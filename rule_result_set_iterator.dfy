/**
 * The rules index feed: the SELECT that scrolls over the rules table (joined with
 * the template rule and the organization's rule metadata), and the transform of one
 * 17-column row into the document the rules index stores.
 *
 * ToDoc is that transform as a function; Read is the same transform as
 * RuleResultSetIterator.read performs it, column by column through a result set that records every index read.
 * DoCreate builds the statement text and binds its parameters one at a time.
 */
module RuleResultSetIterator {
  import opened Wrappers
  import opened Text

  // ---------------------------------------------------------------------------
  // The statement

  /** The selected columns; read takes them back by position 1..17. */
  const FIELDS: seq<string> := [
    "r.plugin_rule_key", "r.plugin_name", "r.name", "r.description", "r.description_format",
    "r.priority", "r.status", "r.is_template", "rm.tags", "r.system_tags",
    "t.plugin_rule_key", "t.plugin_name", "r.plugin_config_key", "r.language", "r.rule_type",
    "r.created_at", "r.updated_at"
  ]

  // The statement text of SQL_ALL and SQL_RULE_KEY; long literals are written as
  // concatenations of shorter ones, which spell the same text.

  const SELECT_LIST: string := "SELECT " + Join(FIELDS, ',')
  const FROM_CLAUSE: string := " FROM rules r "
  const TEMPLATE_JOIN: string := "LEFT OUTER JOIN rules t " + "ON t.id=r.template_id "
  const METADATA_JOIN: string :=
    "LEFT OUTER JOIN rules_metadata rm " + "ON rm.rule_id = r.id " + "and rm.organization_uuid=" + "?"

  /** The statement over every rule, scoped to one organization's metadata. */
  const SQL_ALL: string := SELECT_LIST + FROM_CLAUSE + TEMPLATE_JOIN + METADATA_JOIN

  /** The filter down to a single rule, by repository and key. */
  const SQL_RULE_KEY: string := " WHERE r.plugin_name=" + "?" + " AND r.plugin_rule_key=" + "?"

  /** The number of JDBC placeholders in a statement text. */
  function Placeholders(sql: string): nat
    decreases |sql|
  {
    if sql == [] then 0 else (if sql[0] == '?' then 1 else 0) + Placeholders(sql[1..])
  }

  lemma {:induction false} PlaceholdersAppend(a: string, b: string)
    ensures Placeholders(a + b) == Placeholders(a) + Placeholders(b)
    decreases |a|
  {
    if a == [] {
      assert a + b == b;
    } else {
      assert (a + b)[0] == a[0] && (a + b)[1..] == a[1..] + b;
      PlaceholdersAppend(a[1..], b);
    }
  }

  lemma {:induction false} NoPlaceholders(a: string)
    requires '?' !in a
    ensures Placeholders(a) == 0
    decreases |a|
  {
    if a != [] {
      assert forall x <- a[1..] :: x in a;
      NoPlaceholders(a[1..]);
    }
  }

  lemma OnePlaceholder()
    ensures Placeholders("?") == 1
  {
    assert "?"[1..] == [];
  }

  // The pieces of text around the placeholders, each checked on its own.

  lemma SelectListUnmarked()
    ensures '?' !in "SELECT " && forall f <- FIELDS :: '?' !in f
  {
  }

  lemma TemplateJoinUnmarked()
    ensures '?' !in FROM_CLAUSE && '?' !in "LEFT OUTER JOIN rules t " && '?' !in "ON t.id=r.template_id "
  {
  }

  lemma MetadataJoinUnmarked()
    ensures '?' !in "LEFT OUTER JOIN rules_metadata rm " && '?' !in "ON rm.rule_id = r.id "
    ensures '?' !in "and rm.organization_uuid="
  {
  }

  lemma FilterUnmarked()
    ensures '?' !in " WHERE r.plugin_name=" && '?' !in " AND r.plugin_rule_key="
  {
  }

  /** A rule key: the repository (plugin name) and the key of the rule inside it. */
  datatype RuleKey = RuleKey(repository: string, rule: string) {
    /** The printed form, "repository:rule". */
    function ToString(): string {
      repository + ":" + rule
    }
  }

  /** The text of the statement: the organization-wide query, narrowed to one rule when a key is given. */
  function SelectSql(ruleKey: Option<RuleKey>): string {
    if ruleKey.Some? then SQL_ALL + SQL_RULE_KEY else SQL_ALL
  }

  /** The parameters bound, by index: the organization, then the key's repository and rule. */
  function Parameters(organizationUuid: string, ruleKey: Option<RuleKey>): map<int, string> {
    match ruleKey
    case None => map[1 := organizationUuid]
    case Some(k) => map[1 := organizationUuid, 2 := k.repository, 3 := k.rule]
  }

  /** FIELDS lists 17 columns, and the single-rule filter tests column 2 and then column 1. */
  lemma FieldsLayout()
    ensures |FIELDS| == 17
    ensures SQL_RULE_KEY == " WHERE " + FIELDS[1] + "=?" + " AND " + FIELDS[0] + "=?"
  {
  }

  lemma SelectListPlaceholders()
    ensures Placeholders(SELECT_LIST) == 0
  {
    SelectListUnmarked();
    NotInJoin(FIELDS, ',', '?');
    PlaceholdersAppend("SELECT ", Join(FIELDS, ','));
    NoPlaceholders("SELECT ");
    NoPlaceholders(Join(FIELDS, ','));
  }

  lemma TemplateJoinPlaceholders()
    ensures Placeholders(FROM_CLAUSE) == 0 && Placeholders(TEMPLATE_JOIN) == 0
  {
    TemplateJoinUnmarked();
    NoPlaceholders(FROM_CLAUSE);
    PlaceholdersAppend("LEFT OUTER JOIN rules t ", "ON t.id=r.template_id ");
    NoPlaceholders("LEFT OUTER JOIN rules t ");
    NoPlaceholders("ON t.id=r.template_id ");
  }

  lemma MetadataJoinPlaceholders()
    ensures Placeholders(METADATA_JOIN) == 1
  {
    MetadataJoinUnmarked();
    var a, b, c := "LEFT OUTER JOIN rules_metadata rm ", "ON rm.rule_id = r.id ", "and rm.organization_uuid=";
    PlaceholdersAppend(a, b);
    PlaceholdersAppend(a + b, c);
    PlaceholdersAppend(a + b + c, "?");
    NoPlaceholders(a);
    NoPlaceholders(b);
    NoPlaceholders(c);
    OnePlaceholder();
  }

  /** The organization-wide statement has exactly one placeholder, the organization in its last join. */
  lemma SqlAllPlaceholders()
    ensures Placeholders(SQL_ALL) == 1
  {
    SelectListPlaceholders();
    TemplateJoinPlaceholders();
    MetadataJoinPlaceholders();
    PlaceholdersAppend(SELECT_LIST, FROM_CLAUSE);
    PlaceholdersAppend(SELECT_LIST + FROM_CLAUSE, TEMPLATE_JOIN);
    PlaceholdersAppend(SELECT_LIST + FROM_CLAUSE + TEMPLATE_JOIN, METADATA_JOIN);
  }

  /** The single-rule filter adds two placeholders, the repository and the rule. */
  lemma RuleKeyPlaceholders()
    ensures Placeholders(SQL_RULE_KEY) == 2
  {
    FilterUnmarked();
    var a, b := " WHERE r.plugin_name=", " AND r.plugin_rule_key=";
    PlaceholdersAppend(a, "?");
    PlaceholdersAppend(a + "?", b);
    PlaceholdersAppend(a + "?" + b, "?");
    NoPlaceholders(a);
    NoPlaceholders(b);
    OnePlaceholder();
  }

  /** The statement has one placeholder, or three when narrowed to one rule. */
  lemma SelectSqlPlaceholders(ruleKey: Option<RuleKey>)
    ensures Placeholders(SelectSql(ruleKey)) == if ruleKey.Some? then 3 else 1
  {
    SqlAllPlaceholders();
    if ruleKey.Some? {
      RuleKeyPlaceholders();
      PlaceholdersAppend(SQL_ALL, SQL_RULE_KEY);
    }
  }

  /** DoCreate binds one parameter, or three for a single rule, numbered from 1. */
  lemma ParametersNumbered(organizationUuid: string, ruleKey: Option<RuleKey>)
    ensures var n := if ruleKey.Some? then 3 else 1;
      && |Parameters(organizationUuid, ruleKey)| == n
      && forall i :: i in Parameters(organizationUuid, ruleKey) <==> 1 <= i <= n
  {
    var params := Parameters(organizationUuid, ruleKey);
    if ruleKey.Some? {
      assert params.Keys == {1, 2, 3};
    } else {
      assert params.Keys == {1};
    }
  }

  /** The statement has exactly as many placeholders as DoCreate binds parameters, numbered from 1. */
  lemma PlaceholdersMatchParameters(organizationUuid: string, ruleKey: Option<RuleKey>)
    ensures var n := Placeholders(SelectSql(ruleKey));
      && n == |Parameters(organizationUuid, ruleKey)|
      && forall i :: i in Parameters(organizationUuid, ruleKey) <==> 1 <= i <= n
  {
    SelectSqlPlaceholders(ruleKey);
    ParametersNumbered(organizationUuid, ruleKey);
  }

  /** A prepared statement: its text and the parameters bound so far. */
  class PreparedStatement {
    const sql: string
    var parameters: map<int, string>

    constructor (sql: string)
      ensures this.sql == sql && parameters == map[]
    {
      this.sql := sql;
      parameters := map[];
    }

    /** Binds a string to a placeholder; the index must name one of the statement's placeholders. */
    method SetString(index: int, value: string)
      requires 1 <= index <= Placeholders(sql)
      modifies this
      ensures parameters == old(parameters)[index := value]
    {
      parameters := parameters[index := value];
    }
  }

  /** Prepares the statement text, then binds the organization and, for one rule, its repository and key. */
  method DoCreate(organizationUuid: string, ruleKey: Option<RuleKey>) returns (stmt: PreparedStatement)
    ensures fresh(stmt)
    ensures stmt.sql == SelectSql(ruleKey)
    ensures stmt.parameters == Parameters(organizationUuid, ruleKey)
  {
    var sql := SQL_ALL;
    if ruleKey.Some? {
      sql := sql + SQL_RULE_KEY;
    }
    SelectSqlPlaceholders(ruleKey);
    stmt := new PreparedStatement(sql);
    stmt.SetString(1, organizationUuid);
    if ruleKey.Some? {
      stmt.SetString(2, ruleKey.value.repository);
      stmt.SetString(3, ruleKey.value.rule);
    }
  }

  // ---------------------------------------------------------------------------
  // Tags

  /** Trims each piece and drops those left empty, keeping the order. */
  function TrimmedPieces(pieces: seq<string>): seq<string>
    decreases |pieces|
  {
    if pieces == [] then []
    else
      var t := Trim(pieces[0]);
      (if t == [] then [] else [t]) + TrimmedPieces(pieces[1..])
  }

  /** A string is kept exactly when it is the non-empty trimmed form of some piece. */
  lemma {:induction false} TrimmedPiecesMembers(pieces: seq<string>, t: string)
    ensures t in TrimmedPieces(pieces) <==> t != [] && exists p <- pieces :: Trim(p) == t
    decreases |pieces|
  {
    if pieces != [] {
      TrimmedPiecesMembers(pieces[1..], t);
      assert forall p <- pieces :: p == pieces[0] || p in pieces[1..];
      assert forall p <- pieces[1..] :: p in pieces;
    }
  }

  /** The tag splitter: split on ',', trim each piece, omit the empty ones. */
  function SplitTags(s: string): seq<string> {
    TrimmedPieces(Split(s, ','))
  }

  /** The set of tags in a nullable comma-separated column; NULL counts as "". */
  function TagsToSet(tags: Option<string>): (r: set<string>)
    ensures tags == None ==> r == {}
  {
    set t | t in SplitTags(tags.GetOr(""))
  }

  /** A tag is in the set exactly when it is a comma-separated piece, trimmed and non-empty. */
  lemma TagsToSetMembers(s: string, t: string)
    ensures t in TagsToSet(Some(s)) <==> t != [] && exists p <- Split(s, ',') :: Trim(p) == t
  {
    TrimmedPiecesMembers(Split(s, ','), t);
  }

  /** A well-formed tag: non-empty, without leading or trailing whitespace, without a comma. */
  predicate IsTag(t: string) {
    t != [] && Trim(t) == t && ',' !in t
  }

  /** Every tag the splitter yields is well formed. */
  lemma TagsAreTrimmed(tags: Option<string>)
    ensures forall t <- TagsToSet(tags) :: IsTag(t)
  {
    var s := tags.GetOr("");
    var pieces := Split(s, ',');
    forall t <- TagsToSet(tags) ensures IsTag(t) {
      TagsToSetMembers(s, t);
      var p :| p in pieces && Trim(p) == t;
      TrimIdempotent(p);
      SplitPieces(s, ',');
      TrimWithin(p, ',');
    }
  }

  lemma {:induction false} TrimmedUnchanged(tags: seq<string>)
    requires forall t <- tags :: IsTag(t)
    ensures TrimmedPieces(tags) == tags
    decreases |tags|
  {
    if tags != [] {
      var first, rest := tags[0], tags[1..];
      assert first in tags && IsTag(first);
      assert forall t <- rest :: t in tags;
      TrimmedUnchanged(rest);
      assert TrimmedPieces(tags) == [first] + TrimmedPieces(rest);
      assert tags == [first] + rest;
    }
  }

  /** Joining trimmed, non-empty, comma-free tags with ',' and splitting them again gives them back. */
  lemma SplitTagsJoin(tags: seq<string>)
    requires |tags| >= 1
    requires forall t <- tags :: IsTag(t)
    ensures SplitTags(Join(tags, ',')) == tags
    ensures TagsToSet(Some(Join(tags, ','))) == set t | t in tags
  {
    SplitJoin(tags, ',');
    TrimmedUnchanged(tags);
  }

  /** A single character other than whitespace trims to itself. */
  lemma TrimLetter(c: char)
    requires !IsWhitespace(c)
    ensures Trim([c]) == [c]
  {
    assert TrimStart([c]) == [c];
    assert TrimEnd([c]) == [c];
  }

  /** One leading space is trimmed away. */
  lemma TrimSpaceLetter(c: char)
    requires !IsWhitespace(c)
    ensures Trim([' ', c]) == [c]
  {
    assert IsWhitespace(' ');
    assert [' ', c][1..] == [c];
    assert TrimStart([' ', c]) == TrimStart([c]) == [c];
    TrimLetter(c);
  }

  // Worked example: the tag columns "a, b,a" and "b,c" of one row. These lemmas
  // instantiate TagsToSetMembers and AllTagsIgnoresOrigin on concrete text; the
  // general properties are stated there and in ToDocTags.

  lemma TrimExamples()
    ensures Trim(" b") == "b" && Trim("a") == "a" && Trim("b") == "b" && Trim("c") == "c"
  {
    assert !IsWhitespace('a') && !IsWhitespace('b') && !IsWhitespace('c');
    TrimLetter('a');
    TrimLetter('b');
    TrimLetter('c');
    TrimSpaceLetter('b');
  }

  lemma SplitExamples()
    ensures Split("a, b,a", ',') == ["a", " b", "a"]
    ensures Split("b,c", ',') == ["b", "c"]
  {
    assert Join(["a", " b", "a"], ',') == "a, b,a";
    SplitJoin(["a", " b", "a"], ',');
    assert Join(["b", "c"], ',') == "b,c";
    SplitJoin(["b", "c"], ',');
  }

  lemma {:induction false} TrimmedPiecesCons(p: string, ps: seq<string>)
    requires Trim(p) != []
    ensures TrimmedPieces([p] + ps) == [Trim(p)] + TrimmedPieces(ps)
  {
    assert ([p] + ps)[1..] == ps;
  }

  lemma MetadataTagsExample()
    ensures SplitTags("a, b,a") == ["a", "b", "a"]
  {
    SplitExamples();
    TrimExamples();
    TrimmedPiecesCons("a", []);
    TrimmedPiecesCons(" b", ["a"]);
    TrimmedPiecesCons("a", [" b", "a"]);
  }

  lemma SystemTagsExample()
    ensures SplitTags("b,c") == ["b", "c"]
  {
    SplitExamples();
    TrimExamples();
    TrimmedPiecesCons("c", []);
    TrimmedPiecesCons("b", ["c"]);
  }

  /** The tag set holds exactly the tags the splitter yields, once each. */
  lemma TagsUnionOf(s1: string, s2: string, a: string, b: string, c: string)
    requires SplitTags(s1) == [a, b, a] && SplitTags(s2) == [b, c]
    ensures TagsToSet(Some(s1)) + TagsToSet(Some(s2)) == {a, b, c}
  {
    var x, y := TagsToSet(Some(s1)), TagsToSet(Some(s2));
    assert x == set t | t in [a, b, a];
    assert y == set t | t in [b, c];
    forall t ensures t in x + y <==> t in {a, b, c} {
      assert t in x <==> t == a || t == b;
      assert t in y <==> t == b || t == c;
    }
  }

  /** Worked example: "a, b,a" and "b,c" give the tag set {a, b, c}. */
  lemma TagsUnionExample()
    ensures TagsToSet(Some("a, b,a")) + TagsToSet(Some("b,c")) == {"a", "b", "c"}
  {
    MetadataTagsExample();
    SystemTagsExample();
    TagsUnionOf("a, b,a", "b,c", "a", "b", "c");
  }

  // ---------------------------------------------------------------------------
  // The row and the document

  /** The 17 columns of one row, as read: getString gives NULL as None, getInt/getLong/getBoolean give 0 or false. */
  datatype RuleRow = RuleRow(
    ruleKey: Option<string>,           // 1  r.plugin_rule_key
    repositoryKey: Option<string>,     // 2  r.plugin_name
    name: Option<string>,              // 3  r.name
    description: Option<string>,       // 4  r.description
    descriptionFormat: Option<string>, // 5  r.description_format
    severityOrdinal: int,              // 6  r.priority
    status: Option<string>,            // 7  r.status
    isTemplate: bool,                  // 8  r.is_template
    tags: Option<string>,              // 9  rm.tags
    systemTags: Option<string>,        // 10 r.system_tags
    templateRuleKey: Option<string>,   // 11 t.plugin_rule_key
    templateRepoKey: Option<string>,   // 12 t.plugin_name
    internalKey: Option<string>,       // 13 r.plugin_config_key
    language: Option<string>,          // 14 r.language
    ruleTypeDbConstant: int,           // 15 r.rule_type
    createdAt: int,                    // 16 r.created_at
    updatedAt: int                     // 17 r.updated_at
  )

  /**
   * The index document. htmlDescription None means the field was never set;
   * templateKey None means it was set to null.
   */
  datatype RuleDoc = RuleDoc(
    key: string,
    ruleKey: string,
    repository: string,
    name: Option<string>,
    htmlDescription: Option<string>,
    severity: string,
    status: Option<string>,
    isTemplate: bool,
    allTags: set<string>,
    templateKey: Option<string>,
    internalKey: Option<string>,
    language: Option<string>,
    ruleType: string,
    createdAt: int,
    updatedAt: int
  )

  /** The formats a rule description is stored in. */
  datatype Format = Html | Markdown

  /** RuleDto.Format.valueOf: the constant of that exact name, or an error. */
  function FormatValueOf(name: string): (r: Option<Format>)
    ensures r == Some(Html) <==> name == "HTML"
    ensures r == Some(Markdown) <==> name == "MARKDOWN"
    ensures r == None <==> name != "HTML" && name != "MARKDOWN"
  {
    if name == "HTML" then Some(Html) else if name == "MARKDOWN" then Some(Markdown) else None
  }

  /** RuleKey.of: both parts must be present and non-empty. */
  function KeyOf(repository: Option<string>, rule: Option<string>): (r: Option<RuleKey>)
    ensures r.Some? <==> repository.Some? && rule.Some? && repository.value != [] && rule.value != []
    ensures r.Some? ==> r.value.repository == repository.value && r.value.rule == rule.value
  {
    if repository.Some? && rule.Some? && repository.value != [] && rule.value != [] then
      Some(RuleKey(repository.value, rule.value))
    else None
  }

  /**
   * The converters the transform calls but whose code is not part of this model:
   * Markdown.convertToHtml, SeverityUtil.getSeverityFromOrdinal and RuleType.valueOf
   * (None where they raise).
   */
  datatype Converters = Converters(
    markdownToHtml: string -> Option<string>,
    severityFromOrdinal: int -> Option<string>,
    ruleTypeOf: int -> Option<string>
  )

  /** Why a row cannot be read, in the order read meets them. */
  datatype ReadError = InvalidRuleKey | UnknownFormat | RenderFailed | UnknownSeverity | InvalidTemplateKey | UnknownRuleType

  /** The last column read has read before it meets error e. */
  function LastColumnRead(e: ReadError): nat {
    match e
    case InvalidRuleKey => 2
    case UnknownFormat => 5
    case RenderFailed => 5
    case UnknownSeverity => 6
    case InvalidTemplateKey => 12
    case UnknownRuleType => 15
  }

  /** The HTML description: set only when text and format are both present; HTML passes through, Markdown is rendered. */
  function HtmlDescription(description: Option<string>, format: Option<string>, conv: Converters): Result<Option<string>, ReadError> {
    if format.Some? && description.Some? then
      match FormatValueOf(format.value)
      case None => Failure(UnknownFormat)
      case Some(Html) => Success(Some(description.value))
      case Some(Markdown) =>
        match conv.markdownToHtml(description.value)
        case None => Failure(RenderFailed)
        case Some(html) => Success(Some(html))
    else Success(None)
  }

  /** The template key: the printed template rule key when both template columns are present, otherwise null. */
  function TemplateKey(templateRepoKey: Option<string>, templateRuleKey: Option<string>): Result<Option<string>, ReadError> {
    if templateRepoKey.Some? && templateRuleKey.Some? then
      match KeyOf(templateRepoKey, templateRuleKey)
      case None => Failure(InvalidTemplateKey)
      case Some(k) => Success(Some(k.ToString()))
    else Success(None)
  }

  /** The union of the metadata tags (column 9) and the system tags (column 10). */
  function AllTags(row: RuleRow): set<string> {
    TagsToSet(row.tags) + TagsToSet(row.systemTags)
  }

  /** The document for one row, or the first error reading it meets. */
  function ToDoc(row: RuleRow, conv: Converters): Result<RuleDoc, ReadError> {
    match KeyOf(row.repositoryKey, row.ruleKey)
    case None => Failure(InvalidRuleKey)
    case Some(key) =>
      match HtmlDescription(row.description, row.descriptionFormat, conv)
      case Failure(e) => Failure(e)
      case Success(html) =>
        match conv.severityFromOrdinal(row.severityOrdinal)
        case None => Failure(UnknownSeverity)
        case Some(severity) => ToDocFrom7(row, conv, key, html, severity)
  }

  /** The rest of the document once key, description and severity are known: columns 7 to 17. */
  function ToDocFrom7(row: RuleRow, conv: Converters, key: RuleKey, html: Option<string>, severity: string): Result<RuleDoc, ReadError> {
    match TemplateKey(row.templateRepoKey, row.templateRuleKey)
    case Failure(e) => Failure(e)
    case Success(templateKey) =>
      match conv.ruleTypeOf(row.ruleTypeDbConstant)
      case None => Failure(UnknownRuleType)
      case Some(ruleType) =>
        Success(RuleDoc(
          key.ToString(), key.rule, key.repository, row.name, html, severity, row.status,
          row.isTemplate, AllTags(row), templateKey, row.internalKey, row.language, ruleType,
          row.createdAt, row.updatedAt))
  }

  // ---------------------------------------------------------------------------
  // What the transform promises

  /** The first ':' of a printed key is the one after the repository. */
  lemma KeyColon(k: RuleKey)
    requires ':' !in k.repository
    ensures forall i :: 0 <= i < |k.repository| ==> k.ToString()[i] != ':'
    ensures k.ToString()[|k.repository|] == ':'
  {
    forall i | 0 <= i < |k.repository| ensures k.ToString()[i] != ':' {
      assert k.ToString()[i] == k.repository[i];
    }
  }

  /** Distinct keys print distinctly as long as repositories contain no ':'. */
  lemma RuleKeyPrintsInjectively(a: RuleKey, b: RuleKey)
    requires ':' !in a.repository && ':' !in b.repository
    requires a.ToString() == b.ToString()
    ensures a == b
  {
    var s := a.ToString();
    KeyColon(a);
    KeyColon(b);
    assert |a.repository| == |b.repository|;
    assert a.repository == s[..|a.repository|] == b.repository;
    assert a.rule == s[|a.repository| + 1..] == b.rule;
  }

  /** The document's key is "repository:rule" over column 2 and column 1, which it also carries verbatim. */
  lemma ToDocKey(row: RuleRow, conv: Converters)
    requires ToDoc(row, conv).Success?
    ensures var doc := ToDoc(row, conv).value;
      && Some(doc.ruleKey) == row.ruleKey && Some(doc.repository) == row.repositoryKey
      && doc.key == doc.repository + ":" + doc.ruleKey
  {
  }

  /** The HTML description is set iff text and format are both present: the text itself for HTML, rendered Markdown otherwise. */
  lemma ToDocDescription(row: RuleRow, conv: Converters)
    requires ToDoc(row, conv).Success?
    ensures var doc := ToDoc(row, conv).value;
      && (doc.htmlDescription.Some? <==> row.description.Some? && row.descriptionFormat.Some?)
      && (row.descriptionFormat == Some("HTML") && row.description.Some? ==> doc.htmlDescription == row.description)
      && (row.descriptionFormat == Some("MARKDOWN") && row.description.Some? ==>
            doc.htmlDescription == conv.markdownToHtml(row.description.value))
  {
  }

  /** The template key is set iff both template columns are present, to the printed template rule key. */
  lemma ToDocTemplateKey(row: RuleRow, conv: Converters)
    requires ToDoc(row, conv).Success?
    ensures var doc := ToDoc(row, conv).value;
      && (doc.templateKey.Some? <==> row.templateRepoKey.Some? && row.templateRuleKey.Some?)
      && (doc.templateKey.Some? ==> doc.templateKey.value == row.templateRepoKey.value + ":" + row.templateRuleKey.value)
  {
  }

  /** A tag is in the document exactly when it is a trimmed, non-empty piece of column 9 or of column 10. */
  lemma ToDocTags(row: RuleRow, conv: Converters, t: string)
    requires ToDoc(row, conv).Success?
    ensures t in ToDoc(row, conv).value.allTags <==>
      t != [] && exists p :: (p in Split(row.tags.GetOr(""), ',') || p in Split(row.systemTags.GetOr(""), ',')) && Trim(p) == t
  {
    TagsToSetMembers(row.tags.GetOr(""), t);
    TagsToSetMembers(row.systemTags.GetOr(""), t);
  }

  /** Swapping the two tag columns, or repeating a tag in either, leaves the document's tags alone. */
  lemma AllTagsIgnoresOrigin(row: RuleRow, tags: string)
    ensures AllTags(row.(tags := row.systemTags, systemTags := row.tags)) == AllTags(row)
    ensures AllTags(row.(tags := Some(tags + "," + tags))) == AllTags(row.(tags := Some(tags)))
  {
    var pieces := Split(tags, ',');
    var both := pieces + pieces;
    SplitPieces(tags, ',');
    assert Join(both, ',') == tags + "," + tags by {
      JoinAppend(pieces, pieces, ',');
    }
    assert forall p <- both :: p in pieces;
    SplitJoin(both, ',');
    forall t ensures t in TagsToSet(Some(tags + "," + tags)) <==> t in TagsToSet(Some(tags)) {
      TagsToSetMembers(tags + "," + tags, t);
      TagsToSetMembers(tags, t);
    }
  }

  lemma {:induction false} JoinAppend(a: seq<string>, b: seq<string>, sep: char)
    requires |a| >= 1 && |b| >= 1
    ensures Join(a + b, sep) == Join(a, sep) + [sep] + Join(b, sep)
    decreases |a|
  {
    if |a| == 1 {
      assert (a + b)[1..] == b;
    } else {
      assert (a + b)[1..] == a[1..] + b;
      JoinAppend(a[1..], b, sep);
    }
  }

  /** Which rows fail, and with which error: the checks in the order read performs them. */
  lemma ToDocErrors(row: RuleRow, conv: Converters)
    ensures var r := ToDoc(row, conv);
      var keyOk := KeyOf(row.repositoryKey, row.ruleKey).Some?;
      var formatOk := row.description.None? || row.descriptionFormat.None?
        || FormatValueOf(row.descriptionFormat.value).Some?;
      var renderOk := row.description.None? || row.descriptionFormat != Some("MARKDOWN")
        || conv.markdownToHtml(row.description.value).Some?;
      var severityOk := conv.severityFromOrdinal(row.severityOrdinal).Some?;
      var templateOk := row.templateRepoKey.None? || row.templateRuleKey.None?
        || KeyOf(row.templateRepoKey, row.templateRuleKey).Some?;
      var typeOk := conv.ruleTypeOf(row.ruleTypeDbConstant).Some?;
      && (r.Success? <==> keyOk && formatOk && renderOk && severityOk && templateOk && typeOk)
      && (r == Failure(InvalidRuleKey) <==> !keyOk)
      && (r == Failure(UnknownFormat) <==> keyOk && !formatOk)
      && (r == Failure(RenderFailed) <==> keyOk && formatOk && !renderOk)
      && (r == Failure(UnknownSeverity) <==> keyOk && formatOk && renderOk && !severityOk)
      && (r == Failure(InvalidTemplateKey) <==> keyOk && formatOk && renderOk && severityOk && !templateOk)
      && (r == Failure(UnknownRuleType) <==> keyOk && formatOk && renderOk && severityOk && templateOk && !typeOk)
  {
  }

  // ---------------------------------------------------------------------------
  // Reading a row column by column

  /** One cell of a result row. */
  datatype Cell = Null | Chars(chars: string) | Integer(n: int) | Boolean(b: bool)

  /** getString: the text of a character cell, None for NULL. */
  function StringOf(c: Cell): Option<string> {
    if c.Chars? then Some(c.chars) else None
  }

  /** getInt and getLong: the number of a numeric cell, 0 for NULL. */
  function IntOf(c: Cell): int {
    if c.Integer? then c.n else 0
  }

  /** getBoolean: the flag of a boolean cell, false for NULL. */
  function BoolOf(c: Cell): bool {
    if c.Boolean? then c.b else false
  }

  /** The row a result set's 17 cells hold, column i being cells[i - 1]. */
  function RowOf(cells: seq<Cell>): RuleRow
    requires |cells| == 17
  {
    RuleRow(
      StringOf(cells[0]), StringOf(cells[1]), StringOf(cells[2]), StringOf(cells[3]), StringOf(cells[4]),
      IntOf(cells[5]), StringOf(cells[6]), BoolOf(cells[7]), StringOf(cells[8]), StringOf(cells[9]),
      StringOf(cells[10]), StringOf(cells[11]), StringOf(cells[12]), StringOf(cells[13]), IntOf(cells[14]),
      IntOf(cells[15]), IntOf(cells[16]))
  }

  /** The column indices lo..hi in order; empty when hi < lo. */
  function Columns(lo: int, hi: int): (r: seq<int>)
    ensures |r| == if hi < lo then 0 else hi - lo + 1
  {
    seq(if hi < lo then 0 else hi - lo + 1, i => lo + i)
  }

  /** Reading the columns lo..mid and then mid+1..hi reads the columns lo..hi. */
  lemma ColumnsJoin(before: seq<int>, lo: int, mid: int, hi: int)
    requires lo <= mid + 1 <= hi + 1
    ensures before + Columns(lo, mid) + Columns(mid + 1, hi) == before + Columns(lo, hi)
  {
    var a, b, c := Columns(lo, mid), Columns(mid + 1, hi), Columns(lo, hi);
    assert a + b == c by {
      forall i | 0 <= i < |c| ensures (a + b)[i] == c[i] {
        if i < |a| { assert (a + b)[i] == a[i]; } else { assert (a + b)[i] == b[i - |a|]; }
      }
    }
  }

  /** The current row of a statement's result, and the column indices read from it so far. */
  class ResultSet {
    const cells: seq<Cell>
    var consumed: seq<int>

    constructor (cells: seq<Cell>)
      ensures this.cells == cells && consumed == []
    {
      this.cells := cells;
      consumed := [];
    }

    method GetString(column: int) returns (r: Option<string>)
      requires 1 <= column <= |cells|
      modifies this
      ensures r == StringOf(cells[column - 1]) && consumed == old(consumed) + [column]
    {
      r := StringOf(cells[column - 1]);
      consumed := consumed + [column];
    }

    method GetInt(column: int) returns (r: int)
      requires 1 <= column <= |cells|
      modifies this
      ensures r == IntOf(cells[column - 1]) && consumed == old(consumed) + [column]
    {
      r := IntOf(cells[column - 1]);
      consumed := consumed + [column];
    }

    method GetLong(column: int) returns (r: int)
      requires 1 <= column <= |cells|
      modifies this
      ensures r == IntOf(cells[column - 1]) && consumed == old(consumed) + [column]
    {
      r := IntOf(cells[column - 1]);
      consumed := consumed + [column];
    }

    method GetBoolean(column: int) returns (r: bool)
      requires 1 <= column <= |cells|
      modifies this
      ensures r == BoolOf(cells[column - 1]) && consumed == old(consumed) + [column]
    {
      r := BoolOf(cells[column - 1]);
      consumed := consumed + [column];
    }
  }

  /** Columns 1 and 2: the rule key and the repository key. */
  method ReadKeyColumns(rs: ResultSet) returns (ruleKey: Option<string>, repositoryKey: Option<string>)
    requires |rs.cells| == |FIELDS|
    modifies rs
    ensures ruleKey == StringOf(rs.cells[0]) && repositoryKey == StringOf(rs.cells[1])
    ensures rs.consumed == old(rs.consumed) + Columns(1, 2)
  {
    ruleKey := rs.GetString(1);
    repositoryKey := rs.GetString(2);
    assert Columns(1, 2) == [1, 2];
  }

  /** Columns 3 to 5: the name, and the HTML description built from the text and its format. */
  method ReadDescription(rs: ResultSet, conv: Converters) returns (name: Option<string>, html: Result<Option<string>, ReadError>)
    requires |rs.cells| == |FIELDS|
    modifies rs
    ensures name == StringOf(rs.cells[2])
    ensures html == HtmlDescription(StringOf(rs.cells[3]), StringOf(rs.cells[4]), conv)
    ensures rs.consumed == old(rs.consumed) + Columns(3, 5)
  {
    name := rs.GetString(3);
    var description := rs.GetString(4);
    var descriptionFormat := rs.GetString(5);
    assert rs.consumed == old(rs.consumed) + [3, 4, 5];
    assert Columns(3, 5) == [3, 4, 5];
    html := Success(None);
    if descriptionFormat.Some? && description.Some? {
      var format := FormatValueOf(descriptionFormat.value);
      if format.None? {
        html := Failure(UnknownFormat);
      } else if format.value == Html {
        html := Success(description);
      } else {
        var rendered := conv.markdownToHtml(description.value);
        if rendered.None? {
          html := Failure(RenderFailed);
        } else {
          html := Success(rendered);
        }
      }
    }
  }

  /** Columns 9 and 10: the union of the metadata tags and the system tags. */
  method ReadTags(rs: ResultSet) returns (allTags: set<string>)
    requires |rs.cells| == |FIELDS|
    modifies rs
    ensures allTags == TagsToSet(StringOf(rs.cells[8])) + TagsToSet(StringOf(rs.cells[9]))
    ensures rs.consumed == old(rs.consumed) + Columns(9, 10)
  {
    var tags := rs.GetString(9);
    var systemTags := rs.GetString(10);
    assert rs.consumed == old(rs.consumed) + [9, 10];
    assert Columns(9, 10) == [9, 10];
    allTags := TagsToSet(tags) + TagsToSet(systemTags);
  }

  /** Columns 11 and 12: the template key, null unless both template columns are present. */
  method ReadTemplateKey(rs: ResultSet) returns (templateKey: Result<Option<string>, ReadError>)
    requires |rs.cells| == |FIELDS|
    modifies rs
    ensures templateKey == TemplateKey(StringOf(rs.cells[11]), StringOf(rs.cells[10]))
    ensures rs.consumed == old(rs.consumed) + Columns(11, 12)
  {
    var templateRuleKey := rs.GetString(11);
    var templateRepoKey := rs.GetString(12);
    assert Columns(11, 12) == [11, 12];
    templateKey := Success(None);
    if templateRepoKey.Some? && templateRuleKey.Some? {
      var k := KeyOf(templateRepoKey, templateRuleKey);
      if k.None? {
        templateKey := Failure(InvalidTemplateKey);
      } else {
        templateKey := Success(Some(k.value.ToString()));
      }
    }
  }

  /** Column 6: the severity, through SeverityUtil.getSeverityFromOrdinal. */
  method ReadSeverity(rs: ResultSet, conv: Converters) returns (severity: Option<string>)
    requires |rs.cells| == |FIELDS|
    modifies rs
    ensures severity == conv.severityFromOrdinal(IntOf(rs.cells[5]))
    ensures rs.consumed == old(rs.consumed) + Columns(6, 6)
  {
    var ordinal := rs.GetInt(6);
    assert Columns(6, 6) == [6];
    severity := conv.severityFromOrdinal(ordinal);
  }

  /** Columns 7 and 8: the status and the template flag. */
  method ReadStatus(rs: ResultSet) returns (status: Option<string>, isTemplate: bool)
    requires |rs.cells| == |FIELDS|
    modifies rs
    ensures status == StringOf(rs.cells[6]) && isTemplate == BoolOf(rs.cells[7])
    ensures rs.consumed == old(rs.consumed) + Columns(7, 8)
  {
    status := rs.GetString(7);
    isTemplate := rs.GetBoolean(8);
    assert Columns(7, 8) == [7, 8];
  }

  /** Columns 13 to 15: the internal key, the language and the rule type, through RuleType.valueOf. */
  method ReadType(rs: ResultSet, conv: Converters)
    returns (internalKey: Option<string>, language: Option<string>, ruleType: Option<string>)
    requires |rs.cells| == |FIELDS|
    modifies rs
    ensures internalKey == StringOf(rs.cells[12]) && language == StringOf(rs.cells[13])
    ensures ruleType == conv.ruleTypeOf(IntOf(rs.cells[14]))
    ensures rs.consumed == old(rs.consumed) + Columns(13, 15)
  {
    internalKey := rs.GetString(13);
    language := rs.GetString(14);
    var typeConstant := rs.GetInt(15);
    assert Columns(13, 15) == [13, 14, 15];
    ruleType := conv.ruleTypeOf(typeConstant);
  }

  /** Columns 16 and 17: the creation and update dates. */
  method ReadDates(rs: ResultSet) returns (createdAt: int, updatedAt: int)
    requires |rs.cells| == |FIELDS|
    modifies rs
    ensures createdAt == IntOf(rs.cells[15]) && updatedAt == IntOf(rs.cells[16])
    ensures rs.consumed == old(rs.consumed) + Columns(16, 17)
  {
    createdAt := rs.GetLong(16);
    updatedAt := rs.GetLong(17);
    assert Columns(16, 17) == [16, 17];
  }

  /** Reads columns 7 to 17, after key, description and severity, stopping where an error shows. */
  method ReadFrom7(rs: ResultSet, conv: Converters, key: RuleKey, html: Option<string>, severity: string)
    returns (r: Result<RuleDoc, ReadError>)
    requires |rs.cells| == |FIELDS|
    modifies rs
    ensures r == ToDocFrom7(RowOf(rs.cells), conv, key, html, severity)
    ensures r.Failure? ==> r.error == InvalidTemplateKey || r.error == UnknownRuleType
    ensures rs.consumed == old(rs.consumed) + Columns(7, if r.Success? then 17 else LastColumnRead(r.error))
  {
    ghost var consumed0 := rs.consumed;
    ghost var row := RowOf(rs.cells);
    var status, isTemplate := ReadStatus(rs);
    var allTags := ReadTags(rs);
    assert allTags == AllTags(row);
    ColumnsJoin(consumed0, 7, 8, 10);
    assert rs.consumed == consumed0 + Columns(7, 10);
    var templateKey := ReadTemplateKey(rs);
    assert templateKey == TemplateKey(row.templateRepoKey, row.templateRuleKey);
    ColumnsJoin(consumed0, 7, 10, 12);
    assert rs.consumed == consumed0 + Columns(7, 12);
    if templateKey.Failure? {
      assert templateKey.error == InvalidTemplateKey;
      return Failure(templateKey.error);
    }
    var internalKey, language, ruleType := ReadType(rs, conv);
    assert ruleType == conv.ruleTypeOf(row.ruleTypeDbConstant);
    ColumnsJoin(consumed0, 7, 12, 15);
    assert rs.consumed == consumed0 + Columns(7, 15);
    if ruleType.None? {
      return Failure(UnknownRuleType);
    }
    var createdAt, updatedAt := ReadDates(rs);
    ColumnsJoin(consumed0, 7, 15, 17);
    r := Success(RuleDoc(
      key.ToString(), key.rule, key.repository, StringOf(rs.cells[2]), html, severity, status,
      isTemplate, allTags, templateKey.value, internalKey, language, ruleType.value, createdAt, updatedAt));
  }

  /**
   * Reads the current row into a document, column by column in the order of FIELDS.
   * The result is ToDoc of the row; a full read takes each of the columns 1..17 once, in
   * order, and a failed one stops after the column where the error shows.
   */
  method Read(rs: ResultSet, conv: Converters) returns (r: Result<RuleDoc, ReadError>)
    requires |rs.cells| == |FIELDS|
    modifies rs
    ensures r == ToDoc(RowOf(rs.cells), conv)
    ensures rs.consumed == old(rs.consumed) + Columns(1, if r.Success? then 17 else LastColumnRead(r.error))
  {
    ghost var consumed0 := rs.consumed;
    var ruleKey, repositoryKey := ReadKeyColumns(rs);
    var key := KeyOf(repositoryKey, ruleKey);
    if key.None? {
      return Failure(InvalidRuleKey);
    }
    var name, html := ReadDescription(rs, conv);
    ColumnsJoin(consumed0, 1, 2, 5);
    if html.Failure? {
      return Failure(html.error);
    }
    var severity := ReadSeverity(rs, conv);
    ColumnsJoin(consumed0, 1, 5, 6);
    assert rs.consumed == consumed0 + Columns(1, 6);
    if severity.None? {
      return Failure(UnknownSeverity);
    }
    r := ReadFrom7(rs, conv, key.value, html.value, severity.value);
    ColumnsJoin(consumed0, 1, 6, if r.Success? then 17 else LastColumnRead(r.error));
  }
}
