# SonarQube back-end reset and rules index feed, in Dafny

This project models two pieces of the SonarQube server.

**BackendCleanup** resets the relational store. `clearDb` walks the list of known
tables. For each one it looks up a table cleaner by exact name in `TABLE_CLEANERS`, or
falls back to `truncateDefault` (`TRUNCATE TABLE <lower-cased name>`).
- `organizations` keeps the default organization.
- `users` keeps `admin` and then clears `is_root` on every user.
- `internal_properties` keeps the default-organization property.
- `schema_migrations` is left alone.

`resetData` issues a fixed sequence of statements:
- truncate the twelve analysis tables;
- delete the resource-bound rows of the three resource-related tables;
- delete the manual rules;
- reset internal properties, users and organizations.

A commit follows every statement. The first failing statement aborts the operation with
`IllegalStateException("Fail to clear db")` or `IllegalStateException("Fail to reset data")`.
Statements that already ran stay applied.

**RuleResultSetIterator** feeds the rules index.
- `doCreate` builds the scrolling SELECT and binds the organization. When it is given a
  rule key, it also binds the key's repository and rule.
- `read` turns one 17-column row into a `RuleDoc`. The rule key is `repository:rule`; a
  description is kept only when it and its format are both present; HTML passes
  through and Markdown is rendered; the two tag columns are unioned after
  `TAGS_SPLITTER` (split on `,`, trim, omit empty); the template key is set only when
  both template columns are present; the rule type comes from its database constant.

## Model layout

- `wrappers.dfy`: `Option` and `Result`.
- `text.dfy`: ASCII lower-casing (`toLowerCase`), `Split`/`Join` on one separator
  character, and whitespace `Trim`, each with its laws.
- `sql_store.dfy`: an abstract store.
  - Tables are sequences of rows, and a row maps column names to optional values.
    SQL NULL never satisfies `=` or `<>`.
  - The module has the five statement shapes the engine issues and their effect
    (`Apply`).
  - `Run` is the reference for executing a plan one statement at a time, with a commit
    after each. It stops at the first statement whose table does not exist.
  - The `Connection` class holds the tables and a journal of executions and commits.
- `backend_cleanup.dfy`: the cleaner dispatch and the plans (the statement list each
  operation issues).
  - The `BackendCleanup` class drives a `Connection`. Each method is proved to leave
    `Run` of its plan in the connection (`Ran`).
  - The lemmas state what each plan leaves in each table.
- `rule_result_set_iterator.dfy`: the statement text, placeholder counting, the
  `PreparedStatement` class and `DoCreate`, tags, `RuleKey`, the row and document
  datatypes, and the pure transform `ToDoc`.
  - The `ResultSet` class records every column index read.
  - `Read` does the transform column by column, as `RuleResultSetIterator.read` does. It is proved equal
    to `ToDoc` and to read columns 1..17 in order.

Behaviour of `BackendCleanup` and `RuleResultSetIterator` worth noting:
- The cleaner lookup is by exact name, and only the TRUNCATE text is lower-cased. A
  table listed as `USERS` is truncated, not reset.
- `kee <> ?` and `login <> ?` keep rows whose key is NULL, and keep every duplicate of
  the protected key. So exactly the default organization remains when no key is NULL and
  exactly one row, occurring once, held the default key beforehand
  (`TruncateOrganizationsLeavesOne`). `TruncateOrganizationsKeepsDefault` gives which rows
  remain when keys are non-null, and `TruncateOrganizationsSurvivors` gives how many of each.
- `RuleDto.Format.valueOf` raises on a format name other than `HTML` or `MARKDOWN`. Any
  format other than HTML is not simply rendered as Markdown.

## Model

| member | source | states |
|---|---|---|
| Text.ToLower | server/sonar-server/src/main/java/org/sonar/server/platform/BackendCleanup.java:163 | the lower-cased name has the same length and each character is the ASCII lower-case of the original one |
| Text.ToLowerIsLowerCase | server/sonar-server/src/main/java/org/sonar/server/platform/BackendCleanup.java:163 | a lower-cased name has no upper-case letter, and lower-casing again changes nothing |
| Text.ToLowerOfLowerCase | server/sonar-server/src/main/java/org/sonar/server/platform/BackendCleanup.java:130 | lower-casing a name that is already lower case returns it unchanged |
| Text.SplitPieces | server/sonar-server/src/main/java/org/sonar/server/rule/index/RuleResultSetIterator.java:78 | no piece of a split contains the separator, and joining the pieces with it gives back the input |
| Text.SplitJoin | server/sonar-server/src/main/java/org/sonar/server/rule/index/RuleResultSetIterator.java:78 | splitting the join of separator-free pieces gives back exactly those pieces |
| Text.TrimStartDrops | server/sonar-server/src/main/java/org/sonar/server/rule/index/RuleResultSetIterator.java:78 | trimming the start drops a whitespace-only prefix and leaves a suffix that does not start with whitespace |
| Text.TrimEndDrops | server/sonar-server/src/main/java/org/sonar/server/rule/index/RuleResultSetIterator.java:78 | trimming the end drops a whitespace-only suffix and leaves a prefix that does not end with whitespace |
| Text.TrimSlice | server/sonar-server/src/main/java/org/sonar/server/rule/index/RuleResultSetIterator.java:78 | the trimmed piece is the slice between the leading and the trailing whitespace, and starts and ends with non-whitespace |
| Text.TrimIdempotent | server/sonar-server/src/main/java/org/sonar/server/rule/index/RuleResultSetIterator.java:78 | trimming a trimmed piece changes nothing |
| Text.TrimEmpty | server/sonar-server/src/main/java/org/sonar/server/rule/index/RuleResultSetIterator.java:78 | a piece trims to empty exactly when it is all whitespace (such pieces are the ones omitted) |
| SqlStore.ApplyCounts | server/sonar-server/src/main/java/org/sonar/server/platform/BackendCleanup.java:136 | a TRUNCATE or DELETE keeps each row its condition does not hold for, exactly as often as before, and removes every row it holds for; a NULL column satisfies neither `=` nor `<>` |
| SqlStore.ApplyRewrites | server/sonar-server/src/main/java/org/sonar/server/platform/BackendCleanup.java:191 | an UPDATE keeps the number of rows and rewrites row i into row i with the column set |
| SqlStore.ApplyContents | server/sonar-server/src/main/java/org/sonar/server/platform/BackendCleanup.java:183-197 | a statement's effect by counts and by membership for deletions, and by position for the update |
| SqlStore.JournalAt | server/sonar-server/src/main/java/org/sonar/server/platform/BackendCleanup.java:129-138 | in the journal of a statement list, entry 2i is statement i executed and entry 2i+1 is its commit |
| SqlStore.JournalCommitsEachStatement | server/sonar-server/src/main/java/org/sonar/server/platform/BackendCleanup.java:131-132 | in such a journal every executed statement is immediately followed by a commit |
| SqlStore.RunJournal | server/sonar-server/src/main/java/org/sonar/server/platform/BackendCleanup.java:79-83 | the journal of a run is the statement-and-commit journal of exactly the prefix of the plan it executed |
| SqlStore.RunCommitsEachStatement | server/sonar-server/src/main/java/org/sonar/server/platform/BackendCleanup.java:163-165 | every statement a run executes is committed before the next one is executed |
| SqlStore.RunStops | server/sonar-server/src/main/java/org/sonar/server/platform/BackendCleanup.java:84-86 | a run executes statements while their tables exist and stops at the first statement whose table is missing |
| SqlStore.CompletesIff | server/sonar-server/src/main/java/org/sonar/server/platform/BackendCleanup.java:79-86 | a run completes exactly when every statement of the plan names an existing table |
| SqlStore.RunAppend | server/sonar-server/src/main/java/org/sonar/server/platform/BackendCleanup.java:107-118 | running p then q is running p + q: if p stops early the whole run stops there, otherwise q runs on p's result and the journals concatenate |
| SqlStore.RunPerTable | server/sonar-server/src/main/java/org/sonar/server/platform/BackendCleanup.java:79-83 | each table ends as its own executed statements, applied in plan order to its rows; statements on other tables do not affect it |
| SqlStore.RunUntouched | server/sonar-server/src/main/java/org/sonar/server/platform/BackendCleanup.java:214-216 | a table that no statement names keeps its rows |
| SqlStore.ApplyAllTruncated | server/sonar-server/src/main/java/org/sonar/server/platform/BackendCleanup.java:162-166 | a TRUNCATE among a table's statements leaves it empty, whatever else runs on it |
| SqlStore.ApplyAllEstablishes | server/sonar-server/src/main/java/org/sonar/server/platform/BackendCleanup.java:183-197 | once one of a table's statements restricts a column to an allowed set and the others keep it there, every surviving row is within the set |
| SqlStore.Connection.Execute | server/sonar-server/src/main/java/org/sonar/server/platform/BackendCleanup.java:130 | on an existing table the statement is applied to that table alone and journalled; on a missing table it fails and nothing changes |
| SqlStore.Connection.Commit | server/sonar-server/src/main/java/org/sonar/server/platform/BackendCleanup.java:132 | a commit changes no table and journals the commit |
| BackendCleanup.CleanerForCases | server/sonar-server/src/main/java/org/sonar/server/platform/BackendCleanup.java:79-82 | a table is truncated by default exactly when its name is not one of the four keys of TABLE_CLEANERS, and only the exact name schema_migrations gets the no-op cleaner |
| BackendCleanup.BackendCleanup.ExecuteAndCommit | server/sonar-server/src/main/java/org/sonar/server/platform/BackendCleanup.java:163-165 | the connection ends as Run of the one statement: executed and committed, or failed with nothing changed |
| BackendCleanup.BackendCleanup.TruncateDefault | server/sonar-server/src/main/java/org/sonar/server/platform/BackendCleanup.java:162-166 | the connection ends as Run of TRUNCATE TABLE of the lower-cased name |
| BackendCleanup.BackendCleanup.TruncateOrganizations | server/sonar-server/src/main/java/org/sonar/server/platform/BackendCleanup.java:171-178 | the connection ends as Run of `delete from organizations where kee <> 'default-organization'` |
| BackendCleanup.BackendCleanup.TruncateUsers | server/sonar-server/src/main/java/org/sonar/server/platform/BackendCleanup.java:183-197 | the connection ends as Run of the delete of non-admin users followed by `update users set is_root=false`; the update is not issued when the delete fails |
| BackendCleanup.BackendCleanup.TruncateInternalProperties | server/sonar-server/src/main/java/org/sonar/server/platform/BackendCleanup.java:202-209 | the connection ends as Run of the delete of every internal property but the default organization's |
| BackendCleanup.BackendCleanup.TruncateSchemaMigrations | server/sonar-server/src/main/java/org/sonar/server/platform/BackendCleanup.java:214-216 | succeeds and may change nothing (it has no modifies clause) |
| BackendCleanup.BackendCleanup.Clean | server/sonar-server/src/main/java/org/sonar/server/platform/BackendCleanup.java:80-82 | the connection ends as Run of the plan of the given cleaner for the table |
| BackendCleanup.BackendCleanup.ClearDb | server/sonar-server/src/main/java/org/sonar/server/platform/BackendCleanup.java:75-87 | the connection ends as Run of every table's cleaner plan in list order; the status is Done exactly when that run completed, and otherwise Failed("Fail to clear db") |
| BackendCleanup.BackendCleanup.TruncateTables | server/sonar-server/src/main/java/org/sonar/server/platform/BackendCleanup.java:129-133 | the connection ends as Run of TRUNCATE of each lower-cased name in order, each committed |
| BackendCleanup.BackendCleanup.DeleteResourceRows | server/sonar-server/src/main/java/org/sonar/server/platform/BackendCleanup.java:135-138 | the connection ends as Run of `DELETE FROM t WHERE resource_id IS NOT NULL` for each name in order |
| BackendCleanup.BackendCleanup.TruncateAnalysisTables | server/sonar-server/src/main/java/org/sonar/server/platform/BackendCleanup.java:126-140 | the connection ends as Run of the analysis truncations followed by the resource-row deletions |
| BackendCleanup.BackendCleanup.DeleteManualRules | server/sonar-server/src/main/java/org/sonar/server/platform/BackendCleanup.java:142-148 | the connection ends as Run of `DELETE FROM rules WHERE rules.plugin_name='manual'` |
| BackendCleanup.BackendCleanup.ResetData | server/sonar-server/src/main/java/org/sonar/server/platform/BackendCleanup.java:107-118 | the connection ends as Run of the resetData plan; the status is Done exactly when it completed, and otherwise Failed("Fail to reset data") |
| BackendCleanup.TruncatePlanAt | server/sonar-server/src/main/java/org/sonar/server/platform/BackendCleanup.java:129-130 | statement i of the truncation plan truncates name i, lower-cased, and there is one statement per name |
| BackendCleanup.DeleteResourceRowsPlanAt | server/sonar-server/src/main/java/org/sonar/server/platform/BackendCleanup.java:135-136 | statement i of the resource plan deletes the resource-bound rows of name i, and there is one statement per name |
| BackendCleanup.ConstantTablesWellFormed | server/sonar-server/src/main/java/org/sonar/server/platform/BackendCleanup.java:48-55 | the analysis table names are lower case and pairwise distinct, and so are the resource-related table names |
| BackendCleanup.ClearDbPlanStatements | server/sonar-server/src/main/java/org/sonar/server/platform/BackendCleanup.java:79-82 | every statement clearDb issues comes from the cleaner of one of the listed tables |
| BackendCleanup.ClearDbPlanUpdates | server/sonar-server/src/main/java/org/sonar/server/platform/BackendCleanup.java:191 | the only UPDATE clearDb can issue sets is_root to false on users |
| BackendCleanup.TruncateOrganizationsSurvivors | server/sonar-server/src/main/java/org/sonar/server/platform/BackendCleanup.java:171-178 | exactly the organizations whose key is the default key or NULL survive, each as often as before |
| BackendCleanup.TruncateOrganizationsKeepsDefault | server/sonar-server/src/main/java/org/sonar/server/platform/BackendCleanup.java:168-178 | when no key is NULL, a row survives exactly when it was there and has the default key |
| BackendCleanup.TruncateOrganizationsLeavesOne | server/sonar-server/src/main/java/org/sonar/server/platform/BackendCleanup.java:168-178 | when no key is NULL and exactly one row, occurring once, has the default key, exactly that row remains |
| BackendCleanup.TruncateInternalPropertiesSurvivors | server/sonar-server/src/main/java/org/sonar/server/platform/BackendCleanup.java:199-209 | exactly the internal properties whose key is organization.default or NULL survive, each as often as before |
| BackendCleanup.TruncateUsersEffect | server/sonar-server/src/main/java/org/sonar/server/platform/BackendCleanup.java:183-197 | the delete keeps exactly the admin (and NULL-login) users, each as often as before, and the update then sets is_root=false on each of them in place |
| BackendCleanup.TruncateUsersLeavesAdminOnly | server/sonar-server/src/main/java/org/sonar/server/platform/BackendCleanup.java:180-197 | every remaining user has login admin (or NULL) and is_root false |
| BackendCleanup.ClearDbEmptiesUnmappedTables | server/sonar-server/src/main/java/org/sonar/server/platform/BackendCleanup.java:79-82 | after a completed clearDb, every listed table without a cleaner of its own is empty under its lower-cased name |
| BackendCleanup.ClearDbKeepsSchemaMigrations | server/sonar-server/src/main/java/org/sonar/server/platform/BackendCleanup.java:211-216 | clearDb leaves schema_migrations exactly as it was, even when it stops early, provided no other listed name lower-cases to it |
| BackendCleanup.ClearDbKeepsDefaultOrganization | server/sonar-server/src/main/java/org/sonar/server/platform/BackendCleanup.java:168-178 | after a completed clearDb that lists organizations, every remaining organization has the default key or a NULL key |
| BackendCleanup.ClearDbKeepsDefaultOrganizationProperty | server/sonar-server/src/main/java/org/sonar/server/platform/BackendCleanup.java:199-209 | after a completed clearDb that lists internal_properties, every remaining property has key organization.default or NULL |
| BackendCleanup.ClearDbLeavesAdminOnly | server/sonar-server/src/main/java/org/sonar/server/platform/BackendCleanup.java:180-197 | after a completed clearDb that lists users, every remaining user has login admin (or NULL) and is_root false |
| BackendCleanup.CleanerPlanTargets | server/sonar-server/src/main/java/org/sonar/server/platform/BackendCleanup.java:162-216 | every statement of the cleaner for a lower-case table acts on that table only |
| BackendCleanup.ClearDbCleansEachTable | server/sonar-server/src/main/java/org/sonar/server/platform/BackendCleanup.java:79-83 | for distinct lower-case names, a completed clearDb leaves each listed table as its own cleaner leaves it and every other table unchanged |
| BackendCleanup.ResetDataStatementsOn | server/sonar-server/src/main/java/org/sonar/server/platform/BackendCleanup.java:107-118 | the statements resetData issues on one table, by class: one truncation, one resource deletion, the manual-rule delete, a protected-table reset, or none |
| BackendCleanup.ResetDataPerTable | server/sonar-server/src/main/java/org/sonar/server/platform/BackendCleanup.java:107-118 | a completed resetData leaves every table as its own statements leave it (the reference ResetRows) |
| BackendCleanup.ResetDataCompletes | server/sonar-server/src/main/java/org/sonar/server/platform/BackendCleanup.java:111-117 | resetData completes exactly when every table it names exists |
| BackendCleanup.ResetDataLeavesOtherTables | server/sonar-server/src/main/java/org/sonar/server/platform/BackendCleanup.java:107-118 | a table resetData does not name keeps its rows, whether or not the run completes |
| BackendCleanup.ResetDataNeverTouchesSchemaMigrations | server/sonar-server/src/main/java/org/sonar/server/platform/BackendCleanup.java:211-213 | resetData leaves schema_migrations unchanged |
| BackendCleanup.ResetDataEmptiesAnalysisTables | server/sonar-server/src/main/java/org/sonar/server/platform/BackendCleanup.java:129-133 | after a completed resetData every analysis table is empty |
| BackendCleanup.ResetDataKeepsGlobalRows | server/sonar-server/src/main/java/org/sonar/server/platform/BackendCleanup.java:134-138 | after a completed resetData a resource-related table keeps exactly its rows with NULL resource_id, each as often as before |
| BackendCleanup.ResetDataDeletesManualRules | server/sonar-server/src/main/java/org/sonar/server/platform/BackendCleanup.java:142-148 | after a completed resetData the rules table keeps exactly the rules whose plugin_name is not 'manual', each as often as before |
| BackendCleanup.ResetDataProtectedTable | server/sonar-server/src/main/java/org/sonar/server/platform/BackendCleanup.java:113-115 | resetData cleans organizations, users and internal_properties exactly as their clearDb cleaners do |
| BackendCleanup.ResetDataOrder | server/sonar-server/src/main/java/org/sonar/server/platform/BackendCleanup.java:111-115 | resetData issues 20 statements: the twelve analysis truncations in array order, the three resource deletions, then the manual rules, internal properties, users and organizations |
| BackendCleanup.EveryStatementIsCommitted | server/sonar-server/src/main/java/org/sonar/server/platform/BackendCleanup.java:126-148 | in both clearDb and resetData, every statement executed is committed before the next one |
| RuleResultSetIterator.FieldsLayout | server/sonar-server/src/main/java/org/sonar/server/rule/index/RuleResultSetIterator.java:49-76 | there are 17 fields, and the single-rule filter compares column 2 (r.plugin_name) and then column 1 (r.plugin_rule_key) |
| RuleResultSetIterator.SqlAllPlaceholders | server/sonar-server/src/main/java/org/sonar/server/rule/index/RuleResultSetIterator.java:72-74 | the organization-wide statement has exactly one placeholder |
| RuleResultSetIterator.RuleKeyPlaceholders | server/sonar-server/src/main/java/org/sonar/server/rule/index/RuleResultSetIterator.java:76 | the single-rule filter has exactly two placeholders |
| RuleResultSetIterator.SelectSqlPlaceholders | server/sonar-server/src/main/java/org/sonar/server/rule/index/RuleResultSetIterator.java:94-97 | the statement has three placeholders with a rule key and one without |
| RuleResultSetIterator.ParametersNumbered | server/sonar-server/src/main/java/org/sonar/server/rule/index/RuleResultSetIterator.java:99-103 | the bound parameters are numbered exactly 1..3 with a rule key and exactly 1 without |
| RuleResultSetIterator.PlaceholdersMatchParameters | server/sonar-server/src/main/java/org/sonar/server/rule/index/RuleResultSetIterator.java:92-103 | every placeholder of the statement gets a parameter and every parameter has a placeholder |
| RuleResultSetIterator.PreparedStatement.SetString | server/sonar-server/src/main/java/org/sonar/server/rule/index/RuleResultSetIterator.java:99 | binds a value to one existing placeholder and leaves the other bindings alone |
| RuleResultSetIterator.DoCreate | server/sonar-server/src/main/java/org/sonar/server/rule/index/RuleResultSetIterator.java:92-112 | the statement text is SQL_ALL, followed by SQL_RULE_KEY exactly when a key is given; parameter 1 is the organization, and with a key parameters 2 and 3 are its repository and rule |
| RuleResultSetIterator.TrimmedPiecesMembers | server/sonar-server/src/main/java/org/sonar/server/rule/index/RuleResultSetIterator.java:78 | a string is kept exactly when it is the non-empty trimmed form of some piece |
| RuleResultSetIterator.TagsToSet | server/sonar-server/src/main/java/org/sonar/server/rule/index/RuleResultSetIterator.java:162-164 | a NULL tag column gives the empty set |
| RuleResultSetIterator.TagsToSetMembers | server/sonar-server/src/main/java/org/sonar/server/rule/index/RuleResultSetIterator.java:162-164 | a tag is in the set exactly when it is a comma-separated piece of the column, trimmed and non-empty |
| RuleResultSetIterator.TagsAreTrimmed | server/sonar-server/src/main/java/org/sonar/server/rule/index/RuleResultSetIterator.java:78 | every tag is non-empty, has no leading or trailing whitespace and contains no comma |
| RuleResultSetIterator.SplitTagsJoin | server/sonar-server/src/main/java/org/sonar/server/rule/index/RuleResultSetIterator.java:78 | splitting the comma-join of well-formed tags gives back the tags in order, so their set is the set of the tags |
| RuleResultSetIterator.AllTagsIgnoresOrigin | server/sonar-server/src/main/java/org/sonar/server/rule/index/RuleResultSetIterator.java:143 | swapping the two tag columns or repeating a tag list does not change the tag set |
| RuleResultSetIterator.FormatValueOf | server/sonar-server/src/main/java/org/sonar/server/rule/index/RuleResultSetIterator.java:132 | exactly "HTML" and "MARKDOWN" name a format; every other name is an error |
| RuleResultSetIterator.KeyOf | server/sonar-server/src/main/java/org/sonar/server/rule/index/RuleResultSetIterator.java:120 | a key is made exactly when both parts are present and non-empty, and it holds those parts |
| RuleResultSetIterator.RuleKeyPrintsInjectively | server/sonar-server/src/main/java/org/sonar/server/rule/index/RuleResultSetIterator.java:123 | when repositories contain no ':', two keys that print the same are the same key |
| RuleResultSetIterator.ToDocKey | server/sonar-server/src/main/java/org/sonar/server/rule/index/RuleResultSetIterator.java:118-125 | the document's rule key and repository are columns 1 and 2, and its key is repository + ":" + rule key |
| RuleResultSetIterator.ToDocDescription | server/sonar-server/src/main/java/org/sonar/server/rule/index/RuleResultSetIterator.java:128-138 | htmlDescription is set exactly when description and format are both present; HTML passes through and Markdown is the renderer's result |
| RuleResultSetIterator.ToDocTemplateKey | server/sonar-server/src/main/java/org/sonar/server/rule/index/RuleResultSetIterator.java:145-151 | the template key is present exactly when both template columns are non-null, and then it is repository + ":" + rule |
| RuleResultSetIterator.ToDocTags | server/sonar-server/src/main/java/org/sonar/server/rule/index/RuleResultSetIterator.java:143 | a tag is in the document exactly when it is a trimmed, non-empty piece of the metadata tags or of the system tags |
| RuleResultSetIterator.ToDocErrors | server/sonar-server/src/main/java/org/sonar/server/rule/index/RuleResultSetIterator.java:115-160 | a row is read exactly when key, format, Markdown rendering, severity, template key and rule type are all valid; otherwise the error is the first invalid one in reading order |
| RuleResultSetIterator.ResultSet.GetString | server/sonar-server/src/main/java/org/sonar/server/rule/index/RuleResultSetIterator.java:118 | returns column i's text, None for NULL, and records that column i was read |
| RuleResultSetIterator.ReadKeyColumns | server/sonar-server/src/main/java/org/sonar/server/rule/index/RuleResultSetIterator.java:118-119 | reads columns 1 and 2, in that order, as the rule key and the repository |
| RuleResultSetIterator.ReadDescription | server/sonar-server/src/main/java/org/sonar/server/rule/index/RuleResultSetIterator.java:126-138 | reads columns 3 to 5 and gives the name and the HTML description of the row, or the unknown-format or rendering error |
| RuleResultSetIterator.ReadSeverity | server/sonar-server/src/main/java/org/sonar/server/rule/index/RuleResultSetIterator.java:140 | reads column 6 and maps its ordinal to a severity |
| RuleResultSetIterator.ReadStatus | server/sonar-server/src/main/java/org/sonar/server/rule/index/RuleResultSetIterator.java:141-142 | reads columns 7 and 8 as the status and the template flag |
| RuleResultSetIterator.ReadTags | server/sonar-server/src/main/java/org/sonar/server/rule/index/RuleResultSetIterator.java:143 | reads columns 9 and 10 and gives the union of their tag sets |
| RuleResultSetIterator.ReadTemplateKey | server/sonar-server/src/main/java/org/sonar/server/rule/index/RuleResultSetIterator.java:145-151 | reads columns 11 and 12 and gives the template key of the row |
| RuleResultSetIterator.ReadType | server/sonar-server/src/main/java/org/sonar/server/rule/index/RuleResultSetIterator.java:153-155 | reads columns 13 to 15 as the internal key, the language and the rule type |
| RuleResultSetIterator.ReadDates | server/sonar-server/src/main/java/org/sonar/server/rule/index/RuleResultSetIterator.java:156-157 | reads columns 16 and 17 as the creation and update dates |
| RuleResultSetIterator.ReadFrom7 | server/sonar-server/src/main/java/org/sonar/server/rule/index/RuleResultSetIterator.java:141-159 | reading columns 7 onward gives the rest of the document, or the template-key or rule-type error after the column where it shows |
| RuleResultSetIterator.Read | server/sonar-server/src/main/java/org/sonar/server/rule/index/RuleResultSetIterator.java:114-160 | the result is the row's transform ToDoc; a full read takes columns 1..17 once each, in order, and a failed one stops right after the column where its error shows |

## Left out

- The Elasticsearch side is not modelled: `clearAll`'s `clearIndexes`, `clearIndex`, and the four index clears at the end of `resetData`. It is a different store, reached through a client whose code is not part of this model.
- Session and connection handling (`openSession`, `createStatement`, `prepareStatement`, try-with-resources closing) is not modelled. The only failure modelled is a statement on a table that does not exist. Other `SQLException`s and driver errors are I/O.
- The exception chaining is not modelled. A failure is a `Failed(message)` status carrying the exception's message.
- Table names are case-sensitive in the store: each table is keyed by its name as stored, and a statement on a name in a different case misses that table (most databases fold unquoted names). Because the cleaner lookup is by exact name, a table listed as `USERS` gets `truncateDefault`, whose statement names `users`. With case-sensitive keys that statement reaches only a table stored as `users`, which is why clearDb's emptiness results are stated for the lower-cased name.
- `SqTables.TABLES` is not part of this model, so `clearDb` takes the table list as a parameter. `ClearDbCleansEachTable` needs the names to be lower case and distinct. The other clearDb lemmas need neither.
- `InternalProperties.DEFAULT_ORGANIZATION` is not part of this model. Its value is taken to be `organization.default`.
- `toLowerCase()` and `toLowerCase(Locale.ENGLISH)` are modelled as ASCII lower-casing. Non-ASCII letters are left as they are.
- `Markdown.convertToHtml`, `SeverityUtil.getSeverityFromOrdinal` and `RuleType.valueOf` are parameters of the transform (`Converters`). Their code is not part of this model. Each returns None where it raises; a rendering failure is the `RenderFailed` error, met after column 5.
- `RuleKey.of` and `RuleKey.toString` follow their published contracts (non-empty parts; `repository:rule`). Their code is not part of this model.
- The `RuleDoc` setters are modelled as one document value. An unset `htmlDescription` is None.
- `ResultSetIterator`, the `Stream`/`Spliterator` wrapping, cursor release and scrolling over several rows are not modelled. `Read` reads the current row.
- The two `create` overloads are not modelled separately. They only forward to `doCreate`, which `DoCreate` models with an optional key.
- The `IllegalStateException` when preparing the statement fails is not modelled, because preparing is I/O.
- Column types are a `Cell` datatype. NULL reads as None in `getString`, as 0 in `getInt` and `getLong`, and as false in `getBoolean`. A cell of the wrong type reads like NULL.
- Java `int` and `long` widths are not modelled: ordinals, type constants and dates are unbounded integers. No arithmetic is done on them.
- Logging is left out.
- The SQL text is assembled from shorter string literals. It spells the same statement, with the same placeholders, as `SQL_ALL` and `SQL_RULE_KEY`.
