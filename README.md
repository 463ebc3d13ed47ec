# migrate_uploader — a verified model

The migrate_uploader Drupal module lets an administrator upload a CSV or
spreadsheet file through a form and attach it as the source of a configured
migration. Two pieces of logic decide what the module does:

- the **Helpers** service (`src/Helpers.php`): `getActiveMigrations` narrows every
  migration of the site by requested ids, by the source plugin's requirements
  check, by group and tag (with the module's own match rule) and by source
  plugin id, then buckets the survivors as group id → migration id →
  migration; `migrationWithoutSourceExists` asks whether some active
  migration has an uploader source that was never given a file;
- the two **uploader source plugins** (`CSVUploader`, key `path`, and
  `SpreadsheetUploader`, key `file`): their constructor puts the
  placeholder `[uploader]` under the path key when no path is configured,
  `hasValidFilePath()` accepts a path that is neither empty nor the
  placeholder, and `initializeIterator()` yields nothing while the
  placeholder is in place.

Files:

- `php.dfy` (module `Php`): PHP's `empty()` on strings and on a missing
  array key, and `Unicode::strtolower` on ASCII letters.
- `wrappers.dfy` (module `Wrappers`): `Option`.
- `migrate_uploader.dfy` (module `MigrateUploader`): what the two uploader
  plugins share: the placeholder, seeding, path validity and the iterator
  policy, with lemmas relating them.
- `csv_uploader.dfy`, `spreadsheet_uploader.dfy` (modules `CsvSource`,
  `SpreadsheetSource`): the plugin classes, each holding its configuration
  as a `map<string, string>` field set by its constructor.
- `migrations.dfy` (module `Migrations`): the migration as this module
  sees it (group, tags, other list-valued properties, source plugin id,
  requirements outcome, uploader state). The registry that
  `createInstances` returns is a `map` from migration id to migration,
  so the map key is the migration's id.
- `helpers.dfy` (module `Helpers`): `getActiveMigrations` specified
  stage by stage as functions (`ActiveMigrations`) and as one predicate per
  migration (`Survives`), the lemmas connecting them and stating the
  properties of the filter, and the methods that follow the PHP loops and are
  proved to compute `ActiveMigrations`. The registry is a parameter of each
  method instead of the injected plugin manager.

The catalog's match rule is kept as the code has it, quirks included:

- a search value that is empty or equal to `default` keeps every migration;
- the property loop also walks the `source_plugins` filter key as if it
  were a migration property;
- when an id list was given, the property loop also asks that the
  lower-cased id be among the requested, registered ids.

The gate keeps the code's control flow: the inner `break` does not stop the
outer loop. The result is the same as with a full short-circuit, because the
flag is only ever set.

The comment at `src/Helpers.php:99-100` speaks of migrations "in any of the
specified groups and with any of the specified tags". The code instead keeps a
migration when some search value is empty, equals `default`, or is among the
migration's configured values for that property. The model follows the code.

## Model

| member | source | states |
|---|---|---|
| Php.Lower | src/Helpers.php:110 | lower-casing keeps the length and maps each ASCII capital to its own small letter (code point + 32), every other character to itself |
| MigrateUploader.Seeded | modules/migrate_uploader_csv/src/Plugin/migrate/source/CSVUploader.php:34-40 | after seeding, the path key holds a non-empty value: the placeholder when the supplied path was missing, "" or "0", the supplied path otherwise; no other key is added, removed or changed |
| MigrateUploader.SeedingKeepsValidity | modules/migrate_uploader_csv/src/Plugin/migrate/source/CSVUploader.php:36-67 | seeding never changes whether the path is valid |
| MigrateUploader.SeedingIdempotent | modules/migrate_uploader_csv/src/Plugin/migrate/source/CSVUploader.php:36-38 | seeding an already seeded configuration changes nothing |
| MigrateUploader.MissingPathYieldsNothing | modules/migrate_uploader_csv/src/Plugin/migrate/source/CSVUploader.php:36-53 | a plugin built without a path reports an invalid path and yields no rows, whatever the parent parser would yield |
| MigrateUploader.ValidPathDelegates | modules/migrate_uploader_csv/src/Plugin/migrate/source/CSVUploader.php:46-67 | a plugin with a valid path always yields the parent parser's rows |
| MigrateUploader.AssignedPathIsValid | src/Form/UploadForm.php:206-209 | writing a non-empty, non-placeholder file URI under the path key makes the path valid |
| CsvSource.CSVUploader.constructor | modules/migrate_uploader_csv/src/Plugin/migrate/source/CSVUploader.php:34-41 | a missing or empty `path` becomes the placeholder and the plugin then reports no valid path; a non-empty `path` and every other key are kept as supplied |
| CsvSource.CSVUploader.InitializeIterator | modules/migrate_uploader_csv/src/Plugin/migrate/source/CSVUploader.php:46-53 | no rows while `path` is the placeholder; the CSV parser's rows in every other case, in particular whenever the path is valid |
| CsvSource.CSVUploader.GetFilePathKey | modules/migrate_uploader_csv/src/Plugin/migrate/source/CSVUploader.php:58-60 | the key is `path`, whatever the instance state (a static member) |
| CsvSource.CSVUploader.HasValidFilePath | modules/migrate_uploader_csv/src/Plugin/migrate/source/CSVUploader.php:65-67 | true exactly when `path` is present, not empty in PHP's sense, and not the placeholder |
| SpreadsheetSource.SpreadsheetUploader.constructor | modules/migrate_uploader_spreadsheet/src/Plugin/migrate/source/SpreadsheetUploader.php:31-38 | a missing or empty `file` becomes the placeholder and the plugin then reports no valid path; a non-empty `file` and every other key are kept as supplied |
| SpreadsheetSource.SpreadsheetUploader.InitializeIterator | modules/migrate_uploader_spreadsheet/src/Plugin/migrate/source/SpreadsheetUploader.php:43-50 | no rows while `file` is the placeholder; the spreadsheet reader's rows in every other case, in particular whenever the path is valid |
| SpreadsheetSource.SpreadsheetUploader.GetFilePathKey | modules/migrate_uploader_spreadsheet/src/Plugin/migrate/source/SpreadsheetUploader.php:55-57 | the key is `file`, whatever the instance state (a static member) |
| SpreadsheetSource.SpreadsheetUploader.HasValidFilePath | modules/migrate_uploader_spreadsheet/src/Plugin/migrate/source/SpreadsheetUploader.php:62-64 | true exactly when `file` is present, not empty in PHP's sense, and not the placeholder |
| Migrations.UploaderKind.FilePathKey | src/MigrateUploaderInterface.php:18-24 | an uploader migration's path key is the one its plugin class reports |
| Migrations.ConfiguredValues | src/Helpers.php:107 | the values searched for a property: exactly `[group]` for `migration_group` (`[]` when the group is unset), the tags for `migration_tags`, and `[]` for a property the migration does not have |
| Migrations.GroupId | src/Helpers.php:133 | a migration's bucket is its own group when that is not empty in PHP's sense, and `default` when it is; either way the bucket id is not empty |
| Helpers.SearchMatchRule | src/Helpers.php:107-110 | the match rule used by the filter (`SearchMatches`) is the code's test: the search value is empty or equals the configured id (the value itself when the migration has it, `default` otherwise), and the lower-cased id passes the id check |
| Helpers.SelectRequested | src/Helpers.php:71-82 | the loop keeps every migration when no id is requested, else exactly the requested ones that exist |
| Helpers.DropUnmetRequirements | src/Helpers.php:86-95 | the loop removes exactly the migrations whose requirements check fails |
| Helpers.FilterByProperty | src/Helpers.php:103-116 | the nested loops keep exactly the migrations that some search value keeps under the match rule |
| Helpers.FilterByProperties | src/Helpers.php:98-119 | the property loop runs only when a group or tag is requested, and then narrows by source_plugins, migration_group and migration_tags in turn, skipping keys with no values |
| Helpers.DropUnlistedSourcePlugins | src/Helpers.php:121-128 | the loop removes exactly the migrations whose source plugin id is not requested |
| Helpers.SortByGroup | src/Helpers.php:131-137 | the loop builds exactly the group → id → migration bucketing |
| Helpers.GroupByInsert | src/Helpers.php:134 | bucketing one more migration adds it to its group's bucket, creating that bucket when absent |
| Helpers.GetActiveMigrations | src/Helpers.php:62-138 | the method returns the grouped result of all five stages |
| Helpers.GroupByBuckets | src/Helpers.php:130-137 | each migration is in exactly the bucket of its group id, as itself; no bucket is empty; the result is empty exactly when nothing survived |
| Helpers.GroupTagStageMembership | src/Helpers.php:98-119 | the property loop keeps a migration exactly when every filter key in use passes it, i.e. the intersection of the per-dimension predicates |
| Helpers.SurvivorsMembership | src/Helpers.php:67-128 | the four filtering stages keep exactly the migrations satisfying `Survives`, unchanged |
| Helpers.ActiveMembership | src/Helpers.php:62-138 | migration `id` is listed under `g` iff it survives every filter and `g` is its group id; it is listed as itself |
| Helpers.ActiveHasNoEmptyBucket | src/Helpers.php:130-137 | no bucket is empty, and the result is `[]` exactly when no migration survives |
| Helpers.UnfilteredListsEveryUsableMigration | src/Helpers.php:67-73 | with no filter, exactly the migrations whose requirements are met are listed, each under its group id |
| Helpers.UnknownIdsListNothing | src/Helpers.php:71-82 | requesting only ids that do not exist yields `[]`, whatever the other filters |
| Helpers.ListedIdsWereRequested | src/Helpers.php:74-82 | with an id list, every listed migration was both requested and registered |
| Helpers.RequirementsFailureIsIsolated | src/Helpers.php:86-95 | a migration whose requirements check fails is not listed, and its failure changes no other migration's listing |
| Helpers.DefaultGroupSearchKeepsAll | src/Helpers.php:104-113 | a group filter containing `default` or an empty value lists the same as no filter |
| Helpers.MixedCaseIdDroppedByPropertyFilter | src/Helpers.php:110 | with an id list and a group filter, a requested migration whose lower-cased id is not a requested, registered id is dropped |
| Helpers.LowerCaseIdUnaffected | src/Helpers.php:110 | a requested, registered id that lower-cases to itself is filtered exactly as with no id list |
| Helpers.SourcePluginsWalkedAsProperty | src/Helpers.php:101-113 | with a group or tag filter, source-plugin values that are neither empty nor `default` drop every migration lacking a `source_plugins` property, so the result is `[]` |
| Helpers.SourcePluginFilterRemovesOnlyUnlisted | src/Helpers.php:121-128 | the source-plugin filter lists exactly the unfiltered migrations whose plugin id is requested |
| Helpers.GateCharacterization | src/Helpers.php:147-163 | the gate holds iff some migration whose requirements are met has an uploader source without a valid path; it is false for an empty registry |
| Helpers.MigrationWithoutSourceExists | src/Helpers.php:147-163 | the nested loops with the flag and the inner `break` return whether some listed migration has an uploader source without a valid path |

## Left out

- The upload form (`src/Form/UploadForm.php`): rendering, the managed
  file upload, making the file permanent, moving it, loading and saving the
  migration, clearing caches, messages and redirects are calls into Drupal
  services. Only the effect of writing the file URI under the path key is
  stated (`MigrateUploader.AssignedPathIsValid`).
- The route subscriber (`src/Routing/RouteSubscriber.php`) and the
  information controller (`src/Controller/InfoExecuteController.php`):
  they mutate Symfony routes or produce markup; their only decision is the
  boolean of `MigrationWithoutSourceExists`.
- `MigrateUploaderInterface` is not a separate type: Dafny traits are not
  used, so the capability is the `Uploader` datatype (kind and
  configuration) and the shared functions of `MigrateUploader`.
- The plugin manager's `createInstances`, the source plugins'
  `checkRequirements` (the `requirementsOk` flag) and the parent CSV and
  spreadsheet parsers (the `parentRows` parameter) are external and appear
  as values. The logger is unused by the code and not modelled.
- PHP's loose comparison in `in_array` and `==` (for instance `"1" ==
  "01"`) is modelled as plain string equality.
- Php.Lower: lower-cases ASCII letters only, because `Unicode::strtolower`
  applies the full Unicode case mapping, which is not modelled.
- The order in which PHP associative arrays are enumerated is not modelled:
  the loops pick keys in any order and the properties are about membership.
- A migration group that is configured as the empty string is treated like an
  unset group. The two differ only when searching for the empty value, which
  keeps every migration either way.
- Configuration values are strings; the plugins' `plugin_id`,
  `plugin_definition` and migration constructor arguments are not modelled.
