/** The migrations this module reads: what `createInstances` hands back, reduced to what Helpers consults. */
module Migrations {
  import opened Php
  import opened Wrappers
  import MigrateUploader
  import CsvSource
  import SpreadsheetSource

  /** The two source plugins that implement the uploader capability. */
  datatype UploaderKind = Csv | Spreadsheet {
    /** `getFilePathKey()` of the plugin class. */
    function FilePathKey(): (key: string)
      ensures key == (if Csv? then CsvSource.CSVUploader.GetFilePathKey()
                      else SpreadsheetSource.SpreadsheetUploader.GetFilePathKey())
    {
      match this
      case Csv => CsvSource.CSVUploader.FilePathKey
      case Spreadsheet => SpreadsheetSource.SpreadsheetUploader.FilePathKey
    }
  }

  /** The state of an uploader source plugin: its kind and its (seeded) configuration. */
  datatype Uploader = Uploader(kind: UploaderKind, configuration: map<string, string>) {
    predicate HasValidFilePath() {
      MigrateUploader.ValidFilePath(configuration, kind.FilePathKey())
    }
  }

  /**
   * A migration: its group ("" when unset), its tags, any other list-valued
   * property, and its source plugin (plugin id, whether the plugin's
   * requirements check passes, and the uploader state when the plugin is an
   * uploader). Source plugins without a requirements check have
   * `requirementsOk` set.
   */
  datatype Migration = Migration(
    group: string,
    tags: seq<string>,
    properties: map<string, seq<string>>,
    sourcePluginId: string,
    requirementsOk: bool,
    uploader: Option<Uploader>)

  /** Every migration of the site, keyed by migration id. */
  type Registry = map<string, Migration>

  const SourcePluginsKey: string := "source_plugins"
  const MigrationGroupKey: string := "migration_group"
  const MigrationTagsKey: string := "migration_tags"
  const DefaultGroup: string := "default"

  /** `(array) $migration->get($property)`. */
  function ConfiguredValues(m: Migration, property: string): (values: seq<string>)
    ensures property == MigrationGroupKey ==> values == (if m.group == "" then [] else [m.group])
    ensures property == MigrationTagsKey ==> values == m.tags
    ensures property != MigrationGroupKey && property != MigrationTagsKey && property !in m.properties ==> values == []
  {
    if property == MigrationGroupKey then (if m.group == "" then [] else [m.group])
    else if property == MigrationTagsKey then m.tags
    else if property in m.properties then m.properties[property]
    else []
  }

  /** The bucket a migration is listed under: its group, or "default" when that is empty. */
  function GroupId(m: Migration): (g: string)
    ensures !EmptyString(g)
    ensures !EmptyString(m.group) ==> g == m.group
    ensures EmptyString(m.group) ==> g == DefaultGroup
  {
    if EmptyString(m.group) then DefaultGroup else m.group
  }

  /** The migration's source is an uploader that still has no valid file path. */
  predicate LacksFile(m: Migration) {
    m.uploader.Some? && !m.uploader.value.HasValidFilePath()
  }
}
