/** The `spreadsheet_uploader` source plugin: a spreadsheet source whose file arrives through the upload form. */
module SpreadsheetSource {
  import opened Php
  import opened MigrateUploader

  class SpreadsheetUploader {
    /** The configuration key that holds the file path. */
    static const FilePathKey: string := "file"

    var configuration: map<string, string>

    /** Seeds the placeholder when no path (or an empty one) is supplied. */
    constructor (configuration: map<string, string>)
      ensures EmptyAt(configuration, FilePathKey) ==>
                this.configuration == configuration[FilePathKey := EmptyPathPlaceholder]
      ensures !EmptyAt(configuration, FilePathKey) ==> this.configuration == configuration
      ensures EmptyAt(configuration, FilePathKey) ==> !HasValidFilePath()
      ensures HasValidFilePath() == ValidFilePath(configuration, FilePathKey)
    {
      this.configuration := Seeded(configuration, FilePathKey);
      SeedingKeepsValidity(configuration, FilePathKey);
    }

    /** Records to import: none while the placeholder is in place, else the spreadsheet reader's. */
    function InitializeIterator(parentRows: seq<Row>): (rows: seq<Row>)
      reads this
      ensures FilePathKey in configuration && configuration[FilePathKey] == EmptyPathPlaceholder ==> rows == []
      ensures !(FilePathKey in configuration && configuration[FilePathKey] == EmptyPathPlaceholder) ==> rows == parentRows
      ensures HasValidFilePath() ==> rows == parentRows
    {
      Rows(configuration, FilePathKey, parentRows)
    }

    static function GetFilePathKey(): (key: string)
      ensures key == "file"
    {
      FilePathKey
    }

    /** True once a real file path, rather than nothing or the placeholder, is configured. */
    function HasValidFilePath(): (valid: bool)
      reads this
      ensures valid <==> FilePathKey in configuration && !EmptyString(configuration[FilePathKey])
                         && configuration[FilePathKey] != EmptyPathPlaceholder
    {
      ValidFilePath(configuration, FilePathKey)
    }
  }
}
