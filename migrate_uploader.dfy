/**
 * What the two uploader source plugins share (the MigrateUploaderInterface
 * capability): the placeholder that stands for "no file uploaded yet", how a
 * configuration is seeded with it, when a configured path counts as valid and
 * what the source yields while the placeholder is in place.
 */
module MigrateUploader {
  import opened Php

  /** The path used while no file was uploaded for a source. */
  const EmptyPathPlaceholder: string := "[uploader]"

  /** One record produced by the underlying CSV or spreadsheet parser. */
  type Row = map<string, string>

  /** The configuration a plugin keeps after its constructor ran. */
  function Seeded(configuration: map<string, string>, key: string): (seeded: map<string, string>)
    ensures key in seeded && !EmptyString(seeded[key])
    ensures EmptyAt(configuration, key) ==> seeded[key] == EmptyPathPlaceholder
    ensures !EmptyAt(configuration, key) ==> seeded[key] == configuration[key]
    ensures seeded.Keys == configuration.Keys + {key}
    ensures forall k :: k in configuration && k != key ==> seeded[k] == configuration[k]
  {
    if EmptyAt(configuration, key) then configuration[key := EmptyPathPlaceholder] else configuration
  }

  /** `hasValidFilePath()`: a non-empty path that is not the placeholder. */
  predicate ValidFilePath(configuration: map<string, string>, key: string) {
    !EmptyAt(configuration, key) && configuration[key] != EmptyPathPlaceholder
  }

  /** `initializeIterator()`: nothing while the placeholder is in place, else the parent parser's rows. */
  function Rows(configuration: map<string, string>, key: string, parentRows: seq<Row>): seq<Row> {
    if key in configuration && configuration[key] == EmptyPathPlaceholder then [] else parentRows
  }

  /** Seeding never turns an invalid path into a valid one, nor the reverse. */
  lemma SeedingKeepsValidity(configuration: map<string, string>, key: string)
    ensures ValidFilePath(Seeded(configuration, key), key) == ValidFilePath(configuration, key)
  {
  }

  /** Seeding a configuration that was already seeded changes nothing. */
  lemma SeedingIdempotent(configuration: map<string, string>, key: string)
    ensures Seeded(Seeded(configuration, key), key) == Seeded(configuration, key)
  {
  }

  /**
   * A plugin built without a path reports an invalid path and yields no rows,
   * whatever the parent parser would have produced.
   */
  lemma MissingPathYieldsNothing(configuration: map<string, string>, key: string, parentRows: seq<Row>)
    requires EmptyAt(configuration, key)
    ensures !ValidFilePath(Seeded(configuration, key), key)
    ensures Rows(Seeded(configuration, key), key, parentRows) == []
  {
  }

  /** A plugin whose path is valid always hands iteration to the parent parser. */
  lemma ValidPathDelegates(configuration: map<string, string>, key: string, parentRows: seq<Row>)
    requires ValidFilePath(configuration, key)
    ensures Rows(configuration, key, parentRows) == parentRows
  {
  }

  /** Writing an uploaded file's URI under the path key makes the path valid. */
  lemma AssignedPathIsValid(configuration: map<string, string>, key: string, uri: string)
    requires !EmptyString(uri) && uri != EmptyPathPlaceholder
    ensures ValidFilePath(configuration[key := uri], key)
  {
  }
}
