/**
 * The Helpers service: which migrations are active under a filter, grouped by
 * migration group, and whether any active uploader migration still lacks a file.
 */
module Helpers {
  import opened Php
  import opened Wrappers
  import opened Migrations

  type Grouped = map<string, map<string, Migration>>

  /** One entry of the filter array: a property name and the values searched for. */
  datatype Filter = Filter(property: string, values: seq<string>)

  /** The filter array, in the order its keys are written. */
  function Filters(sourcePlugins: seq<string>, groups: seq<string>, tags: seq<string>): seq<Filter> {
    [Filter(SourcePluginsKey, sourcePlugins), Filter(MigrationGroupKey, groups), Filter(MigrationTagsKey, tags)]
  }

  // ---------------------------------------------------------------------
  // Specification of getActiveMigrations, stage by stage.
  // ---------------------------------------------------------------------

  /** The requested ids that exist (the intersected id list; empty when none were requested). */
  function ValidIds(registry: Registry, ids: seq<string>): set<string> {
    set id | id in registry && id in ids
  }

  /** Stage 1: every migration, or only the requested ones that exist. */
  function IdStage(registry: Registry, ids: seq<string>): map<string, Migration> {
    if |ids| == 0 then registry else map id | id in registry && id in ids :: registry[id]
  }

  /** Stage 2: drop migrations whose source plugin fails its requirements check. */
  function RequirementsStage(matched: map<string, Migration>): map<string, Migration> {
    map id | id in matched && matched[id].requirementsOk :: matched[id]
  }

  /**
   * One search value keeps a migration when the value is empty, is "default", or
   * is among the migration's values for the property; and, when an id list is in
   * force, the lower-cased id is in it.
   */
  predicate SearchMatches(m: Migration, id: string, property: string, value: string, validIds: set<string>) {
    && (EmptyString(value) || value == DefaultGroup || value in ConfiguredValues(m, property))
    && (|validIds| == 0 || Lower(id) in validIds)
  }

  /**
   * The match rule in the code's own terms: the configured id is the search
   * value when the migration has it and "default" otherwise, and the migration
   * is kept when the search value is empty or equals the configured id.
   */
  lemma SearchMatchRule(m: Migration, id: string, property: string, value: string, validIds: set<string>)
    ensures var configuredId := if value in ConfiguredValues(m, property) then value else DefaultGroup;
            SearchMatches(m, id, property, value, validIds) <==>
              (EmptyString(value) || value == configuredId) && (|validIds| == 0 || Lower(id) in validIds)
  {
  }

  /** Some search value among `values` keeps the migration. */
  predicate MatchedBy(m: Migration, id: string, property: string, values: seq<string>, validIds: set<string>) {
    exists v :: v in values && SearchMatches(m, id, property, v, validIds)
  }

  /** A filter dimension keeps a migration when it is not in use or some search value keeps it. */
  predicate Passes(m: Migration, id: string, f: Filter, validIds: set<string>) {
    |f.values| == 0 || MatchedBy(m, id, f.property, f.values, validIds)
  }

  /** One pass of the property loop. */
  function PropertyStage(matched: map<string, Migration>, f: Filter, validIds: set<string>): map<string, Migration> {
    map id | id in matched && Passes(matched[id], id, f, validIds) :: matched[id]
  }

  /** The property loop over the filters in order. */
  function PropertyStages(matched: map<string, Migration>, filters: seq<Filter>, validIds: set<string>): map<string, Migration>
    decreases |filters|
  {
    if |filters| == 0 then matched
    else PropertyStage(PropertyStages(matched, filters[..|filters| - 1], validIds), filters[|filters| - 1], validIds)
  }

  /** Stage 3: the property loop, run only when a group or a tag is requested. */
  function GroupTagStage(matched: map<string, Migration>, sourcePlugins: seq<string>, groups: seq<string>,
                         tags: seq<string>, validIds: set<string>): map<string, Migration>
  {
    if |groups| == 0 && |tags| == 0 then matched
    else PropertyStages(matched, Filters(sourcePlugins, groups, tags), validIds)
  }

  /** Stage 4: keep only migrations whose source plugin id is requested. */
  function SourcePluginStage(matched: map<string, Migration>, sourcePlugins: seq<string>): map<string, Migration> {
    if |sourcePlugins| == 0 then matched
    else map id | id in matched && matched[id].sourcePluginId in sourcePlugins :: matched[id]
  }

  function GroupIds(matched: map<string, Migration>): set<string> {
    set id | id in matched :: GroupId(matched[id])
  }

  function Bucket(matched: map<string, Migration>, g: string): map<string, Migration> {
    map id | id in matched && GroupId(matched[id]) == g :: matched[id]
  }

  /** Stage 5: bucket the survivors by group id, keyed by migration id within a bucket. */
  function GroupBy(matched: map<string, Migration>): Grouped {
    map g | g in GroupIds(matched) :: Bucket(matched, g)
  }

  /** What `getActiveMigrations` returns. */
  function ActiveMigrations(registry: Registry, ids: seq<string>, sourcePlugins: seq<string>,
                            groups: seq<string>, tags: seq<string>): Grouped
  {
    var validIds := ValidIds(registry, ids);
    GroupBy(SourcePluginStage(GroupTagStage(RequirementsStage(IdStage(registry, ids)),
                                            sourcePlugins, groups, tags, validIds), sourcePlugins))
  }

  /**
   * The same result stated as one predicate per migration: the intersection of
   * the id, requirements, property and source-plugin conditions.
   */
  predicate Survives(registry: Registry, id: string, ids: seq<string>, sourcePlugins: seq<string>,
                     groups: seq<string>, tags: seq<string>)
  {
    && id in registry
    && (|ids| == 0 || id in ids)
    && registry[id].requirementsOk
    && (|groups| + |tags| > 0 ==>
          forall f | f in Filters(sourcePlugins, groups, tags) :: Passes(registry[id], id, f, ValidIds(registry, ids)))
    && (|sourcePlugins| == 0 || registry[id].sourcePluginId in sourcePlugins)
  }

  /** Some listed migration has an uploader source without a valid path. */
  predicate AnyLacksFile(grouped: Grouped) {
    exists g, id :: g in grouped && id in grouped[g] && LacksFile(grouped[g][id])
  }

  // ---------------------------------------------------------------------
  // Properties of the specification.
  // ---------------------------------------------------------------------

  /** Every migration lands in exactly the bucket of its group, and no bucket is empty. */
  lemma GroupByBuckets(matched: map<string, Migration>)
    ensures forall g, id ::
              (g in GroupBy(matched) && id in GroupBy(matched)[g]) <==> (id in matched && GroupId(matched[id]) == g)
    ensures forall g, id ::
              (g in GroupBy(matched) && id in GroupBy(matched)[g]) ==> GroupBy(matched)[g][id] == matched[id]
    ensures forall g :: g in GroupBy(matched) ==> |GroupBy(matched)[g]| > 0
    ensures GroupBy(matched) == map[] <==> matched == map[]
  {
    var grouped := GroupBy(matched);
    forall g | g in grouped
      ensures |grouped[g]| > 0
    {
      var id :| id in matched && GroupId(matched[id]) == g;
      assert id in grouped[g];
    }
    if matched != map[] {
      var id :| id in matched;
      assert GroupId(matched[id]) in grouped;
    }
  }

  /** The property loop over three filters is three property stages in a row. */
  lemma ThreeStages(matched: map<string, Migration>, filters: seq<Filter>, validIds: set<string>)
    requires |filters| == 3
    ensures PropertyStages(matched, filters, validIds)
            == PropertyStage(PropertyStage(PropertyStage(matched, filters[0], validIds), filters[1], validIds),
                             filters[2], validIds)
  {
    var one, two := filters[..1], filters[..2];
    assert two[..1] == one && two[1] == filters[1];
    assert one[..0] == [] && one[0] == filters[0];
    assert filters[..2] == two;
    calc {
      PropertyStages(matched, filters, validIds);
      PropertyStage(PropertyStages(matched, two, validIds), filters[2], validIds);
      PropertyStage(PropertyStage(PropertyStages(matched, one, validIds), filters[1], validIds), filters[2], validIds);
    }
    assert PropertyStages(matched, one, validIds) == PropertyStage(matched, filters[0], validIds);
  }

  /** Each filter that runs keeps a migration exactly when every dimension passes it. */
  lemma GroupTagStageMembership(matched: map<string, Migration>, sourcePlugins: seq<string>, groups: seq<string>,
                                tags: seq<string>, validIds: set<string>)
    ensures forall id :: id in GroupTagStage(matched, sourcePlugins, groups, tags, validIds) <==>
              id in matched &&
              (|groups| + |tags| > 0 ==>
                 forall f | f in Filters(sourcePlugins, groups, tags) :: Passes(matched[id], id, f, validIds))
    ensures forall id :: id in GroupTagStage(matched, sourcePlugins, groups, tags, validIds) ==>
              GroupTagStage(matched, sourcePlugins, groups, tags, validIds)[id] == matched[id]
  {
    if |groups| + |tags| > 0 {
      ThreeStages(matched, Filters(sourcePlugins, groups, tags), validIds);
    }
  }

  /** The stage pipeline keeps exactly the migrations that satisfy `Survives`, unchanged. */
  lemma SurvivorsMembership(registry: Registry, ids: seq<string>, sourcePlugins: seq<string>,
                            groups: seq<string>, tags: seq<string>)
    ensures var s := SourcePluginStage(GroupTagStage(RequirementsStage(IdStage(registry, ids)), sourcePlugins,
                                                     groups, tags, ValidIds(registry, ids)), sourcePlugins);
            && (forall id :: id in s <==> Survives(registry, id, ids, sourcePlugins, groups, tags))
            && (forall id :: id in s ==> s[id] == registry[id])
  {
    GroupTagStageMembership(RequirementsStage(IdStage(registry, ids)), sourcePlugins, groups, tags,
                            ValidIds(registry, ids));
  }

  /**
   * `getActiveMigrations` lists migration `id` under group `g` exactly when the
   * migration survives every filter and `g` is its group id; it is listed as itself.
   */
  lemma ActiveMembership(registry: Registry, ids: seq<string>, sourcePlugins: seq<string>,
                                            groups: seq<string>, tags: seq<string>, g: string, id: string)
    ensures var r := ActiveMigrations(registry, ids, sourcePlugins, groups, tags);
            g in r && id in r[g] <==>
              Survives(registry, id, ids, sourcePlugins, groups, tags) && g == GroupId(registry[id])
    ensures var r := ActiveMigrations(registry, ids, sourcePlugins, groups, tags);
            g in r && id in r[g] ==> r[g][id] == registry[id]
  {
    SurvivorsMembership(registry, ids, sourcePlugins, groups, tags);
    GroupByBuckets(SourcePluginStage(GroupTagStage(RequirementsStage(IdStage(registry, ids)), sourcePlugins,
                                                   groups, tags, ValidIds(registry, ids)), sourcePlugins));
  }

  /** No bucket of the result is empty, and the result is empty exactly when no migration survives. */
  lemma ActiveHasNoEmptyBucket(registry: Registry, ids: seq<string>, sourcePlugins: seq<string>,
                               groups: seq<string>, tags: seq<string>)
    ensures var r := ActiveMigrations(registry, ids, sourcePlugins, groups, tags);
            forall g :: g in r ==> |r[g]| > 0
    ensures ActiveMigrations(registry, ids, sourcePlugins, groups, tags) == map[] <==>
            forall id :: !Survives(registry, id, ids, sourcePlugins, groups, tags)
  {
    var s := SourcePluginStage(GroupTagStage(RequirementsStage(IdStage(registry, ids)), sourcePlugins,
                                             groups, tags, ValidIds(registry, ids)), sourcePlugins);
    SurvivorsMembership(registry, ids, sourcePlugins, groups, tags);
    GroupByBuckets(s);
    if s != map[] {
      var id :| id in s;
      assert Survives(registry, id, ids, sourcePlugins, groups, tags);
    }
  }

  /**
   * Without filters, each migration whose requirements are met is listed once,
   * under its group id, and nothing else is listed.
   */
  lemma UnfilteredListsEveryUsableMigration(registry: Registry, g: string, id: string)
    ensures var r := ActiveMigrations(registry, [], [], [], []);
            g in r && id in r[g] <==> id in registry && registry[id].requirementsOk && g == GroupId(registry[id])
  {
    ActiveMembership(registry, [], [], [], [], g, id);
  }

  /** Requesting only ids that do not exist lists nothing. */
  lemma UnknownIdsListNothing(registry: Registry, ids: seq<string>, sourcePlugins: seq<string>,
                              groups: seq<string>, tags: seq<string>)
    requires |ids| > 0
    requires forall id :: id in ids ==> id !in registry
    ensures ActiveMigrations(registry, ids, sourcePlugins, groups, tags) == map[]
  {
    ActiveHasNoEmptyBucket(registry, ids, sourcePlugins, groups, tags);
  }

  /** With an id list, only ids that are both requested and registered are listed. */
  lemma ListedIdsWereRequested(registry: Registry, ids: seq<string>, sourcePlugins: seq<string>,
                               groups: seq<string>, tags: seq<string>, g: string, id: string)
    requires |ids| > 0
    requires g in ActiveMigrations(registry, ids, sourcePlugins, groups, tags)
    requires id in ActiveMigrations(registry, ids, sourcePlugins, groups, tags)[g]
    ensures id in ids && id in registry
  {
    ActiveMembership(registry, ids, sourcePlugins, groups, tags, g, id);
  }

  /**
   * A migration whose requirements check fails is not listed, and failing it
   * changes nothing for any other migration.
   */
  lemma RequirementsFailureIsIsolated(registry: Registry, failing: string, ids: seq<string>,
                                      sourcePlugins: seq<string>, groups: seq<string>, tags: seq<string>,
                                      g: string, id: string)
    requires failing in registry
    ensures var failed := registry[failing := registry[failing].(requirementsOk := false)];
            g in ActiveMigrations(failed, ids, sourcePlugins, groups, tags) ==>
              failing !in ActiveMigrations(failed, ids, sourcePlugins, groups, tags)[g]
    ensures var failed := registry[failing := registry[failing].(requirementsOk := false)];
            id != failing ==>
              ((g in ActiveMigrations(failed, ids, sourcePlugins, groups, tags) &&
                id in ActiveMigrations(failed, ids, sourcePlugins, groups, tags)[g])
               <==>
               (g in ActiveMigrations(registry, ids, sourcePlugins, groups, tags) &&
                id in ActiveMigrations(registry, ids, sourcePlugins, groups, tags)[g]))
  {
    var failed := registry[failing := registry[failing].(requirementsOk := false)];
    assert ValidIds(failed, ids) == ValidIds(registry, ids);
    ActiveMembership(failed, ids, sourcePlugins, groups, tags, g, failing);
    ActiveMembership(failed, ids, sourcePlugins, groups, tags, g, id);
    ActiveMembership(registry, ids, sourcePlugins, groups, tags, g, id);
    if id != failing && id in registry {
      assert failed[id] == registry[id];
      assert Survives(failed, id, ids, sourcePlugins, groups, tags) == Survives(registry, id, ids, sourcePlugins, groups, tags);
    }
  }

  /**
   * Searching a group for "default" or for an empty value keeps every
   * migration: such a group filter lists the same as no filter at all.
   */
  lemma DefaultGroupSearchKeepsAll(registry: Registry, groups: seq<string>)
    requires exists v :: v in groups && (EmptyString(v) || v == DefaultGroup)
    ensures ActiveMigrations(registry, [], [], groups, []) == ActiveMigrations(registry, [], [], [], [])
  {
    var before := RequirementsStage(IdStage(registry, []));
    var filters := Filters([], groups, []);
    assert ValidIds(registry, []) == {};
    ThreeStages(before, filters, {});
    assert PropertyStage(before, filters[0], {}) == before;
    forall id | id in before
      ensures Passes(before[id], id, filters[1], {})
    {
      var v :| v in groups && (EmptyString(v) || v == DefaultGroup);
      assert SearchMatches(before[id], id, MigrationGroupKey, v, {});
    }
    assert PropertyStage(before, filters[1], {}) == before;
    assert PropertyStage(before, filters[2], {}) == before;
    assert GroupTagStage(before, [], groups, [], {}) == before;
  }

  /**
   * When an id list and a group or tag filter are both given, a requested
   * migration whose lower-cased id is not itself a requested, registered id is dropped.
   */
  lemma MixedCaseIdDroppedByPropertyFilter(registry: Registry, ids: seq<string>, sourcePlugins: seq<string>,
                                           groups: seq<string>, tags: seq<string>, id: string)
    requires id in registry && id in ids
    requires |groups| > 0
    requires Lower(id) !in ValidIds(registry, ids)
    ensures forall g :: g in ActiveMigrations(registry, ids, sourcePlugins, groups, tags) ==>
                          id !in ActiveMigrations(registry, ids, sourcePlugins, groups, tags)[g]
  {
    forall g | g in ActiveMigrations(registry, ids, sourcePlugins, groups, tags)
      ensures id !in ActiveMigrations(registry, ids, sourcePlugins, groups, tags)[g]
    {
      ActiveMembership(registry, ids, sourcePlugins, groups, tags, g, id);
      assert id in ValidIds(registry, ids);
      var f := Filters(sourcePlugins, groups, tags)[1];
      assert f in Filters(sourcePlugins, groups, tags);
      assert !Passes(registry[id], id, f, ValidIds(registry, ids));
    }
  }

  /**
   * A requested, registered id without upper-case letters passes the
   * lower-cased id check, so it is filtered exactly as if no id list were given.
   */
  lemma LowerCaseIdUnaffected(registry: Registry, ids: seq<string>, sourcePlugins: seq<string>,
                              groups: seq<string>, tags: seq<string>, id: string)
    requires id in registry && id in ids
    requires Lower(id) == id
    ensures Survives(registry, id, ids, sourcePlugins, groups, tags) ==
            Survives(registry, id, [], sourcePlugins, groups, tags)
  {
    var validIds := ValidIds(registry, ids);
    assert id in validIds;
    assert ValidIds(registry, []) == {};
    forall f | f in Filters(sourcePlugins, groups, tags)
      ensures Passes(registry[id], id, f, validIds) == Passes(registry[id], id, f, {})
    {
      forall v ensures SearchMatches(registry[id], id, f.property, v, validIds)
                       == SearchMatches(registry[id], id, f.property, v, {}) {
      }
    }
  }

  /**
   * The property loop also walks the source-plugin list as if it were a
   * migration property: combined with a group or tag filter, source-plugin
   * values that are neither empty nor "default" drop every migration that has
   * no `source_plugins` property.
   */
  lemma SourcePluginsWalkedAsProperty(registry: Registry, sourcePlugins: seq<string>, groups: seq<string>,
                                      tags: seq<string>)
    requires |sourcePlugins| > 0 && |groups| + |tags| > 0
    requires forall v :: v in sourcePlugins ==> !EmptyString(v) && v != DefaultGroup
    requires forall id :: id in registry ==> SourcePluginsKey !in registry[id].properties
    ensures ActiveMigrations(registry, [], sourcePlugins, groups, tags) == map[]
  {
    forall id
      ensures !Survives(registry, id, [], sourcePlugins, groups, tags)
    {
      if id in registry {
        var f := Filters(sourcePlugins, groups, tags)[0];
        assert ConfiguredValues(registry[id], SourcePluginsKey) == [];
        assert !Passes(registry[id], id, f, ValidIds(registry, []));
        assert f in Filters(sourcePlugins, groups, tags);
      }
    }
    ActiveHasNoEmptyBucket(registry, [], sourcePlugins, groups, tags);
  }

  /** The source-plugin filter removes exactly the migrations with an unlisted plugin id. */
  lemma SourcePluginFilterRemovesOnlyUnlisted(registry: Registry, ids: seq<string>, sourcePlugins: seq<string>,
                                              g: string, id: string)
    requires |sourcePlugins| > 0
    ensures var r := ActiveMigrations(registry, ids, sourcePlugins, [], []);
            var all := ActiveMigrations(registry, ids, [], [], []);
            g in r && id in r[g] <==> g in all && id in all[g] && all[g][id].sourcePluginId in sourcePlugins
  {
    ActiveMembership(registry, ids, sourcePlugins, [], [], g, id);
    ActiveMembership(registry, ids, [], [], [], g, id);
  }

  /**
   * The gate holds exactly when some migration that meets its requirements has
   * an uploader source without a valid file path.
   */
  lemma GateCharacterization(registry: Registry)
    ensures AnyLacksFile(ActiveMigrations(registry, [], [], [], [])) <==>
            exists id :: id in registry && registry[id].requirementsOk && LacksFile(registry[id])
  {
    var r := ActiveMigrations(registry, [], [], [], []);
    if AnyLacksFile(r) {
      var g, id :| g in r && id in r[g] && LacksFile(r[g][id]);
      ActiveMembership(registry, [], [], [], [], g, id);
    }
    if exists id :: id in registry && registry[id].requirementsOk && LacksFile(registry[id]) {
      var id :| id in registry && registry[id].requirementsOk && LacksFile(registry[id]);
      ActiveMembership(registry, [], [], [], [], GroupId(registry[id]), id);
    }
  }

  // ---------------------------------------------------------------------
  // The service methods, loop by loop.
  // ---------------------------------------------------------------------

  lemma GroupIdsInsert(matched: map<string, Migration>, id: string, m: Migration)
    requires id !in matched
    ensures GroupIds(matched[id := m]) == GroupIds(matched) + {GroupId(m)}
  {
    var after := matched[id := m];
    forall g | g in GroupIds(after) ensures g in GroupIds(matched) + {GroupId(m)} {
      var i :| i in after && GroupId(after[i]) == g;
      if i != id { assert g in GroupIds(matched); }
    }
    forall g | g in GroupIds(matched) ensures g in GroupIds(after) {
      var i :| i in matched && GroupId(matched[i]) == g;
      assert after[i] == matched[i];
    }
    assert id in after;
  }

  lemma BucketInsert(matched: map<string, Migration>, id: string, m: Migration, g: string)
    requires id !in matched
    ensures Bucket(matched[id := m], g) == if g == GroupId(m) then Bucket(matched, g)[id := m] else Bucket(matched, g)
  {
  }

  /** Bucketing one more migration adds it to its group's bucket, creating the bucket if needed. */
  lemma GroupByInsert(matched: map<string, Migration>, id: string, m: Migration)
    requires id !in matched
    ensures var grouped := GroupBy(matched);
            var bucket := if GroupId(m) in grouped then grouped[GroupId(m)] else map[];
            GroupBy(matched[id := m]) == grouped[GroupId(m) := bucket[id := m]]
  {
    var grouped := GroupBy(matched);
    var bucket := if GroupId(m) in grouped then grouped[GroupId(m)] else map[];
    var after := matched[id := m];
    var expected := grouped[GroupId(m) := bucket[id := m]];
    GroupIdsInsert(matched, id, m);
    if GroupId(m) !in grouped {
      assert Bucket(matched, GroupId(m)) == map[];
    }
    forall g | g in GroupIds(after)
      ensures Bucket(after, g) == expected[g]
    {
      BucketInsert(matched, id, m, g);
    }
    assert GroupBy(after).Keys == expected.Keys;
  }

  /**
   * One pass of the property loop for a filter in use: every migration that
   * some search value keeps, checked search value by search value.
   */
  method FilterByProperty(matched: map<string, Migration>, f: Filter, validIds: set<string>)
    returns (filtered: map<string, Migration>)
    ensures filtered == map id | id in matched && MatchedBy(matched[id], id, f.property, f.values, validIds) :: matched[id]
  {
    filtered := map[];
    for j := 0 to |f.values|
      invariant filtered == map id | id in matched && MatchedBy(matched[id], id, f.property, f.values[..j], validIds)
                                   :: matched[id]
    {
      var searchValue := f.values[j];
      var pending := matched.Keys;
      while pending != {}
        invariant pending <= matched.Keys
        invariant filtered == map id | id in matched &&
                                       (MatchedBy(matched[id], id, f.property, f.values[..j], validIds) ||
                                        (id !in pending && SearchMatches(matched[id], id, f.property, searchValue, validIds)))
                                     :: matched[id]
        decreases pending
      {
        var id :| id in pending;
        var configuredValues := ConfiguredValues(matched[id], f.property);
        var configuredId := if searchValue in configuredValues then searchValue else DefaultGroup;
        if EmptyString(searchValue) || searchValue == configuredId {
          if |validIds| == 0 || Lower(id) in validIds {
            filtered := filtered[id := matched[id]];
          }
        }
        pending := pending - {id};
      }
      assert f.values[..j + 1] == f.values[..j] + [searchValue];
    }
    assert f.values[..|f.values|] == f.values;
  }

  /** The id step: every migration, or only the requested ones that exist. */
  method SelectRequested(registry: Registry, ids: seq<string>, validIds: set<string>)
    returns (matched: map<string, Migration>)
    requires validIds == ValidIds(registry, ids)
    ensures matched == IdStage(registry, ids)
  {
    matched := map[];
    if |ids| == 0 {
      matched := registry;
    } else {
      var pending := registry.Keys;
      while pending != {}
        invariant pending <= registry.Keys
        invariant matched == map id | id in registry && id !in pending && id in validIds :: registry[id]
        decreases pending
      {
        var id :| id in pending;
        if id in validIds {
          matched := matched[id := registry[id]];
        }
        pending := pending - {id};
      }
    }
  }

  /** The requirements step: drop the migrations whose source plugin fails its requirements check. */
  method DropUnmetRequirements(loaded: map<string, Migration>) returns (matched: map<string, Migration>)
    ensures matched == RequirementsStage(loaded)
  {
    matched := loaded;
    var pending := loaded.Keys;
    while pending != {}
      invariant pending <= loaded.Keys
      invariant matched == map id | id in loaded && (id in pending || loaded[id].requirementsOk) :: loaded[id]
      decreases pending
    {
      var id :| id in pending;
      if !matched[id].requirementsOk {
        matched := matched - {id};
      }
      pending := pending - {id};
    }
  }

  /** The group and tag step: the property loop, run when a group or a tag is requested. */
  method FilterByProperties(usable: map<string, Migration>, sourcePlugins: seq<string>, groups: seq<string>,
                            tags: seq<string>, validIds: set<string>)
    returns (matched: map<string, Migration>)
    ensures matched == GroupTagStage(usable, sourcePlugins, groups, tags, validIds)
  {
    var filters := Filters(sourcePlugins, groups, tags);
    matched := usable;
    if |groups| > 0 || |tags| > 0 {
      for i := 0 to |filters|
        invariant matched == PropertyStages(usable, filters[..i], validIds)
      {
        ghost var previous := matched;
        if |filters[i].values| > 0 {
          matched := FilterByProperty(matched, filters[i], validIds);
        }
        assert matched == PropertyStage(previous, filters[i], validIds);
        assert filters[..i + 1][..i] == filters[..i];
      }
      assert filters[..|filters|] == filters;
    }
  }

  /** The source-plugin step: drop the migrations whose source plugin id is not requested. */
  method DropUnlistedSourcePlugins(tagged: map<string, Migration>, sourcePlugins: seq<string>)
    returns (matched: map<string, Migration>)
    ensures matched == SourcePluginStage(tagged, sourcePlugins)
  {
    matched := tagged;
    if |sourcePlugins| > 0 {
      var pending := tagged.Keys;
      while pending != {}
        invariant pending <= tagged.Keys
        invariant matched == map id | id in tagged && (id in pending || tagged[id].sourcePluginId in sourcePlugins)
                                    :: tagged[id]
        decreases pending
      {
        var id :| id in pending;
        if matched[id].sourcePluginId !in sourcePlugins {
          matched := matched - {id};
        }
        pending := pending - {id};
      }
    }
  }

  /** The grouping step: bucket the survivors by group id. */
  method SortByGroup(matched: map<string, Migration>) returns (migrations: Grouped)
    ensures migrations == GroupBy(matched)
  {
    migrations := map[];
    if |matched| > 0 {
      var pending := matched.Keys;
      while pending != {}
        invariant pending <= matched.Keys
        invariant migrations == GroupBy(map id | id in matched && id !in pending :: matched[id])
        decreases pending
      {
        var id :| id in pending;
        var groupId := GroupId(matched[id]);
        var bucket := if groupId in migrations then migrations[groupId] else map[];
        ghost var done := map i | i in matched && i !in pending :: matched[i];
        GroupByInsert(done, id, matched[id]);
        assert done[id := matched[id]] == map i | i in matched && i !in pending - {id} :: matched[i];
        migrations := migrations[groupId := bucket[id := matched[id]]];
        pending := pending - {id};
      }
      assert matched == map i | i in matched && i !in pending :: matched[i];
    } else {
      assert matched == map[];
      assert GroupIds(matched) == {};
    }
  }

  /**
   * `getActiveMigrations`: the active migrations under the given filters,
   * grouped by group id and keyed by migration id.
   */
  method GetActiveMigrations(registry: Registry, ids: seq<string>, sourcePlugins: seq<string>,
                             groups: seq<string>, tags: seq<string>)
    returns (migrations: Grouped)
    ensures migrations == ActiveMigrations(registry, ids, sourcePlugins, groups, tags)
  {
    var validIds := set id | id in registry.Keys && id in ids;
    var matched := SelectRequested(registry, ids, validIds);
    matched := DropUnmetRequirements(matched);
    matched := FilterByProperties(matched, sourcePlugins, groups, tags, validIds);
    matched := DropUnlistedSourcePlugins(matched, sourcePlugins);
    migrations := SortByGroup(matched);
  }

  /**
   * `migrationWithoutSourceExists`: whether some active migration has an
   * uploader source that was never given a file.
   */
  method MigrationWithoutSourceExists(registry: Registry) returns (withoutSource: bool)
    ensures withoutSource == AnyLacksFile(ActiveMigrations(registry, [], [], [], []))
  {
    withoutSource := false;
    var migrations := GetActiveMigrations(registry, [], [], [], []);
    var pendingGroups := migrations.Keys;
    while pendingGroups != {}
      invariant pendingGroups <= migrations.Keys
      invariant withoutSource <==> exists g, id :: g in migrations && g !in pendingGroups && id in migrations[g]
                                                  && LacksFile(migrations[g][id])
      decreases pendingGroups
    {
      var groupId :| groupId in pendingGroups;
      var group := migrations[groupId];
      ghost var before := withoutSource;
      var pendingIds := group.Keys;
      while pendingIds != {}
        invariant pendingIds <= group.Keys
        invariant withoutSource == before
        invariant forall id :: id in group && id !in pendingIds ==> !LacksFile(group[id])
        decreases pendingIds
      {
        var migrationId :| migrationId in pendingIds;
        var migration := group[migrationId];
        if migration.uploader.Some? && !migration.uploader.value.HasValidFilePath() {
          withoutSource := true;
          break;
        }
        pendingIds := pendingIds - {migrationId};
      }
      pendingGroups := pendingGroups - {groupId};
    }
  }
}
