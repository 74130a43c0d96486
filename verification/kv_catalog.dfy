/**
 * The root coordinator's metadata catalog as far as it is pure: the key layout in the snapshot
 * key-value store, the legacy in-place partition list of a collection record, and the guards
 * and merges of the alter operations. Every store access is left to the caller; an alter
 * operation here returns the writes it would hand to the store.
 */
module KvCatalog {
  import opened Common
  import opened GoStrings
  import opened SeqUtil

  // ---------------------------------------------------------------------------
  // Key layout

  const ComponentPrefix: string := "root-coord"
  const DatabaseMetaPrefix: string := ComponentPrefix + "/" + "database"
  const CollectionInfoMetaPrefix: string := DatabaseMetaPrefix + "/" + "collection-info"
  const CollectionMetaPrefix: string := ComponentPrefix + "/" + "collection"
  const PartitionMetaPrefix: string := ComponentPrefix + "/" + "partitions"
  const AliasMetaPrefix: string := ComponentPrefix + "/" + "aliases"
  const FieldMetaPrefix: string := ComponentPrefix + "/" + "fields"
  const FunctionMetaPrefix: string := ComponentPrefix + "/" + "functions"
  const StructArrayFieldMetaPrefix: string := ComponentPrefix + "/" + "struct-array-fields"
  const CollectionAliasMetaPrefix210: string := ComponentPrefix + "/" + "collection-alias"
  const Aliases: string := "aliases"

  /** The database id of records written before databases existed, and the id of the default database. */
  const NonDBID: int := 0
  const DefaultDBID: int := 1

  /** `prefix/id`, the shape of every id-keyed prefix and key. */
  function Child(prefix: string, id: int): string {
    prefix + "/" + FormatInt(id)
  }

  function BuildCollectionKeyWithDBID(dbId: int, collectionId: int): string {
    Child(Child(CollectionInfoMetaPrefix, dbId), collectionId)
  }

  /** A collection's record key: under its database, or the pre-database location for NonDBID. */
  function BuildCollectionKey(dbId: int, collectionId: int): (k: string)
    ensures dbId == NonDBID ==> k == CollectionMetaPrefix + "/" + FormatInt(collectionId)
    ensures dbId != NonDBID ==> k == BuildCollectionKeyWithDBID(dbId, collectionId)
  {
    if dbId != NonDBID then BuildCollectionKeyWithDBID(dbId, collectionId)
    else Child(CollectionMetaPrefix, collectionId)
  }

  function BuildPartitionPrefix(collectionId: int): string {
    Child(PartitionMetaPrefix, collectionId)
  }

  function BuildPartitionKey(collectionId: int, partitionId: int): string {
    Child(BuildPartitionPrefix(collectionId), partitionId)
  }

  function BuildFieldPrefix(collectionId: int): string {
    Child(FieldMetaPrefix, collectionId)
  }

  function BuildFieldKey(collectionId: int, fieldId: int): string {
    Child(BuildFieldPrefix(collectionId), fieldId)
  }

  function BuildFunctionPrefix(collectionId: int): string {
    Child(FunctionMetaPrefix, collectionId)
  }

  function BuildFunctionKey(collectionId: int, functionId: int): string {
    Child(BuildFunctionPrefix(collectionId), functionId)
  }

  function BuildStructArrayFieldPrefix(collectionId: int): string {
    Child(StructArrayFieldMetaPrefix, collectionId)
  }

  function BuildStructArrayFieldKey(collectionId: int, fieldId: int): string {
    Child(BuildStructArrayFieldPrefix(collectionId), fieldId)
  }

  function BuildAliasKey210(alias: string): string {
    CollectionAliasMetaPrefix210 + "/" + alias
  }

  function BuildAliasKey(alias: string): string {
    AliasMetaPrefix + "/" + alias
  }

  function BuildAliasKeyWithDB(dbId: int, alias: string): string {
    if dbId == NonDBID then BuildAliasKey(alias)
    else DatabaseMetaPrefix + "/" + Aliases + "/" + FormatInt(dbId) + "/" + alias
  }

  function BuildAliasPrefixWithDB(dbId: int): string {
    if dbId == NonDBID then AliasMetaPrefix
    else DatabaseMetaPrefix + "/" + Aliases + "/" + FormatInt(dbId)
  }

  /** The child keys of the four per-collection prefixes: the collection's prefix, a slash, and the child's id. */
  lemma ChildKeysExtendTheirPrefix(c: int, id: int)
    ensures BuildPartitionKey(c, id) == BuildPartitionPrefix(c) + "/" + FormatInt(id)
    ensures BuildFieldKey(c, id) == BuildFieldPrefix(c) + "/" + FormatInt(id)
    ensures BuildFunctionKey(c, id) == BuildFunctionPrefix(c) + "/" + FormatInt(id)
    ensures BuildStructArrayFieldKey(c, id) == BuildStructArrayFieldPrefix(c) + "/" + FormatInt(id)
    ensures BuildPartitionPrefix(c) == PartitionMetaPrefix + "/" + FormatInt(c)
  {
  }

  /** Every database's alias key is its alias prefix, a slash, and the alias, the pre-database location included. */
  lemma AliasKeyExtendsAliasPrefix(dbId: int, alias: string)
    ensures BuildAliasKeyWithDB(dbId, alias) == BuildAliasPrefixWithDB(dbId) + "/" + alias
    ensures dbId == NonDBID ==> BuildAliasKeyWithDB(dbId, alias) == BuildAliasKey(alias)
  {
  }

  /** The slash-separated path segments of a key. */
  function Segments(k: string): seq<string> {
    Split(k, '/')
  }

  lemma SegmentsOfPlain(s: string)
    requires '/' !in s
    ensures Segments(s) == [s]
  {
    SplitOfPlain(s, '/');
  }

  lemma SegmentsOfAppended(prefix: string, name: string)
    requires '/' !in name
    ensures Segments(prefix + "/" + name) == Segments(prefix) + [name]
  {
    SplitConcat(prefix, '/', name);
    SegmentsOfPlain(name);
  }

  /** The path segments of `prefix/<x>/<y>`. */
  lemma SegmentsOfGrandchild(prefix: string, x: int, y: int)
    ensures Segments(Child(Child(prefix, x), y)) == Segments(prefix) + [FormatInt(x), FormatInt(y)]
  {
    SegmentsOfAppended(prefix, FormatInt(x));
    SegmentsOfAppended(Child(prefix, x), FormatInt(y));
  }

  lemma SegmentsOfComponent(name: string)
    requires '/' !in name
    ensures Segments(ComponentPrefix + "/" + name) == [ComponentPrefix, name]
  {
    assert '/' !in ComponentPrefix;
    SegmentsOfPlain(ComponentPrefix);
    SegmentsOfAppended(ComponentPrefix, name);
  }

  lemma SegmentsOfLegacyCollectionKey(c: int)
    ensures Segments(BuildCollectionKey(NonDBID, c)) == [ComponentPrefix, "collection", FormatInt(c)]
  {
    SegmentsOfComponent("collection");
    SegmentsOfAppended(CollectionMetaPrefix, FormatInt(c));
  }

  lemma SegmentsOfCollectionInfoMetaPrefix()
    ensures Segments(CollectionInfoMetaPrefix) == [ComponentPrefix, "database", "collection-info"]
  {
    SegmentsOfComponent("database");
    assert '/' !in "collection-info";
    SegmentsOfAppended(DatabaseMetaPrefix, "collection-info");
  }

  lemma SegmentsOfDatabaseCollectionKey(dbId: int, c: int)
    requires dbId != NonDBID
    ensures Segments(BuildCollectionKey(dbId, c)) == [ComponentPrefix, "database", "collection-info", FormatInt(dbId), FormatInt(c)]
  {
    SegmentsOfCollectionInfoMetaPrefix();
    SegmentsOfGrandchild(CollectionInfoMetaPrefix, dbId, c);
  }

  /** The path segments of a collection key: three for the pre-database location, five under a database. */
  lemma SegmentsOfCollectionKey(dbId: int, c: int)
    ensures dbId == NonDBID ==>
      Segments(BuildCollectionKey(dbId, c)) == [ComponentPrefix, "collection", FormatInt(c)]
    ensures dbId != NonDBID ==>
      Segments(BuildCollectionKey(dbId, c)) == [ComponentPrefix, "database", "collection-info", FormatInt(dbId), FormatInt(c)]
  {
    if dbId == NonDBID {
      SegmentsOfLegacyCollectionKey(c);
    } else {
      SegmentsOfDatabaseCollectionKey(dbId, c);
    }
  }

  /** The path segments of a per-collection child key under a one-level meta prefix. */
  lemma SegmentsOfChildKey(name: string, c: int, id: int)
    requires '/' !in name
    ensures Segments(Child(Child(ComponentPrefix + "/" + name, c), id)) == [ComponentPrefix, name, FormatInt(c), FormatInt(id)]
  {
    SegmentsOfComponent(name);
    SegmentsOfGrandchild(ComponentPrefix + "/" + name, c, id);
  }

  /**
   * The batch field listing recovers a field's collection id from the third path segment of its
   * key; that segment parses back to the id the key was built with.
   */
  lemma FieldKeyNamesItsCollection(c: int, f: int)
    requires IsInt64(c)
    ensures |Segments(BuildFieldKey(c, f))| == 4
    ensures ParseInt(Segments(BuildFieldKey(c, f))[2]) == Some(c)
  {
    SegmentsOfChildKey("fields", c, f);
    FormatIntRoundTrip(c);
  }

  /** Distinct (database, collection) pairs have distinct collection keys. */
  lemma CollectionKeyInjective(db1: int, c1: int, db2: int, c2: int)
    requires IsInt64(db1) && IsInt64(c1) && IsInt64(db2) && IsInt64(c2)
    ensures BuildCollectionKey(db1, c1) == BuildCollectionKey(db2, c2) <==> db1 == db2 && c1 == c2
  {
    SegmentsOfCollectionKey(db1, c1);
    SegmentsOfCollectionKey(db2, c2);
    if (db1 == NonDBID) == (db2 == NonDBID) && BuildCollectionKey(db1, c1) == BuildCollectionKey(db2, c2) {
      var s1, s2 := Segments(BuildCollectionKey(db1, c1)), Segments(BuildCollectionKey(db2, c2));
      assert s1[|s1| - 1] == s2[|s2| - 1];
      FormatIntInjective(c1, c2);
      if db1 != NonDBID {
        assert s1[3] == s2[3];
        FormatIntInjective(db1, db2);
      }
    }
  }

  /** Distinct (collection, partition) pairs have distinct partition keys. */
  lemma PartitionKeyInjective(c1: int, p1: int, c2: int, p2: int)
    requires IsInt64(c1) && IsInt64(p1) && IsInt64(c2) && IsInt64(p2)
    ensures BuildPartitionKey(c1, p1) == BuildPartitionKey(c2, p2) <==> c1 == c2 && p1 == p2
  {
    SegmentsOfChildKey("partitions", c1, p1);
    SegmentsOfChildKey("partitions", c2, p2);
    if BuildPartitionKey(c1, p1) == BuildPartitionKey(c2, p2) {
      FormatIntInjective(c1, c2);
      FormatIntInjective(p1, p2);
    }
  }

  /**
   * As written, a collection's partition listing scans the bare prefix `root-coord/partitions/<c>`
   * with no trailing slash, so the scan for collection 1 also takes in the partitions of
   * collection 12.
   */
  lemma PartitionScanAsWrittenTakesInOtherCollections()
    ensures HasPrefix(BuildPartitionKey(12, 5), BuildPartitionPrefix(1))
  {
    assert FormatInt(12) == "12" && FormatInt(1) == "1";
  }

  /** The scan prefix with the separator kept: the collection's prefix and a slash. */
  function PartitionScanPrefix(collectionId: int): string {
    BuildPartitionPrefix(collectionId) + "/"
  }

  /** Under any meta prefix, a child key that starts with `prefix/<c>/` was built for `c`. */
  lemma ChildScanSelectsItsParent(prefix: string, c: int, c2: int, id: int)
    requires HasPrefix(Child(Child(prefix, c2), id), Child(prefix, c) + "/")
    ensures FormatInt(c) == FormatInt(c2)
  {
    var key, pre := Child(Child(prefix, c2), id), Child(prefix, c) + "/";
    var rest := key[|pre|..];
    assert key == Child(prefix, c) + "/" + rest;
    SplitConcat(Child(prefix, c), '/', rest);
    SegmentsOfAppended(prefix, FormatInt(c));
    SegmentsOfAppended(prefix, FormatInt(c2));
    SegmentsOfAppended(Child(prefix, c2), FormatInt(id));
    var n := |Segments(prefix)|;
    assert Segments(key)[n] == FormatInt(c);
    assert Segments(key)[n] == FormatInt(c2);
  }

  /** A partition key lies under a collection's scan prefix exactly when it belongs to that collection. */
  lemma PartitionScanSelectsOnlyItsCollection(c: int, c2: int, p: int)
    requires IsInt64(c) && IsInt64(c2)
    ensures HasPrefix(BuildPartitionKey(c2, p), PartitionScanPrefix(c)) <==> c == c2
  {
    if HasPrefix(BuildPartitionKey(c2, p), PartitionScanPrefix(c)) {
      ChildScanSelectsItsParent(PartitionMetaPrefix, c, c2, p);
      FormatIntInjective(c, c2);
    }
  }

  // ---------------------------------------------------------------------------
  // The legacy partition list inside a collection record

  /** The parts of a stored collection record the partition and field code reads. */
  datatype CollectionInfo = CollectionInfo(
    partitionIds: seq<int>,
    partitionNames: seq<string>,
    partitionCreatedTimestamps: seq<int>,
    schemaFieldIds: seq<int>,
    schemaStructArrayFieldIds: seq<int>,
    schemaFunctionIds: seq<int>)

  /** The three partition lists run in parallel. */
  predicate Aligned(info: CollectionInfo) {
    |info.partitionNames| == |info.partitionIds| && |info.partitionCreatedTimestamps| == |info.partitionIds|
  }

  /** A record written by 2.1.0 or later keeps no partitions in line; they live under the partition prefix. */
  predicate PartitionVersionAfter210(info: CollectionInfo) {
    |info.partitionIds| <= 0 && |info.partitionNames| <= 0 && |info.partitionCreatedTimestamps| <= 0
  }

  predicate FieldVersionAfter210(info: CollectionInfo) {
    |info.schemaFieldIds| <= 0 && |info.schemaStructArrayFieldIds| <= 0
  }

  /** The default database: its own id, or the id of records written before databases existed. */
  predicate IsDefaultDB(dbId: int) {
    dbId == DefaultDBID || dbId == NonDBID
  }

  function RemoveAt<T>(s: seq<T>, k: nat): (r: seq<T>)
    requires k < |s|
    ensures |r| == |s| - 1
    ensures forall i :: 0 <= i < k ==> r[i] == s[i]
    ensures forall i :: k <= i < |r| ==> r[i] == s[i + 1]
  {
    s[..k] + s[k + 1..]
  }

  /**
   * `dropPartition`: nothing for a missing record or an absent id; otherwise the entry at the
   * first position holding the id leaves all three lists, and the rest keep their order.
   */
  function DropPartition(meta: Option<CollectionInfo>, partitionId: int): (r: Option<CollectionInfo>)
    requires meta.Some? ==> Aligned(meta.value)
    ensures meta.None? ==> r.None?
    ensures meta.Some? && partitionId !in meta.value.partitionIds ==> r == meta
    ensures meta.Some? && partitionId in meta.value.partitionIds ==>
      var m, k := meta.value, FirstIndex(meta.value.partitionIds, partitionId);
      r == Some(m.(partitionIds := RemoveAt(m.partitionIds, k),
                   partitionNames := RemoveAt(m.partitionNames, k),
                   partitionCreatedTimestamps := RemoveAt(m.partitionCreatedTimestamps, k)))
    ensures r.Some? ==> Aligned(r.value)
  {
    if meta.None? then None
    else
      var m := meta.value;
      if partitionId !in m.partitionIds then meta
      else
        var k := FirstIndex(m.partitionIds, partitionId);
        Some(m.(partitionIds := RemoveAt(m.partitionIds, k),
                partitionNames := RemoveAt(m.partitionNames, k),
                partitionCreatedTimestamps := RemoveAt(m.partitionCreatedTimestamps, k)))
  }

  /** Dropping an id leaves no more copies of it than there were, and one fewer when it was present. */
  lemma DropPartitionRemovesOneOccurrence(m: CollectionInfo, partitionId: int)
    requires Aligned(m) && partitionId in m.partitionIds
    ensures multiset(DropPartition(Some(m), partitionId).value.partitionIds) ==
      multiset(m.partitionIds) - multiset{partitionId}
  {
    var ids := m.partitionIds;
    var k := FirstIndex(ids, partitionId);
    assert ids == ids[..k] + [partitionId] + ids[k + 1..];
    assert multiset(ids) == multiset(ids[..k]) + multiset{partitionId} + multiset(ids[k + 1..]);
    assert DropPartition(Some(m), partitionId).value.partitionIds == ids[..k] + ids[k + 1..];
  }

  /** A partition as the catalog stores it. */
  datatype Partition = Partition(collectionId: int, partitionId: int, name: string, createdTimestamp: int, state: int)

  /** A value handed to the store. */
  datatype Value =
    | CollectionInfoValue(info: CollectionInfo)
    | PartitionValue(partition: Partition)
    | CollectionValue(collection: Collection)
    | FieldValue(field: Field)
    | StructArrayFieldValue(structArrayField: Field)

  datatype Write = Write(key: string, value: Value)

  /**
   * `CreatePartition` once the record is loaded: a 2.1.0-or-later record gets a write under the
   * partition's own key; a legacy record rejects an existing id or name and otherwise gains the
   * partition at the end of its three lists, rewritten at the pre-database collection key.
   */
  function CreatePartition(meta: CollectionInfo, p: Partition): (r: Result<Write>)
    requires Aligned(meta)
    ensures PartitionVersionAfter210(meta) ==> r == Ok(Write(BuildPartitionKey(p.collectionId, p.partitionId), PartitionValue(p)))
    ensures !PartitionVersionAfter210(meta) && (p.partitionId in meta.partitionIds || p.name in meta.partitionNames) ==>
      r == Err(PartitionAlreadyExists)
    ensures r.Ok? && !PartitionVersionAfter210(meta) ==>
      r.value.key == BuildCollectionKey(NonDBID, p.collectionId) && r.value.value.CollectionInfoValue? &&
      Aligned(r.value.value.info) &&
      r.value.value.info.partitionIds == meta.partitionIds + [p.partitionId] &&
      r.value.value.info.partitionNames == meta.partitionNames + [p.name] &&
      r.value.value.info.partitionCreatedTimestamps == meta.partitionCreatedTimestamps + [p.createdTimestamp]
  {
    if PartitionVersionAfter210(meta) then
      Ok(Write(BuildPartitionKey(p.collectionId, p.partitionId), PartitionValue(p)))
    else if p.partitionId in meta.partitionIds then Err(PartitionAlreadyExists)
    else if p.name in meta.partitionNames then Err(PartitionAlreadyExists)
    else
      var info := meta.(partitionIds := meta.partitionIds + [p.partitionId],
                        partitionNames := meta.partitionNames + [p.name],
                        partitionCreatedTimestamps := meta.partitionCreatedTimestamps + [p.createdTimestamp]);
      Ok(Write(BuildCollectionKey(NonDBID, p.collectionId), CollectionInfoValue(info)))
  }

  /** Dropping a partition just created in a legacy record gives back the record as it was. */
  lemma {:induction false} CreateThenDropRestores(meta: CollectionInfo, p: Partition)
    requires Aligned(meta) && !PartitionVersionAfter210(meta)
    requires CreatePartition(meta, p).Ok?
    ensures DropPartition(Some(CreatePartition(meta, p).value.value.info), p.partitionId) == Some(meta)
  {
    var info := CreatePartition(meta, p).value.value.info;
    var n := |meta.partitionIds|;
    assert p.partitionId !in meta.partitionIds;
    assert info.partitionIds[n] == p.partitionId && p.partitionId !in info.partitionIds[..n];
    FirstIndexUnique(info.partitionIds, p.partitionId, n);
    assert RemoveAt(info.partitionIds, n) == meta.partitionIds;
    assert RemoveAt(info.partitionNames, n) == meta.partitionNames;
    assert RemoveAt(info.partitionCreatedTimestamps, n) == meta.partitionCreatedTimestamps;
  }

  /** What a catalog call hands to the store. */
  datatype StoreOp = NoOp | Remove(key: string) | Save(write: Write)

  /**
   * `DropPartition` once the record is looked up (`None` is a collection already collected):
   * nothing to do; a 2.1.0-or-later record loses the partition's own key; a legacy record is
   * rewritten at the pre-database key without the partition.
   */
  function DropPartitionInCatalog(meta: Option<CollectionInfo>, collectionId: int, partitionId: int): (op: StoreOp)
    requires meta.Some? ==> Aligned(meta.value)
    ensures meta.None? <==> op.NoOp?
    ensures meta.Some? && (meta.value.partitionIds == [] && meta.value.partitionNames == [] &&
                           meta.value.partitionCreatedTimestamps == []) ==>
      op == Remove(BuildPartitionKey(collectionId, partitionId))
    ensures meta.Some? && partitionId !in meta.value.partitionIds && |meta.value.partitionIds| > 0 ==>
      op == Save(Write(BuildCollectionKey(NonDBID, collectionId), CollectionInfoValue(meta.value)))
    ensures meta.Some? && !PartitionVersionAfter210(meta.value) ==>
      op == Save(Write(BuildCollectionKey(NonDBID, collectionId), CollectionInfoValue(DropPartition(meta, partitionId).value)))
    ensures op.Save? ==>
      op.write.key == BuildCollectionKey(NonDBID, collectionId) && op.write.value.CollectionInfoValue? &&
      Aligned(op.write.value.info) && |op.write.value.info.partitionIds| >= |meta.value.partitionIds| - 1
  {
    match meta
    case None => NoOp
    case Some(m) =>
      if PartitionVersionAfter210(m) then Remove(BuildPartitionKey(collectionId, partitionId))
      else Save(Write(BuildCollectionKey(NonDBID, collectionId), CollectionInfoValue(DropPartition(meta, partitionId).value)))
  }

  /**
   * Creating a partition and then dropping it undoes the create at the store: a 2.1.0-or-later
   * record has exactly the key the create wrote removed, and a legacy record, reloaded after the
   * create, is written back as it was before, at the same key.
   */
  lemma CreateThenDropInCatalogUndoes(meta: CollectionInfo, p: Partition)
    requires Aligned(meta) && CreatePartition(meta, p).Ok?
    ensures var w := CreatePartition(meta, p).value;
      if PartitionVersionAfter210(meta) then
        DropPartitionInCatalog(Some(meta), p.collectionId, p.partitionId) == Remove(w.key)
      else
        DropPartitionInCatalog(Some(w.value.info), p.collectionId, p.partitionId) == Save(Write(w.key, CollectionInfoValue(meta)))
  {
    if !PartitionVersionAfter210(meta) {
      var info := CreatePartition(meta, p).value.value.info;
      assert info.partitionIds[|meta.partitionIds|] == p.partitionId;
      CreateThenDropRestores(meta, p);
    }
  }

  // ---------------------------------------------------------------------------
  // Loading a collection record

  /** The record of `collectionId` stored under database `dbId`, if any. */
  function LoadFromDb(store: map<string, CollectionInfo>, dbId: int, collectionId: int): Option<CollectionInfo> {
    var k := BuildCollectionKey(dbId, collectionId);
    if k in store then Some(store[k]) else None
  }

  /** The keys whose records `LoadCollection` may return. */
  function RecordKeys(dbId: int, collectionId: int): set<string> {
    if IsDefaultDB(dbId) then {BuildCollectionKey(DefaultDBID, collectionId), BuildCollectionKey(NonDBID, collectionId)}
    else {BuildCollectionKey(dbId, collectionId)}
  }

  /**
   * `loadCollection` over a snapshot `store` (the snapshot read is a parameter; `None` is the
   * collection-not-found error): either default id looks under the default database first and
   * then at the pre-database location; any other database reads only its own key.
   */
  function LoadCollection(store: map<string, CollectionInfo>, dbId: int, collectionId: int): (r: Option<CollectionInfo>)
    ensures r.Some? <==> exists k :: k in RecordKeys(dbId, collectionId) && k in store
    ensures r.Some? ==> exists k :: k in RecordKeys(dbId, collectionId) && k in store && store[k] == r.value
    ensures (dbId == DefaultDBID || dbId == NonDBID) && BuildCollectionKey(DefaultDBID, collectionId) in store ==>
      r == Some(store[BuildCollectionKey(DefaultDBID, collectionId)])
  {
    if IsDefaultDB(dbId) then
      match LoadFromDb(store, DefaultDBID, collectionId)
      case Some(info) => Some(info)
      case None => LoadFromDb(store, NonDBID, collectionId)
    else LoadFromDb(store, dbId, collectionId)
  }

  /** The two default ids name the same database: loading under either gives the same record. */
  lemma DefaultIdsLoadAlike(store: map<string, CollectionInfo>, collectionId: int)
    ensures LoadCollection(store, DefaultDBID, collectionId) == LoadCollection(store, NonDBID, collectionId)
  {
  }

  /**
   * A record written before databases existed is found through the default database, and only
   * there: another database does not see it.
   */
  lemma LegacyRecordOnlyInDefaultDB(store: map<string, CollectionInfo>, dbId: int, collectionId: int)
    requires BuildCollectionKey(NonDBID, collectionId) in store
    requires BuildCollectionKey(DefaultDBID, collectionId) !in store
    ensures IsDefaultDB(dbId) ==> LoadCollection(store, dbId, collectionId) == Some(store[BuildCollectionKey(NonDBID, collectionId)])
    ensures !IsDefaultDB(dbId) && BuildCollectionKey(dbId, collectionId) !in store ==> LoadCollection(store, dbId, collectionId) == None
  {
  }

  /** The load reads nothing but its record keys: stores that agree there load the same record. */
  lemma {:induction false} LoadCollectionReadsOnlyRecordKeys(s1: map<string, CollectionInfo>, s2: map<string, CollectionInfo>, dbId: int, collectionId: int)
    requires forall k :: k in RecordKeys(dbId, collectionId) ==> (k in s1 <==> k in s2) && (k in s1 ==> s1[k] == s2[k])
    ensures LoadCollection(s1, dbId, collectionId) == LoadCollection(s2, dbId, collectionId)
  {
    var own := BuildCollectionKey(dbId, collectionId);
    var dflt := BuildCollectionKey(DefaultDBID, collectionId);
    var legacy := BuildCollectionKey(NonDBID, collectionId);
    if IsDefaultDB(dbId) {
      assert dflt in RecordKeys(dbId, collectionId) && legacy in RecordKeys(dbId, collectionId);
    } else {
      assert own in RecordKeys(dbId, collectionId);
    }
  }

  /** What a loaded collection lists, by id. */
  datatype CollectionLists = CollectionLists(partitionIds: seq<int>, fieldIds: seq<int>, structArrayFieldIds: seq<int>, functionIds: seq<int>)

  /** The lists a record carries inside itself. */
  function InlineLists(info: CollectionInfo): CollectionLists {
    CollectionLists(info.partitionIds, info.schemaFieldIds, info.schemaStructArrayFieldIds, info.schemaFunctionIds)
  }

  /** The record keeps partitions inline (it predates 2.1.0 for partitions). */
  predicate HasInlinePartitions(info: CollectionInfo) {
    |info.partitionIds| > 0 || |info.partitionNames| > 0 || |info.partitionCreatedTimestamps| > 0
  }

  /** The record keeps fields inline (it predates 2.1.0 for fields). */
  predicate HasInlineFields(info: CollectionInfo) {
    |info.schemaFieldIds| > 0 || |info.schemaStructArrayFieldIds| > 0
  }

  /**
   * `appendPartitionAndFieldsInfo`. `listed` stands for the four scans of the partition, field,
   * struct-array-field and function key ranges, or the error of the first one that fails. A record
   * that still keeps partitions and fields inline is used as it is, and nothing is scanned; once
   * either has moved out, all four lists come from the scans, and a failed scan fails the load.
   */
  function AppendPartitionAndFieldsInfo(info: CollectionInfo, listed: Result<CollectionLists>): (r: Result<CollectionLists>)
    ensures HasInlinePartitions(info) && HasInlineFields(info) ==> r == Ok(InlineLists(info))
    ensures !HasInlinePartitions(info) || !HasInlineFields(info) ==> r == listed
  {
    if !PartitionVersionAfter210(info) && !FieldVersionAfter210(info) then Ok(InlineLists(info)) else listed
  }

  /** The scans of the batch path, by collection id: partitions, fields and functions. */
  datatype ScanMaps = ScanMaps(partitions: map<int, seq<int>>, fields: map<int, seq<int>>, functions: map<int, seq<int>>)

  /**
   * `batchAppendPartitionAndFieldsInfo` for one record. `scans` stands for the three batch scans,
   * or the error of the first one that fails. The version test is the same; a list whose map has
   * no entry for the collection keeps the record's own, and struct-array fields are never read
   * from their key range.
   */
  function BatchAppendPartitionAndFieldsInfo(info: CollectionInfo, collectionId: int, scans: Result<ScanMaps>): (r: Result<CollectionLists>)
    ensures HasInlinePartitions(info) && HasInlineFields(info) ==> r == Ok(InlineLists(info))
    ensures r.Err? <==> (!HasInlinePartitions(info) || !HasInlineFields(info)) && scans.Err?
    ensures r.Err? ==> r.error == scans.error
    ensures r.Ok? ==> r.value.structArrayFieldIds == info.schemaStructArrayFieldIds
    ensures r.Ok? && scans.Ok? ==>
      && r.value.partitionIds == (if collectionId in scans.value.partitions && !(HasInlinePartitions(info) && HasInlineFields(info))
                                  then scans.value.partitions[collectionId] else info.partitionIds)
      && r.value.fieldIds == (if collectionId in scans.value.fields && !(HasInlinePartitions(info) && HasInlineFields(info))
                              then scans.value.fields[collectionId] else info.schemaFieldIds)
      && r.value.functionIds == (if collectionId in scans.value.functions && !(HasInlinePartitions(info) && HasInlineFields(info))
                                 then scans.value.functions[collectionId] else info.schemaFunctionIds)
  {
    if PartitionVersionAfter210(info) || FieldVersionAfter210(info) then
      match scans
      case Err(e) => Err(e)
      case Ok(m) =>
        Ok(CollectionLists(
          if collectionId in m.partitions then m.partitions[collectionId] else info.partitionIds,
          if collectionId in m.fields then m.fields[collectionId] else info.schemaFieldIds,
          info.schemaStructArrayFieldIds,
          if collectionId in m.functions then m.functions[collectionId] else info.schemaFunctionIds))
    else Ok(InlineLists(info))
  }

  /**
   * When every map holds the collection, the batch path agrees with the one-record path on
   * partitions, fields and functions; on struct-array fields it agrees only for an inline record
   * or when the record's own list is what the scan would give.
   */
  lemma BatchAppendAgreesWithAppend(info: CollectionInfo, collectionId: int, m: ScanMaps, structArrayFieldIds: seq<int>)
    requires collectionId in m.partitions && collectionId in m.fields && collectionId in m.functions
    ensures var one := AppendPartitionAndFieldsInfo(info, Ok(CollectionLists(m.partitions[collectionId], m.fields[collectionId],
                                                                            structArrayFieldIds, m.functions[collectionId])));
      var batch := BatchAppendPartitionAndFieldsInfo(info, collectionId, Ok(m));
      && one.Ok? && batch.Ok?
      && batch.value.partitionIds == one.value.partitionIds
      && batch.value.fieldIds == one.value.fieldIds
      && batch.value.functionIds == one.value.functionIds
      && (batch.value.structArrayFieldIds == one.value.structArrayFieldIds <==>
           (HasInlinePartitions(info) && HasInlineFields(info)) || structArrayFieldIds == info.schemaStructArrayFieldIds)
  {
  }


  // ---------------------------------------------------------------------------
  // Alter operations

  datatype Field = Field(fieldId: int, name: string)

  /** A collection as the alter operations see it. */
  datatype Collection = Collection(
    tenantId: string,
    collectionId: int,
    dbId: int,
    name: string,
    description: string,
    autoId: bool,
    virtualChannelNames: seq<string>,
    physicalChannelNames: seq<string>,
    startPositions: seq<int>,
    shardsNum: int,
    createTime: int,
    consistencyLevel: int,
    state: int,
    properties: seq<(string, string)>,
    fields: seq<Field>,
    structArrayFields: seq<Field>,
    updateTimestamp: int,
    // kept from the stored collection by a modify
    partitions: seq<int>,
    aliases: seq<string>,
    functions: seq<int>,
    enableDynamicField: bool)

  /** The stored collection with the modifiable attributes of the request copied over it. */
  function MergeModified(stored: Collection, req: Collection): Collection {
    stored.(dbId := req.dbId, name := req.name, description := req.description, autoId := req.autoId,
         virtualChannelNames := req.virtualChannelNames, physicalChannelNames := req.physicalChannelNames,
         startPositions := req.startPositions, shardsNum := req.shardsNum, createTime := req.createTime,
         consistencyLevel := req.consistencyLevel, state := req.state, properties := req.properties,
         fields := req.fields, structArrayFields := req.structArrayFields,
         updateTimestamp := req.updateTimestamp)
  }

  /** No later write in `ws` goes to the key of write `i`. */
  predicate LastWriteTo(ws: seq<Write>, i: nat)
    requires i < |ws|
  {
    forall j :: i < j < |ws| ==> ws[j].key != ws[i].key
  }

  /**
   * The Go map a sequence of assignments `saves[k] = v` builds: every written key is present,
   * only written keys are, and each holds the value of the last write to it.
   */
  function Saves(ws: seq<Write>): (m: map<string, Value>)
    ensures forall i :: 0 <= i < |ws| ==> ws[i].key in m
    ensures forall k :: k in m ==> exists i :: 0 <= i < |ws| && ws[i].key == k
  {
    if |ws| == 0 then map[]
    else
      var init, last := ws[..|ws| - 1], ws[|ws| - 1];
      var m := Saves(init);
      assert forall i :: 0 <= i < |init| ==> ws[i] == init[i];
      m[last.key := last.value]
  }

  /** The value saved at the key of write `i` is that write's value when no later write goes to the same key. */
  lemma {:induction false} SavesKeepsLastWrite(ws: seq<Write>, i: nat)
    requires i < |ws| && LastWriteTo(ws, i)
    ensures Saves(ws)[ws[i].key] == ws[i].value
  {
    var init, last := ws[..|ws| - 1], ws[|ws| - 1];
    if i < |ws| - 1 {
      assert init[i] == ws[i];
      assert LastWriteTo(init, i) by {
        forall j | i < j < |init| ensures init[j].key != init[i].key {
          assert init[j] == ws[j];
        }
      }
      SavesKeepsLastWrite(init, i);
      assert last.key != ws[i].key;
    }
  }

  /** Writes to pairwise distinct keys all survive: the map has one entry per write. */
  lemma {:induction false} SavesOfDistinctKeys(ws: seq<Write>)
    requires forall i, j :: 0 <= i < j < |ws| ==> ws[i].key != ws[j].key
    ensures |Saves(ws)| == |ws|
  {
    if |ws| > 0 {
      var init, last := ws[..|ws| - 1], ws[|ws| - 1];
      SavesOfDistinctKeys(init);
      assert last.key !in Saves(init) by {
        forall i | 0 <= i < |init| ensures init[i].key != last.key {
          assert init[i] == ws[i];
        }
      }
    }
  }

  /** Assignment `i` of `alterModifyCollection`: the collection, then each field, then each struct-array field. */
  function ModifyWrite(stored: Collection, req: Collection, i: nat): Write
    requires i < 1 + |req.fields| + |req.structArrayFields|
  {
    if i == 0 then Write(BuildCollectionKey(req.dbId, stored.collectionId), CollectionValue(MergeModified(stored, req)))
    else if i <= |req.fields| then Write(BuildFieldKey(req.collectionId, req.fields[i - 1].fieldId), FieldValue(req.fields[i - 1]))
    else
      var f := req.structArrayFields[i - 1 - |req.fields|];
      Write(BuildStructArrayFieldKey(req.collectionId, f.fieldId), StructArrayFieldValue(f))
  }

  /** The assignments of `alterModifyCollection`, in program order; only the collection's unless fields are modified. */
  function ModifyWrites(stored: Collection, req: Collection, fieldModify: bool): (ws: seq<Write>)
    ensures |ws| == if fieldModify then 1 + |req.fields| + |req.structArrayFields| else 1
    ensures forall i :: 0 <= i < |ws| ==> ws[i] == ModifyWrite(stored, req, i)
  {
    var n := if fieldModify then 1 + |req.fields| + |req.structArrayFields| else 1;
    seq(n, i requires 0 <= i < n => ModifyWrite(stored, req, i))
  }

  /**
   * `alterModifyCollection`: a changed tenant or collection id is forbidden, a changed database
   * must go through `AlterCollectionDB`; otherwise the merged collection is saved at its key,
   * together, when fields are modified, with one entry per field and struct-array field key.
   * The saves form a Go map: it has no order, and a later assignment to a key overwrites an
   * earlier one.
   */
  function AlterModifyCollection(stored: Collection, req: Collection, fieldModify: bool): (r: Result<map<string, Value>>)
    ensures stored.tenantId != req.tenantId || stored.collectionId != req.collectionId ==> r == Err(AlterIdForbidden)
    ensures stored.tenantId == req.tenantId && stored.collectionId == req.collectionId && stored.dbId != req.dbId ==>
      r == Err(AlterDbNeedsOwnInterface)
    ensures r.Ok? <==> stored.tenantId == req.tenantId && stored.collectionId == req.collectionId && stored.dbId == req.dbId
    ensures r.Ok? ==> var key := BuildCollectionKey(stored.dbId, stored.collectionId);
      key in r.value && r.value[key] == CollectionValue(MergeModified(stored, req))
    ensures r.Ok? && !fieldModify ==>
      r.value == map[BuildCollectionKey(stored.dbId, stored.collectionId) := CollectionValue(MergeModified(stored, req))]
  {
    if stored.tenantId != req.tenantId || stored.collectionId != req.collectionId then Err(AlterIdForbidden)
    else if stored.dbId != req.dbId then Err(AlterDbNeedsOwnInterface)
    else
      ModifyHeadSurvives(stored, req, fieldModify);
      Ok(Saves(ModifyWrites(stored, req, fieldModify)))
  }

  /** No field write of a modify lands on the collection key, so the merged collection survives in the map. */
  lemma ModifyHeadSurvives(stored: Collection, req: Collection, fieldModify: bool)
    requires stored.collectionId == req.collectionId && stored.dbId == req.dbId
    ensures var ws := ModifyWrites(stored, req, fieldModify);
      var key := BuildCollectionKey(stored.dbId, stored.collectionId);
      && key in Saves(ws) && Saves(ws)[key] == CollectionValue(MergeModified(stored, req))
      && (!fieldModify ==> Saves(ws) == map[key := CollectionValue(MergeModified(stored, req))])
  {
    var ws := ModifyWrites(stored, req, fieldModify);
    ModifyWritesKeys(stored, req, fieldModify);
    var fids, sids := FieldIds(req.fields), FieldIds(req.structArrayFields);
    assert LastWriteTo(ws, 0) by {
      forall j | 0 < j < |ws| ensures ws[j].key != ws[0].key {
        var id := if j <= |fids| then fids[j - 1] else sids[j - 1 - |fids|];
        KeyKindsDiffer(stored.dbId, stored.collectionId, stored.collectionId, id, 0);
      }
    }
    SavesKeepsLastWrite(ws, 0);
    if !fieldModify {
      assert ws[..0] == [];
    }
  }

  /**
   * The collection a successful modify stores keeps the stored identity and the attributes a
   * modify does not touch, and takes every modifiable attribute from the request.
   */
  lemma AlterModifyStoresMerge(stored: Collection, req: Collection, fieldModify: bool)
    requires AlterModifyCollection(stored, req, fieldModify).Ok?
    ensures var v := AlterModifyCollection(stored, req, fieldModify).value[BuildCollectionKey(stored.dbId, stored.collectionId)];
      v.CollectionValue? &&
      v.collection.tenantId == stored.tenantId && v.collection.collectionId == stored.collectionId &&
      v.collection.dbId == stored.dbId &&
      v.collection.partitions == stored.partitions && v.collection.aliases == stored.aliases &&
      v.collection.functions == stored.functions && v.collection.enableDynamicField == stored.enableDynamicField &&
      v.collection.(partitions := req.partitions, aliases := req.aliases, functions := req.functions,
                    enableDynamicField := req.enableDynamicField) == req
  {
  }

  /** Modifying a collection to itself rewrites it unchanged at its own key. */
  lemma AlterModifyToItselfRewritesIt(c: Collection)
    ensures AlterModifyCollection(c, c, false) == Ok(map[BuildCollectionKey(c.dbId, c.collectionId) := CollectionValue(c)])
  {
  }

  /** The key a field-modifying alter assigns at step `i`: the collection's, then one per field, then one per struct-array field. */
  function ModifyKey(dbId: int, collectionId: int, fieldIds: seq<int>, structArrayFieldIds: seq<int>, i: nat): string
    requires i < 1 + |fieldIds| + |structArrayFieldIds|
  {
    if i == 0 then BuildCollectionKey(dbId, collectionId)
    else if i <= |fieldIds| then BuildFieldKey(collectionId, fieldIds[i - 1])
    else BuildStructArrayFieldKey(collectionId, structArrayFieldIds[i - 1 - |fieldIds|])
  }

  function FieldIds(fields: seq<Field>): (ids: seq<int>)
    ensures |ids| == |fields| && forall i :: 0 <= i < |fields| ==> ids[i] == fields[i].fieldId
  {
    seq(|fields|, i requires 0 <= i < |fields| => fields[i].fieldId)
  }

  lemma SegmentsOfFieldKey(c: int, id: int)
    ensures Segments(BuildFieldKey(c, id)) == [ComponentPrefix, "fields", FormatInt(c), FormatInt(id)]
  {
    SegmentsOfChildKey("fields", c, id);
  }

  lemma SegmentsOfStructArrayFieldKey(c: int, id: int)
    ensures Segments(BuildStructArrayFieldKey(c, id)) == [ComponentPrefix, "struct-array-fields", FormatInt(c), FormatInt(id)]
  {
    SegmentsOfChildKey("struct-array-fields", c, id);
  }

  /** A collection key, a field key and a struct-array field key never coincide. */
  lemma KeyKindsDiffer(dbId: int, c: int, c2: int, id: int, id2: int)
    ensures BuildCollectionKey(dbId, c) != BuildFieldKey(c2, id)
    ensures BuildCollectionKey(dbId, c) != BuildStructArrayFieldKey(c2, id)
    ensures BuildFieldKey(c, id) != BuildStructArrayFieldKey(c2, id2)
  {
    SegmentsOfCollectionKey(dbId, c);
    SegmentsOfFieldKey(c2, id);
    SegmentsOfFieldKey(c, id);
    SegmentsOfStructArrayFieldKey(c2, id);
    SegmentsOfStructArrayFieldKey(c2, id2);
  }

  /** Within one collection, distinct field ids give distinct field keys and distinct struct-array field keys. */
  lemma ChildKeysOfDistinctIdsDiffer(c: int, id: int, id2: int)
    requires IsInt64(id) && IsInt64(id2) && id != id2
    ensures BuildFieldKey(c, id) != BuildFieldKey(c, id2)
    ensures BuildStructArrayFieldKey(c, id) != BuildStructArrayFieldKey(c, id2)
  {
    SegmentsOfFieldKey(c, id);
    SegmentsOfFieldKey(c, id2);
    SegmentsOfStructArrayFieldKey(c, id);
    SegmentsOfStructArrayFieldKey(c, id2);
    if FormatInt(id) == FormatInt(id2) {
      FormatIntInjective(id, id2);
    }
  }

  lemma ModifyKeyPairDiffers(dbId: int, c: int, fids: seq<int>, sids: seq<int>, i: nat, j: nat)
    requires i < j < 1 + |fids| + |sids|
    requires 0 < i && j <= |fids| ==> IsInt64(fids[i - 1]) && IsInt64(fids[j - 1]) && fids[i - 1] != fids[j - 1]
    requires |fids| < i ==> IsInt64(sids[i - 1 - |fids|]) && IsInt64(sids[j - 1 - |fids|]) && sids[i - 1 - |fids|] != sids[j - 1 - |fids|]
    ensures ModifyKey(dbId, c, fids, sids, i) != ModifyKey(dbId, c, fids, sids, j)
  {
    var nf := |fids|;
    if i == 0 {
      KeyKindsDiffer(dbId, c, c, if j <= nf then fids[j - 1] else sids[j - 1 - nf], 0);
    } else if j <= nf {
      ChildKeysOfDistinctIdsDiffer(c, fids[i - 1], fids[j - 1]);
    } else if i <= nf {
      KeyKindsDiffer(dbId, c, c, fids[i - 1], sids[j - 1 - nf]);
    } else {
      ChildKeysOfDistinctIdsDiffer(c, sids[i - 1 - nf], sids[j - 1 - nf]);
    }
  }

  /** With distinct field ids, no two keys of a field-modifying alter coincide. */
  lemma ModifyKeysAreDistinct(dbId: int, c: int, fids: seq<int>, sids: seq<int>)
    requires forall i :: 0 <= i < |fids| ==> IsInt64(fids[i])
    requires forall i :: 0 <= i < |sids| ==> IsInt64(sids[i])
    requires NoDup(fids) && NoDup(sids)
    ensures forall i, j :: 0 <= i < j < 1 + |fids| + |sids| ==> ModifyKey(dbId, c, fids, sids, i) != ModifyKey(dbId, c, fids, sids, j)
  {
    forall i, j | 0 <= i < j < 1 + |fids| + |sids|
      ensures ModifyKey(dbId, c, fids, sids, i) != ModifyKey(dbId, c, fids, sids, j)
    {
      ModifyKeyPairDiffers(dbId, c, fids, sids, i, j);
    }
  }

  /** The keys of the assignments of a modify, step by step. */
  lemma ModifyWritesKeys(stored: Collection, req: Collection, fieldModify: bool)
    requires stored.collectionId == req.collectionId && stored.dbId == req.dbId
    ensures var ws := ModifyWrites(stored, req, fieldModify);
      forall i :: 0 <= i < |ws| ==>
        ws[i].key == ModifyKey(stored.dbId, stored.collectionId, FieldIds(req.fields), FieldIds(req.structArrayFields), i)
  {
  }

  /**
   * A field-modifying alter saves exactly the keys it assigns to: the collection key, the field
   * key of every field and the struct-array key of every struct-array field.
   */
  lemma AlterModifyWritesModifyKeys(stored: Collection, req: Collection)
    requires AlterModifyCollection(stored, req, true).Ok?
    ensures var fids, sids := FieldIds(req.fields), FieldIds(req.structArrayFields);
      var saved := AlterModifyCollection(stored, req, true).value;
      && (forall i :: 0 <= i < 1 + |fids| + |sids| ==> ModifyKey(stored.dbId, stored.collectionId, fids, sids, i) in saved)
      && (forall k :: k in saved ==>
            exists i :: 0 <= i < 1 + |fids| + |sids| && k == ModifyKey(stored.dbId, stored.collectionId, fids, sids, i))
  {
    var ws := ModifyWrites(stored, req, true);
    assert AlterModifyCollection(stored, req, true) == Ok(Saves(ws));
    ModifyWritesKeys(stored, req, true);
  }

  /**
   * With distinct field ids nothing is overwritten: the saved map has one entry for the
   * collection and one for every field and struct-array field.
   */
  lemma AlterModifyKeysAreDistinct(stored: Collection, req: Collection)
    requires AlterModifyCollection(stored, req, true).Ok?
    requires forall i :: 0 <= i < |req.fields| ==> IsInt64(req.fields[i].fieldId)
    requires forall i :: 0 <= i < |req.structArrayFields| ==> IsInt64(req.structArrayFields[i].fieldId)
    requires NoDup(FieldIds(req.fields)) && NoDup(FieldIds(req.structArrayFields))
    ensures |AlterModifyCollection(stored, req, true).value| == 1 + |req.fields| + |req.structArrayFields|
  {
    var ws := ModifyWrites(stored, req, true);
    ModifyWritesOnDistinctKeys(stored, req);
    SavesOfDistinctKeys(ws);
    assert AlterModifyCollection(stored, req, true) == Ok(Saves(ws));
  }

  lemma ModifyWritesOnDistinctKeys(stored: Collection, req: Collection)
    requires stored.collectionId == req.collectionId && stored.dbId == req.dbId
    requires forall i :: 0 <= i < |req.fields| ==> IsInt64(req.fields[i].fieldId)
    requires forall i :: 0 <= i < |req.structArrayFields| ==> IsInt64(req.structArrayFields[i].fieldId)
    requires NoDup(FieldIds(req.fields)) && NoDup(FieldIds(req.structArrayFields))
    ensures var ws := ModifyWrites(stored, req, true);
      forall i, j :: 0 <= i < j < |ws| ==> ws[i].key != ws[j].key
  {
    ModifyWritesKeys(stored, req, true);
    ModifyKeysAreDistinct(stored.dbId, stored.collectionId, FieldIds(req.fields), FieldIds(req.structArrayFields));
  }

  /**
   * When two fields share an id the later one wins: the field key holds the last field with
   * that id, as the Go map keeps the last assignment.
   */
  lemma AlterModifyLastFieldWins(stored: Collection, req: Collection, i: nat)
    requires AlterModifyCollection(stored, req, true).Ok?
    requires i < |req.fields| && forall j :: 0 <= j < |req.fields| ==> IsInt64(req.fields[j].fieldId)
    requires forall j :: i < j < |req.fields| ==> req.fields[j].fieldId != req.fields[i].fieldId
    ensures var saved := AlterModifyCollection(stored, req, true).value;
      var key := BuildFieldKey(stored.collectionId, req.fields[i].fieldId);
      key in saved && saved[key] == FieldValue(req.fields[i])
  {
    var ws := ModifyWrites(stored, req, true);
    assert AlterModifyCollection(stored, req, true) == Ok(Saves(ws));
    FieldWriteIsLast(stored, req, i);
    SavesKeepsLastWrite(ws, i + 1);
  }

  /** No write after field `i`'s goes to its key when no later field has its id. */
  lemma FieldWriteIsLast(stored: Collection, req: Collection, i: nat)
    requires stored.collectionId == req.collectionId && stored.dbId == req.dbId
    requires i < |req.fields| && forall j :: 0 <= j < |req.fields| ==> IsInt64(req.fields[j].fieldId)
    requires forall j :: i < j < |req.fields| ==> req.fields[j].fieldId != req.fields[i].fieldId
    ensures LastWriteTo(ModifyWrites(stored, req, true), i + 1)
  {
    var ws := ModifyWrites(stored, req, true);
    var fids, sids := FieldIds(req.fields), FieldIds(req.structArrayFields);
    ModifyWritesKeys(stored, req, true);
    forall j | i + 1 < j < |ws| ensures ws[j].key != ws[i + 1].key {
      ModifyKeyPairDiffers(stored.dbId, stored.collectionId, fids, sids, i + 1, j);
    }
  }

  /** The writes and removals `AlterCollectionDB` hands to the store in one transaction. */
  datatype SaveAndRemove = SaveAndRemove(saves: seq<Write>, removals: seq<string>)

  /**
   * `AlterCollectionDB`: a changed tenant or collection id is forbidden; otherwise the request is
   * written under its database's key and the record under the stored database's key is removed.
   */
  function AlterCollectionDB(stored: Collection, req: Collection): (r: Result<SaveAndRemove>)
    ensures stored.tenantId != req.tenantId || stored.collectionId != req.collectionId <==> r == Err(AlterIdForbidden)
    ensures r.Ok? ==> r.value.saves == [Write(BuildCollectionKey(req.dbId, stored.collectionId), CollectionValue(req))]
    ensures r.Ok? ==> r.value.removals == [BuildCollectionKey(stored.dbId, stored.collectionId)]
  {
    if stored.tenantId != req.tenantId || stored.collectionId != req.collectionId then Err(AlterIdForbidden)
    else
      Ok(SaveAndRemove([Write(BuildCollectionKey(req.dbId, req.collectionId), CollectionValue(req))],
                       [BuildCollectionKey(stored.dbId, stored.collectionId)]))
  }

  /** Moving a collection to another database never removes the key it has just written. */
  lemma AlterCollectionDBKeepsNewRecord(stored: Collection, req: Collection)
    requires AlterCollectionDB(stored, req).Ok?
    requires IsInt64(stored.dbId) && IsInt64(req.dbId) && IsInt64(stored.collectionId)
    ensures AlterCollectionDB(stored, req).value.saves[0].key !in AlterCollectionDB(stored, req).value.removals <==> stored.dbId != req.dbId
  {
    CollectionKeyInjective(req.dbId, stored.collectionId, stored.dbId, stored.collectionId);
  }

  /**
   * `alterModifyPartition`: a changed collection or partition id is forbidden; otherwise the
   * stored partition takes the request's name, creation timestamp and state and is written at
   * its own key.
   */
  function AlterModifyPartition(stored: Partition, req: Partition): (r: Result<Write>)
    ensures stored.collectionId != req.collectionId || stored.partitionId != req.partitionId <==> r == Err(AlterIdForbidden)
    ensures r.Ok? ==> r.value.key == BuildPartitionKey(stored.collectionId, stored.partitionId)
    ensures r.Ok? ==> r.value.value == PartitionValue(req)
  {
    if stored.collectionId != req.collectionId || stored.partitionId != req.partitionId then Err(AlterIdForbidden)
    else
      var merged := stored.(name := req.name, createdTimestamp := req.createdTimestamp, state := req.state);
      Ok(Write(BuildPartitionKey(stored.collectionId, stored.partitionId), PartitionValue(merged)))
  }
}
