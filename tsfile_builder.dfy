/**
 * The table-model file builder: buffers tablets per database and converts
 * them into sealed files, deleting every file it produced for a database when
 * writing any of that database's tablets fails.
 */
module TsFileBuilder {
  import opened Wrappers
  import opened DeviceOrder
  import opened StringOrder
  import opened BuilderSpec

  const WRITE_FAILURE: string := "The written Tablet time may overlap or the Schema may be incorrect"
  const TREE_MODEL_UNSUPPORTED: string := "PipeTableModeTsFileBuilder does not support tree model tablet to build TSFile"

  /**
   * The files on disk and what the table-model writer put in them. Whether
   * the writer accepts a tablet (its schema and times are the writer's
   * business) is the given `accepts`.
   */
  class FileStore {
    var live: set<FileId>
    var contents: map<FileId, seq<Chunk>>
    var nextId: FileId
    const accepts: Tablet -> bool

    ghost predicate Valid()
      reads this
    {
      live <= contents.Keys && forall f | f in contents :: f < nextId
    }

    constructor (accepts: Tablet -> bool)
      ensures Valid() && live == {} && contents == map[] && this.accepts == accepts
    {
      live := {};
      contents := map[];
      nextId := 0;
      this.accepts := accepts;
    }

    /** A new, empty file. */
    method CreateFile() returns (f: FileId)
      requires Valid()
      modifies this
      ensures Valid() && f !in old(contents)
      ensures live == old(live) + {f} && contents == old(contents)[f := []]
    {
      f := nextId;
      nextId := nextId + 1;
      live := live + {f};
      contents := contents[f := []];
    }

    /** Registers a table's schema; the table's tablets written next go with it. */
    method RegisterTableSchema(f: FileId, table: string)
      requires Valid() && f in contents
      modifies this
      ensures Valid() && live == old(live)
      ensures contents == old(contents)[f := old(contents[f]) + [Chunk(table, [])]]
    {
      contents := contents[f := contents[f] + [Chunk(table, [])]];
    }

    /** Writes a tablet under the last registered schema, unless the writer refuses it. */
    method WriteTable(f: FileId, t: Tablet) returns (ok: bool)
      requires Valid() && f in contents && contents[f] != []
      modifies this
      ensures Valid() && live == old(live) && ok == accepts(t)
      ensures contents == if ok then old(contents)[f := AppendToLast(old(contents[f]), t)] else old(contents)
    {
      ok := accepts(t);
      if ok {
        contents := contents[f := AppendToLast(contents[f], t)];
      }
    }

    /** Removes a file from disk; what was written stays recorded. */
    method Delete(f: FileId)
      requires Valid()
      modifies this
      ensures Valid() && live == old(live) - {f} && contents == old(contents)
    {
      live := live - {f};
    }
  }

  function AppendToLast(cs: seq<Chunk>, t: Tablet): seq<Chunk>
    requires cs != []
  {
    var c := cs[|cs| - 1];
    cs[..|cs| - 1] + [Chunk(c.table, c.tablets + [t])]
  }

  /** Table names, the grouped lists built from them, and the tablets they came from agree. */
  ghost predicate BuiltFrom(lists: seq<seq<Tablet>>, names: seq<string>, tablets: seq<Tablet>)
    requires AllWellFormed(tablets)
  {
    && names == TableNames(tablets)
    && |lists| == |names|
    && forall k | 0 <= k < |lists| :: lists[k] == Group(tablets, |tablets|, names[k])
  }

  /** The grouping step: one device-ordered list per table, in ascending table order. */
  method BuildTableLists(tablets: seq<Tablet>) returns (lists: seq<seq<Tablet>>, ghost names: seq<string>)
    requires AllWellFormed(tablets)
    ensures BuiltFrom(lists, names, tablets)
    ensures ListsOk(lists)
    ensures multiset(Concat(lists)) == multiset(tablets)
  {
    names := [];
    var tableNames: seq<string> := [];
    for i := 0 to |tablets|
      invariant tableNames == TableNamesUpTo(tablets, i)
    {
      tableNames := InsertSorted(tableNames, tablets[i].tableName);
    }
    names := tableNames;
    lists := BuildAllLists(tablets, tableNames);
    BuiltListsOk(lists, tableNames, tablets);
  }

  /** One list per name, in the order of `names`; together they hold every tablet. */
  method BuildAllLists(tablets: seq<Tablet>, names: seq<string>) returns (lists: seq<seq<Tablet>>)
    requires AllWellFormed(tablets) && names == TableNames(tablets)
    ensures |lists| == |names|
    ensures forall k | 0 <= k < |lists| :: lists[k] == Group(tablets, |tablets|, names[k])
    ensures multiset(Concat(lists)) == multiset(tablets)
  {
    lists := [];
    for k := 0 to |names|
      invariant |lists| == k
      invariant forall m | 0 <= m < k :: lists[m] == Group(tablets, |tablets|, names[m])
    {
      var list := BuildList(tablets, names[k]);
      lists := lists + [list];
    }
    GroupsHoldAll(tablets, names, lists);
  }

  lemma BuiltListsOk(lists: seq<seq<Tablet>>, names: seq<string>, tablets: seq<Tablet>)
    requires AllWellFormed(tablets) && BuiltFrom(lists, names, tablets)
    ensures ListsOk(lists)
  {
    forall k | 0 <= k < |lists| ensures lists[k] != [] && AllWellFormed(lists[k]) && SameTable(lists[k], names[k]) {
      assert names[k] in names;
      var i :| 0 <= i < |tablets| && tablets[i].tableName == names[k];
      GroupNonEmpty(tablets, |tablets|, names[k], i);
    }
  }

  /** The list of one table: its tablets, each placed by `writerPairToList`. */
  method BuildList(tablets: seq<Tablet>, name: string) returns (list: seq<Tablet>)
    requires AllWellFormed(tablets)
    ensures list == Group(tablets, |tablets|, name)
  {
    list := [];
    for i := 0 to |tablets|
      invariant list == Group(tablets, i, name)
    {
      if tablets[i].tableName == name {
        list := WriterPairToList(list, tablets[i]);
      }
    }
  }

  class TableModeTsFileBuilder {
    var dataBase2TabletList: map<string, seq<Tablet>>
    var fileWriter: Option<FileId>
    const store: FileStore

    ghost predicate Valid()
      reads this, store
    {
      && store.Valid()
      && fileWriter.None?
      && forall db | db in dataBase2TabletList :: AllWellFormed(dataBase2TabletList[db])
    }

    constructor (store: FileStore)
      requires store.Valid()
      ensures Valid() && this.store == store && dataBase2TabletList == map[]
    {
      dataBase2TabletList := map[];
      fileWriter := None;
      this.store := store;
    }

    /** `bufferTableModelTablet`: appends the tablet to its database's list. */
    method BufferTableModelTablet(dataBase: string, tablet: Tablet)
      requires Valid() && WellFormed(tablet)
      modifies this
      ensures Valid() && fileWriter == old(fileWriter)
      ensures dataBase2TabletList == old(dataBase2TabletList)[dataBase :=
        (if dataBase in old(dataBase2TabletList) then old(dataBase2TabletList[dataBase]) else []) + [tablet]]
    {
      var list := if dataBase in dataBase2TabletList then dataBase2TabletList[dataBase] else [];
      dataBase2TabletList := dataBase2TabletList[dataBase := list + [tablet]];
    }

    /** `bufferTreeModelTablet`: tree-model tablets are refused. */
    method BufferTreeModelTablet(tablet: Tablet, isAligned: bool) returns (r: Result<(), string>)
      ensures r == Failure(TREE_MODEL_UNSUPPORTED)
    {
      r := Failure(TREE_MODEL_UNSUPPORTED);
    }

    function IsEmpty(): (r: bool)
      reads this
      ensures r <==> forall db :: db !in dataBase2TabletList
    {
      dataBase2TabletList == map[]
    }

    /** `onSuccess`: the buffered tablets are dropped. */
    method OnSuccess()
      requires Valid()
      modifies this
      ensures Valid() && IsEmpty() && fileWriter == old(fileWriter)
    {
      dataBase2TabletList := map[];
    }

    /** `close`: the buffered tablets are dropped. */
    method Close()
      requires Valid()
      modifies this
      ensures Valid() && IsEmpty() && fileWriter == old(fileWriter)
    {
      dataBase2TabletList := map[];
    }

    /** Registers the chunk's table once, before its first tablet, and writes its tablets in order. */
    method WriteChunk(f: FileId, tabletsToWrite: seq<Tablet>) returns (ok: bool)
      requires store.Valid() && f in store.contents && tabletsToWrite != []
      modifies store
      ensures store.Valid() && store.live == old(store.live) && f in store.contents
      ensures store.contents == old(store.contents)[f := store.contents[f]]
      ensures ok <==> AllAccepted(tabletsToWrite, store.accepts)
      ensures ok ==> store.contents[f] == old(store.contents[f]) + [Chunk(tabletsToWrite[0].tableName, tabletsToWrite)]
    {
      ghost var start := store.contents[f];
      var schemaNotRegistered := true;
      ok := true;
      for i := 0 to |tabletsToWrite|
        invariant store.Valid() && store.live == old(store.live) && f in store.contents
        invariant store.contents == old(store.contents)[f := store.contents[f]]
        invariant schemaNotRegistered <==> i == 0
        invariant i == 0 ==> store.contents[f] == start
        invariant i > 0 ==> store.contents[f] == start + [Chunk(tabletsToWrite[0].tableName, tabletsToWrite[..i])]
        invariant forall j | 0 <= j < i :: store.accepts(tabletsToWrite[j])
      {
        var tablet := tabletsToWrite[i];
        if schemaNotRegistered {
          store.RegisterTableSchema(f, tablet.tableName);
          schemaNotRegistered := false;
        }
        ok := store.WriteTable(f, tablet);
        if !ok {
          return;
        }
        assert tabletsToWrite[..i] + [tablet] == tabletsToWrite[..i + 1];
      }
      assert tabletsToWrite[..|tabletsToWrite|] == tabletsToWrite;
    }

    /** `tryBestToWriteTabletsIntoOneFile`: gives the open file each list's prefix, in list order. */
    method TryBestToWriteTabletsIntoOneFile(lists: seq<seq<Tablet>>) returns (ok: bool, rest: seq<seq<Tablet>>)
      requires store.Valid() && fileWriter.Some? && fileWriter.value in store.contents && Listed(lists)
      modifies store
      ensures store.Valid() && store.live == old(store.live) && fileWriter.value in store.contents
      ensures store.contents == old(store.contents)[fileWriter.value := store.contents[fileWriter.value]]
      ensures ok <==> PassAccepted(lists, |lists|, store.accepts)
      ensures ok ==> rest == Rest(lists)
      ensures ok ==> store.contents[fileWriter.value] == old(store.contents[fileWriter.value]) + Written(lists)
    {
      var f := fileWriter.value;
      ghost var start := store.contents[f];
      ghost var written: seq<Chunk> := [];
      rest := [];
      ok := true;
      var k := 0;
      while k < |lists|
        invariant store.Valid() && store.live == old(store.live) && f in store.contents
        invariant store.contents == old(store.contents)[f := store.contents[f]]
        invariant store.contents[f] == start + written
        invariant PassedUpTo(lists, k, rest, written, store.accepts) && ok
      {
        var tablets := lists[k];
        var n;
        ok, n := WritePrefix(f, tablets);
        if !ok {
          PassRejected(lists, k, store.accepts);
          return;
        }
        PassNext(lists, k, rest, written, store.accepts);
        written := written + [Chunk(tablets[0].tableName, tablets[..n])];
        if n < |tablets| {
          rest := rest + [tablets[n..]];
        }
        k := k + 1;
      }
    }

    /** Takes the longest non-overlapping prefix of one table's list and writes it into the open file. */
    method WritePrefix(f: FileId, tablets: seq<Tablet>) returns (ok: bool, n: nat)
      requires store.Valid() && f in store.contents && tablets != [] && AllWellFormed(tablets)
      modifies store
      ensures store.Valid() && store.live == old(store.live) && f in store.contents
      ensures store.contents == old(store.contents)[f := store.contents[f]]
      ensures n == PrefixLength(tablets)
      ensures ok <==> AllAccepted(tablets[..n], store.accepts)
      ensures ok ==> store.contents[f] == old(store.contents[f]) + [Chunk(tablets[0].tableName, tablets[..n])]
    {
      n := TakePrefix(tablets);
      var tabletsToWrite := tablets[..n];
      ok := WriteChunk(f, tabletsToWrite);
    }
  
    /** Opens a new file, fills it by one pass over the lists, and drops the writer. */
    method SealOneFile(lists: seq<seq<Tablet>>) returns (ok: bool, f: FileId, rest: seq<seq<Tablet>>)
      requires Valid() && Listed(lists)
      modifies this, store
      ensures Valid() && dataBase2TabletList == old(dataBase2TabletList)
      ensures f !in old(store.contents) && f in store.contents && store.live == old(store.live) + {f}
      ensures store.contents == old(store.contents)[f := store.contents[f]]
      ensures ok <==> PassAccepted(lists, |lists|, store.accepts)
      ensures ok ==> rest == Rest(lists) && store.contents[f] == Written(lists)
    {
      // The writer is closed between passes (`Valid`), so the source's null
      // check always opens a new one here.
      var created := store.CreateFile();
      fileWriter := Some(created);
      f := created;
      ok, rest := TryBestToWriteTabletsIntoOneFile(lists);
      fileWriter := None;
    }

    /** Deletes the files of `sealedFiles` from disk. */
    method DeleteSealed(sealedFiles: seq<(string, FileId)>)
      requires store.Valid()
      modifies store
      ensures store.Valid() && store.live == old(store.live) - FileSet(sealedFiles) && store.contents == old(store.contents)
    {
      for i := 0 to |sealedFiles|
        invariant store.Valid() && store.live == old(store.live) - FileSet(sealedFiles[..i])
        invariant store.contents == old(store.contents)
      {
        store.Delete(sealedFiles[i].1);
        assert sealedFiles[..i + 1][..i] == sealedFiles[..i];
      }
      assert sealedFiles[..|sealedFiles|] == sealedFiles;
    }

    /**
     * `writeTableModelTabletsToTsFiles`: writes one database's tablets into as
     * few files as the prefix rule allows. On success every tablet is in exactly
     * one new file; when the writer refuses a tablet, every file made by this
     * call is deleted.
     */
    method WriteTableModelTabletsToTsFiles(tabletList: seq<Tablet>, dataBase: string)
      returns (r: Result<seq<(string, FileId)>, string>)
      requires Valid() && AllWellFormed(tabletList)
      modifies this, store
      ensures Valid() && dataBase2TabletList == old(dataBase2TabletList)
      ensures Keeps(old(store.contents), store.contents)
      ensures r.Failure? <==> exists i | 0 <= i < |tabletList| :: !store.accepts(tabletList[i])
      ensures r.Failure? ==> r.error == WRITE_FAILURE && store.live == old(store.live)
      ensures r.Success? ==>
        SealedFor(r.value, dataBase, old(store.contents), old(store.live), store.contents, store.live, tabletList)
    {
      var lists;
      ghost var names;
      lists, names := BuildTableLists(tabletList);
      ProgressStart(lists, dataBase, store.contents, store.live, tabletList, store.accepts);
      r := SealFiles(lists, dataBase, tabletList);
    }

    /** The sealing loop: one file per pass until the lists are used up or the writer refuses a tablet. */
    method SealFiles(lists: seq<seq<Tablet>>, dataBase: string, ghost tabletList: seq<Tablet>)
      returns (r: Result<seq<(string, FileId)>, string>)
      requires Valid()
      requires Progress([], lists, dataBase, store.contents, store.live, store.contents, store.live, tabletList, store.accepts)
      modifies this, store
      ensures Valid() && dataBase2TabletList == old(dataBase2TabletList)
      ensures Keeps(old(store.contents), store.contents)
      ensures r.Failure? <==> exists i | 0 <= i < |tabletList| :: !store.accepts(tabletList[i])
      ensures r.Failure? ==> r.error == WRITE_FAILURE && store.live == old(store.live)
      ensures r.Success? ==>
        SealedFor(r.value, dataBase, old(store.contents), old(store.live), store.contents, store.live, tabletList)
    {
      var remaining := lists;
      var sealedFiles: seq<(string, FileId)> := [];
      while remaining != []
        invariant Valid() && dataBase2TabletList == old(dataBase2TabletList)
        invariant Progress(sealedFiles, remaining, dataBase, old(store.contents), old(store.live),
                           store.contents, store.live, tabletList, store.accepts)
        invariant old(store.live) <= old(store.contents).Keys
        decreases |Concat(remaining)|
      {
        var ok, f, rest := SealNext(sealedFiles, remaining, dataBase, old(store.contents), old(store.live), tabletList);
        if !ok {
          r := Failure(WRITE_FAILURE);
          return;
        }
        sealedFiles := sealedFiles + [(dataBase, f)];
        remaining := rest;
      }
      ProgressDone(sealedFiles, remaining, dataBase, old(store.contents), old(store.live),
                   store.contents, store.live, tabletList, store.accepts);
      r := Success(sealedFiles);
    }

    /**
     * `convertTabletToTSFileWithDBInfo`: seals every buffered database in the
     * map's (unspecified) order. It fails exactly when the writer refuses some
     * buffered tablet; the files of databases sealed before the failing one
     * stay on disk.
     */
    method ConvertTabletToTSFileWithDBInfo() returns (r: Result<seq<(string, FileId)>, string>)
      requires Valid()
      modifies this, store
      ensures Valid() && dataBase2TabletList == old(dataBase2TabletList)
      ensures Keeps(old(store.contents), store.contents)
      ensures old(IsEmpty()) ==> r == Success([]) && store.live == old(store.live)
      ensures r.Failure? <==> exists db, i | db in dataBase2TabletList && 0 <= i < |dataBase2TabletList[db]| ::
        !store.accepts(dataBase2TabletList[db][i])
      ensures r.Failure? ==> r.error == WRITE_FAILURE && old(store.live) <= store.live
      ensures r.Success? ==>
        Converted(r.value, dataBase2TabletList, old(store.contents), old(store.live), store.contents, store.live)
    {
      if dataBase2TabletList == map[] {
        r := Success([]);
        return;
      }
      var pairList: seq<(string, FileId)> := [];
      var remaining := dataBase2TabletList.Keys;
      ConvertStart(dataBase2TabletList, store.contents, store.live, store.accepts);
      while remaining != {}
        invariant Valid() && dataBase2TabletList == old(dataBase2TabletList)
        invariant remaining <= dataBase2TabletList.Keys
        invariant ConvertProgress(pairList, dataBase2TabletList.Keys - remaining, dataBase2TabletList,
                                  old(store.contents), old(store.live), store.contents, store.live, store.accepts)
        decreases remaining
      {
        var dataBase :| dataBase in remaining;
        ghost var c0, live0 := store.contents, store.live;
        var res := WriteTableModelTabletsToTsFiles(dataBase2TabletList[dataBase], dataBase);
        if res.Failure? {
          r := Failure(res.error);
          return;
        }
        ConvertStep(pairList, dataBase2TabletList.Keys - remaining, dataBase, res.value, dataBase2TabletList,
                    old(store.contents), old(store.live), c0, store.contents, live0, store.live, store.accepts);
        assert dataBase2TabletList.Keys - (remaining - {dataBase}) == (dataBase2TabletList.Keys - remaining) + {dataBase};
        pairList := pairList + res.value;
        remaining := remaining - {dataBase};
      }
      ConvertDone(pairList, dataBase2TabletList, old(store.contents), old(store.live), store.contents, store.live,
                  store.accepts);
      r := Success(pairList);
    }

    /** One iteration of the sealing loop. */
    method SealNext(sealedFiles: seq<(string, FileId)>, lists: seq<seq<Tablet>>, dataBase: string,
                    ghost before: map<FileId, seq<Chunk>>, ghost liveBefore: set<FileId>, ghost tabletList: seq<Tablet>)
      returns (ok: bool, f: FileId, rest: seq<seq<Tablet>>)
      requires Valid() && lists != [] && liveBefore <= before.Keys
      requires Progress(sealedFiles, lists, dataBase, before, liveBefore, store.contents, store.live, tabletList, store.accepts)
      modifies this, store
      ensures Valid() && dataBase2TabletList == old(dataBase2TabletList) && Keeps(before, store.contents)
      ensures ok ==> Progress(sealedFiles + [(dataBase, f)], rest, dataBase, before, liveBefore,
                              store.contents, store.live, tabletList, store.accepts)
      ensures ok ==> |Concat(rest)| < |Concat(lists)|
      ensures !ok ==> store.live == liveBefore && exists i | 0 <= i < |tabletList| :: !store.accepts(tabletList[i])
    {
      ghost var c0 := store.contents;
      ok, f, rest := SealOneFile(lists);
      if !ok {
        DeleteAfterFailure(sealedFiles, lists, dataBase, f, before, liveBefore, c0, tabletList);
        KeepsTransitive(before, c0, store.contents);
        return;
      }
      ProgressStep(sealedFiles, lists, dataBase, f, before, liveBefore, c0, store.contents, store.live,
                   tabletList, store.accepts);
    }

    /**
     * The failure path: the file being written joins the sealed ones and all
     * of them are deleted, which leaves the disk as it was before the call.
     */
    method DeleteAfterFailure(sealedFiles: seq<(string, FileId)>, lists: seq<seq<Tablet>>, dataBase: string, f: FileId,
                              ghost before: map<FileId, seq<Chunk>>, ghost liveBefore: set<FileId>,
                              ghost c0: map<FileId, seq<Chunk>>, ghost tabletList: seq<Tablet>)
      requires Valid() && liveBefore <= before.Keys && f !in c0 && f in store.live
      requires Progress(sealedFiles, lists, dataBase, before, liveBefore, c0, store.live - {f}, tabletList, store.accepts)
      requires !PassAccepted(lists, |lists|, store.accepts)
      modifies this, store
      ensures Valid() && dataBase2TabletList == old(dataBase2TabletList) && store.contents == old(store.contents)
      ensures store.live == liveBefore
      ensures exists i | 0 <= i < |tabletList| :: !store.accepts(tabletList[i])
    {
      ProgressFails(sealedFiles, lists, dataBase, f, before, liveBefore, c0, store.contents, store.live,
                    tabletList, store.accepts);
      DeleteSealed(sealedFiles + [(dataBase, f)]);
      fileWriter := None;
    }
  }

  /** Every buffered database sealed: new good files, each database's files holding exactly its tablets. */
  ghost predicate Converted(pairs: seq<(string, FileId)>, dbs: map<string, seq<Tablet>>,
                            before: map<FileId, seq<Chunk>>, liveBefore: set<FileId>,
                            contents: map<FileId, seq<Chunk>>, live: set<FileId>)
  {
    && (forall i | 0 <= i < |pairs| :: pairs[i].0 in dbs)
    && NewFiles(pairs, before, contents, live)
    && live == liveBefore + FileSet(pairs)
    && (forall id | id in Ids(pairs) :: id in contents)
    && (forall db | db in dbs ::
          (forall id | id in FilesOf(pairs, db) :: id in contents)
          && multiset(FilesFlat(contents, FilesOf(pairs, db))) == multiset(dbs[db]))
  }

  /** The invariant of the loop over databases: `done` are sealed, all their tablets accepted. */
  ghost predicate ConvertProgress(pairs: seq<(string, FileId)>, done: set<string>, dbs: map<string, seq<Tablet>>,
                                  before: map<FileId, seq<Chunk>>, liveBefore: set<FileId>,
                                  contents: map<FileId, seq<Chunk>>, live: set<FileId>, accepts: Tablet -> bool)
  {
    && done <= dbs.Keys
    && liveBefore <= before.Keys
    && ConvertedFiles(pairs, done, before, liveBefore, contents, live)
    && DatabasesHold(pairs, done, dbs, contents, accepts)
  }

  /** The files sealed so far: new, distinct, live, on disk, each of a sealed database. */
  ghost predicate ConvertedFiles(pairs: seq<(string, FileId)>, done: set<string>, before: map<FileId, seq<Chunk>>,
                                 liveBefore: set<FileId>, contents: map<FileId, seq<Chunk>>, live: set<FileId>)
  {
    && Keeps(before, contents)
    && (forall i | 0 <= i < |pairs| :: pairs[i].0 in done)
    && NewFiles(pairs, before, contents, live)
    && live == liveBefore + FileSet(pairs)
    && (forall id | id in Ids(pairs) :: id in contents)
  }

  /** Each database of `done`: its files hold exactly its tablets, all accepted by the writer. */
  ghost predicate DatabasesHold(pairs: seq<(string, FileId)>, done: set<string>, dbs: map<string, seq<Tablet>>,
                                contents: map<FileId, seq<Chunk>>, accepts: Tablet -> bool)
    requires done <= dbs.Keys
  {
    forall db | db in done ::
      (forall id | id in FilesOf(pairs, db) :: id in contents)
      && multiset(FilesFlat(contents, FilesOf(pairs, db))) == multiset(dbs[db])
      && AllAccepted(dbs[db], accepts)
  }

  lemma ConvertStart(dbs: map<string, seq<Tablet>>, contents: map<FileId, seq<Chunk>>, live: set<FileId>,
                     accepts: Tablet -> bool)
    requires live <= contents.Keys
    ensures ConvertProgress([], dbs.Keys - dbs.Keys, dbs, contents, live, contents, live, accepts)
  {
    assert Ids([]) == [];
  }

  lemma ConvertStep(pairs: seq<(string, FileId)>, done: set<string>, db: string, added: seq<(string, FileId)>,
                    dbs: map<string, seq<Tablet>>, before: map<FileId, seq<Chunk>>, liveBefore: set<FileId>,
                    c0: map<FileId, seq<Chunk>>, c1: map<FileId, seq<Chunk>>, live0: set<FileId>, live1: set<FileId>,
                    accepts: Tablet -> bool)
    requires ConvertProgress(pairs, done, dbs, before, liveBefore, c0, live0, accepts)
    requires db in dbs && db !in done && Keeps(c0, c1)
    requires SealedFor(added, db, c0, live0, c1, live1, dbs[db])
    requires forall i | 0 <= i < |dbs[db]| :: accepts(dbs[db][i])
    ensures ConvertProgress(pairs + added, done + {db}, dbs, before, liveBefore, c1, live1, accepts)
  {
    FilesStep(pairs, done, db, added, dbs, before, liveBefore, c0, c1, live0, live1, accepts);
    DatabasesStep(pairs, done, db, added, dbs, before, liveBefore, c0, c1, live0, live1, accepts);
  }

  /** The files after one more database: new, pairwise distinct, on disk, and owned by sealed databases. */
  lemma FilesStep(pairs: seq<(string, FileId)>, done: set<string>, db: string, added: seq<(string, FileId)>,
                  dbs: map<string, seq<Tablet>>, before: map<FileId, seq<Chunk>>, liveBefore: set<FileId>,
                  c0: map<FileId, seq<Chunk>>, c1: map<FileId, seq<Chunk>>, live0: set<FileId>, live1: set<FileId>,
                  accepts: Tablet -> bool)
    requires ConvertedFiles(pairs, done, before, liveBefore, c0, live0)
    requires db in dbs && db !in done && Keeps(c0, c1)
    requires SealedFor(added, db, c0, live0, c1, live1, dbs[db])
    ensures ConvertedFiles(pairs + added, done + {db}, before, liveBefore, c1, live1)
  {
    FileSetAppend(pairs, added);
    NewFilesAppend(pairs, added, before, c0, c1, live0, live1);
    PairsStep(pairs, added, done, db, c0, c1);
    KeepsTransitive(before, c0, c1);
  }

  /** The pairs after one more database stay within the sealed databases, their files on disk. */
  lemma PairsStep(pairs: seq<(string, FileId)>, added: seq<(string, FileId)>, done: set<string>, db: string,
                  c0: map<FileId, seq<Chunk>>, c1: map<FileId, seq<Chunk>>)
    requires forall i | 0 <= i < |pairs| :: pairs[i].0 in done
    requires forall i | 0 <= i < |added| :: added[i].0 == db
    requires forall id | id in Ids(pairs) :: id in c0
    requires forall id | id in Ids(added) :: id in c1
    requires Keeps(c0, c1)
    ensures forall i | 0 <= i < |pairs + added| :: (pairs + added)[i].0 in done + {db}
    ensures forall id | id in Ids(pairs + added) :: id in c1
  {
    IdsAppend(pairs, added);
    forall i | 0 <= i < |pairs + added| ensures (pairs + added)[i].0 in done + {db} {
      if i >= |pairs| {
        assert (pairs + added)[i] == added[i - |pairs|];
      }
    }
  }

  /** Every database sealed so far, the new one included, holds its tablets in its files. */
  lemma DatabasesStep(pairs: seq<(string, FileId)>, done: set<string>, db: string, added: seq<(string, FileId)>,
                      dbs: map<string, seq<Tablet>>, before: map<FileId, seq<Chunk>>, liveBefore: set<FileId>,
                      c0: map<FileId, seq<Chunk>>, c1: map<FileId, seq<Chunk>>, live0: set<FileId>, live1: set<FileId>,
                      accepts: Tablet -> bool)
    requires done <= dbs.Keys && DatabasesHold(pairs, done, dbs, c0, accepts)
    requires (forall i | 0 <= i < |pairs| :: pairs[i].0 in done)
    requires db in dbs && db !in done && Keeps(c0, c1)
    requires SealedFor(added, db, c0, live0, c1, live1, dbs[db])
    requires forall i | 0 <= i < |dbs[db]| :: accepts(dbs[db][i])
    ensures done + {db} <= dbs.Keys && DatabasesHold(pairs + added, done + {db}, dbs, c1, accepts)
  {
    forall d | d in done + {db}
      ensures (forall id | id in FilesOf(pairs + added, d) :: id in c1)
        && multiset(FilesFlat(c1, FilesOf(pairs + added, d))) == multiset(dbs[d])
        && AllAccepted(dbs[d], accepts)
    {
      if d == db {
        SealedDatabaseStep(pairs, added, db, c1, dbs[db]);
      } else {
        EarlierDatabaseStep(pairs, added, db, d, c0, c1, dbs[d]);
      }
    }
  }

  lemma NewFilesAppend(pairs: seq<(string, FileId)>, added: seq<(string, FileId)>, before: map<FileId, seq<Chunk>>,
                       c0: map<FileId, seq<Chunk>>, c1: map<FileId, seq<Chunk>>, live0: set<FileId>, live1: set<FileId>)
    requires NewFiles(pairs, before, c0, live0) && NewFiles(added, c0, c1, live1)
    requires Keeps(before, c0) && Keeps(c0, c1) && live0 <= live1
    ensures NewFiles(pairs + added, before, c1, live1)
  {
    var all := pairs + added;
    forall i | 0 <= i < |all| ensures all[i].1 !in before && all[i].1 in c1 && all[i].1 in live1 && GoodFile(c1[all[i].1]) {
      if i >= |pairs| {
        assert all[i] == added[i - |pairs|];
      }
    }
    forall i, j | 0 <= i < j < |all| ensures all[i].1 != all[j].1 {
      if i < |pairs| && j >= |pairs| {
        assert all[j] == added[j - |pairs|];
      } else if i >= |pairs| {
        assert all[i] == added[i - |pairs|] && all[j] == added[j - |pairs|];
      }
    }
  }

  /** A database sealed earlier: the new files are not its own, and its files are kept as they were. */
  lemma EarlierDatabaseStep(pairs: seq<(string, FileId)>, added: seq<(string, FileId)>, db: string, d: string,
                            c0: map<FileId, seq<Chunk>>, c1: map<FileId, seq<Chunk>>, tablets: seq<Tablet>)
    requires d != db && Keeps(c0, c1)
    requires forall i | 0 <= i < |added| :: added[i].0 == db
    requires forall id | id in FilesOf(pairs, d) :: id in c0
    requires multiset(FilesFlat(c0, FilesOf(pairs, d))) == multiset(tablets)
    ensures forall id | id in FilesOf(pairs + added, d) :: id in c1
    ensures multiset(FilesFlat(c1, FilesOf(pairs + added, d))) == multiset(tablets)
  {
    var ids := FilesOf(pairs, d);
    FilesOfAppend(pairs, added, d);
    FilesOfOneDb(added, db, d);
    assert FilesOf(pairs + added, d) == ids + [];
    assert ids + [] == ids;
    FilesFlatFrame(c0, c1, ids);
  }

  /** The database just sealed: its files are exactly the new ones. */
  lemma SealedDatabaseStep(pairs: seq<(string, FileId)>, added: seq<(string, FileId)>, db: string,
                           c1: map<FileId, seq<Chunk>>, tablets: seq<Tablet>)
    requires forall i | 0 <= i < |pairs| :: pairs[i].0 != db
    requires forall i | 0 <= i < |added| :: added[i].0 == db
    requires forall id | id in Ids(added) :: id in c1
    requires multiset(FilesFlat(c1, Ids(added))) == multiset(tablets)
    ensures forall id | id in FilesOf(pairs + added, db) :: id in c1
    ensures multiset(FilesFlat(c1, FilesOf(pairs + added, db))) == multiset(tablets)
  {
    FilesOfAppend(pairs, added, db);
    FilesOfOneDb(added, db, db);
    FilesOfNone(pairs, db);
    assert FilesOf(pairs + added, db) == [] + Ids(added);
    assert [] + Ids(added) == Ids(added);
  }

  lemma ConvertDone(pairs: seq<(string, FileId)>, dbs: map<string, seq<Tablet>>,
                    before: map<FileId, seq<Chunk>>, liveBefore: set<FileId>,
                    contents: map<FileId, seq<Chunk>>, live: set<FileId>, accepts: Tablet -> bool)
    requires ConvertProgress(pairs, dbs.Keys - {}, dbs, before, liveBefore, contents, live, accepts)
    ensures Converted(pairs, dbs, before, liveBefore, contents, live)
    ensures !exists db, i | db in dbs && 0 <= i < |dbs[db]| :: !accepts(dbs[db][i])
  {
    assert dbs.Keys - {} == dbs.Keys;
  }

  /**
   * A database's tablets, sealed: files of that database, new, on disk and
   * well laid out, which together hold exactly its tablets.
   */
  ghost predicate SealedFor(pairs: seq<(string, FileId)>, db: string,
                            before: map<FileId, seq<Chunk>>, liveBefore: set<FileId>,
                            contents: map<FileId, seq<Chunk>>, live: set<FileId>, tablets: seq<Tablet>)
  {
    && (forall i | 0 <= i < |pairs| :: pairs[i].0 == db)
    && NewFiles(pairs, before, contents, live)
    && live == liveBefore + FileSet(pairs)
    && (forall id | id in Ids(pairs) :: id in contents)
    && multiset(FilesFlat(contents, Ids(pairs))) == multiset(tablets)
  }

  /** The invariant of the sealing loop of one database. */
  ghost predicate Progress(sealed: seq<(string, FileId)>, lists: seq<seq<Tablet>>, db: string,
                           before: map<FileId, seq<Chunk>>, liveBefore: set<FileId>,
                           contents: map<FileId, seq<Chunk>>, live: set<FileId>,
                           tablets: seq<Tablet>, accepts: Tablet -> bool)
  {
    && ListsOk(lists)
    && Keeps(before, contents)
    && (forall i | 0 <= i < |sealed| :: sealed[i].0 == db)
    && NewFiles(sealed, before, contents, live)
    && live == liveBefore + FileSet(sealed)
    && (forall id | id in Ids(sealed) :: id in contents)
    && multiset(FilesFlat(contents, Ids(sealed))) + multiset(Concat(lists)) == multiset(tablets)
    && AllAccepted(FilesFlat(contents, Ids(sealed)), accepts)
  }

  lemma ProgressStart(lists: seq<seq<Tablet>>, db: string, contents: map<FileId, seq<Chunk>>, live: set<FileId>,
                      tablets: seq<Tablet>, accepts: Tablet -> bool)
    requires ListsOk(lists) && multiset(Concat(lists)) == multiset(tablets)
    ensures Progress([], lists, db, contents, live, contents, live, tablets, accepts)
  {
    assert Ids([]) == [];
  }

  lemma ProgressStep(sealed: seq<(string, FileId)>, lists: seq<seq<Tablet>>, db: string, f: FileId,
                     before: map<FileId, seq<Chunk>>, liveBefore: set<FileId>, c0: map<FileId, seq<Chunk>>,
                     c1: map<FileId, seq<Chunk>>, live: set<FileId>, tablets: seq<Tablet>, accepts: Tablet -> bool)
    requires Progress(sealed, lists, db, before, liveBefore, c0, live - {f}, tablets, accepts)
    requires lists != [] && f !in c0 && live == (live - {f}) + {f} && f in live
    requires c1 == c0[f := Written(lists)] && PassAccepted(lists, |lists|, accepts)
    ensures Progress(sealed + [(db, f)], Rest(lists), db, before, liveBefore, c1, live, tablets, accepts)
    ensures |Concat(Rest(lists))| < |Concat(lists)|
  {
    SealStep(c0, c1, sealed, db, f, lists, tablets, accepts);
    RestIsOk(lists);
    PassShrinks(lists);
    WrittenIsGood(lists);
    SealedFilesStep(sealed, db, f, before, liveBefore, c0, c1, live, Written(lists));
  }

  /** The file just sealed joins the new, distinct, live files of the database. */
  lemma SealedFilesStep(sealed: seq<(string, FileId)>, db: string, f: FileId,
                        before: map<FileId, seq<Chunk>>, liveBefore: set<FileId>, c0: map<FileId, seq<Chunk>>,
                        c1: map<FileId, seq<Chunk>>, live: set<FileId>, w: seq<Chunk>)
    requires Keeps(before, c0) && NewFiles(sealed, before, c0, live - {f})
    requires (forall i | 0 <= i < |sealed| :: sealed[i].0 == db) && live - {f} == liveBefore + FileSet(sealed)
    requires f !in c0 && f in live && GoodFile(w) && c1 == c0[f := w]
    ensures Keeps(before, c1)
    ensures forall i | 0 <= i < |sealed + [(db, f)]| :: (sealed + [(db, f)])[i].0 == db
    ensures NewFiles(sealed + [(db, f)], before, c1, live)
    ensures live == liveBefore + FileSet(sealed + [(db, f)])
  {
    assert forall i | 0 <= i < |sealed| :: sealed[i].1 in c0;
    SealedStillNew(sealed, db, f, before, c0, c1, live);
    KeepsAdd(before, c0, f, w);
    SameDatabase(sealed, db, f);
    assert live == (live - {f}) + {f};
  }

  /** Appending one more file of `db` keeps every pair's database `db`. */
  lemma SameDatabase(sealed: seq<(string, FileId)>, db: string, f: FileId)
    requires forall i | 0 <= i < |sealed| :: sealed[i].0 == db
    ensures forall i | 0 <= i < |sealed + [(db, f)]| :: (sealed + [(db, f)])[i].0 == db
  {
    forall i | 0 <= i < |sealed + [(db, f)]| ensures (sealed + [(db, f)])[i].0 == db {
      if i < |sealed| {
        assert (sealed + [(db, f)])[i] == sealed[i];
      }
    }
  }

  lemma ProgressFails(sealed: seq<(string, FileId)>, lists: seq<seq<Tablet>>, db: string, f: FileId,
                      before: map<FileId, seq<Chunk>>, liveBefore: set<FileId>, c0: map<FileId, seq<Chunk>>,
                      c1: map<FileId, seq<Chunk>>, live: set<FileId>, tablets: seq<Tablet>, accepts: Tablet -> bool)
    requires Progress(sealed, lists, db, before, liveBefore, c0, live - {f}, tablets, accepts)
    requires liveBefore <= before.Keys && f !in c0 && f in live && !PassAccepted(lists, |lists|, accepts)
    ensures exists i | 0 <= i < |tablets| :: !accepts(tablets[i])
    ensures live - FileSet(sealed + [(db, f)]) == liveBefore
  {
    RejectedIsBuffered(lists, multiset(FilesFlat(c0, Ids(sealed))), tablets, accepts);
    FileSetMeaning(sealed);
    assert (sealed + [(db, f)])[..|sealed|] == sealed;
    forall x | x in FileSet(sealed) ensures x !in liveBefore {
      var i :| 0 <= i < |sealed| && sealed[i].1 == x;
    }
    assert f !in liveBefore;
  }

  lemma ProgressDone(sealed: seq<(string, FileId)>, lists: seq<seq<Tablet>>, db: string,
                     before: map<FileId, seq<Chunk>>, liveBefore: set<FileId>,
                     contents: map<FileId, seq<Chunk>>, live: set<FileId>, tablets: seq<Tablet>, accepts: Tablet -> bool)
    requires Progress(sealed, lists, db, before, liveBefore, contents, live, tablets, accepts) && lists == []
    ensures forall i | 0 <= i < |tablets| :: accepts(tablets[i])
    ensures SealedFor(sealed, db, before, liveBefore, contents, live, tablets)
  {
    assert Concat(lists) == [];
    AllSealedAccepted(FilesFlat(contents, Ids(sealed)), tablets, accepts);
  }

  /** A file new to `c0` leaves every file of `before` as it was. */
  lemma KeepsAdd(before: map<FileId, seq<Chunk>>, c0: map<FileId, seq<Chunk>>, f: FileId, v: seq<Chunk>)
    requires Keeps(before, c0) && f !in c0
    ensures Keeps(before, c0[f := v])
  {
  }

  lemma SealedStillNew(pairs: seq<(string, FileId)>, db: string, f: FileId,
                       before: map<FileId, seq<Chunk>>, c0: map<FileId, seq<Chunk>>,
                       c1: map<FileId, seq<Chunk>>, live: set<FileId>)
    requires NewFiles(pairs, before, c0, live - {f}) && Keeps(before, c0)
    requires f !in c0 && f in c1 && c1 == c0[f := c1[f]] && f in live && GoodFile(c1[f])
    requires forall i | 0 <= i < |pairs| :: pairs[i].1 in c0
    ensures NewFiles(pairs + [(db, f)], before, c1, live)
    ensures FileSet(pairs + [(db, f)]) == FileSet(pairs) + {f}
  {
    assert (pairs + [(db, f)])[..|pairs|] == pairs;
  }
}