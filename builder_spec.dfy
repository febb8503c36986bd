/**
 * What one `writeTableModelTabletsToTsFiles` call computes, as functions: the
 * tablets of a database grouped into one device-ordered list per table, table
 * names ascending; each file taking, from every list in turn, the longest
 * prefix without device time overlap; and the tablets left for the next file.
 */
module BuilderSpec {
  import opened DeviceOrder
  import opened StringOrder

  type FileId = nat

  /** The tablets written into a file after one table's schema was registered there. */
  datatype Chunk = Chunk(table: string, tablets: seq<Tablet>)

  predicate SameTable(ts: seq<Tablet>, table: string)
  {
    forall i | 0 <= i < |ts| :: ts[i].tableName == table
  }

  function Concat(ls: seq<seq<Tablet>>): seq<Tablet>
  {
    if ls == [] then [] else Concat(ls[..|ls| - 1]) + ls[|ls| - 1]
  }

  function Flatten(cs: seq<Chunk>): seq<Tablet>
  {
    if cs == [] then [] else Flatten(cs[..|cs| - 1]) + cs[|cs| - 1].tablets
  }

  lemma {:induction false} FlattenAppend(a: seq<Chunk>, b: seq<Chunk>)
    ensures Flatten(a + b) == Flatten(a) + Flatten(b)
    decreases |b|
  {
    if b == [] {
      assert a + b == a;
    } else {
      assert (a + b)[..|a + b| - 1] == a + b[..|b| - 1];
      FlattenAppend(a, b[..|b| - 1]);
    }
  }

  lemma {:induction false} ConcatMember(ls: seq<seq<Tablet>>, k: nat, i: nat)
    requires k < |ls| && i < |ls[k]|
    ensures ls[k][i] in Concat(ls)
    decreases |ls|
  {
    if k < |ls| - 1 {
      assert ls[..|ls| - 1][k] == ls[k];
      ConcatMember(ls[..|ls| - 1], k, i);
    }
  }

  // ---------------------------------------------------------------------------
  // One file: a pass over the lists
  // ---------------------------------------------------------------------------

  /** Every list is non-empty and made of well-formed tablets. */
  ghost predicate Listed(lists: seq<seq<Tablet>>)
  {
    forall k | 0 <= k < |lists| :: lists[k] != [] && AllWellFormed(lists[k])
  }

  /** Besides `Listed`: each list holds one table's tablets, and the tables ascend. */
  ghost predicate ListsOk(lists: seq<seq<Tablet>>)
  {
    && Listed(lists)
    && (forall k | 0 <= k < |lists| :: SameTable(lists[k], lists[k][0].tableName))
    && (forall k, m | 0 <= k < m < |lists| :: Less(lists[k][0].tableName, lists[m][0].tableName))
  }

  /** What a file receives from `list`: its table and the tablets of the accepted prefix. */
  function ChunkOf(list: seq<Tablet>): Chunk
    requires list != [] && AllWellFormed(list)
  {
    Chunk(list[0].tableName, list[..PrefixLength(list)])
  }

  /** The chunks a file receives from the first `n` lists. */
  function WrittenUpTo(lists: seq<seq<Tablet>>, n: nat): (cs: seq<Chunk>)
    requires Listed(lists) && n <= |lists|
    ensures |cs| == n
  {
    if n == 0 then [] else WrittenUpTo(lists, n - 1) + [ChunkOf(lists[n - 1])]
  }

  /** The lists left after the first `n`: each list minus its prefix, dropping those left empty. */
  function RestUpTo(lists: seq<seq<Tablet>>, n: nat): seq<seq<Tablet>>
    requires Listed(lists) && n <= |lists|
  {
    if n == 0 then []
    else
      var list := lists[n - 1];
      var p := PrefixLength(list);
      RestUpTo(lists, n - 1) + if p == |list| then [] else [list[p..]]
  }

  function Written(lists: seq<seq<Tablet>>): seq<Chunk>
    requires Listed(lists)
  {
    WrittenUpTo(lists, |lists|)
  }

  function Rest(lists: seq<seq<Tablet>>): seq<seq<Tablet>>
    requires Listed(lists)
  {
    RestUpTo(lists, |lists|)
  }

  /** The writer accepts every tablet the first `n` lists give this file. */
  ghost predicate PassAccepted(lists: seq<seq<Tablet>>, n: nat, accepts: Tablet -> bool)
    requires Listed(lists) && n <= |lists|
  {
    forall k, i | 0 <= k < n && 0 <= i < PrefixLength(lists[k]) :: accepts(lists[k][i])
  }

  predicate AllAccepted(ts: seq<Tablet>, accepts: Tablet -> bool)
  {
    forall i | 0 <= i < |ts| :: accepts(ts[i])
  }

  /** A file's layout: tables in ascending order, so each schema is registered once, and per table time-ordered tablets. */
  ghost predicate GoodFile(cs: seq<Chunk>)
  {
    && (forall k | 0 <= k < |cs| ::
          cs[k].tablets != [] && AllWellFormed(cs[k].tablets) && TimeOrdered(cs[k].tablets)
          && SameTable(cs[k].tablets, cs[k].table))
    && (forall k, m | 0 <= k < m < |cs| :: Less(cs[k].table, cs[m].table))
  }

  lemma {:induction false} WrittenAt(lists: seq<seq<Tablet>>, n: nat, k: nat)
    requires Listed(lists) && k < n <= |lists|
    ensures WrittenUpTo(lists, n)[k] == ChunkOf(lists[k])
  {
    if k < n - 1 {
      WrittenAt(lists, n - 1, k);
    }
  }

  lemma WrittenStep(lists: seq<seq<Tablet>>, n: nat)
    requires Listed(lists) && 0 < n <= |lists|
    ensures Flatten(WrittenUpTo(lists, n)) == Flatten(WrittenUpTo(lists, n - 1)) + ChunkOf(lists[n - 1]).tablets
  {
    var w := WrittenUpTo(lists, n - 1);
    assert (w + [ChunkOf(lists[n - 1])])[..n - 1] == w;
  }

  lemma RestStep(lists: seq<seq<Tablet>>, n: nat)
    requires Listed(lists) && 0 < n <= |lists|
    ensures var list := lists[n - 1];
      Concat(RestUpTo(lists, n)) == Concat(RestUpTo(lists, n - 1)) + list[PrefixLength(list)..]
  {
    var list := lists[n - 1];
    var p := PrefixLength(list);
    var r := RestUpTo(lists, n - 1);
    if p == |list| {
      assert r + [] == r;
      assert list[p..] == [];
    } else {
      assert (r + [list[p..]])[..|r|] == r;
    }
  }

  /** Nothing is lost or duplicated by a pass: written plus left equals what the lists held. */
  lemma {:induction false} PassKeepsTablets(lists: seq<seq<Tablet>>, n: nat)
    requires Listed(lists) && n <= |lists|
    ensures multiset(Flatten(WrittenUpTo(lists, n))) + multiset(Concat(RestUpTo(lists, n)))
      == multiset(Concat(lists[..n]))
  {
    if n > 0 {
      PassKeepsTablets(lists, n - 1);
      var list := lists[n - 1];
      var p := PrefixLength(list);
      WrittenStep(lists, n);
      RestStep(lists, n);
      assert lists[..n][..n - 1] == lists[..n - 1];
      KeepsStep(Flatten(WrittenUpTo(lists, n - 1)), Concat(RestUpTo(lists, n - 1)), Concat(lists[..n - 1]), list, p);
    }
  }

  /** Splitting one more list at `p` between the file and what is left keeps the count of every tablet. */
  lemma KeepsStep(w: seq<Tablet>, r: seq<Tablet>, c: seq<Tablet>, list: seq<Tablet>, p: nat)
    requires p <= |list| && multiset(w) + multiset(r) == multiset(c)
    ensures multiset(w + list[..p]) + multiset(r + list[p..]) == multiset(c + list)
  {
    assert list == list[..p] + list[p..];
  }

  /** Every list gives the file at least one tablet. */
  lemma {:induction false} PassWritesEach(lists: seq<seq<Tablet>>, n: nat)
    requires Listed(lists) && n <= |lists|
    ensures |Flatten(WrittenUpTo(lists, n))| >= n
  {
    if n > 0 {
      PassWritesEach(lists, n - 1);
      WrittenStep(lists, n);
      var list := lists[n - 1];
      assert list != [] && AllWellFormed(list);
      assert |ChunkOf(list).tablets| == PrefixLength(list) >= 1;
    }
  }

  /** Each list gives at least one tablet, so the lists shrink with every file. */
  lemma PassShrinks(lists: seq<seq<Tablet>>)
    requires Listed(lists) && lists != []
    ensures |Concat(Rest(lists))| < |Concat(lists)|
  {
    PassKeepsTablets(lists, |lists|);
    PassWritesEach(lists, |lists|);
    assert lists[..|lists|] == lists;
    var w := Flatten(Written(lists));
    var r := Concat(Rest(lists));
    assert |multiset(w) + multiset(r)| == |multiset(Concat(lists))|;
  }

  /** Everything a pass writes was accepted by the writer. */
  lemma {:induction false} PassAcceptedFlat(lists: seq<seq<Tablet>>, n: nat, accepts: Tablet -> bool)
    requires Listed(lists) && n <= |lists| && PassAccepted(lists, n, accepts)
    ensures AllAccepted(Flatten(WrittenUpTo(lists, n)), accepts)
  {
    if n > 0 {
      PassAcceptedLast(lists, n, accepts);
      PassAcceptedFlat(lists, n - 1, accepts);
      WrittenStep(lists, n);
      AcceptedAppend(Flatten(WrittenUpTo(lists, n - 1)), ChunkOf(lists[n - 1]).tablets, accepts);
    }
  }

  /** Peeling the last list off the accepted pass: the rest is accepted, and so is its prefix. */
  lemma PassAcceptedLast(lists: seq<seq<Tablet>>, n: nat, accepts: Tablet -> bool)
    requires Listed(lists) && 0 < n <= |lists| && PassAccepted(lists, n, accepts)
    ensures PassAccepted(lists, n - 1, accepts)
    ensures AllAccepted(ChunkOf(lists[n - 1]).tablets, accepts)
  {
    var prefix := ChunkOf(lists[n - 1]).tablets;
    forall i | 0 <= i < |prefix| ensures accepts(prefix[i]) {
      assert prefix[i] == lists[n - 1][i];
    }
  }

  /** One more list written into the file: its prefix, all accepted. */
  lemma PassStep(lists: seq<seq<Tablet>>, k: nat, accepts: Tablet -> bool)
    requires Listed(lists) && k < |lists| && PassAccepted(lists, k, accepts)
    requires AllAccepted(lists[k][..PrefixLength(lists[k])], accepts)
    ensures PassAccepted(lists, k + 1, accepts)
    ensures WrittenUpTo(lists, k + 1) == WrittenUpTo(lists, k) + [Chunk(lists[k][0].tableName, lists[k][..PrefixLength(lists[k])])]
  {
    var prefix := lists[k][..PrefixLength(lists[k])];
    forall m, i | 0 <= m < k + 1 && 0 <= i < PrefixLength(lists[m]) ensures accepts(lists[m][i]) {
      if m == k {
        assert prefix[i] == lists[k][i];
      }
    }
  }

  /** The state of a pass after the first `k` lists: what is left, what the file holds, all accepted. */
  ghost predicate PassedUpTo(lists: seq<seq<Tablet>>, k: nat, rest: seq<seq<Tablet>>, written: seq<Chunk>, accepts: Tablet -> bool)
    requires Listed(lists)
  {
    && k <= |lists|
    && rest == RestUpTo(lists, k)
    && written == WrittenUpTo(lists, k)
    && PassAccepted(lists, k, accepts)
  }

  /** One more list whose prefix the writer accepts moves the pass on by one list. */
  lemma PassNext(lists: seq<seq<Tablet>>, k: nat, rest: seq<seq<Tablet>>, written: seq<Chunk>, accepts: Tablet -> bool)
    requires Listed(lists) && k < |lists| && PassedUpTo(lists, k, rest, written, accepts)
    requires AllAccepted(lists[k][..PrefixLength(lists[k])], accepts)
    ensures var list := lists[k]; var p := PrefixLength(list);
      PassedUpTo(lists, k + 1, rest + (if p == |list| then [] else [list[p..]]),
        written + [Chunk(list[0].tableName, list[..p])], accepts)
  {
    PassStep(lists, k, accepts);
  }

  /** A list whose prefix the writer refuses makes the whole pass refused. */
  lemma PassRejected(lists: seq<seq<Tablet>>, k: nat, accepts: Tablet -> bool)
    requires Listed(lists) && k < |lists|
    requires !AllAccepted(lists[k][..PrefixLength(lists[k])], accepts)
    ensures !PassAccepted(lists, |lists|, accepts)
  {
    var prefix := lists[k][..PrefixLength(lists[k])];
    var i :| 0 <= i < |prefix| && !accepts(prefix[i]);
    assert prefix[i] == lists[k][i];
  }

  /** The file a pass writes has a good layout. */
  lemma WrittenIsGood(lists: seq<seq<Tablet>>)
    requires ListsOk(lists)
    ensures GoodFile(Written(lists))
  {
    var cs := Written(lists);
    forall k | 0 <= k < |cs|
      ensures cs[k].tablets != [] && AllWellFormed(cs[k].tablets) && TimeOrdered(cs[k].tablets)
        && SameTable(cs[k].tablets, cs[k].table)
    {
      WrittenAt(lists, |lists|, k);
      PrefixIsTimeOrdered(lists[k]);
      assert cs[k].tablets[0] == lists[k][0];
    }
    forall k, m | 0 <= k < m < |cs| ensures Less(cs[k].table, cs[m].table) {
      WrittenAt(lists, |lists|, k);
      WrittenAt(lists, |lists|, m);
    }
  }

  lemma {:induction false} RestFacts(lists: seq<seq<Tablet>>, n: nat)
    requires ListsOk(lists) && n <= |lists|
    ensures ListsOk(RestUpTo(lists, n))
    ensures forall l: seq<Tablet>, m | l in RestUpTo(lists, n) && n <= m < |lists| :: Less(l[0].tableName, lists[m][0].tableName)
  {
    if n > 0 {
      RestFacts(lists, n - 1);
      var list := lists[n - 1];
      var p := PrefixLength(list);
      var r := RestUpTo(lists, n - 1);
      if p < |list| {
        SuffixOk(list, p);
        AppendOk(r, list[p..]);
        var r2: seq<seq<Tablet>> := r + [list[p..]];
        forall l: seq<Tablet>, m | l in r2 && n <= m < |lists| ensures Less(l[0].tableName, lists[m][0].tableName) {
          if l == list[p..] {
            assert Less(lists[n - 1][0].tableName, lists[m][0].tableName);
          }
        }
      } else {
        assert r + [] == r;
      }
    }
  }

  /** What is left of a list of one table after its first `p` tablets is again such a list. */
  lemma SuffixOk(list: seq<Tablet>, p: nat)
    requires list != [] && AllWellFormed(list) && SameTable(list, list[0].tableName) && p < |list|
    ensures list[p..] != [] && AllWellFormed(list[p..]) && list[p..][0].tableName == list[0].tableName
    ensures SameTable(list[p..], list[0].tableName)
  {
    var x := list[p..];
    forall i | 0 <= i < |x| ensures WellFormed(x[i]) && x[i].tableName == list[0].tableName {
      assert x[i] == list[p + i];
    }
  }

  /** A list of a table after every table of `r` extends `r` keeping the tables ascending. */
  lemma AppendOk(r: seq<seq<Tablet>>, x: seq<Tablet>)
    requires ListsOk(r) && x != [] && AllWellFormed(x) && SameTable(x, x[0].tableName)
    requires forall l: seq<Tablet> | l in r :: Less(l[0].tableName, x[0].tableName)
    ensures ListsOk(r + [x])
  {
    var r2: seq<seq<Tablet>> := r + [x];
    forall k | 0 <= k < |r2| ensures r2[k] != [] && AllWellFormed(r2[k]) && SameTable(r2[k], r2[k][0].tableName) {
      if k < |r| {
        assert r2[k] == r[k];
      }
    }
    forall k, m | 0 <= k < m < |r2| ensures Less(r2[k][0].tableName, r2[m][0].tableName) {
      assert r2[k] == r[k] && r[k] in r;
      if m < |r| {
        assert r2[m] == r[m];
      }
    }
  }

  lemma RestIsOk(lists: seq<seq<Tablet>>)
    requires ListsOk(lists)
    ensures ListsOk(Rest(lists))
  {
    RestFacts(lists, |lists|);
  }

  // ---------------------------------------------------------------------------
  // Grouping a database's tablets into per-table lists
  // ---------------------------------------------------------------------------

  /** `list` with `t` inserted where `writerPairToList` inserts it. */
  function InsertByDevice(list: seq<Tablet>, t: Tablet): seq<Tablet>
    requires AllWellFormed(list) && WellFormed(t)
  {
    var p := InsertionPoint(list, t, 1);
    list[..p] + [t] + list[p..]
  }

  lemma InsertKeepsTable(list: seq<Tablet>, t: Tablet, name: string)
    requires AllWellFormed(list) && WellFormed(t) && SameTable(list, name) && t.tableName == name
    ensures AllWellFormed(InsertByDevice(list, t)) && SameTable(InsertByDevice(list, t), name)
    ensures multiset(InsertByDevice(list, t)) == multiset(list) + multiset{t}
  {
    Inserted(list, t, InsertionPoint(list, t, 1));
  }

  /** The list built for table `name` from the first `n` tablets: each of its tablets inserted in turn. */
  function Group(ts: seq<Tablet>, n: nat, name: string): (r: seq<Tablet>)
    requires AllWellFormed(ts) && n <= |ts|
    ensures AllWellFormed(r) && SameTable(r, name)
  {
    if n == 0 then []
    else if ts[n - 1].tableName == name then
      var g := Group(ts, n - 1, name);
      InsertKeepsTable(g, ts[n - 1], name);
      InsertByDevice(g, ts[n - 1])
    else
      Group(ts, n - 1, name)
  }

  /** The list for a table holds exactly that table's tablets. */
  lemma {:induction false} GroupHoldsTable(ts: seq<Tablet>, n: nat, name: string)
    requires AllWellFormed(ts) && n <= |ts|
    ensures multiset(Group(ts, n, name)) == multiset(InSet(ts, n, {name}))
  {
    if n > 0 {
      GroupHoldsTable(ts, n - 1, name);
      if ts[n - 1].tableName == name {
        InsertKeepsTable(Group(ts, n - 1, name), ts[n - 1], name);
      }
    }
  }

  /** The first `n` tablets whose table is in `names`, in order. */
  function InSet(ts: seq<Tablet>, n: nat, names: set<string>): seq<Tablet>
    requires n <= |ts|
  {
    if n == 0 then [] else InSet(ts, n - 1, names) + if ts[n - 1].tableName in names then [ts[n - 1]] else []
  }

  lemma {:induction false} InSetNone(ts: seq<Tablet>, n: nat)
    requires n <= |ts|
    ensures InSet(ts, n, {}) == []
  {
    if n > 0 {
      InSetNone(ts, n - 1);
    }
  }

  lemma {:induction false} InSetUnion(ts: seq<Tablet>, n: nat, names: set<string>, name: string)
    requires n <= |ts| && name !in names
    ensures multiset(InSet(ts, n, names + {name})) == multiset(InSet(ts, n, names)) + multiset(InSet(ts, n, {name}))
  {
    if n > 0 {
      InSetUnion(ts, n - 1, names, name);
    }
  }

  lemma {:induction false} InSetAll(ts: seq<Tablet>, n: nat, names: set<string>)
    requires n <= |ts| && forall i | 0 <= i < n :: ts[i].tableName in names
    ensures InSet(ts, n, names) == ts[..n]
  {
    if n > 0 {
      InSetAll(ts, n - 1, names);
      assert ts[..n] == ts[..n - 1] + [ts[n - 1]];
    }
  }

  lemma GroupNonEmpty(ts: seq<Tablet>, n: nat, name: string, i: nat)
    requires AllWellFormed(ts) && i < n <= |ts| && ts[i].tableName == name
    ensures Group(ts, n, name) != []
  {
    GroupHoldsTable(ts, n, name);
    InSetHas(ts, n, {name}, i);
    assert ts[i] in multiset(InSet(ts, n, {name}));
  }

  lemma {:induction false} InSetHas(ts: seq<Tablet>, n: nat, names: set<string>, i: nat)
    requires i < n <= |ts| && ts[i].tableName in names
    ensures ts[i] in InSet(ts, n, names)
  {
    if i < n - 1 {
      InSetHas(ts, n - 1, names, i);
    }
  }

  /** The table names of the first `n` tablets in ascending order, each once. */
  function TableNamesUpTo(ts: seq<Tablet>, n: nat): (r: seq<string>)
    requires n <= |ts|
    ensures Ascending(r)
    ensures forall y :: y in r <==> exists i | 0 <= i < n :: ts[i].tableName == y
  {
    if n == 0 then [] else InsertSorted(TableNamesUpTo(ts, n - 1), ts[n - 1].tableName)
  }

  function TableNames(ts: seq<Tablet>): seq<string>
  {
    TableNamesUpTo(ts, |ts|)
  }

  /** The first `k` names, as a set. */
  function NamesUpTo(names: seq<string>, k: nat): set<string>
    requires k <= |names|
  {
    if k == 0 then {} else NamesUpTo(names, k - 1) + {names[k - 1]}
  }

  lemma {:induction false} NamesUpToHas(names: seq<string>, k: nat)
    requires k <= |names|
    ensures forall m | 0 <= m < k :: names[m] in NamesUpTo(names, k)
  {
    if k > 0 {
      NamesUpToHas(names, k - 1);
    }
  }

  ghost predicate DistinctNames(names: seq<string>)
  {
    forall i, j | 0 <= i < j < |names| :: names[i] != names[j]
  }

  lemma AscendingDistinct(names: seq<string>)
    requires Ascending(names)
    ensures DistinctNames(names)
  {
    forall i, j | 0 <= i < j < |names| ensures names[i] != names[j] {
      assert Less(names[i], names[j]);
      LessIrreflexive(names[i]);
    }
  }

  /** A name after the first `k` of distinct names is none of them. */
  lemma {:induction false} NamesUnseen(names: seq<string>, k: nat)
    requires DistinctNames(names) && k <= |names|
    ensures forall m | k <= m < |names| :: names[m] !in NamesUpTo(names, k)
  {
    if k > 0 {
      NamesUnseen(names, k - 1);
    }
  }

  /** The lists of the first `k` tables hold exactly those tables' tablets. */
  lemma {:induction false} GroupsUpTo(tablets: seq<Tablet>, names: seq<string>, lists: seq<seq<Tablet>>, k: nat)
    requires AllWellFormed(tablets) && DistinctNames(names) && |lists| == |names| && k <= |names|
    requires forall m | 0 <= m < |lists| :: lists[m] == Group(tablets, |tablets|, names[m])
    ensures multiset(Concat(lists[..k])) == multiset(InSet(tablets, |tablets|, NamesUpTo(names, k)))
  {
    if k == 0 {
      InSetNone(tablets, |tablets|);
      assert lists[..0] == [];
    } else {
      GroupsUpTo(tablets, names, lists, k - 1);
      NamesUnseen(names, k - 1);
      GroupsStep(tablets, lists, k, NamesUpTo(names, k - 1), names[k - 1]);
    }
  }

  lemma GroupsStep(tablets: seq<Tablet>, lists: seq<seq<Tablet>>, k: nat, seen: set<string>, name: string)
    requires AllWellFormed(tablets) && 0 < k <= |lists| && name !in seen
    requires lists[k - 1] == Group(tablets, |tablets|, name)
    requires multiset(Concat(lists[..k - 1])) == multiset(InSet(tablets, |tablets|, seen))
    ensures multiset(Concat(lists[..k])) == multiset(InSet(tablets, |tablets|, seen + {name}))
  {
    ConcatPrefix(lists, k);
    InSetUnion(tablets, |tablets|, seen, name);
    GroupHoldsTable(tablets, |tablets|, name);
  }

  lemma ConcatPrefix(ls: seq<seq<Tablet>>, k: nat)
    requires 0 < k <= |ls|
    ensures multiset(Concat(ls[..k])) == multiset(Concat(ls[..k - 1])) + multiset(ls[k - 1])
  {
    assert ls[..k][..k - 1] == ls[..k - 1];
  }

  /** One list per table name, in order: together they hold every tablet exactly once. */
  lemma GroupsHoldAll(tablets: seq<Tablet>, names: seq<string>, lists: seq<seq<Tablet>>)
    requires AllWellFormed(tablets) && names == TableNames(tablets) && |lists| == |names|
    requires forall m | 0 <= m < |lists| :: lists[m] == Group(tablets, |tablets|, names[m])
    ensures multiset(Concat(lists)) == multiset(tablets)
  {
    var all := NamesUpTo(names, |names|);
    AscendingDistinct(names);
    GroupsUpTo(tablets, names, lists, |names|);
    NamesUpToHas(names, |names|);
    forall i | 0 <= i < |tablets| ensures tablets[i].tableName in all {
      assert tablets[i].tableName in names;
    }
    InSetAll(tablets, |tablets|, all);
    assert tablets[..|tablets|] == tablets;
    assert lists[..|names|] == lists;
  }

  // ---------------------------------------------------------------------------
  // Sealed files
  // ---------------------------------------------------------------------------

  /** The files of `pairs`, in order. */
  function Ids(pairs: seq<(string, FileId)>): seq<FileId>
  {
    if pairs == [] then [] else Ids(pairs[..|pairs| - 1]) + [pairs[|pairs| - 1].1]
  }

  /** The files of `pairs` that belong to database `db`, in order. */
  function FilesOf(pairs: seq<(string, FileId)>, db: string): seq<FileId>
  {
    if pairs == [] then []
    else FilesOf(pairs[..|pairs| - 1], db) + if pairs[|pairs| - 1].0 == db then [pairs[|pairs| - 1].1] else []
  }

  /** All tablets in the files `ids`, file after file. */
  function FilesFlat(contents: map<FileId, seq<Chunk>>, ids: seq<FileId>): seq<Tablet>
    requires forall id | id in ids :: id in contents
  {
    if ids == [] then [] else FilesFlat(contents, ids[..|ids| - 1]) + Flatten(contents[ids[|ids| - 1]])
  }

  lemma {:induction false} IdsAppend(a: seq<(string, FileId)>, b: seq<(string, FileId)>)
    ensures Ids(a + b) == Ids(a) + Ids(b)
    ensures |Ids(a)| == |a| && forall i | 0 <= i < |a| :: Ids(a)[i] == a[i].1
    decreases |b|, |a|
  {
    if b == [] {
      assert a + b == a;
      if a != [] {
        IdsAppend(a[..|a| - 1], []);
      }
    } else {
      assert (a + b)[..|a + b| - 1] == a + b[..|b| - 1];
      IdsAppend(a, b[..|b| - 1]);
    }
  }

  lemma {:induction false} FilesOfAppend(a: seq<(string, FileId)>, b: seq<(string, FileId)>, db: string)
    ensures FilesOf(a + b, db) == FilesOf(a, db) + FilesOf(b, db)
    decreases |b|
  {
    if b == [] {
      assert a + b == a;
    } else {
      assert (a + b)[..|a + b| - 1] == a + b[..|b| - 1];
      FilesOfAppend(a, b[..|b| - 1], db);
    }
  }

  lemma {:induction false} FilesOfOneDb(pairs: seq<(string, FileId)>, db: string, other: string)
    requires forall i | 0 <= i < |pairs| :: pairs[i].0 == db
    ensures FilesOf(pairs, db) == Ids(pairs)
    ensures other != db ==> FilesOf(pairs, other) == []
  {
    if pairs != [] {
      FilesOfOneDb(pairs[..|pairs| - 1], db, other);
    }
  }

  lemma {:induction false} FilesFlatAppend(contents: map<FileId, seq<Chunk>>, a: seq<FileId>, b: seq<FileId>)
    requires forall id | id in a + b :: id in contents
    ensures FilesFlat(contents, a + b) == FilesFlat(contents, a) + FilesFlat(contents, b)
    decreases |b|
  {
    if b == [] {
      assert a + b == a;
    } else {
      assert (a + b)[..|a + b| - 1] == a + b[..|b| - 1];
      FilesFlatAppend(contents, a, b[..|b| - 1]);
    }
  }

  lemma {:induction false} FilesFlatFrame(c1: map<FileId, seq<Chunk>>, c2: map<FileId, seq<Chunk>>, ids: seq<FileId>)
    requires forall id | id in ids :: id in c1 && id in c2 && c1[id] == c2[id]
    ensures FilesFlat(c1, ids) == FilesFlat(c2, ids)
  {
    if ids != [] {
      FilesFlatFrame(c1, c2, ids[..|ids| - 1]);
    }
  }

  /** The set of files of `pairs`. */
  function FileSet(pairs: seq<(string, FileId)>): set<FileId>
  {
    if pairs == [] then {} else FileSet(pairs[..|pairs| - 1]) + {pairs[|pairs| - 1].1}
  }

  lemma {:induction false} FileSetMeaning(pairs: seq<(string, FileId)>)
    ensures forall x :: x in FileSet(pairs) <==> exists i | 0 <= i < |pairs| :: pairs[i].1 == x
    ensures forall x :: x in FileSet(pairs) <==> x in Ids(pairs)
  {
    if pairs != [] {
      var init := pairs[..|pairs| - 1];
      FileSetMeaning(init);
      IdsAppend(init, [pairs[|pairs| - 1]]);
      IdsAppend(pairs, []);
      forall x | x in FileSet(pairs) ensures exists i | 0 <= i < |pairs| :: pairs[i].1 == x {
        if x in FileSet(init) {
          var i :| 0 <= i < |init| && init[i].1 == x;
          assert pairs[i].1 == x;
        }
      }
      forall x | exists i | 0 <= i < |pairs| :: pairs[i].1 == x ensures x in FileSet(pairs) {
        var i :| 0 <= i < |pairs| && pairs[i].1 == x;
        if i < |init| {
          assert init[i].1 == x;
        }
      }
    }
  }

  lemma FileSetAppend(a: seq<(string, FileId)>, b: seq<(string, FileId)>)
    ensures FileSet(a + b) == FileSet(a) + FileSet(b)
  {
    FileSetMeaning(a);
    FileSetMeaning(b);
    FileSetMeaning(a + b);
    forall x | x in FileSet(a + b) ensures x in FileSet(a) || x in FileSet(b) {
      var i :| 0 <= i < |a + b| && (a + b)[i].1 == x;
      if i < |a| {
        assert a[i].1 == x;
      } else {
        assert b[i - |a|].1 == x;
      }
    }
    forall x | x in FileSet(a) || x in FileSet(b) ensures x in FileSet(a + b) {
      if x in FileSet(a) {
        var i :| 0 <= i < |a| && a[i].1 == x;
        assert (a + b)[i].1 == x;
      } else {
        var i :| 0 <= i < |b| && b[i].1 == x;
        assert (a + b)[|a| + i].1 == x;
      }
    }
  }

  /** Files created after `before`, pairwise distinct, on disk, each with a good layout. */
  ghost predicate NewFiles(pairs: seq<(string, FileId)>, before: map<FileId, seq<Chunk>>,
                           contents: map<FileId, seq<Chunk>>, live: set<FileId>)
  {
    && (forall i | 0 <= i < |pairs| ::
          pairs[i].1 !in before && pairs[i].1 in contents && pairs[i].1 in live && GoodFile(contents[pairs[i].1]))
    && (forall i, j | 0 <= i < j < |pairs| :: pairs[i].1 != pairs[j].1)
  }

  /** `after` keeps every file of `before` as it was. */
  ghost predicate Keeps(before: map<FileId, seq<Chunk>>, after: map<FileId, seq<Chunk>>)
  {
    forall g | g in before :: g in after && after[g] == before[g]
  }

  lemma KeepsTransitive(a: map<FileId, seq<Chunk>>, b: map<FileId, seq<Chunk>>, c: map<FileId, seq<Chunk>>)
    requires Keeps(a, b) && Keeps(b, c)
    ensures Keeps(a, c)
  {
  }

  /**
   * One more file sealed for a database: what the files hold plus what the
   * lists still hold stays the database's tablets, and all of it was accepted.
   */
  lemma SealStep(c0: map<FileId, seq<Chunk>>, c1: map<FileId, seq<Chunk>>, pairs: seq<(string, FileId)>,
                 db: string, f: FileId, lists: seq<seq<Tablet>>, tablets: seq<Tablet>, accepts: Tablet -> bool)
    requires Listed(lists) && f !in c0 && c1 == c0[f := Written(lists)]
    requires forall id | id in Ids(pairs) :: id in c0
    requires multiset(FilesFlat(c0, Ids(pairs))) + multiset(Concat(lists)) == multiset(tablets)
    requires AllAccepted(FilesFlat(c0, Ids(pairs)), accepts) && PassAccepted(lists, |lists|, accepts)
    ensures forall id | id in Ids(pairs + [(db, f)]) :: id in c1
    ensures multiset(FilesFlat(c1, Ids(pairs + [(db, f)]))) + multiset(Concat(Rest(lists))) == multiset(tablets)
    ensures AllAccepted(FilesFlat(c1, Ids(pairs + [(db, f)])), accepts)
  {
    var old_ := FilesFlat(c0, Ids(pairs));
    var w := Flatten(Written(lists));
    SealedFlat(c0, c1, pairs, db, f, Written(lists));
    PassKeepsTablets(lists, |lists|);
    assert lists[..|lists|] == lists;
    PassAcceptedFlat(lists, |lists|, accepts);
    AcceptedAppend(old_, w, accepts);
  }

  lemma SealedFlat(c0: map<FileId, seq<Chunk>>, c1: map<FileId, seq<Chunk>>, pairs: seq<(string, FileId)>,
                   db: string, f: FileId, cs: seq<Chunk>)
    requires f !in c0 && c1 == c0[f := cs]
    requires forall id | id in Ids(pairs) :: id in c0
    ensures forall id | id in Ids(pairs + [(db, f)]) :: id in c1
    ensures FilesFlat(c1, Ids(pairs + [(db, f)])) == FilesFlat(c0, Ids(pairs)) + Flatten(cs)
  {
    var ids := Ids(pairs);
    IdsAppend(pairs, [(db, f)]);
    assert Ids(pairs + [(db, f)]) == ids + [f];
    FilesFlatFrame(c0, c1, ids);
    assert (ids + [f])[..|ids|] == ids;
  }

  lemma AcceptedAppend(a: seq<Tablet>, b: seq<Tablet>, accepts: Tablet -> bool)
    requires AllAccepted(a, accepts) && AllAccepted(b, accepts)
    ensures AllAccepted(a + b, accepts)
  {
    forall i | 0 <= i < |a + b| ensures accepts((a + b)[i]) {
      if i >= |a| {
        assert (a + b)[i] == b[i - |a|];
      }
    }
  }

  /** A pass that some tablet failed: that tablet is one of the database's. */
  lemma RejectedIsBuffered(lists: seq<seq<Tablet>>, rest: multiset<Tablet>, tablets: seq<Tablet>, accepts: Tablet -> bool)
    requires Listed(lists) && !PassAccepted(lists, |lists|, accepts)
    requires rest + multiset(Concat(lists)) == multiset(tablets)
    ensures exists i | 0 <= i < |tablets| :: !accepts(tablets[i])
  {
    var k, i :| 0 <= k < |lists| && 0 <= i < PrefixLength(lists[k]) && !accepts(lists[k][i]);
    ConcatMember(lists, k, i);
    assert lists[k][i] in multiset(tablets);
    var j :| 0 <= j < |tablets| && tablets[j] == lists[k][i];
  }

  /** Once the lists are used up, every tablet of the database was accepted. */
  lemma AllSealedAccepted(written: seq<Tablet>, tablets: seq<Tablet>, accepts: Tablet -> bool)
    requires multiset(written) == multiset(tablets) && AllAccepted(written, accepts)
    ensures forall i | 0 <= i < |tablets| :: accepts(tablets[i])
  {
    forall i | 0 <= i < |tablets| ensures accepts(tablets[i]) {
      assert tablets[i] in multiset(written);
      var j :| 0 <= j < |written| && written[j] == tablets[i];
    }
  }

  lemma {:induction false} FilesOfNone(pairs: seq<(string, FileId)>, db: string)
    requires forall i | 0 <= i < |pairs| :: pairs[i].0 != db
    ensures FilesOf(pairs, db) == []
  {
    if pairs != [] {
      FilesOfNone(pairs[..|pairs| - 1], db);
    }
  }

  lemma {:induction false} FilesOfSub(pairs: seq<(string, FileId)>, db: string)
    ensures forall x | x in FilesOf(pairs, db) :: x in Ids(pairs)
  {
    if pairs != [] {
      var init := pairs[..|pairs| - 1];
      FilesOfSub(init, db);
      IdsAppend(init, [pairs[|pairs| - 1]]);
      assert init + [pairs[|pairs| - 1]] == pairs;
    }
  }
}
