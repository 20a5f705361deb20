/**
 Custody of the records moved out of the legacy tree: a manifest maps base-tree paths to archived
 files, and the base tree, the manifest, the Git index and the working tree must all hold the same
 blob for each.
 */
module RelocationCustody {
  import opened Wrappers
  import opened TextOps

  // ----- listings read into dictionaries -----

  /** Every line gives an entry, and no key repeats. */
  ghost predicate WellFormed<L, V>(lines: seq<L>, entry: L -> Option<(string, V)>) {
    && (forall i :: 0 <= i < |lines| ==> entry(lines[i]).Some?)
    && (forall i, j :: 0 <= i < j < |lines| ==> entry(lines[i]).value.0 != entry(lines[j]).value.0)
  }

  /** The dictionary the lines fill, in order. */
  function Table<L, V>(lines: seq<L>, entry: L -> Option<(string, V)>): map<string, V> {
    if lines == [] then map[] else
    var earlier, last := Table(lines[..|lines| - 1], entry), entry(lines[|lines| - 1]);
    if last.None? then earlier else earlier[last.value.0 := last.value.1]
  }

  lemma {:induction false} TableKeys<L, V>(lines: seq<L>, entry: L -> Option<(string, V)>, key: string)
    ensures key in Table(lines, entry) <==> exists i :: 0 <= i < |lines| && entry(lines[i]).Some? && entry(lines[i]).value.0 == key
    decreases |lines|
  {
    if lines != [] {
      var last := |lines| - 1;
      TableKeys(lines[..last], entry, key);
      if key in Table(lines[..last], entry) {
        var i :| 0 <= i < last && entry(lines[..last][i]).Some? && entry(lines[..last][i]).value.0 == key;
        assert entry(lines[i]).value.0 == key;
      }
      if i :| 0 <= i < last && entry(lines[i]).Some? && entry(lines[i]).value.0 == key {
        assert entry(lines[..last][i]).value.0 == key;
      }
    }
  }

  /** A well-formed listing is looked up line by line. */
  lemma {:induction false} TableExact<L, V>(lines: seq<L>, entry: L -> Option<(string, V)>, i: nat)
    requires WellFormed(lines, entry) && i < |lines|
    ensures var e := entry(lines[i]).value; e.0 in Table(lines, entry) && Table(lines, entry)[e.0] == e.1
    decreases |lines|
  {
    var last := |lines| - 1;
    if i < last {
      assert WellFormed(lines[..last], entry);
      TableExact(lines[..last], entry, i);
      assert lines[..last][i] == lines[i];
      assert entry(lines[i]).value.0 != entry(lines[last]).value.0;
    }
  }

  /** Fills the dictionary, refusing a malformed line or a repeated key. */
  method ReadTable<L, V>(lines: seq<L>, entry: L -> Option<(string, V)>, error: string) returns (r: Result<map<string, V>>)
    ensures r.Ok? <==> WellFormed(lines, entry)
    ensures r.Ok? ==> r.value == Table(lines, entry)
  {
    var m: map<string, V> := map[];
    for i := 0 to |lines|
      invariant WellFormed(lines[..i], entry) && m == Table(lines[..i], entry)
    {
      assert lines[..i + 1][..i] == lines[..i];
      var e := entry(lines[i]);
      if e.None? {
        return Refused(error);
      }
      TableKeys(lines[..i], entry, e.value.0);
      if e.value.0 in m {
        return Refused(error);
      }
      m := m[e.value.0 := e.value.1];
    }
    assert lines[..|lines|] == lines;
    r := Ok(m);
  }

  // ----- the base tree, the manifest and the index -----

  // Lines already split; a line of the wrong shape is `None`.
  datatype TreeLine = TreeLine(kind: string, blob: string, path: string)
  datatype IndexLine = IndexLine(mode: string, blob: string, stage: string, path: string)
  datatype Row = Row(destination: string, blob: string)
  datatype Staged = Staged(mode: string, blob: string)

  predicate Hex40(text: string) {
    |text| == 40 && forall i :: 0 <= i < 40 ==> '0' <= text[i] <= '9' || 'a' <= text[i] <= 'f'
  }

  predicate Archived(destination: string) {
    ".commitrail/initiatives/" <= destination && Contains(destination, "/pre-cutover/")
  }

  function TreeEntry(line: Option<TreeLine>): Option<(string, string)> {
    if line.Some? && line.value.kind == "blob" && Hex40(line.value.blob) then Some((line.value.path, line.value.blob)) else None
  }

  function ManifestEntry(cells: seq<string>, expected: set<string>): Option<(string, Row)> {
    if |cells| == 3 && cells[0] in expected && Archived(cells[1]) && Hex40(cells[2]) then Some((cells[0], Row(cells[1], cells[2])))
    else None
  }

  function IndexEntry(line: IndexLine): Option<(string, Staged)> {
    if line.stage == "0" then Some((line.path, Staged(line.mode, line.blob))) else None
  }

  function Destinations(rows: map<string, Row>): set<string> { set s | s in rows :: rows[s].destination }

  ghost predicate OneToOne(rows: map<string, Row>) {
    forall s, t :: s in rows && t in rows && s != t ==> rows[s].destination != rows[t].destination
  }

  /** As many destinations as rows means no destination is shared. */
  lemma {:induction false} CountMeansOneToOne(rows: map<string, Row>)
    ensures |Destinations(rows)| <= |rows|
    ensures |Destinations(rows)| == |rows| <==> OneToOne(rows)
    decreases |rows|
  {
    if rows != map[] {
      var s :| s in rows;
      var rest := rows - {s};
      var d := rows[s].destination;
      CountMeansOneToOne(rest);
      assert rest.Keys == rows.Keys - {s};
      assert |rest.Keys| == |rows.Keys| - 1;
      OneDestination(rows, s);
      if d in Destinations(rest) {
        var t :| t in rest && rest[t].destination == d;
        assert t in rows && s in rows && t != s;
      } else {
        OneMoreToOne(rows, rest, s);
      }
    } else {
      assert Destinations(rows) == {};
    }
  }

  lemma OneDestination(rows: map<string, Row>, s: string)
    requires s in rows
    ensures Destinations(rows) == Destinations(rows - {s}) + {rows[s].destination}
  {
    var rest := rows - {s};
    forall d | d in Destinations(rows) ensures d in Destinations(rest) + {rows[s].destination} {
      var t :| t in rows && rows[t].destination == d;
      assert t == s || t in rest;
    }
    forall d | d in Destinations(rest) ensures d in Destinations(rows) {
      var t :| t in rest && rest[t].destination == d;
      assert t in rows && rows[t].destination == d;
    }
  }

  lemma OneMoreToOne(rows: map<string, Row>, rest: map<string, Row>, s: string)
    requires s in rows && rest == rows - {s} && rows[s].destination !in Destinations(rest)
    ensures OneToOne(rows) <==> OneToOne(rest)
  {
    assert forall t :: t in rest ==> t in rows && rest[t] == rows[t] && rest[t].destination in Destinations(rest);
    assert forall t :: t in rows && t != s ==> t in rest;
  }

  // ----- the index and the working tree -----

  /** What the checks see besides the texts they parse. */
  datatype Worktree = Worktree(archivedFiles: set<string>, symlinks: set<string>, hashes: map<string, string>)

  predicate DestinationOk(d: string, index: map<string, Staged>, tree: Worktree) {
    && d in index && d !in tree.symlinks && index[d].mode == "100644"
    && d in tree.hashes && Hex40(tree.hashes[d])
  }

  predicate ContentOk(row: Row, base: string, index: map<string, Staged>, tree: Worktree) {
    && row.destination in index && row.destination in tree.hashes
    && row.blob == base && index[row.destination].blob == base && tree.hashes[row.destination] == base
  }

  /** The acceptance of the whole chain, over what its parsers return. */
  ghost predicate Custody(blobs: map<string, string>, recorded: set<string>, rows: map<string, Row>,
                          index: map<string, Staged>, tree: Worktree) {
    && recorded == blobs.Keys
    && rows.Keys <= blobs.Keys
    && OneToOne(rows) && Destinations(rows) == tree.archivedFiles
    && index.Keys == Destinations(rows)
    && (forall d :: d in Destinations(rows) ==> DestinationOk(d, index, tree))
    && forall s :: s in rows && s in blobs ==> ContentOk(rows[s], blobs[s], index, tree)
  }

  method CheckDestinations(destinations: set<string>, index: map<string, Staged>, tree: Worktree) returns (ok: bool)
    ensures ok <==> forall d :: d in destinations ==> DestinationOk(d, index, tree)
  {
    var left := destinations;
    while left != {}
      invariant left <= destinations
      invariant forall d :: d in destinations && d !in left ==> DestinationOk(d, index, tree)
      decreases left
    {
      var d :| d in left;
      if !DestinationOk(d, index, tree) {
        return false;
      }
      left := left - {d};
    }
    ok := true;
  }

  method CheckContents(rows: map<string, Row>, blobs: map<string, string>, index: map<string, Staged>, tree: Worktree)
    returns (ok: bool)
    requires rows.Keys <= blobs.Keys
    ensures ok <==> forall s :: s in rows ==> ContentOk(rows[s], blobs[s], index, tree)
  {
    var left := rows.Keys;
    while left != {}
      invariant left <= rows.Keys
      invariant forall s :: s in rows && s !in left ==> ContentOk(rows[s], blobs[s], index, tree)
      decreases left
    {
      var s :| s in left;
      if !ContentOk(rows[s], blobs[s], index, tree) {
        return false;
      }
      left := left - {s};
    }
    ok := true;
  }

  /** What the validation is given. `comparison` is the listing of a comparison base, empty after
      cutover; `index` is the whole Git index; `pinned` says whether the manifest has the digest
      recorded for this base; `manifest` holds its lines other than blanks and the header. */
  datatype Evidence = Evidence(declared: seq<Option<TreeLine>>, recorded: set<string>,
                               comparison: Option<seq<Option<TreeLine>>>, pinned: bool, manifest: seq<seq<string>>,
                               index: seq<IndexLine>, tree: Worktree)

  function Blobs(e: Evidence): map<string, string> { Table(e.declared, TreeEntry) }

  function Rows(e: Evidence): map<string, Row> { Table(e.manifest, (cells: seq<string>) => ManifestEntry(cells, Blobs(e).Keys)) }

  /** `git ls-files` lists the index lines of the paths it is given, and all of them when given none. */
  function Listing(index: seq<IndexLine>, paths: set<string>): seq<IndexLine> {
    if paths == {} then index else OnPaths(index, paths)
  }

  function OnPaths(index: seq<IndexLine>, paths: set<string>): seq<IndexLine> {
    if index == [] then [] else (if index[0].path in paths then [index[0]] else []) + OnPaths(index[1..], paths)
  }

  lemma {:induction false} ListedLines(index: seq<IndexLine>, paths: set<string>)
    ensures forall l :: l in OnPaths(index, paths) <==> l in index && l.path in paths
  {
    if index != [] {
      ListedLines(index[1..], paths);
      assert index == [index[0]] + index[1..];
    }
  }

  function StagedLines(e: Evidence): seq<IndexLine> { Listing(e.index, Destinations(Rows(e))) }

  function Index(e: Evidence): map<string, Staged> { Table(StagedLines(e), IndexEntry) }

  ghost predicate Accepted(e: Evidence) {
    && WellFormed(e.declared, TreeEntry)
    && (e.comparison.Some? && e.comparison.value != [] ==> e.comparison.value == e.declared)
    && e.pinned
    && WellFormed(e.manifest, (cells: seq<string>) => ManifestEntry(cells, Blobs(e).Keys))
    && WellFormed(StagedLines(e), IndexEntry)
    && Custody(Blobs(e), e.recorded, Rows(e), Index(e), e.tree)
  }

  method ValidateRelocation(e: Evidence) returns (ok: bool)
    ensures ok <==> Accepted(e)
  {
    var blobs := ReadTable(e.declared, TreeEntry, "COMMITRAIL_RELOCATION_BASE_INVALID");
    if blobs.Refused? || e.recorded != blobs.value.Keys {
      return false;
    }
    if (e.comparison.Some? && e.comparison.value != [] && e.comparison.value != e.declared) || !e.pinned {
      return false;
    }
    var rows := ReadTable(e.manifest, (cells: seq<string>) => ManifestEntry(cells, Blobs(e).Keys),
                          "COMMITRAIL_PRE_CUTOVER_MANIFEST_INVALID");
    if rows.Refused? {
      return false;
    }
    var destinations := Destinations(rows.value);
    CountMeansOneToOne(rows.value);
    if |destinations| != |rows.value| || destinations != e.tree.archivedFiles {
      return false;
    }
    var index := ReadTable(Listing(e.index, destinations), IndexEntry, "COMMITRAIL_PRE_CUTOVER_DESTINATIONS_INVALID");
    if index.Refused? || index.value.Keys != destinations {
      return false;
    }
    var regular := CheckDestinations(destinations, index.value, e.tree);
    if !regular {
      return false;
    }
    RowsKnown(e);
    ok := CheckContents(rows.value, blobs.value, index.value, e.tree);
  }

  lemma RowsKnown(e: Evidence)
    ensures Rows(e).Keys <= Blobs(e).Keys
  {
    forall s | s in Rows(e) ensures s in Blobs(e) {
      TableKeys(e.manifest, (cells: seq<string>) => ManifestEntry(cells, Blobs(e).Keys), s);
    }
  }

  // ----- what custody gives -----

  /** Every archived file is the unchanged content of exactly one base-tree path, in the index and in
      the working tree alike. */
  lemma ArchivedFileHasOneSource(blobs: map<string, string>, recorded: set<string>, rows: map<string, Row>,
                                 index: map<string, Staged>, tree: Worktree, file: string) returns (source: string)
    requires Custody(blobs, recorded, rows, index, tree) && file in tree.archivedFiles
    ensures source in rows && source in blobs && rows[source].destination == file
    ensures forall s :: s in rows && rows[s].destination == file ==> s == source
    ensures file in index && file in tree.hashes && file !in tree.symlinks
    ensures tree.hashes[file] == index[file].blob == rows[source].blob == blobs[source]
  {
    source :| source in rows && rows[source].destination == file;
    assert ContentOk(rows[source], blobs[source], index, tree);
    assert DestinationOk(file, index, tree);
  }

  /** In accepted evidence each manifest line `source, destination, blob` is borne out by all three
      listings: the base tree, the index and the working tree hold that blob. */
  lemma ManifestLineHonoured(e: Evidence, i: nat)
    requires Accepted(e) && i < |e.manifest|
    ensures var cells := e.manifest[i];
            && |cells| == 3
            && Some(TreeLine("blob", cells[2], cells[0])) in e.declared
            && IndexLine("100644", cells[2], "0", cells[1]) in e.index
            && cells[1] in e.tree.hashes && e.tree.hashes[cells[1]] == cells[2]
            && cells[1] in e.tree.archivedFiles && cells[1] !in e.tree.symlinks
  {
    var cells := e.manifest[i];
    TableExact(e.manifest, (row: seq<string>) => ManifestEntry(row, Blobs(e).Keys), i);
    var row := Rows(e)[cells[0]];
    assert row == Row(cells[1], cells[2]);
    assert ContentOk(row, Blobs(e)[cells[0]], Index(e), e.tree) && DestinationOk(cells[1], Index(e), e.tree);
    TreeLineOf(e.declared, cells[0]);
    IndexLineOf(StagedLines(e), cells[1]);
    ListedLines(e.index, Destinations(Rows(e)));
  }

  lemma TreeLineOf(lines: seq<Option<TreeLine>>, path: string)
    requires WellFormed(lines, TreeEntry) && path in Table(lines, TreeEntry)
    ensures Some(TreeLine("blob", Table(lines, TreeEntry)[path], path)) in lines
  {
    TableKeys(lines, TreeEntry, path);
    var i :| 0 <= i < |lines| && TreeEntry(lines[i]).value.0 == path;
    TableExact(lines, TreeEntry, i);
    assert lines[i] == Some(TreeLine("blob", Table(lines, TreeEntry)[path], path));
  }

  lemma IndexLineOf(lines: seq<IndexLine>, path: string)
    requires WellFormed(lines, IndexEntry) && path in Table(lines, IndexEntry)
    ensures var staged := Table(lines, IndexEntry)[path]; IndexLine(staged.mode, staged.blob, "0", path) in lines
  {
    TableKeys(lines, IndexEntry, path);
    var i :| 0 <= i < |lines| && IndexEntry(lines[i]).value.0 == path;
    TableExact(lines, IndexEntry, i);
    var staged := Table(lines, IndexEntry)[path];
    assert lines[i] == IndexLine(staged.mode, staged.blob, "0", path);
  }

  /** The checks alone let a base path go unarchived; none does exactly when the archive holds as many
      files as the base tree has paths. */
  lemma NothingLeftBehind(blobs: map<string, string>, recorded: set<string>, rows: map<string, Row>,
                          index: map<string, Staged>, tree: Worktree)
    requires Custody(blobs, recorded, rows, index, tree)
    ensures rows.Keys == blobs.Keys <==> |tree.archivedFiles| == |blobs|
  {
    CountMeansOneToOne(rows);
    assert |rows| == |rows.Keys| && |blobs| == |blobs.Keys|;
    if |rows.Keys| == |blobs.Keys| {
      SameCount(rows.Keys, blobs.Keys);
    }
  }

  lemma SameCount(a: set<string>, b: set<string>)
    requires a <= b && |a| == |b|
    ensures a == b
  {
    assert |b - a| == |b| - |a|;
  }

  /** Without rows the whole index is listed, so nothing but an empty index passes. */
  lemma EmptyManifestRefused(e: Evidence)
    requires Accepted(e) && e.manifest == []
    ensures e.index == [] && e.tree.archivedFiles == {}
  {
    assert Destinations(Rows(e)) == {};
    if e.index != [] { TableExact(e.index, IndexEntry, 0); }
  }

  /** Evidence with two base paths of which only one is archived, staged and hashed. */
  function OneOfTwo(a: string, b: string, file: string, blob: string): Evidence {
    Evidence([Some(TreeLine("blob", blob, a)), Some(TreeLine("blob", blob, b))], {a, b}, None, true,
             [[a, file, blob]], [IndexLine("100644", blob, "0", file)], Worktree({file}, {}, map[file := blob]))
  }

  /** Such evidence is accepted, and the other path is nowhere in the archive. */
  lemma LeftBehind(a: string, b: string, file: string, blob: string)
    requires a != b && Archived(file) && Hex40(blob)
    ensures var e := OneOfTwo(a, b, file, blob);
            Accepted(e) && Rows(e).Keys == {a} && Blobs(e).Keys == {a, b}
  {
    var e := OneOfTwo(a, b, file, blob);
    TwoLines(e.declared[0], e.declared[1], TreeEntry);
    assert Blobs(e) == map[a := blob, b := blob];
    assert ManifestEntry(e.manifest[0], Blobs(e).Keys) == Some((a, Row(file, blob)));
    OneLineTable(e.manifest[0], (cells: seq<string>) => ManifestEntry(cells, Blobs(e).Keys));
    assert Rows(e) == map[a := Row(file, blob)];
    assert a in Rows(e) && Rows(e)[a].destination == file;
    assert Destinations(Rows(e)) == {file};
    OneListed(e.index[0], {file});
    OneLineTable(e.index[0], IndexEntry);
    assert Index(e) == map[file := Staged("100644", blob)];
  }

  lemma OneListed(line: IndexLine, paths: set<string>)
    requires line.path in paths
    ensures Listing([line], paths) == [line]
  {
    assert [line][1..] == [];
    assert OnPaths([line][1..], paths) == [];
  }

  /** So accepted evidence that leaves a base path behind exists. */
  lemma LeftBehindExample() returns (e: Evidence, path: string)
    ensures Accepted(e) && path in Blobs(e) && path !in Rows(e) && Rows(e) != map[]
  {
    var blob: string := seq(40, _ => '0');
    var root := ".commitrail/initiatives/WS-ARCH-001";
    var file := root + ("/pre-cutover/" + "CHUNK_MAP.md");
    assert forall i :: 0 <= i < |root| ==> root[i] != 'p';
    FindAfter(root, "/pre-cutover/", "CHUNK_MAP.md", 1);
    assert ".commitrail/initiatives/" <= root;
    var a, b := ".agent-loop/CHUNK_MAP.md", ".agent-loop/DECISIONS.md";
    assert a[12] != b[12];
    LeftBehind(a, b, file, blob);
    e, path := OneOfTwo(a, b, file, blob), b;
    assert a in Rows(e).Keys;
  }

  lemma OneLineTable<L, V>(line: L, entry: L -> Option<(string, V)>)
    requires entry(line).Some?
    ensures Table([line], entry) == map[entry(line).value.0 := entry(line).value.1] && WellFormed([line], entry)
  {
    assert [line][..0] == [];
  }

  lemma TwoLines<L, V>(first: L, second: L, entry: L -> Option<(string, V)>)
    requires entry(first).Some? && entry(second).Some? && entry(first).value.0 != entry(second).value.0
    ensures WellFormed([first, second], entry)
    ensures Table([first, second], entry) ==
            map[entry(first).value.0 := entry(first).value.1, entry(second).value.0 := entry(second).value.1]
  {
    OneLineTable(first, entry);
    assert [first, second][..1] == [first];
  }
}
