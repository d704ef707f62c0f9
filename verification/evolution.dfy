/** Index generations that replace or extend one another, the path sources they carry,
    and the reader's lookup of the generation that indexed a path. */
module Evolution {
  import opened Numbers

  type Path = string
  type Gen = string

  /** How a generation came about; a legacy one was written before path sources existed. */
  datatype Mode = Legacy | Replace | Extend

  /** What identifies a source file: its uri, size, modification time, event base, entries and tree. */
  datatype FileIdentity = FileIdentity(
    uri: string, size: nat, mtime: int, eventBase: nat, entries: nat, tree: string)

  /** A source file as planned for a build; `failed` if it could not be opened. */
  datatype FilePlan = FilePlan(identity: FileIdentity, failed: bool)

  datatype Fingerprints = Fingerprints(manifest: string, dictionary: string)

  datatype Generation = Generation(
    id: Gen, mode: Mode, paths: seq<Path>, fingerprints: Fingerprints, plans: seq<FilePlan>)

  datatype PathRow = PathRow(gen: Gen, path: Path, origin: Gen, parent: Gen)

  /** The committed generations in order with the fingerprints of their receipts, the source files of each in
      order of event base, the path-source rows, and which generation has physical index rows for which path. */
  datatype Catalog = Catalog(
    commits: seq<Gen>, receipts: map<Gen, Fingerprints>, files: map<Gen, seq<FileIdentity>>,
    rows: set<PathRow>, indexed: set<(Gen, Path)>)

  const EMPTY := Catalog([], map[], map[], {}, {})

  datatype Prepared =
    | Paths(origins: map<Path, Gen>)
    | Kept
    | NoCommittedGeneration | FingerprintsDiffer | AmbiguousLineage | NothingToExtend | SourcesDiffer
    | AlreadyIndexed(path: Path) | DuplicatePath(path: Path) | EmptyGeneration | NoCheckpoint | CheckpointChanged

  // ----- What the queries return -----

  /** The distinct (path, origin) pairs of a generation. */
  function Pairs(c: Catalog, g: Gen): set<(Path, Gen)> {
    set row | row in c.rows && row.gen == g :: (row.path, row.origin)
  }

  /** The paths that a generation indexed itself. */
  function LegacyPairs(c: Catalog, g: Gen): set<(Path, Gen)> {
    set x | x in c.indexed && x.0 == g :: (x.1, g)
  }

  predicate OneOrigin(pairs: set<(Path, Gen)>) {
    forall x, y :: x in pairs && y in pairs && x.0 == y.0 ==> x == y
  }

  /** A map that holds exactly the pairs. */
  predicate Represents(m: map<Path, Gen>, pairs: set<(Path, Gen)>) {
    (forall x :: x in pairs ==> x.0 in m && m[x.0] == x.1) && forall p :: p in m ==> (p, m[p]) in pairs
  }

  /** Reads rows into a map; two origins for one path are an error. */
  method ReadPairs(pairs: set<(Path, Gen)>) returns (ok: bool, m: map<Path, Gen>)
    ensures ok <==> OneOrigin(pairs)
    ensures ok ==> Represents(m, pairs)
  {
    m := map[];
    var todo := pairs;
    while todo != {}
      invariant todo <= pairs && OneOrigin(pairs - todo) && Represents(m, pairs - todo)
    {
      var x :| x in todo;
      if x.0 in m {
        assert (x.0, m[x.0]) in pairs && x in pairs && x !in pairs - todo;
        return false, m;
      }
      m := m[x.0 := x.1];
      todo := todo - {x};
    }
    assert pairs - todo == pairs;
    ok := true;
  }

  /** The pairs an extension starts from: the parent's path sources, or what it indexed itself. */
  function ParentPairs(c: Catalog, parent: Gen): set<(Path, Gen)> {
    if Pairs(c, parent) == {} then LegacyPairs(c, parent) else Pairs(c, parent)
  }

  method PreviousPaths(c: Catalog, parent: Gen) returns (r: Prepared)
    ensures r.Paths? <==> OneOrigin(ParentPairs(c, parent)) && ParentPairs(c, parent) != {}
    ensures r.Paths? ==> Represents(r.origins, ParentPairs(c, parent))
    ensures !r.Paths? ==> r.AmbiguousLineage? || r.NothingToExtend?
  {
    var ok, m := ReadPairs(Pairs(c, parent));
    if !ok {
      return AmbiguousLineage;
    }
    if m != map[] {
      assert Pairs(c, parent) != {};
      return Paths(m);
    }
    assert Pairs(c, parent) == {};
    ok, m := ReadPairs(LegacyPairs(c, parent));
    if !ok {
      return AmbiguousLineage;
    }
    if m == map[] {
      return NothingToExtend;
    }
    return Paths(m);
  }

  predicate NoRepeats(paths: seq<Path>) {
    forall j, k :: 0 <= j < k < |paths| ==> paths[j] != paths[k]
  }

  /** A map extended by the paths of one generation. */
  function WithOwn(inherited: map<Path, Gen>, g: Generation): map<Path, Gen> {
    inherited + map p | p in g.paths :: g.id
  }

  predicate AllNew(paths: seq<Path>, inherited: map<Path, Gen>) {
    forall k :: 0 <= k < |paths| ==> paths[k] !in inherited
  }

  /** The source files of a generation are those planned now, and all of them could be opened. */
  predicate SameFiles(c: Catalog, origin: Gen, plans: seq<FilePlan>) {
    |FilesOf(c, origin)| == |plans| &&
    forall k :: 0 <= k < |plans| ==> !plans[k].failed && FilesOf(c, origin)[k] == plans[k].identity
  }

  function FilesOf(c: Catalog, origin: Gen): seq<FileIdentity> {
    if origin in c.files then c.files[origin] else []
  }

  /** Compares the source files of every origin with the plan, row by row. */
  method ValidateOriginalFiles(c: Catalog, plans: seq<FilePlan>, origins: set<Gen>) returns (ok: bool)
    ensures ok <==> forall o :: o in origins ==> SameFiles(c, o, plans)
  {
    var todo := origins;
    while todo != {}
      invariant todo <= origins && forall o :: o in origins - todo ==> SameFiles(c, o, plans)
    {
      var o :| o in todo;
      var rows := FilesOf(c, o);
      var position := 0;
      while position < |rows|
        invariant 0 <= position <= |rows| && position <= |plans|
        invariant forall k :: 0 <= k < position ==> !plans[k].failed && rows[k] == plans[k].identity
      {
        if position >= |plans| || plans[position].failed || rows[position] != plans[position].identity {
          assert !SameFiles(c, o, plans);
          return false;
        }
        position := position + 1;
      }
      if position != |plans| {
        assert !SameFiles(c, o, plans);
        return false;
      }
      todo := todo - {o};
    }
    ok := true;
  }

  function LatestCommit(c: Catalog): Gen
    requires c.commits != []
  {
    c.commits[|c.commits| - 1]
  }

  /** The extension has become the latest committed generation before: its publication is being resumed. */
  predicate Recovers(c: Catalog, g: Generation) {
    g.mode.Extend? && c.commits != [] && LatestCommit(c) == g.id
  }

  /** What an extension asks of the latest committed generation: the same manifest and dictionary, one origin for
      each of its paths, unchanged source files behind every origin, and none of the new paths. */
  ghost predicate Extends(c: Catalog, g: Generation) {
    c.commits != [] && var parent := LatestCommit(c);
    && parent in c.receipts && c.receipts[parent] == g.fingerprints
    && OneOrigin(ParentPairs(c, parent)) && ParentPairs(c, parent) != {}
    && (forall x :: x in ParentPairs(c, parent) ==> SameFiles(c, x.1, g.plans))
    && (forall x :: x in ParentPairs(c, parent) ==> x.0 !in g.paths)
  }

  /** What an extension inherits from the latest committed generation. */
  method Inherit(c: Catalog, g: Generation) returns (r: Prepared)
    ensures r.Paths? <==> Extends(c, g)
    ensures r.Paths? ==> Represents(r.origins, ParentPairs(c, LatestCommit(c))) && AllNew(g.paths, r.origins)
    ensures !r.Kept?
  {
    if c.commits == [] {
      return NoCommittedGeneration;
    }
    var parent := LatestCommit(c);
    if parent !in c.receipts || c.receipts[parent] != g.fingerprints {
      return FingerprintsDiffer;
    }
    r := PreviousPaths(c, parent);
    if !r.Paths? {
      return;
    }
    ghost var pairs := ParentPairs(c, parent);
    var same := ValidateOriginalFiles(c, g.plans, r.origins.Values);
    OriginsAreValues(r.origins, pairs);
    if !same {
      return SourcesDiffer;
    }
    for k := 0 to |g.paths|
      invariant forall j :: 0 <= j < k ==> g.paths[j] !in r.origins
    {
      if g.paths[k] in r.origins {
        assert (g.paths[k], r.origins[g.paths[k]]) in pairs;
        return AlreadyIndexed(g.paths[k]);
      }
    }
  }

  lemma {:induction false} OriginsAreValues(m: map<Path, Gen>, pairs: set<(Path, Gen)>)
    requires Represents(m, pairs)
    ensures forall o :: o in m.Values <==> exists x :: x in pairs && x.1 == o
  {
    forall o | o in m.Values ensures exists x :: x in pairs && x.1 == o {
      var p :| p in m && m[p] == o;
      assert (p, o) in pairs;
    }
    forall x | x in pairs ensures x.1 in m.Values {
      assert x.0 in m && m[x.0] == x.1;
    }
  }

  lemma {:induction false} AddOwn(inherited: map<Path, Gen>, g: Generation, k: nat)
    requires k < |g.paths|
    ensures WithOwn(inherited, g.(paths := g.paths[..k + 1])) ==
      WithOwn(inherited, g.(paths := g.paths[..k]))[g.paths[k] := g.id]
  {
    assert g.paths[..k + 1] == g.paths[..k] + [g.paths[k]];
  }

  lemma {:induction false} OwnSoFar(inherited: map<Path, Gen>, g: Generation, k: nat)
    requires k < |g.paths| && AllNew(g.paths, inherited) && NoRepeats(g.paths[..k])
    ensures g.paths[k] in WithOwn(inherited, g.(paths := g.paths[..k])) <==> g.paths[k] in g.paths[..k]
    ensures NoRepeats(g.paths[..k + 1]) <==> g.paths[k] !in g.paths[..k]
    ensures g.paths[k] in g.paths[..k] ==> !NoRepeats(g.paths)
  {
    assert g.paths[..k + 1] == g.paths[..k] + [g.paths[k]];
    if g.paths[k] in g.paths[..k] {
      var j :| 0 <= j < k && g.paths[..k][j] == g.paths[k];
      assert g.paths[j] == g.paths[k];
      assert g.paths[..k + 1][j] == g.paths[..k + 1][k];
    }
  }

  /** Adds the generation's own paths; naming one twice is an error. */
  method AddOwnPaths(inherited: map<Path, Gen>, g: Generation) returns (r: Prepared)
    requires AllNew(g.paths, inherited)
    ensures r.Paths? <==> NoRepeats(g.paths)
    ensures r.Paths? ==> r.origins == WithOwn(inherited, g)
    ensures !r.Paths? ==> r.DuplicatePath?
  {
    var paths := inherited;
    for k := 0 to |g.paths|
      invariant NoRepeats(g.paths[..k])
      invariant paths == WithOwn(inherited, g.(paths := g.paths[..k]))
    {
      OwnSoFar(inherited, g, k);
      if g.paths[k] in paths {
        return DuplicatePath(g.paths[k]);
      }
      AddOwn(inherited, g, k);
      paths := paths[g.paths[k] := g.id];
    }
    assert g.paths[..|g.paths|] == g.paths;
    return Paths(paths);
  }

  /** A map inherited from the latest committed generation, and extended by new paths only. */
  ghost predicate Inherits(c: Catalog, g: Generation, inherited: map<Path, Gen>, origins: map<Path, Gen>) {
    c.commits != [] && Represents(inherited, ParentPairs(c, c.commits[|c.commits| - 1])) &&
    AllNew(g.paths, inherited) && origins == WithOwn(inherited, g)
  }

  /** The generation's origins follow from those of the latest committed generation. */
  ghost predicate Follows(c: Catalog, g: Generation, origins: map<Path, Gen>) {
    NoRepeats(g.paths) &&
    if g.mode.Extend? then exists inherited :: Inherits(c, g, inherited, origins) else origins == WithOwn(map[], g)
  }

  /** A new generation can be prepared: its paths are distinct, and what it extends permits it. */
  ghost predicate Accepts(c: Catalog, g: Generation) {
    NoRepeats(g.paths) && (g.mode.Extend? ==> Extends(c, g))
  }

  function ParentOf(c: Catalog, g: Generation): Gen {
    if g.mode.Extend? && c.commits != [] then LatestCommit(c) else ""
  }

  /** The path sources of a new generation: a replacement starts afresh, an extension inherits from the
      latest committed generation and adds only paths that are new. A path checkpoint left by an earlier
      attempt is kept if it names the same parent. */
  method PreparePathSources(c: Catalog, g: Generation, checkpoint: Option<Gen>) returns (r: Prepared)
    ensures r.Paths? <==> !Recovers(c, g) && Accepts(c, g) && checkpoint.None? && (g.mode.Extend? || g.paths != [])
    ensures r.Paths? ==> Follows(c, g, r.origins) && r.origins != map[]
    ensures r.Kept? <==>
      if Recovers(c, g) then checkpoint.Some? else Accepts(c, g) && checkpoint == Some(ParentOf(c, g))
  {
    var inherited: map<Path, Gen> := map[];
    if Recovers(c, g) {
      return if checkpoint.None? then NoCheckpoint else Kept;
    }
    if g.mode.Extend? {
      r := Inherit(c, g);
      if !r.Paths? {
        return;
      }
      inherited := r.origins;
      NotEmpty(inherited, ParentPairs(c, LatestCommit(c)));
    }
    r := AddOwnPaths(inherited, g);
    assert r.Paths? && g.mode.Extend? ==> Inherits(c, g, inherited, r.origins);
    if !r.Paths? {
      return;
    }
    OwnPathsCount(inherited, g);
    if checkpoint.Some? {
      return if checkpoint.value != ParentOf(c, g) then CheckpointChanged else Kept;
    }
    if r.origins == map[] {
      return EmptyGeneration;
    }
  }

  lemma {:induction false} NotEmpty(m: map<Path, Gen>, pairs: set<(Path, Gen)>)
    requires Represents(m, pairs) && pairs != {}
    ensures m != map[]
  {
    var x :| x in pairs;
    assert x.0 in m;
  }

  lemma {:induction false} OwnPathsCount(inherited: map<Path, Gen>, g: Generation)
    ensures WithOwn(inherited, g) == map[] <==> inherited == map[] && g.paths == []
  {
    if g.paths != [] {
      assert g.paths[0] in WithOwn(inherited, g);
    }
    if inherited != map[] {
      var p :| p in inherited;
      assert p in WithOwn(inherited, g);
    }
  }

  // ----- Committing and chains -----

  function Identities(plans: seq<FilePlan>): seq<FileIdentity> {
    seq(|plans|, k requires 0 <= k < |plans| => plans[k].identity)
  }

  /** The rows that a generation adds to the path-source table, the index rows, and its commit. */
  function Commit(c: Catalog, g: Generation, origins: map<Path, Gen>): Catalog {
    var parent := ParentOf(c, g);
    Catalog(c.commits + [g.id], c.receipts[g.id := g.fingerprints], c.files[g.id := Identities(g.plans)],
            if g.mode.Legacy? then c.rows else c.rows + set p | p in origins :: PathRow(g.id, p, origins[p], parent),
            c.indexed + set p | p in g.paths :: (g.id, p))
  }

  /** A catalog reached by committing a history of generations, each prepared against the one before. */
  ghost predicate Chain(history: seq<Generation>, c: Catalog) {
    if history == [] then c == EMPTY
    else
      var n := |history| - 1;
      exists before, origins :: Chain(history[..n], before) && Committed(before, history[n], origins, c)
  }

  ghost predicate Committed(before: Catalog, g: Generation, origins: map<Path, Gen>, c: Catalog) {
    g.id !in before.commits && g.paths != [] && g.plans != [] &&
      (forall k :: 0 <= k < |g.plans| ==> !g.plans[k].failed) &&
    Accepts(before, g) && Follows(before, g, origins) && c == Commit(before, g, origins)
  }

  /** Which generation each path of the last generation belongs to. */
  function Origins(history: seq<Generation>): map<Path, Gen> {
    if history == [] then map[]
    else
      var n := |history| - 1;
      WithOwn(if history[n].mode.Extend? then Origins(history[..n]) else map[], history[n])
  }

  /** Everything a catalog holds belongs to a committed generation. */
  ghost predicate Closed(c: Catalog, history: seq<Generation>) {
    && |c.commits| == |history|
    && (forall k :: 0 <= k < |history| ==> c.commits[k] == history[k].id)
    && (forall row :: row in c.rows ==> row.gen in c.commits)
    && (forall x :: x in c.indexed ==> x.0 in c.commits)
    && (forall o :: o in c.files ==> o in c.commits)
  }

  lemma {:induction false} SameMap(a: map<Path, Gen>, b: map<Path, Gen>, pairs: set<(Path, Gen)>)
    requires Represents(a, pairs) && Represents(b, pairs)
    ensures a == b
  {
    forall p | p in a ensures p in b && a[p] == b[p] {
      assert (p, a[p]) in pairs;
    }
    forall p | p in b ensures p in a {
      assert (p, b[p]) in pairs;
    }
  }

  lemma {:induction false} NewRows(c: Catalog, g: Generation, origins: map<Path, Gen>)
    requires !g.mode.Legacy? && (forall row :: row in c.rows ==> row.gen != g.id)
    ensures Represents(origins, Pairs(Commit(c, g, origins), g.id))
  {
    var pairs := Pairs(Commit(c, g, origins), g.id);
    var parent := ParentOf(c, g);
    forall p | p in origins ensures (p, origins[p]) in pairs {
      assert PathRow(g.id, p, origins[p], parent) in Commit(c, g, origins).rows;
    }
  }

  lemma {:induction false} NewIndexed(c: Catalog, g: Generation, origins: map<Path, Gen>)
    requires (forall row :: row in c.rows ==> row.gen != g.id) && (forall x :: x in c.indexed ==> x.0 != g.id)
    ensures Represents(WithOwn(map[], g), LegacyPairs(Commit(c, g, origins), g.id))
    ensures g.mode.Legacy? ==> Pairs(Commit(c, g, origins), g.id) == {}
  {
    var pairs := LegacyPairs(Commit(c, g, origins), g.id);
    forall p | p in g.paths ensures (p, g.id) in pairs {
      assert (g.id, p) in Commit(c, g, origins).indexed;
    }
  }

  /** The rows of earlier generations are not touched by a commit. */
  lemma {:induction false} OldPairsKept(c: Catalog, g: Generation, origins: map<Path, Gen>, old_: Gen)
    requires old_ != g.id
    ensures Pairs(Commit(c, g, origins), old_) == Pairs(c, old_)
    ensures LegacyPairs(Commit(c, g, origins), old_) == LegacyPairs(c, old_)
  {
    var n := Commit(c, g, origins);
    forall row | row in n.rows && row.gen == old_ ensures row in c.rows {
    }
    forall x | x in n.indexed && x.0 == old_ ensures x in c.indexed {
    }
  }

  /** What the catalog says about generation k of its history. */
  ghost predicate GenerationTrue(c: Catalog, history: seq<Generation>, k: nat)
    requires k < |history|
  {
    var g := history[k];
    if g.mode.Legacy? then Pairs(c, g.id) == {} && Represents(Origins(history[..k + 1]), LegacyPairs(c, g.id))
    else Represents(Origins(history[..k + 1]), Pairs(c, g.id))
  }

  lemma {:induction false} OwnPathsIn(history: seq<Generation>)
    requires history != [] && history[|history| - 1].paths != []
    ensures Origins(history) != map[]
  {
    var g := history[|history| - 1];
    assert g.paths[0] in Origins(history);
  }

  lemma {:induction false} TrueParent(c: Catalog, history: seq<Generation>, k: nat)
    requires k < |history| && GenerationTrue(c, history, k) && history[k].paths != []
    ensures Represents(Origins(history[..k + 1]), ParentPairs(c, history[k].id))
  {
    OwnPathsIn(history[..k + 1]);
    var p :| p in Origins(history[..k + 1]);
    if !history[k].mode.Legacy? {
      assert (p, Origins(history[..k + 1])[p]) in Pairs(c, history[k].id);
    }
  }

  lemma {:induction false} FirstAndLast(history: seq<Generation>)
    requires history != []
    ensures history[..|history| - 1] + [history[|history| - 1]] == history
  {
  }

  lemma {:induction false} PrefixOfPrefix(history: seq<Generation>, n: nat, k: nat)
    requires k <= n <= |history|
    ensures history[..n][..k] == history[..k]
    ensures n == |history| ==> history[..n] == history
  {
  }

  /** A commit leaves what the catalog says about earlier generations as it was. */
  lemma {:induction false} EarlierTrue(before: Catalog, history: seq<Generation>, origins: map<Path, Gen>, k: nat)
    requires history != [] && k < |history| - 1 && history[k].id != history[|history| - 1].id
    requires GenerationTrue(before, history[..|history| - 1], k)
    ensures GenerationTrue(Commit(before, history[|history| - 1], origins), history, k)
  {
    var n := |history| - 1;
    OldPairsKept(before, history[n], origins, history[k].id);
    PrefixOfPrefix(history, n, k + 1);
  }

  /** All that the catalog says about a history. */
  ghost predicate HistoryTrue(c: Catalog, history: seq<Generation>) {
    Closed(c, history) && forall k :: 0 <= k < |history| ==> GenerationOk(c, history, k)
  }

  ghost predicate GenerationOk(c: Catalog, history: seq<Generation>, k: nat)
    requires k < |history|
  {
    history[k].paths != [] && history[k].plans != [] && GenerationTrue(c, history, k) &&
    (history[k].mode.Extend? ==> AllNew(history[k].paths, Origins(history[..k])))
  }

  /** The origins of the generation being committed. */
  lemma {:induction false} LatestOrigins(before: Catalog, history: seq<Generation>, g: Generation,
                                         origins: map<Path, Gen>)
    requires Follows(before, g, origins) && HistoryTrue(before, history)
    ensures origins == Origins(history + [g])
    ensures g.mode.Extend? ==> AllNew(g.paths, Origins(history))
  {
    assert (history + [g])[..|history|] == history;
    if g.mode.Extend? {
      var inherited :| Inherits(before, g, inherited, origins);
      var n := |history| - 1;
      assert before.commits[n] == history[n].id;
      assert GenerationOk(before, history, n);
      TrueParent(before, history, n);
      assert history[..n + 1] == history;
      SameMap(inherited, Origins(history), ParentPairs(before, history[n].id));
    }
  }

  lemma {:induction false} LatestTrue(before: Catalog, history: seq<Generation>, origins: map<Path, Gen>)
    requires history != [] && origins == Origins(history) && Closed(before, history[..|history| - 1])
    requires history[|history| - 1].id !in before.commits
    ensures GenerationTrue(Commit(before, history[|history| - 1], origins), history, |history| - 1)
  {
    var n := |history| - 1;
    var g := history[n];
    assert history[..n + 1] == history;
    if g.mode.Legacy? {
      NewIndexed(before, g, origins);
    } else {
      NewRows(before, g, origins);
    }
  }

  lemma {:induction false} CommitClosed(before: Catalog, history: seq<Generation>, origins: map<Path, Gen>)
    requires history != [] && Closed(before, history[..|history| - 1])
    ensures Closed(Commit(before, history[|history| - 1], origins), history)
  {
    var n := |history| - 1;
    var c := Commit(before, history[n], origins);
    forall k | 0 <= k < |history| ensures c.commits[k] == history[k].id {
      if k < n {
        assert before.commits[k] == history[..n][k].id;
      }
    }
  }

  lemma {:induction false} EarlierOk(before: Catalog, history: seq<Generation>, origins: map<Path, Gen>, c: Catalog,
                                     k: nat)
    requires history != [] && HistoryTrue(before, history[..|history| - 1])
    requires Committed(before, history[|history| - 1], origins, c) && k < |history| - 1
    ensures GenerationOk(c, history, k)
  {
    var n := |history| - 1;
    assert GenerationOk(before, history[..n], k) && history[..n][k] == history[k];
    PrefixOfPrefix(history, n, k);
    assert before.commits[k] == history[k].id;
    EarlierTrue(before, history, origins, k);
  }

  lemma {:induction false} LatestOk(before: Catalog, history: seq<Generation>, origins: map<Path, Gen>, c: Catalog)
    requires history != [] && HistoryTrue(before, history[..|history| - 1])
    requires Committed(before, history[|history| - 1], origins, c)
    ensures GenerationOk(c, history, |history| - 1)
  {
    var n := |history| - 1;
    FirstAndLast(history);
    LatestOrigins(before, history[..n], history[n], origins);
    LatestTrue(before, history, origins);
  }

  lemma {:induction false} CommitTrue(before: Catalog, history: seq<Generation>, origins: map<Path, Gen>, c: Catalog)
    requires history != [] && HistoryTrue(before, history[..|history| - 1])
    requires Committed(before, history[|history| - 1], origins, c)
    ensures HistoryTrue(c, history)
  {
    CommitClosed(before, history, origins);
    LatestOk(before, history, origins, c);
    forall k | 0 <= k < |history| - 1 ensures GenerationOk(c, history, k) {
      EarlierOk(before, history, origins, c, k);
    }
  }

  /** In every chain the catalog holds, for every generation, exactly its origins: one per path. */
  lemma {:induction false} ChainIsTrue(history: seq<Generation>, c: Catalog)
    requires Chain(history, c)
    ensures HistoryTrue(c, history)
    decreases |history|
  {
    if history != [] {
      var n := |history| - 1;
      var before, origins :| Chain(history[..n], before) && Committed(before, history[n], origins, c);
      ChainIsTrue(history[..n], before);
      CommitTrue(before, history, origins, c);
    }
  }

  lemma {:induction false} FilesKept(before: Catalog, g: Generation, origins: map<Path, Gen>, o: Gen,
                                     plans: seq<FilePlan>)
    requires SameFiles(before, o, plans) && o != g.id
    ensures SameFiles(Commit(before, g, origins), o, plans)
  {
  }

  /** Every origin of a committed generation was built from that generation's source files. */
  lemma {:induction false} OneFileSet(before: Catalog, history: seq<Generation>, g: Generation,
                                      origins: map<Path, Gen>, p: Path)
    requires HistoryTrue(before, history) && Committed(before, g, origins, Commit(before, g, origins)) && p in origins
    ensures SameFiles(Commit(before, g, origins), origins[p], g.plans)
  {
    if p !in g.paths {
      var inherited :| Inherits(before, g, inherited, origins);
      assert (p, inherited[p]) in ParentPairs(before, LatestCommit(before));
      FilesKept(before, g, origins, inherited[p], g.plans);
    }
  }

  /** The last commit of a chain, and the catalog before it. */
  lemma {:induction false} LastCommit(history: seq<Generation>, c: Catalog)
    returns (before: Catalog, origins: map<Path, Gen>)
    requires Chain(history, c) && history != []
    ensures Chain(history[..|history| - 1], before) && Committed(before, history[|history| - 1], origins, c)
    ensures HistoryTrue(before, history[..|history| - 1]) && origins == Origins(history)
  {
    var n := |history| - 1;
    before, origins :| Chain(history[..n], before) && Committed(before, history[n], origins, c);
    ChainIsTrue(history[..n], before);
    LatestOrigins(before, history[..n], history[n], origins);
    FirstAndLast(history);
  }

  lemma {:induction false} FilesStay(before: Catalog, history: seq<Generation>, g: Generation, origins: map<Path, Gen>,
                                     c: Catalog, o: Gen, plans: seq<FilePlan>)
    requires Closed(before, history) && Committed(before, g, origins, c) && SameFiles(before, o, plans)
    requires plans != []
    ensures SameFiles(c, o, plans)
  {
    FilesKept(before, g, origins, o, plans);
  }

  /** The origin of each path of generation k was built from that generation's source files. */
  ghost predicate OriginFilesTrue(c: Catalog, history: seq<Generation>, k: nat, p: Path)
    requires k < |history|
  {
    p in Origins(history[..k + 1]) ==> SameFiles(c, Origins(history[..k + 1])[p], history[k].plans)
  }

  lemma {:induction false} LatestFiles(before: Catalog, history: seq<Generation>, origins: map<Path, Gen>, c: Catalog,
                                       p: Path)
    requires history != [] && HistoryTrue(before, history[..|history| - 1])
    requires Committed(before, history[|history| - 1], origins, c) && origins == Origins(history)
    ensures OriginFilesTrue(c, history, |history| - 1, p)
  {
    var n := |history| - 1;
    PrefixOfPrefix(history, n + 1, n);
    if p in origins {
      OneFileSet(before, history[..n], history[n], origins, p);
    }
  }

  lemma {:induction false} EarlierFiles(before: Catalog, history: seq<Generation>, origins: map<Path, Gen>, c: Catalog,
                                        k: nat, p: Path)
    requires history != [] && Closed(before, history[..|history| - 1])
    requires Committed(before, history[|history| - 1], origins, c) && k < |history| - 1 && history[k].plans != []
    requires OriginFilesTrue(before, history[..|history| - 1], k, p)
    ensures OriginFilesTrue(c, history, k, p)
  {
    var n := |history| - 1;
    PrefixOfPrefix(history, n, k + 1);
    var earlier := Origins(history[..k + 1]);
    if p in earlier {
      FilesStay(before, history[..n], history[n], origins, c, earlier[p], history[k].plans);
    }
  }

  /** In every chain, whatever a generation answers for a path comes from index rows of its own source files. */
  lemma {:induction false} ChainFiles(history: seq<Generation>, c: Catalog, k: nat, p: Path)
    requires Chain(history, c) && k < |history|
    ensures OriginFilesTrue(c, history, k, p)
    decreases |history|
  {
    var n := |history| - 1;
    var before, origins := LastCommit(history, c);
    if k == n {
      LatestFiles(before, history, origins, c, p);
    } else {
      ChainFiles(history[..n], before, k, p);
      assert GenerationOk(before, history[..n], k);
      EarlierFiles(before, history, origins, c, k, p);
    }
  }

  lemma {:induction false} ExtendKeeps(history: seq<Generation>, c: Catalog, p: Path)
    requires HistoryTrue(c, history) && history != [] && history[|history| - 1].mode.Extend?
    requires p in Origins(history[..|history| - 1])
    ensures p in Origins(history) && Origins(history)[p] == Origins(history[..|history| - 1])[p]
  {
    assert GenerationOk(c, history, |history| - 1);
  }

  /** An extension keeps the origin of every path it inherits. */
  lemma {:induction false} ExtendInherits(history: seq<Generation>, c: Catalog, p: Path)
    requires Chain(history, c) && history != [] && history[|history| - 1].mode.Extend?
    requires p in Origins(history[..|history| - 1])
    ensures p in Origins(history) && Origins(history)[p] == Origins(history[..|history| - 1])[p]
  {
    ChainIsTrue(history, c);
    ExtendKeeps(history, c, p);
  }

  /** The generations since the last replacement, up to the last one. */
  predicate SinceReset(history: seq<Generation>, i: int) {
    0 <= i < |history| && forall k :: i < k < |history| ==> history[k].mode.Extend?
  }

  /** Generation i indexed the path, and is its origin. */
  predicate IndexedBy(history: seq<Generation>, i: int, p: Path) {
    SinceReset(history, i) && p in history[i].paths && p in Origins(history) && Origins(history)[p] == history[i].id
  }

  /** A path with an origin was indexed by it since the last replacement, and every generation since then that
      indexed the path is its origin. */
  ghost predicate IndexedOnce(history: seq<Generation>, p: Path) {
    (p in Origins(history) ==> exists i :: IndexedBy(history, i, p)) &&
    forall i :: SinceReset(history, i) && p in history[i].paths ==> IndexedBy(history, i, p)
  }

  /** The origin of a path is the one generation that indexed it since the last replacement. */
  lemma {:induction false} OriginIndexedIt(history: seq<Generation>, c: Catalog, p: Path)
    requires Chain(history, c)
    ensures IndexedOnce(history, p)
    decreases |history|
  {
    if history != [] {
      var n := |history| - 1;
      var before, origins :| Chain(history[..n], before) && Committed(before, history[n], origins, c);
      OriginIndexedIt(history[..n], before, p);
      ChainIsTrue(history, c);
      assert GenerationOk(c, history, n);
      LatestIndexers(history, p);
    }
  }

  /** Who indexed a path, step by step: the last generation itself, or one it extends. */
  lemma {:induction false} LatestIndexers(history: seq<Generation>, p: Path)
    requires history != []
    requires var n := |history| - 1;
      history[n].mode.Extend? ==> AllNew(history[n].paths, Origins(history[..n]))
    requires IndexedOnce(history[..|history| - 1], p)
    ensures IndexedOnce(history, p)
  {
    var n := |history| - 1;
    if p in Origins(history) {
      if p in history[n].paths {
        assert IndexedBy(history, n, p);
      } else {
        var i :| IndexedBy(history[..n], i, p);
        assert IndexedBy(history, i, p);
      }
    }
    forall i | SinceReset(history, i) && p in history[i].paths ensures IndexedBy(history, i, p) {
      if i < n {
        assert history[n].mode.Extend? && SinceReset(history[..n], i) && p in history[..n][i].paths;
        assert IndexedBy(history[..n], i, p);
      }
    }
  }

  // ----- The reader -----

  datatype Lookup = Origin(gen: Gen) | Conflict | Absent

  function OriginsOf(c: Catalog, g: Gen, p: Path): set<Gen> {
    set x | x in Pairs(c, g) && x.0 == p :: x.1
  }

  /** Which physical generation answers for a path. `hasSources` says whether the generation's mapping
      names a version of the path-source table. */
  method PathSnapshot(c: Catalog, g: Gen, p: Path, hasSources: bool) returns (r: Lookup)
    ensures !hasSources ==> r == Origin(g)
    ensures hasSources && Pairs(c, g) == {} ==> r == Origin(g)
    ensures hasSources && Pairs(c, g) != {} ==>
      match r
      case Origin(o) => OriginsOf(c, g, p) == {o}
      case Conflict => |OriginsOf(c, g, p)| > 1
      case Absent => OriginsOf(c, g, p) == {}
  {
    if !hasSources {
      return Origin(g);
    }
    var found := OriginsOf(c, g, p);
    if |found| == 1 {
      var o :| o in found;
      assert |found - {o}| == 0;
      assert found == {o};
      return Origin(o);
    }
    if |found| > 1 {
      return Conflict;
    }
    if Pairs(c, g) != {} {
      return Absent;
    }
    return Origin(g);
  }

  lemma {:induction false} RepresentedOrigins(c: Catalog, g: Gen, origins: map<Path, Gen>, p: Path)
    requires Represents(origins, Pairs(c, g))
    ensures OriginsOf(c, g, p) == if p in origins then {origins[p]} else {}
  {
    if p in origins {
      assert (p, origins[p]) in Pairs(c, g);
    }
  }

  /** What the catalog of a chain says about a path of one of its generations. */
  lemma {:induction false} GenerationOrigins(history: seq<Generation>, c: Catalog, k: nat, p: Path)
    requires k < |history| && GenerationOk(c, history, k)
    ensures history[k].mode.Legacy? ==> Pairs(c, history[k].id) == {}
    ensures !history[k].mode.Legacy? ==>
      var origins := Origins(history[..k + 1]);
      Pairs(c, history[k].id) != {} && OriginsOf(c, history[k].id, p) == if p in origins then {origins[p]} else {}
  {
    if !history[k].mode.Legacy? {
      RepresentedOrigins(c, history[k].id, Origins(history[..k + 1]), p);
      OwnPathsIn(history[..k + 1]);
      var q :| q in Origins(history[..k + 1]);
      assert (q, Origins(history[..k + 1])[q]) in Pairs(c, history[k].id);
    }
  }

  /** Every committed generation of a chain answers each path with the generation that indexed it since the
      last replacement, and knows the paths it does not have; a legacy generation answers for itself. */
  method ReadPath(history: seq<Generation>, c: Catalog, k: nat, p: Path, hasSources: bool) returns (r: Lookup)
    requires Chain(history, c) && k < |history| && (hasSources || history[k].mode.Legacy?)
    ensures history[k].mode.Legacy? ==> r == Origin(history[k].id)
    ensures !history[k].mode.Legacy? ==>
      r == if p in Origins(history[..k + 1]) then Origin(Origins(history[..k + 1])[p]) else Absent
  {
    ChainIsTrue(history, c);
    GenerationOrigins(history, c, k, p);
    r := PathSnapshot(c, history[k].id, p, hasSources);
  }
}
