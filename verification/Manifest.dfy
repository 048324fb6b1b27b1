/** Workspace manifests: the two-pass validator with its early exits and running
    totals, and what every accepted manifest guarantees. A path stands for its
    UTF-8 bytes, one `char` per byte. */
module Manifest {
  import opened Words
  import opened Wrappers
  import opened Ordering

  const MAX_PATH_BYTES: nat := 4096
  const MAX_WORKSPACE_ENTRIES: nat := 4096
  const MAX_WORKSPACE_PATH_BYTES: nat := 1024 * 1024
  const MAX_WORKSPACE_DEPTH: nat := 128
  const MAX_WORKSPACE_LOGICAL_BYTES: nat := 2 * 1024 * 1024 * 1024

  datatype Entry =
    | Directory(path: string)
    | File(path: string, digest: string, sizeBytes: nat, executable: bool)
    | Symlink(path: string, target: string)

  datatype WorkspaceManifest = WorkspaceManifest(schemaVersion: nat, entries: seq<Entry>)

  datatype Fault =
    | SchemaVersion | TooManyEntries | PortablePath | ReservedPath | PathBytes
    | CaseCollision | LogicalBytes | SymlinkEntry | ParentDirectory

  // ----- portable paths -----

  function Components(path: string): (parts: seq<string>)
    ensures |parts| > 0
  {
    if |path| == 0 then [""]
    else
      var parts, last := Components(path[..|path| - 1]), path[|path| - 1];
      if last == '/' then parts + [""]
      else parts[..|parts| - 1] + [parts[|parts| - 1] + [last]]
  }

  function Lower(c: char): char {
    if 'A' <= c <= 'Z' then (c as int + 32) as char else c
  }

  function Upper(c: char): char {
    if 'a' <= c <= 'z' then (c as int - 32) as char else c
  }

  /** `to_ascii_lowercase`. */
  function Fold(s: string): string {
    seq(|s|, i requires 0 <= i < |s| => Lower(s[i]))
  }

  function UpperCased(s: string): string {
    seq(|s|, i requires 0 <= i < |s| => Upper(s[i]))
  }

  function UpToDot(s: string): string {
    if |s| == 0 || s[0] == '.' then "" else [s[0]] + UpToDot(s[1..])
  }

  /** Windows device names, with or without an extension. */
  predicate Reserved(component: string) {
    var base := UpperCased(UpToDot(component));
    || base in {"CON", "PRN", "AUX", "NUL", "CONIN$", "CONOUT$", "CLOCK$"}
    || (|base| == 4 && (base[..3] == "COM" || base[..3] == "LPT") && '1' <= base[3] <= '9')
  }

  predicate ForbiddenByte(c: char) {
    c < ' ' || c in {'<', '>', ':', '\"', '|', '?', '*'}
  }

  /** A component that every supported host can store under exactly this name. */
  ghost predicate PortableComponent(component: string) {
    && component != ""
    && component[|component| - 1] !in {'.', ' '}
    && (forall i | 0 <= i < |component| :: !ForbiddenByte(component[i]))
    && !Reserved(component)
  }

  ghost predicate Portable(path: string) {
    && |path| <= MAX_PATH_BYTES
    && (forall i | 0 <= i < |path| :: path[i] < 128 as char && path[i] != '\\')
    && |Components(path)| <= MAX_WORKSPACE_DEPTH
    && forall i | 0 <= i < |Components(path)| :: PortableComponent(Components(path)[i])
  }

  lemma {:induction false} LeadingSlash(path: string)
    requires |path| > 0 && path[0] == '/'
    ensures Components(path)[0] == "" && |Components(path)| > 1
  {
    if |path| > 1 {
      LeadingSlash(path[..|path| - 1]);
    } else {
      assert path[..0] == "";
    }
  }

  /** A NUL byte ends up in some component, where it is a control byte. */
  lemma {:induction false} ComponentsKeepBytes(path: string, c: char)
    requires c in path && c != '/'
    ensures exists i | 0 <= i < |Components(path)| :: c in Components(path)[i]
  {
    var front, last := path[..|path| - 1], path[|path| - 1];
    var parts, all := Components(front), Components(path);
    if c == last {
      assert c in all[|all| - 1];
    } else {
      ComponentsKeepBytes(front, c);
      var i :| 0 <= i < |parts| && c in parts[i];
      assert c in all[i];
    }
  }

  method CheckComponent(component: string) returns (fault: Option<Fault>)
    ensures fault.None? <==> PortableComponent(component)
    ensures fault == Some(ReservedPath) ==> Reserved(component)
    ensures fault.Some? ==> fault.value in {PortablePath, ReservedPath}
  {
    var n := |component|;
    if n == 0 || component == "." || component == ".." || component[n - 1] == '.' || component[n - 1] == ' '
       || exists i | 0 <= i < n :: ForbiddenByte(component[i]) {
      return Some(PortablePath);
    }
    return if Reserved(component) then Some(ReservedPath) else None;
  }

  /** `validate_portable_workspace_path`. */
  method CheckPath(path: string) returns (fault: Option<Fault>)
    ensures fault.None? <==> Portable(path)
    ensures fault.Some? ==> fault.value in {PortablePath, ReservedPath}
  {
    var parts := Components(path);
    if path == "" || |path| > MAX_PATH_BYTES || |parts| > MAX_WORKSPACE_DEPTH
       || (exists i | 0 <= i < |path| :: path[i] >= 128 as char)
       || path[0] == '/' || '\\' in path || '\0' in path {
      if path == "" {
        assert parts[0] == "";
      } else if path[0] == '/' {
        LeadingSlash(path);
      } else if '\0' in path {
        ComponentsKeepBytes(path, '\0');
      }
      return Some(PortablePath);
    }
    for i := 0 to |parts|
      invariant forall j | 0 <= j < i :: PortableComponent(parts[j])
    {
      fault := CheckComponent(parts[i]);
      if fault.Some? {
        return;
      }
    }
    return None;
  }

  // ----- what a valid manifest is -----

  function PathTotal(entries: seq<Entry>): nat {
    if |entries| == 0 then 0 else PathTotal(entries[..|entries| - 1]) + |entries[|entries| - 1].path|
  }

  function SizeOf(entry: Entry): nat {
    if entry.File? then entry.sizeBytes else 0
  }

  function FileTotal(entries: seq<Entry>): nat {
    if |entries| == 0 then 0 else FileTotal(entries[..|entries| - 1]) + SizeOf(entries[|entries| - 1])
  }

  ghost predicate DistinctFolded(entries: seq<Entry>) {
    forall i, j | 0 <= i < j < |entries| :: Fold(entries[i].path) != Fold(entries[j].path)
  }

  /** Every proper ancestor of `path` is a directory entry. */
  ghost predicate AncestorsListed(entries: seq<Entry>, path: string) {
    forall k | 0 <= k < |path| && path[k] == '/' :: Directory(path[..k]) in entries
  }

  ghost predicate Storable(entry: Entry) {
    !entry.Symlink? && Portable(entry.path)
  }

  ghost predicate Valid(m: WorkspaceManifest) {
    && m.schemaVersion == 1
    && |m.entries| <= MAX_WORKSPACE_ENTRIES
    && (forall e | e in m.entries :: Storable(e))
    && PathTotal(m.entries) <= MAX_WORKSPACE_PATH_BYTES
    && FileTotal(m.entries) <= MAX_WORKSPACE_LOGICAL_BYTES
    && DistinctFolded(m.entries)
    && (forall e | e in m.entries :: AncestorsListed(m.entries, e.path))
  }

  /** A reported fault names a clause that really fails. */
  ghost predicate Explains(m: WorkspaceManifest, fault: Fault) {
    match fault
    case SchemaVersion => m.schemaVersion != 1
    case TooManyEntries => |m.entries| > MAX_WORKSPACE_ENTRIES
    case PortablePath | ReservedPath => exists e | e in m.entries :: !Portable(e.path)
    case PathBytes => PathTotal(m.entries) > MAX_WORKSPACE_PATH_BYTES
    case CaseCollision => !DistinctFolded(m.entries)
    case LogicalBytes => FileTotal(m.entries) > MAX_WORKSPACE_LOGICAL_BYTES
    case SymlinkEntry => exists e | e in m.entries :: e.Symlink?
    case ParentDirectory => exists e | e in m.entries :: !AncestorsListed(m.entries, e.path)
  }

  // ----- the validator -----

  lemma {:induction false} TotalsGrow(entries: seq<Entry>, i: nat)
    requires i <= |entries|
    ensures PathTotal(entries[..i]) <= PathTotal(entries)
    ensures FileTotal(entries[..i]) <= FileTotal(entries)
    decreases |entries| - i
  {
    if i == |entries| {
      assert entries[..i] == entries;
    } else {
      TotalsGrow(entries, i + 1);
      assert entries[..i + 1][..i] == entries[..i];
    }
  }

  /** What the first pass knows after `i` entries. */
  ghost predicate Scanned(entries: seq<Entry>, i: nat, paths: map<string, bool>, folded: set<string>)
    requires i <= |entries|
  {
    && (forall e | e in entries[..i] :: Storable(e))
    && DistinctFolded(entries[..i])
    && folded == (set e | e in entries[..i] :: Fold(e.path))
    && paths.Keys == (set e | e in entries[..i] :: e.path)
    && forall p | p in paths :: paths[p] <==> Directory(p) in entries[..i]
  }

  lemma ScanOne(entries: seq<Entry>, i: nat, paths: map<string, bool>, folded: set<string>)
    requires i < |entries| && Scanned(entries, i, paths, folded)
    requires Storable(entries[i]) && Fold(entries[i].path) !in folded
    ensures var e := entries[i];
            Scanned(entries, i + 1, paths[e.path := e.Directory?], folded + {Fold(e.path)})
  {
    var e := entries[i];
    var next := entries[..i + 1];
    assert next == entries[..i] + [e];
    forall f | f in entries[..i] ensures f.path != e.path {
      assert Fold(f.path) in folded;
    }
    forall j | 0 <= j < i ensures Fold(next[j].path) != Fold(e.path) {
      assert next[j] in entries[..i];
    }
  }

  /** The checks one entry gets in the first pass, in order, with the running
      totals after it. Two equal paths fold alike, so the duplicate-path exit that
      follows the collision exit in the source is never taken. */
  method CheckEntry(entry: Entry, pathBytes: nat, fileBytes: nat, folded: set<string>)
    returns (r: Result<(nat, nat), Fault>)
    requires pathBytes <= MAX_WORKSPACE_PATH_BYTES && fileBytes <= MAX_WORKSPACE_LOGICAL_BYTES
    ensures r.Ok? <==>
              && Storable(entry)
              && pathBytes + |entry.path| <= MAX_WORKSPACE_PATH_BYTES
              && fileBytes + SizeOf(entry) <= MAX_WORKSPACE_LOGICAL_BYTES
              && Fold(entry.path) !in folded
    ensures r.Ok? ==> r.value == (pathBytes + |entry.path|, fileBytes + SizeOf(entry))
    ensures r.Err? ==>
              match r.error
              case PortablePath | ReservedPath => !Portable(entry.path)
              case PathBytes => pathBytes + |entry.path| > MAX_WORKSPACE_PATH_BYTES
              case CaseCollision => Fold(entry.path) in folded
              case LogicalBytes => fileBytes + SizeOf(entry) > MAX_WORKSPACE_LOGICAL_BYTES
              case SymlinkEntry => entry.Symlink?
              case _ => false
  {
    var fault := CheckPath(entry.path);
    if fault.Some? {
      return Err(fault.value);
    }
    var totalPathBytes := SatAdd(pathBytes, |entry.path|);
    if totalPathBytes > MAX_WORKSPACE_PATH_BYTES {
      return Err(PathBytes);
    }
    if Fold(entry.path) in folded {
      return Err(CaseCollision);
    }
    var totalFileBytes := fileBytes;
    match entry {
      case File(_, _, sizeBytes, _) =>
        totalFileBytes := SatAdd(totalFileBytes, sizeBytes);
        if totalFileBytes > MAX_WORKSPACE_LOGICAL_BYTES {
          return Err(LogicalBytes);
        }
      case Symlink(_, _) =>
        return Err(SymlinkEntry);
      case Directory(_) =>
    }
    return Ok((totalPathBytes, totalFileBytes));
  }

  lemma EntryFaultExplains(entries: seq<Entry>, i: nat, paths: map<string, bool>,
                           folded: set<string>, fault: Fault)
    requires i < |entries| && Scanned(entries, i, paths, folded)
    requires var e := entries[i];
             match fault
             case PortablePath | ReservedPath => !Portable(e.path)
             case PathBytes => PathTotal(entries[..i]) + |e.path| > MAX_WORKSPACE_PATH_BYTES
             case CaseCollision => Fold(e.path) in folded
             case LogicalBytes => FileTotal(entries[..i]) + SizeOf(e) > MAX_WORKSPACE_LOGICAL_BYTES
             case SymlinkEntry => e.Symlink?
             case _ => false
    ensures Explains(WorkspaceManifest(1, entries), fault)
  {
    assert entries[i] in entries;
    assert entries[..i + 1][..i] == entries[..i];
    TotalsGrow(entries, i + 1);
    if fault == CaseCollision {
      CollisionFound(entries, i, paths, folded);
    }
  }

  /** What the first pass is to establish. */
  ghost predicate Admissible(entries: seq<Entry>) {
    && (forall e | e in entries :: Storable(e))
    && PathTotal(entries) <= MAX_WORKSPACE_PATH_BYTES
    && FileTotal(entries) <= MAX_WORKSPACE_LOGICAL_BYTES
    && DistinctFolded(entries)
  }

  lemma FirstFaultIsNotAdmissible(entries: seq<Entry>, fault: Fault)
    requires Explains(WorkspaceManifest(1, entries), fault)
    requires fault !in {SchemaVersion, TooManyEntries, ParentDirectory}
    ensures !Admissible(entries)
  {
  }

  method FirstPass(entries: seq<Entry>) returns (r: Result<map<string, bool>, Fault>)
    ensures r.Ok? <==> Admissible(entries)
    ensures r.Ok? ==> exists folded :: Scanned(entries, |entries|, r.value, folded)
    ensures r.Err? ==> Explains(WorkspaceManifest(1, entries), r.error)
    ensures r.Err? ==> r.error !in {SchemaVersion, TooManyEntries, ParentDirectory}
  {
    var paths: map<string, bool> := map[];
    var folded: set<string> := {};
    var totalPathBytes, totalFileBytes := 0, 0;
    for i := 0 to |entries|
      invariant Scanned(entries, i, paths, folded)
      invariant totalPathBytes == PathTotal(entries[..i]) <= MAX_WORKSPACE_PATH_BYTES
      invariant totalFileBytes == FileTotal(entries[..i]) <= MAX_WORKSPACE_LOGICAL_BYTES
    {
      var entry := entries[i];
      var checked := CheckEntry(entry, totalPathBytes, totalFileBytes, folded);
      if checked.Err? {
        EntryFaultExplains(entries, i, paths, folded, checked.error);
        FirstFaultIsNotAdmissible(entries, checked.error);
        return Err(checked.error);
      }
      ScanOne(entries, i, paths, folded);
      assert entries[..i + 1][..i] == entries[..i];
      totalPathBytes, totalFileBytes := checked.value.0, checked.value.1;
      paths := paths[entry.path := entry.Directory?];
      folded := folded + {Fold(entry.path)};
    }
    assert entries[..|entries|] == entries;
    return Ok(paths);
  }

  lemma CollisionFound(entries: seq<Entry>, i: nat, paths: map<string, bool>, folded: set<string>)
    requires i < |entries| && Scanned(entries, i, paths, folded)
    requires Fold(entries[i].path) in folded
    ensures !DistinctFolded(entries)
  {
    var e :| e in entries[..i] && Fold(e.path) == Fold(entries[i].path);
    var j :| 0 <= j < i && entries[j] == e;
  }

  method FindSlash(path: string, from: nat) returns (k: nat)
    requires from <= |path|
    ensures from <= k <= |path| && '/' !in path[from..k]
    ensures k < |path| ==> path[k] == '/'
  {
    k := from;
    while k < |path| && path[k] != '/'
      invariant from <= k <= |path| && '/' !in path[from..k]
    {
      k := k + 1;
    }
  }

  /** The inner loop of the second pass: every prefix that ends at a slash. */
  method CheckParents(path: string, paths: map<string, bool>) returns (ok: bool)
    ensures ok <==> forall k | 0 <= k < |path| && path[k] == '/' ::
                      path[..k] in paths && paths[path[..k]]
  {
    var parentEnd := 0;
    while parentEnd < |path|
      invariant parentEnd <= |path|
      invariant forall j | 0 <= j < parentEnd && path[j] == '/' :: path[..j] in paths && paths[path[..j]]
    {
      var slash := FindSlash(path, parentEnd);
      assert forall j | parentEnd <= j < slash :: path[j] == path[parentEnd..slash][j - parentEnd] != '/';
      if slash == |path| {
        return true;
      }
      if !(path[..slash] in paths && paths[path[..slash]]) {
        return false;
      }
      parentEnd := slash + 1;
    }
    return true;
  }

  method SecondPass(entries: seq<Entry>, paths: map<string, bool>) returns (ok: bool)
    requires paths.Keys == (set e | e in entries :: e.path)
    requires forall p | p in paths :: paths[p] <==> Directory(p) in entries
    ensures ok <==> forall e | e in entries :: AncestorsListed(entries, e.path)
  {
    for i := 0 to |entries|
      invariant forall j | 0 <= j < i :: AncestorsListed(entries, entries[j].path)
    {
      ok := CheckParents(entries[i].path, paths);
      ListedMeansDirectory(entries, paths, entries[i].path);
      if !ok {
        assert entries[i] in entries;
        return;
      }
    }
    return true;
  }

  method Validate(m: WorkspaceManifest) returns (r: Result<(), Fault>)
    ensures r.Ok? <==> Valid(m)
    ensures r.Err? ==> Explains(m, r.error)
  {
    if m.schemaVersion != 1 {
      return Err(SchemaVersion);
    }
    if |m.entries| > MAX_WORKSPACE_ENTRIES {
      return Err(TooManyEntries);
    }
    var first := FirstPass(m.entries);
    if first.Err? {
      ExplainedIsInvalid(m, first.error);
      return Err(first.error);
    }
    assert m.entries[..|m.entries|] == m.entries;
    var ok := SecondPass(m.entries, first.value);
    return if ok then Ok(()) else Err(ParentDirectory);
  }

  lemma ExplainedIsInvalid(m: WorkspaceManifest, fault: Fault)
    requires m.schemaVersion == 1 && Explains(WorkspaceManifest(1, m.entries), fault)
    ensures Explains(m, fault) && !Valid(m)
  {
    assert m == WorkspaceManifest(1, m.entries);
  }

  lemma ListedMeansDirectory(entries: seq<Entry>, paths: map<string, bool>, path: string)
    requires paths.Keys == (set e | e in entries :: e.path)
    requires forall p | p in paths :: paths[p] <==> Directory(p) in entries
    ensures AncestorsListed(entries, path)
       <==> forall k | 0 <= k < |path| && path[k] == '/' :: path[..k] in paths && paths[path[..k]]
  {
    forall p: string ensures Directory(p) in entries <==> p in paths && paths[p] {
      if Directory(p) in entries {
        assert Directory(p).path in paths.Keys;
      }
    }
  }

  /** `logical_bytes`: a saturating fold over the entries. */
  function LogicalTotal(entries: seq<Entry>): nat {
    if |entries| == 0 then 0
    else SatAdd(LogicalTotal(entries[..|entries| - 1]), SizeOf(entries[|entries| - 1]))
  }

  // ----- what validity buys -----

  predicate PathLeq(a: Entry, b: Entry) {
    StrLeq(a.path, b.path)
  }

  /** The entry order that is hashed. */
  function Canonical(m: WorkspaceManifest): WorkspaceManifest {
    m.(entries := Sort(m.entries, PathLeq))
  }

  lemma PathOrder()
    ensures TotalPreorder(PathLeq)
  {
    forall a: string, b: string ensures StrLeq(a, b) || StrLeq(b, a) { StrTotal(a, b); }
    forall a: string, b: string, c: string | StrLeq(a, b) && StrLeq(b, c) ensures StrLeq(a, c) {
      StrTransitive(a, b, c);
    }
  }

  lemma {:induction false} SaturationNeverActs(entries: seq<Entry>)
    ensures LogicalTotal(entries) == Min(FileTotal(entries), U64_MAX)
  {
    if |entries| > 0 {
      SaturationNeverActs(entries[..|entries| - 1]);
    }
  }

  /** On accepted manifests the logical size is the exact sum of the file sizes. */
  lemma LogicalBytesExact(m: WorkspaceManifest)
    requires Valid(m)
    ensures LogicalTotal(m.entries) == FileTotal(m.entries) <= MAX_WORKSPACE_LOGICAL_BYTES
  {
    SaturationNeverActs(m.entries);
  }

  lemma {:induction false} TotalsOfSplit(front: seq<Entry>, e: Entry, back: seq<Entry>)
    ensures PathTotal(front + [e] + back) == PathTotal(front + back) + |e.path|
    ensures FileTotal(front + [e] + back) == FileTotal(front + back) + SizeOf(e)
  {
    if |back| == 0 {
      assert front + [e] + back == front + [e] && front + back == front;
      assert (front + [e])[..|front|] == front;
    } else {
      var n := |back| - 1;
      TotalsOfSplit(front, e, back[..n]);
      assert (front + [e] + back)[..|front| + 1 + n] == front + [e] + back[..n];
      assert (front + back)[..|front| + n] == front + back[..n];
    }
  }

  lemma {:induction false} TotalsPermute(a: seq<Entry>, b: seq<Entry>)
    requires Permuted(a, b)
    ensures PathTotal(a) == PathTotal(b) && FileTotal(a) == FileTotal(b)
  {
    if |a| == 0 {
      assert |multiset(b)| == 0;
    } else {
      var n := |a| - 1;
      var k := FindLast(a, b);
      TotalsPermute(a[..n], b[..k] + b[k + 1..]);
      TotalsOfSplit(b[..k], a[n], b[k + 1..]);
    }
  }

  /** Distinctness, said without positions. */
  ghost predicate DistinctMembers(entries: seq<Entry>) {
    && (forall e | e in entries :: multiset(entries)[e] == 1)
    && forall e, f | e in entries && f in entries && e != f :: Fold(e.path) != Fold(f.path)
  }

  lemma CountAtLeastTwo(xs: seq<Entry>, i: nat, j: nat)
    requires i < j < |xs| && xs[i] == xs[j]
    ensures multiset(xs)[xs[i]] >= 2
  {
    assert xs == xs[..j] + [xs[j]] + xs[j + 1..];
    assert xs[i] in xs[..j];
  }

  lemma {:induction false} CountAtMostOne(xs: seq<Entry>, e: Entry)
    requires DistinctFolded(xs)
    ensures multiset(xs)[e] <= 1
  {
    if |xs| > 0 {
      var n := |xs| - 1;
      assert xs == xs[..n] + [xs[n]];
      CountAtMostOne(xs[..n], e);
      assert xs[n] !in xs[..n];
    }
  }

  lemma DistinctFoldedIsUnordered(entries: seq<Entry>)
    ensures DistinctFolded(entries) <==> DistinctMembers(entries)
  {
    if DistinctFolded(entries) {
      forall e | e in entries ensures multiset(entries)[e] == 1 {
        CountAtMostOne(entries, e);
        assert e in multiset(entries);
      }
    } else {
      var i, j :| 0 <= i < j < |entries| && Fold(entries[i].path) == Fold(entries[j].path);
      if entries[i] == entries[j] {
        CountAtLeastTwo(entries, i, j);
      }
    }
  }

  /** Acceptance does not depend on the order of the entries. */
  lemma ValidIsUnordered(a: WorkspaceManifest, b: WorkspaceManifest)
    requires a.schemaVersion == b.schemaVersion && Permuted(a.entries, b.entries)
    ensures Valid(a) <==> Valid(b)
  {
    TotalsPermute(a.entries, b.entries);
    DistinctFoldedIsUnordered(a.entries);
    DistinctFoldedIsUnordered(b.entries);
    assert |a.entries| == |multiset(a.entries)| == |multiset(b.entries)| == |b.entries|;
    SameMembers(a.entries, b.entries);
  }

  lemma SameMembers(a: seq<Entry>, b: seq<Entry>)
    requires Permuted(a, b)
    ensures forall e :: e in a <==> e in b
  {
    forall e ensures e in a <==> e in b {
      assert e in a <==> e in multiset(a);
      assert e in b <==> e in multiset(b);
    }
  }

  /** `q` is `p` itself or one of its ancestor directories. */
  ghost predicate SelfOrAncestor(q: string, p: string) {
    q == p || exists k | 0 <= k < |p| :: p[k] == '/' && q == p[..k]
  }

  lemma AncestorIsListed(m: WorkspaceManifest, e: Entry, q: string)
    requires Valid(m) && e in m.entries && SelfOrAncestor(q, e.path)
    ensures exists f | f in m.entries :: f.path == q && (q != e.path ==> f.Directory?)
  {
    if q != e.path {
      assert Directory(q) in m.entries && Directory(q).path == q;
    }
  }

  /** On a case-insensitive host no two prefixes of accepted paths can be
      confused: if they agree after folding they are the same. */
  lemma FoldedPrefixesAreIdentical(m: WorkspaceManifest, e: Entry, p: string, f: Entry, q: string)
    requires Valid(m) && e in m.entries && f in m.entries
    requires SelfOrAncestor(p, e.path) && SelfOrAncestor(q, f.path) && Fold(p) == Fold(q)
    ensures p == q
  {
    AncestorIsListed(m, e, p);
    AncestorIsListed(m, f, q);
    var a :| a in m.entries && a.path == p;
    var b :| b in m.entries && b.path == q;
    DistinctFoldedIsUnordered(m.entries);
  }

  /** An entry that is an ancestor of another one is a directory. */
  lemma NoFileIsAnAncestor(m: WorkspaceManifest, e: Entry, f: Entry, k: nat)
    requires Valid(m) && e in m.entries && f in m.entries
    requires k < |e.path| && e.path[k] == '/' && f.path == e.path[..k]
    ensures f == Directory(e.path[..k])
  {
    DistinctFoldedIsUnordered(m.entries);
    assert Directory(e.path[..k]) in m.entries;
    assert Fold(Directory(e.path[..k]).path) == Fold(f.path);
  }

  /** In canonical order a directory comes before everything beneath it. */
  lemma ParentsPrecede(m: WorkspaceManifest, i: nat, j: nat, k: nat)
    requires var c := Canonical(m).entries;
             && i < |c| && j < |c|
             && k < |c[j].path| && c[j].path[k] == '/' && c[i].path == c[j].path[..k]
    ensures i < j
  {
    var c := Canonical(m).entries;
    PathOrder();
    SortSorts(m.entries, PathLeq);
    if j < i {
      assert PathLeq(c[j], c[i]);
      PrefixIsBelow(c[i].path, c[j].path);
      StrAntisymmetric(c[i].path, c[j].path);
    }
  }
}
