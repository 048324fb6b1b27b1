/** Manifest patches: exact-path removals and upserts applied to a retained base
    manifest through an ordered path map. */
module Patch {
  import opened Wrappers
  import opened Ordering
  import opened Manifest

  datatype PatchEntry =
    | Remove(path: string)
    | PutDirectory(path: string)
    | PutFile(path: string, digest: string, sizeBytes: nat, executable: bool)

  datatype WorkspaceManifestPatch =
    WorkspaceManifestPatch(schemaVersion: nat, baseManifestDigest: string, entries: seq<PatchEntry>)

  datatype PatchFault =
    | PatchSchemaVersion | TooManyPatchEntries | DuplicatePatchPath
    | FinalManifest(fault: Fault)

  ghost predicate DistinctPatchPaths(entries: seq<PatchEntry>) {
    forall i, j | 0 <= i < j < |entries| :: entries[i].path != entries[j].path
  }

  ghost predicate ValidPatch(p: WorkspaceManifestPatch) {
    p.schemaVersion == 1 && |p.entries| <= MAX_WORKSPACE_ENTRIES && DistinctPatchPaths(p.entries)
  }

  method ValidatePatch(p: WorkspaceManifestPatch) returns (r: Result<(), PatchFault>)
    ensures r.Ok? <==> ValidPatch(p)
    ensures r == Err(PatchSchemaVersion) <==> p.schemaVersion != 1
    ensures r == Err(TooManyPatchEntries) <==> p.schemaVersion == 1 && |p.entries| > MAX_WORKSPACE_ENTRIES
    ensures r.Err? ==> !r.error.FinalManifest?
  {
    if p.schemaVersion != 1 {
      return Err(PatchSchemaVersion);
    }
    if |p.entries| > MAX_WORKSPACE_ENTRIES {
      return Err(TooManyPatchEntries);
    }
    var seen: set<string> := {};
    for i := 0 to |p.entries|
      invariant seen == set j | 0 <= j < i :: p.entries[j].path
      invariant DistinctPatchPaths(p.entries[..i])
    {
      if p.entries[i].path in seen {
        return Err(DuplicatePatchPath);
      }
      seen := seen + {p.entries[i].path};
    }
    assert p.entries[..|p.entries|] == p.entries;
    return Ok(());
  }

  // ----- what a list of entries says about a path -----

  /** The entry a path map built front to back holds for `path`. */
  function Lookup(entries: seq<Entry>, path: string): Option<Entry> {
    if |entries| == 0 then None
    else if entries[|entries| - 1].path == path then Some(entries[|entries| - 1])
    else Lookup(entries[..|entries| - 1], path)
  }

  function LookupPatch(entries: seq<PatchEntry>, path: string): Option<PatchEntry> {
    if |entries| == 0 then None
    else if entries[|entries| - 1].path == path then Some(entries[|entries| - 1])
    else LookupPatch(entries[..|entries| - 1], path)
  }

  function Upserted(e: PatchEntry): Option<Entry> {
    match e
    case Remove(_) => None
    case PutDirectory(path) => Some(Directory(path))
    case PutFile(path, digest, size, executable) => Some(File(path, digest, size, executable))
  }

  /** The base with the patch laid over it, path by path. */
  function Overlaid(base: seq<Entry>, patch: seq<PatchEntry>, path: string): Option<Entry> {
    match LookupPatch(patch, path)
    case None => Lookup(base, path)
    case Some(e) => Upserted(e)
  }

  // ----- the ordered map -----

  /** An ordered map from paths to entries, as its values in key order. */
  ghost predicate Tree(t: seq<Entry>) {
    forall i, j | 0 <= i < j < |t| :: PathLeq(t[i], t[j]) && t[i].path != t[j].path
  }

  function Put(t: seq<Entry>, e: Entry): seq<Entry> {
    if |t| == 0 then [e]
    else if e.path == t[0].path then [e] + t[1..]
    else if StrLeq(e.path, t[0].path) then [e] + t
    else [t[0]] + Put(t[1..], e)
  }

  function Drop(t: seq<Entry>, path: string): seq<Entry> {
    if |t| == 0 then []
    else if t[0].path == path then t[1..]
    else [t[0]] + Drop(t[1..], path)
  }

  function PatchOne(t: seq<Entry>, e: PatchEntry): seq<Entry> {
    match Upserted(e) case None => Drop(t, e.path) case Some(entry) => Put(t, entry)
  }

  function Load(entries: seq<Entry>): seq<Entry> {
    if |entries| == 0 then [] else Put(Load(entries[..|entries| - 1]), entries[|entries| - 1])
  }

  function PatchAll(t: seq<Entry>, patch: seq<PatchEntry>): seq<Entry> {
    if |patch| == 0 then t else PatchOne(PatchAll(t, patch[..|patch| - 1]), patch[|patch| - 1])
  }

  function Applied(base: seq<Entry>, patch: seq<PatchEntry>): seq<Entry> {
    PatchAll(Load(base), patch)
  }

  method ApplyTo(p: WorkspaceManifestPatch, base: WorkspaceManifest)
    returns (r: Result<WorkspaceManifest, PatchFault>)
    ensures r.Ok? <==>
              ValidPatch(p) && Valid(WorkspaceManifest(1, Applied(base.entries, p.entries)))
    ensures r.Ok? ==> r.value == WorkspaceManifest(1, Applied(base.entries, p.entries))
    ensures r.Err? ==>
              if ValidPatch(p) then
                r.error.FinalManifest?
                && Explains(WorkspaceManifest(1, Applied(base.entries, p.entries)), r.error.fault)
              else !r.error.FinalManifest?
  {
    var checked := ValidatePatch(p);
    if checked.Err? {
      return Err(checked.error);
    }
    var tree: seq<Entry> := [];
    for i := 0 to |base.entries|
      invariant tree == Load(base.entries[..i])
    {
      assert base.entries[..i + 1][..i] == base.entries[..i];
      tree := Put(tree, base.entries[i]);
    }
    assert base.entries[..|base.entries|] == base.entries;
    for i := 0 to |p.entries|
      invariant tree == PatchAll(Load(base.entries), p.entries[..i])
    {
      assert p.entries[..i + 1][..i] == p.entries[..i];
      match p.entries[i] {
        case Remove(path) => tree := Drop(tree, path);
        case PutDirectory(path) => tree := Put(tree, Directory(path));
        case PutFile(path, digest, size, executable) =>
          tree := Put(tree, File(path, digest, size, executable));
      }
    }
    assert p.entries[..|p.entries|] == p.entries;
    var final := WorkspaceManifest(1, tree);
    var verdict := Validate(final);
    return if verdict.Ok? then Ok(final) else Err(FinalManifest(verdict.error));
  }

  // ----- the ordered map is the overlay -----

  lemma {:induction false} LookupFound(entries: seq<Entry>, path: string)
    ensures match Lookup(entries, path)
            case Some(e) => e in entries && e.path == path
            case None => forall e | e in entries :: e.path != path
  {
    if |entries| > 0 {
      var n := |entries| - 1;
      LookupFound(entries[..n], path);
      assert entries == entries[..n] + [entries[n]];
    }
  }

  ghost predicate DistinctPaths(entries: seq<Entry>) {
    forall i, j | 0 <= i < j < |entries| :: entries[i].path != entries[j].path
  }

  lemma LookupMember(entries: seq<Entry>, e: Entry)
    requires DistinctPaths(entries) && e in entries
    ensures Lookup(entries, e.path) == Some(e)
  {
    LookupFound(entries, e.path);
  }

  lemma {:induction false} PutMembers(t: seq<Entry>, e: Entry)
    requires Tree(t)
    ensures forall f :: f in Put(t, e) <==> f == e || (f in t && f.path != e.path)
  {
    if |t| > 0 {
      assert t == [t[0]] + t[1..];
      PutMembers(t[1..], e);
      if StrLeq(e.path, t[0].path) && e.path != t[0].path {
        forall f | f in t[1..] ensures f.path != e.path {
          StrAntisymmetricIfEqual(e.path, t[0].path, f.path);
        }
      }
    }
  }

  lemma StrAntisymmetricIfEqual(a: string, b: string, c: string)
    requires StrLeq(a, b) && StrLeq(b, c) && a != b
    ensures a != c
  {
    if a == c {
      StrAntisymmetric(a, b);
    }
  }

  lemma {:induction false} DropMembers(t: seq<Entry>, path: string)
    requires Tree(t)
    ensures forall f :: f in Drop(t, path) <==> f in t && f.path != path
  {
    if |t| > 0 {
      assert t == [t[0]] + t[1..];
      DropMembers(t[1..], path);
    }
  }

  lemma TreeCons(e: Entry, t: seq<Entry>)
    requires Tree(t) && forall f | f in t :: PathLeq(e, f) && e.path != f.path
    ensures Tree([e] + t)
  {
  }

  lemma {:induction false} PutKeepsTree(t: seq<Entry>, e: Entry)
    requires Tree(t)
    ensures Tree(Put(t, e))
  {
    if |t| > 0 {
      var rest := t[1..];
      forall f | f in rest ensures PathLeq(t[0], f) && t[0].path != f.path {}
      StrTotal(e.path, t[0].path);
      if e.path == t[0].path {
        TreeCons(e, rest);
      } else if StrLeq(e.path, t[0].path) {
        forall f | f in t ensures PathLeq(e, f) && e.path != f.path {
          if f != t[0] {
            StrTransitive(e.path, t[0].path, f.path);
            StrAntisymmetricIfEqual(e.path, t[0].path, f.path);
          }
        }
        TreeCons(e, t);
      } else {
        PutKeepsTree(rest, e);
        PutMembers(rest, e);
        TreeCons(t[0], Put(rest, e));
      }
    }
  }

  lemma {:induction false} DropKeepsTree(t: seq<Entry>, path: string)
    requires Tree(t)
    ensures Tree(Drop(t, path))
  {
    if |t| > 0 && t[0].path != path {
      DropKeepsTree(t[1..], path);
      DropMembers(t[1..], path);
      TreeCons(t[0], Drop(t[1..], path));
    }
  }

  /** One patch entry changes what the map says about its own path and nothing
      else. */
  lemma PatchOneLookup(t: seq<Entry>, e: PatchEntry, path: string)
    requires Tree(t)
    ensures Tree(PatchOne(t, e))
    ensures Lookup(PatchOne(t, e), path) == if path == e.path then Upserted(e) else Lookup(t, path)
  {
    match Upserted(e) {
      case None =>
        DropKeepsTree(t, e.path);
        DropMembers(t, e.path);
      case Some(entry) =>
        PutKeepsTree(t, entry);
        PutMembers(t, entry);
    }
    SameAnswer(t, PatchOne(t, e), path);
  }

  /** Two trees that hold the same entries for a path answer alike. */
  lemma SameAnswer(a: seq<Entry>, b: seq<Entry>, path: string)
    requires Tree(a) && Tree(b)
    ensures (forall f: Entry | f.path == path :: f in a <==> f in b) ==> Lookup(a, path) == Lookup(b, path)
    ensures (forall f | f in b :: f.path != path) ==> Lookup(b, path) == None
    ensures forall f | f in b && f.path == path :: Lookup(b, path) == Some(f)
  {
    LookupFound(a, path);
    LookupFound(b, path);
    forall f | f in b && f.path == path ensures Lookup(b, path) == Some(f) {
      LookupMember(b, f);
    }
  }

  lemma {:induction false} LoadIsLookup(entries: seq<Entry>, path: string)
    ensures Tree(Load(entries)) && Lookup(Load(entries), path) == Lookup(entries, path)
  {
    if |entries| > 0 {
      var n := |entries| - 1;
      var t, e := Load(entries[..n]), entries[n];
      LoadIsLookup(entries[..n], path);
      PutKeepsTree(t, e);
      PutMembers(t, e);
      SameAnswer(t, Put(t, e), path);
    }
  }

  /** Applying a patch is overriding the base path map, for every base and every
      patch, and the result is in canonical order. */
  lemma {:induction false} AppliedIsOverlay(base: seq<Entry>, patch: seq<PatchEntry>, path: string)
    ensures Tree(Applied(base, patch))
    ensures Lookup(Applied(base, patch), path) == Overlaid(base, patch, path)
  {
    if |patch| == 0 {
      LoadIsLookup(base, path);
    } else {
      var n := |patch| - 1;
      AppliedIsOverlay(base, patch[..n], path);
      PatchOneLookup(Applied(base, patch[..n]), patch[n], path);
    }
  }

  // ----- uniqueness -----

  lemma TreeMembersByLookup(a: seq<Entry>, b: seq<Entry>)
    requires Tree(a) && Tree(b) && forall p :: Lookup(a, p) == Lookup(b, p)
    ensures forall e | e in a :: e in b
  {
    forall e | e in a ensures e in b {
      LookupMember(a, e);
      LookupFound(b, e.path);
    }
  }

  lemma FirstIsLeast(t: seq<Entry>, e: Entry)
    requires Tree(t) && e in t
    ensures |t| > 0 && (e == t[0] || (PathLeq(t[0], e) && t[0].path != e.path))
  {
    var k :| 0 <= k < |t| && t[k] == e;
  }

  lemma SameFirst(a: seq<Entry>, b: seq<Entry>)
    requires Tree(a) && Tree(b) && |a| > 0 && |b| > 0 && a[0] in b && b[0] in a
    ensures a[0] == b[0]
  {
    FirstIsLeast(a, b[0]);
    FirstIsLeast(b, a[0]);
    if PathLeq(a[0], b[0]) && PathLeq(b[0], a[0]) {
      StrAntisymmetric(a[0].path, b[0].path);
    }
  }

  lemma NonEmptyTogether(a: seq<Entry>, b: seq<Entry>)
    requires forall e :: e in a <==> e in b
    ensures |a| > 0 <==> |b| > 0
  {
    if |a| > 0 {
      assert a[0] in b;
    }
    if |b| > 0 {
      assert b[0] in a;
    }
  }

  lemma {:induction false} TreesAgree(a: seq<Entry>, b: seq<Entry>)
    requires Tree(a) && Tree(b) && forall e :: e in a <==> e in b
    ensures a == b
  {
    NonEmptyTogether(a, b);
    if |a| > 0 {
      SameFirst(a, b);
      assert a == [a[0]] + a[1..] && b == [b[0]] + b[1..];
      assert a[0] !in a[1..] && b[0] !in b[1..];
      forall e ensures e in a[1..] <==> e in b[1..] {
        assert e in a <==> e in b;
      }
      TreesAgree(a[1..], b[1..]);
    }
  }

  lemma TreesWithSameLookup(a: seq<Entry>, b: seq<Entry>)
    requires Tree(a) && Tree(b) && forall p :: Lookup(a, p) == Lookup(b, p)
    ensures a == b
  {
    TreeMembersByLookup(a, b);
    TreeMembersByLookup(b, a);
    TreesAgree(a, b);
  }

  // ----- the order of patch and base does not matter -----

  lemma {:induction false} LookupPatchFound(entries: seq<PatchEntry>, path: string)
    ensures match LookupPatch(entries, path)
            case Some(e) => e in entries && e.path == path
            case None => forall e | e in entries :: e.path != path
  {
    if |entries| > 0 {
      var n := |entries| - 1;
      LookupPatchFound(entries[..n], path);
      assert entries[n] in entries;
      assert forall e :: e in entries <==> e in entries[..n] || e == entries[n] by {
        assert entries == entries[..n] + [entries[n]];
      }
    }
  }

  lemma LookupPatchUnordered(a: seq<PatchEntry>, b: seq<PatchEntry>, path: string)
    requires DistinctPatchPaths(a) && forall e :: e in a <==> e in b
    ensures LookupPatch(a, path) == LookupPatch(b, path)
  {
    LookupPatchFound(a, path);
    LookupPatchFound(b, path);
  }

  lemma LookupUnordered(a: seq<Entry>, b: seq<Entry>, path: string)
    requires DistinctPaths(a) && forall e :: e in a <==> e in b
    ensures Lookup(a, path) == Lookup(b, path)
  {
    LookupFound(a, path);
    LookupFound(b, path);
  }

  lemma ValidHasDistinctPaths(m: WorkspaceManifest)
    requires Valid(m)
    ensures DistinctPaths(m.entries)
  {
    forall i, j | 0 <= i < j < |m.entries| ensures m.entries[i].path != m.entries[j].path {
      assert Fold(m.entries[i].path) != Fold(m.entries[j].path);
    }
  }

  /** Neither the order of the patch nor the order of the base shows. */
  lemma OrderIsIrrelevant(base: WorkspaceManifest, base': seq<Entry>,
                          patch: WorkspaceManifestPatch, patch': seq<PatchEntry>)
    requires Valid(base) && ValidPatch(patch)
    requires Permuted(base.entries, base') && Permuted(patch.entries, patch')
    ensures Applied(base.entries, patch.entries) == Applied(base', patch')
  {
    ValidHasDistinctPaths(base);
    SameMembers(base.entries, base');
    forall e ensures e in patch.entries <==> e in patch' {
      assert e in patch.entries <==> e in multiset(patch.entries);
      assert e in patch' <==> e in multiset(patch');
    }
    forall p ensures Lookup(Applied(base.entries, patch.entries), p) == Lookup(Applied(base', patch'), p) {
      AppliedIsOverlay(base.entries, patch.entries, p);
      AppliedIsOverlay(base', patch', p);
      LookupUnordered(base.entries, base', p);
      LookupPatchUnordered(patch.entries, patch', p);
    }
    AppliedIsOverlay(base.entries, patch.entries, "");
    AppliedIsOverlay(base', patch', "");
    TreesWithSameLookup(Applied(base.entries, patch.entries), Applied(base', patch'));
  }

  // ----- patching to a target -----

  lemma CanonicalIsTree(m: WorkspaceManifest)
    requires Valid(m)
    ensures Tree(Canonical(m).entries)
    ensures forall p :: Lookup(Canonical(m).entries, p) == Lookup(m.entries, p)
  {
    var c := Canonical(m).entries;
    PathOrder();
    SortSorts(m.entries, PathLeq);
    assert Permuted(m.entries, c);
    ValidIsUnordered(m, Canonical(m));
    ValidHasDistinctPaths(m);
    ValidHasDistinctPaths(Canonical(m));
    SameMembers(m.entries, c);
    forall p ensures Lookup(c, p) == Lookup(m.entries, p) {
      LookupUnordered(c, m.entries, p);
    }
  }

  /** A patch whose overlay is the target yields exactly the canonical target:
      the same manifest, and so the same digest, as submitting the target. */
  lemma PatchReachesTarget(base: seq<Entry>, patch: seq<PatchEntry>, target: WorkspaceManifest)
    requires Valid(target)
    requires forall p :: Overlaid(base, patch, p) == Lookup(target.entries, p)
    ensures WorkspaceManifest(1, Applied(base, patch)) == Canonical(target)
    ensures Valid(Canonical(target)) && Canonical(Canonical(target)) == Canonical(target)
  {
    CanonicalIsTree(target);
    forall p ensures Lookup(Applied(base, patch), p) == Lookup(Canonical(target).entries, p) {
      AppliedIsOverlay(base, patch, p);
    }
    AppliedIsOverlay(base, patch, "");
    TreesWithSameLookup(Applied(base, patch), Canonical(target).entries);
    PathOrder();
    SortSorts(target.entries, PathLeq);
    ValidIsUnordered(target, Canonical(target));
    SortedStays(Canonical(target).entries, PathLeq);
  }

  function AsUpsert(e: Entry): PatchEntry {
    match e
    case Directory(path) => PutDirectory(path)
    case File(path, digest, size, executable) => PutFile(path, digest, size, executable)
    case Symlink(path, _) => Remove(path)
  }

  /** Removals of the base paths the target lacks. */
  function Removals(base: seq<Entry>, target: seq<Entry>): seq<PatchEntry> {
    if |base| == 0 then []
    else Removals(base[..|base| - 1], target) +
         if Lookup(target, base[|base| - 1].path).None? then [Remove(base[|base| - 1].path)] else []
  }

  /** Upserts of the target entries the base does not hold as they are. */
  function Upserts(base: seq<Entry>, target: seq<Entry>): seq<PatchEntry> {
    if |target| == 0 then []
    else Upserts(base, target[..|target| - 1]) +
         if target[|target| - 1] in base then [] else [AsUpsert(target[|target| - 1])]
  }

  function Difference(base: seq<Entry>, target: seq<Entry>): seq<PatchEntry> {
    Removals(base, target) + Upserts(base, target)
  }

  lemma {:induction false} RemovalsMembers(base: seq<Entry>, target: seq<Entry>, x: PatchEntry)
    ensures x in Removals(base, target) <==>
              exists e | e in base :: Lookup(target, e.path).None? && x == Remove(e.path)
  {
    if |base| > 0 {
      var n := |base| - 1;
      RemovalsMembers(base[..n], target, x);
      assert base == base[..n] + [base[n]];
    }
  }

  lemma {:induction false} UpsertsMembers(base: seq<Entry>, target: seq<Entry>, x: PatchEntry)
    ensures x in Upserts(base, target) <==>
              exists e | e in target :: e !in base && x == AsUpsert(e)
  {
    if |target| > 0 {
      var n := |target| - 1;
      UpsertsMembers(base, target[..n], x);
      assert target == target[..n] + [target[n]];
    }
  }

  lemma {:induction false} RemovalsDistinct(base: seq<Entry>, target: seq<Entry>)
    requires DistinctPaths(base)
    ensures DistinctPatchPaths(Removals(base, target))
  {
    if |base| > 0 {
      var n := |base| - 1;
      RemovalsDistinct(base[..n], target);
      forall x | x in Removals(base[..n], target) ensures x.path != base[n].path {
        RemovalsMembers(base[..n], target, x);
      }
    }
  }

  lemma {:induction false} UpsertsDistinct(base: seq<Entry>, target: seq<Entry>)
    requires DistinctPaths(target)
    ensures DistinctPatchPaths(Upserts(base, target))
  {
    if |target| > 0 {
      var n := |target| - 1;
      UpsertsDistinct(base, target[..n]);
      forall x | x in Upserts(base, target[..n]) ensures x.path != target[n].path {
        UpsertsMembers(base, target[..n], x);
      }
    }
  }

  lemma DifferenceDistinct(base: seq<Entry>, target: seq<Entry>)
    requires DistinctPaths(base) && DistinctPaths(target)
    ensures DistinctPatchPaths(Difference(base, target))
  {
    RemovalsDistinct(base, target);
    UpsertsDistinct(base, target);
    var r, u := Removals(base, target), Upserts(base, target);
    forall x, y | x in r && y in u ensures x.path != y.path {
      RemovalsMembers(base, target, x);
      UpsertsMembers(base, target, y);
      LookupFound(target, x.path);
    }
    forall i, j | 0 <= i < j < |r + u| ensures (r + u)[i].path != (r + u)[j].path {
    }
  }

  lemma DifferenceOverlays(base: WorkspaceManifest, target: WorkspaceManifest, p: string)
    requires Valid(base) && Valid(target)
    ensures Overlaid(base.entries, Difference(base.entries, target.entries), p)
         == Lookup(target.entries, p)
  {
    ValidHasDistinctPaths(base);
    ValidHasDistinctPaths(target);
    var b, t := base.entries, target.entries;
    var d := Difference(b, t);
    LookupPatchFound(d, p);
    LookupFound(b, p);
    LookupFound(t, p);
    match LookupPatch(d, p) {
      case Some(x) =>
        RemovalsMembers(b, t, x);
        UpsertsMembers(b, t, x);
        if x in Upserts(b, t) {
          var e :| e in t && e !in b && x == AsUpsert(e);
          assert Storable(e);
          LookupMember(t, e);
        }
      case None =>
        if Lookup(t, p).Some? {
          var e := Lookup(t, p).value;
          UpsertsMembers(b, t, AsUpsert(e));
          assert AsUpsert(e).path == p;
          LookupMember(b, e);
        } else if Lookup(b, p).Some? {
          RemovalsMembers(b, t, Remove(p));
        }
    }
  }

  /** For every valid base and target: the difference is accepted exactly when it
      fits the entry bound, and then it reproduces the canonical target. */
  lemma DifferenceReachesTarget(base: WorkspaceManifest, target: WorkspaceManifest, digest: string)
    requires Valid(base) && Valid(target)
    ensures var d := Difference(base.entries, target.entries);
            && (ValidPatch(WorkspaceManifestPatch(1, digest, d)) <==> |d| <= MAX_WORKSPACE_ENTRIES)
            && WorkspaceManifest(1, Applied(base.entries, d)) == Canonical(target)
            && Valid(Canonical(target))
  {
    ValidHasDistinctPaths(base);
    ValidHasDistinctPaths(target);
    DifferenceDistinct(base.entries, target.entries);
    var d := Difference(base.entries, target.entries);
    forall p ensures Overlaid(base.entries, d, p) == Lookup(target.entries, p) {
      DifferenceOverlays(base, target, p);
    }
    PatchReachesTarget(base.entries, d, target);
  }
}
