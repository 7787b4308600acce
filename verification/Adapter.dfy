/** How an adapter's output becomes a plan: safe and distinct paths, ownership bounded by the component's class. */
module Adapter {
  import opened Wrappers
  import opened Text
  import opened Sorting
  import opened Lists
  import opened JsonPointer
  import opened Ownership

  const RECORDS := ".foundation"

  predicate IsPathChar(c: char) {
    'A' <= c <= 'Z' || 'a' <= c <= 'z' || IsDigit(c) || c == '_' || c == '.' || c == '@' || c == '-' || c == '/'
  }

  /** A relative path that cannot leave the component directory nor enter the compiler's own. */
  predicate IsSafeArtifactPath(path: string) {
    var segments := Split(path);
    && (forall c | c in path :: IsPathChar(c))
    && (forall s | s in segments :: s != "" && s != "..")
    && (|segments| > 1 ==> segments[0] != RECORDS)
  }

  /** What an adapter returns; its ownership is still text. */
  datatype Artifact = Artifact(path: string, content: string, ownership: string)

  datatype PlanError = UnsafePath(path: string) | DuplicatePath(path: string) | UnknownOwnership(path: string)

  function ParseOwnership(text: string): Option<ArtifactOwnership> {
    if text == "COMPILER_OWNED" then Some(CompilerOwned) else if text == "OWNER_SEEDED" then Some(OwnerSeeded) else None
  }

  /** An OWNER_MANAGED component is only ever seeded. */
  function PlannedOf(artifact: Artifact, componentClass: string): (planned: PlannedArtifact)
    requires ParseOwnership(artifact.ownership).Some?
    ensures planned.ownership.OwnerSeeded? <==> componentClass == "OWNER_MANAGED" || artifact.ownership == "OWNER_SEEDED"
  {
    PlannedArtifact(artifact.path,
                    if componentClass == "OWNER_MANAGED" then OwnerSeeded else ParseOwnership(artifact.ownership).value,
                    FileDigest(artifact.content))
  }

  ghost predicate IsAcceptable(artifact: Artifact) {
    IsSafeArtifactPath(artifact.path) && (artifact.ownership == "COMPILER_OWNED" || artifact.ownership == "OWNER_SEEDED")
  }

  ghost predicate DistinctPaths(artifacts: seq<Artifact>) {
    forall i, j | 0 <= i < j < |artifacts| :: artifacts[i].path != artifacts[j].path
  }

  predicate ByPath(a: PlannedArtifact, b: PlannedArtifact) {
    AtMost(a.path, b.path)
  }

  datatype ComponentPlan = ComponentPlan(artifacts: seq<PlannedArtifact>, contents: map<string, string>)

  /** A plan the materializer can apply: one artifact per path, with the content its digest names. */
  ghost predicate IsWellFormed(plan: ComponentPlan, componentClass: string) {
    && (forall i, j | 0 <= i < j < |plan.artifacts| :: plan.artifacts[i].path != plan.artifacts[j].path)
    && (forall a | a in plan.artifacts ::
          && IsSafeArtifactPath(a.path)
          && a.path in plan.contents && a.digest == FileDigest(plan.contents[a.path])
          && (componentClass == "OWNER_MANAGED" ==> a.ownership.OwnerSeeded?))
  }

  function PlanAll(artifacts: seq<Artifact>, componentClass: string): (all: seq<PlannedArtifact>)
    requires forall i | 0 <= i < |artifacts| :: IsAcceptable(artifacts[i])
    ensures |all| == |artifacts| && forall i | 0 <= i < |all| :: IsAcceptable(artifacts[i]) && all[i] == PlannedOf(artifacts[i], componentClass)
  {
    seq(|artifacts|, i requires 0 <= i < |artifacts| => assert IsAcceptable(artifacts[i]); PlannedOf(artifacts[i], componentClass))
  }

  /** The plan lists the artifacts by path, with the content of each. */
  ghost predicate IsPlanOf(plan: ComponentPlan, componentClass: string, artifacts: seq<Artifact>) {
    && (forall i | 0 <= i < |artifacts| :: IsAcceptable(artifacts[i]))
    && plan.artifacts == Sort(PlanAll(artifacts, componentClass), ByPath)
    && plan.contents.Keys == (set a | a in artifacts :: a.path)
    && forall a | a in artifacts :: plan.contents[a.path] == a.content
  }

  /** Accepts exactly the outputs with safe, distinct paths and known ownership; lists the artifacts by path. */
  method PlanArtifacts(componentClass: string, artifacts: seq<Artifact>) returns (r: Result<ComponentPlan, PlanError>)
    ensures r.Success? <==> DistinctPaths(artifacts) && forall i | 0 <= i < |artifacts| :: IsAcceptable(artifacts[i])
    ensures r.Success? ==> IsWellFormed(r.value, componentClass) && IsPlanOf(r.value, componentClass, artifacts)
  {
    hide IsSafeArtifactPath, Sort;
    var contents: map<string, string> := map[];
    var planned: seq<PlannedArtifact> := [];
    for i := 0 to |artifacts|
      invariant forall j | 0 <= j < i :: IsAcceptable(artifacts[j])
      invariant DistinctPaths(artifacts[..i])
      invariant |planned| == i && forall j | 0 <= j < i :: planned[j] == PlannedOf(artifacts[j], componentClass)
      invariant forall p :: p in contents <==> exists j :: 0 <= j < i && artifacts[j].path == p
      invariant forall j | 0 <= j < i :: contents[artifacts[j].path] == artifacts[j].content
    {
      var artifact := artifacts[i];
      assert artifact in artifacts;
      if !IsSafeArtifactPath(artifact.path) {
        return Failure(UnsafePath(artifact.path));
      }
      if artifact.path in contents {
        return Failure(DuplicatePath(artifact.path));
      }
      if ParseOwnership(artifact.ownership).None? {
        return Failure(UnknownOwnership(artifact.path));
      }
      assert artifacts[..i + 1] == artifacts[..i] + [artifact];
      contents := contents[artifact.path := artifact.content];
      planned := planned + [PlannedOf(artifact, componentClass)];
    }
    assert artifacts[..|artifacts|] == artifacts;
    assert planned == PlanAll(artifacts, componentClass);
    SortedPlanIsWellFormed(artifacts, componentClass, contents);
    r := Success(ComponentPlan(Sort(planned, ByPath), contents));
  }

  /** In a plan, the planned artifact is what the adapter returned, with the digest of its content and its ownership bounded. */
  ghost predicate IsPlannedAs(artifact: Artifact, componentClass: string, planned: PlannedArtifact) {
    && planned.path == artifact.path && planned.digest == FileDigest(artifact.content)
    && (planned.ownership.OwnerSeeded? <==> componentClass == "OWNER_MANAGED" || artifact.ownership == "OWNER_SEEDED")
  }

  /** A plan lists each artifact of the output once, by path in text order, and nothing else. */
  lemma PlanListsOutput(plan: ComponentPlan, componentClass: string, artifacts: seq<Artifact>)
    requires IsPlanOf(plan, componentClass, artifacts)
    ensures |plan.artifacts| == |artifacts|
    ensures forall i, j | 0 <= i < j < |plan.artifacts| :: AtMost(plan.artifacts[i].path, plan.artifacts[j].path)
    ensures forall a | a in artifacts :: exists b :: b in plan.artifacts && IsPlannedAs(a, componentClass, b)
    ensures forall b | b in plan.artifacts :: exists a :: a in artifacts && IsPlannedAs(a, componentClass, b)
  {
    hide IsSafeArtifactPath, Sort, AtMost, IsPlannedAs;
    var all := PlanAll(artifacts, componentClass);
    PathOrder();
    SortSorts(all, ByPath);
    SortLists(all, ByPath);
    forall i | 0 <= i < |artifacts|
      ensures all[i] in plan.artifacts && IsPlannedAs(artifacts[i], componentClass, all[i])
    {
      OneIsPlanned(artifacts[i], componentClass);
    }
  }

  lemma OneIsPlanned(artifact: Artifact, componentClass: string)
    requires IsAcceptable(artifact)
    ensures IsPlannedAs(artifact, componentClass, PlannedOf(artifact, componentClass))
  {
    hide IsSafeArtifactPath;
  }

  lemma PathOrder()
    ensures IsOrder(ByPath)
  {
    forall x, y ensures ByPath(x, y) || ByPath(y, x) { AtMostTotal(x.path, y.path); }
    forall x, y, z | ByPath(x, y) && ByPath(y, z) ensures ByPath(x, z) { AtMostTransitive(x.path, y.path, z.path); }
  }

  /** Sorting keeps one artifact per path. */
  lemma SortedPlanIsWellFormed(artifacts: seq<Artifact>, componentClass: string, contents: map<string, string>)
    requires DistinctPaths(artifacts) && forall i | 0 <= i < |artifacts| :: IsAcceptable(artifacts[i])
    requires forall a | a in artifacts :: a.path in contents && contents[a.path] == a.content
    ensures IsWellFormed(ComponentPlan(Sort(PlanAll(artifacts, componentClass), ByPath), contents), componentClass)
  {
    hide IsSafeArtifactPath, Sort;
    var all := PlanAll(artifacts, componentClass);
    var sorted := Sort(all, ByPath);
    SortPermutes(all, ByPath);
    SameElements(sorted, all);
    DistinctSurvives(all, sorted);
    forall a | a in sorted
      ensures IsSafeArtifactPath(a.path) && a.path in contents && a.digest == FileDigest(contents[a.path])
    {
      var i :| 0 <= i < |all| && all[i] == a;
      assert artifacts[i] in artifacts;
    }
  }

  lemma DistinctSurvives(all: seq<PlannedArtifact>, sorted: seq<PlannedArtifact>)
    requires multiset(all) == multiset(sorted)
    requires forall i, j | 0 <= i < j < |all| :: all[i].path != all[j].path
    ensures forall i, j | 0 <= i < j < |sorted| :: sorted[i].path != sorted[j].path
  {
    var key := (a: PlannedArtifact) => a.path;
    KeysStayDistinct(key, all, sorted);
    forall i, j | 0 <= i < j < |sorted|
      ensures sorted[i].path != sorted[j].path
    {
      assert Lists.Map(key, sorted)[i] != Lists.Map(key, sorted)[j];
    }
  }
}
