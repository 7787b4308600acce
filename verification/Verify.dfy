/** The structural check: a component directory against its latest MaterializationRecord. */
module Verify {
  import opened Wrappers
  import opened Identity
  import opened Ownership
  import opened Records
  import opened Materializer

  datatype Mismatch = Missing(path: string) | Changed(path: string)

  /** The file is there, and unchanged if the compiler owns it. */
  predicate Matches(files: Files, component: string, f: FileEntry) {
    (component, f.path) in files &&
    (f.ownership.CompilerOwned? ==> FileDigest(files[(component, f.path)]) == f.digest)
  }

  ghost predicate IsIntact(files: Files, component: string, r: Record) {
    forall f | f in r.files :: Matches(files, component, f)
  }

  /** Lists every mismatch; lists none exactly when the component is intact. */
  method Structural(files: Files, component: string, r: Record) returns (mismatches: seq<Mismatch>)
    ensures mismatches == [] <==> IsIntact(files, component, r)
    ensures forall m | m in mismatches :: exists f :: f in r.files && f.path == m.path && !Matches(files, component, f)
  {
    mismatches := [];
    for i := 0 to |r.files|
      invariant mismatches == [] <==> forall j | 0 <= j < i :: Matches(files, component, r.files[j])
      invariant forall m | m in mismatches :: exists f :: f in r.files && f.path == m.path && !Matches(files, component, f)
    {
      var f := r.files[i];
      assert f in r.files;
      if (component, f.path) !in files {
        mismatches := mismatches + [Missing(f.path)];
      } else if f.ownership.CompilerOwned? && FileDigest(files[(component, f.path)]) != f.digest {
        mismatches := mismatches + [Changed(f.path)];
      }
    }
  }
}
