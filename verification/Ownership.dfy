/** The ownership rule of materialization: what may be written, given what exists and what was last written. */
module Ownership {
  import opened Wrappers
  import opened Identity

  datatype ArtifactOwnership = CompilerOwned | OwnerSeeded

  datatype WriteDecision = Create | Update | Unchanged | KeepOwner | Conflict

  datatype PlannedArtifact = PlannedArtifact(path: string, ownership: ArtifactOwnership, digest: Digest)

  function FileDigest(bytes: string): Digest {
    Sha256(bytes)
  }

  function DecideWrite(artifact: PlannedArtifact, existing: Option<Digest>, lastWritten: Option<Digest>): WriteDecision {
    if existing.None? then Create else
    if artifact.ownership.OwnerSeeded? then KeepOwner else
    if existing.value == artifact.digest then Unchanged else
    if lastWritten == existing then Update else Conflict
  }

  /** The decisions that change the workspace. */
  predicate Writes(decision: WriteDecision) {
    decision == Create || decision == Update
  }
}
