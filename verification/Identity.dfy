/** Identity of a contract revision: stable key and content digest. */
module Identity {
  import opened Wrappers
  import opened Text
  import opened Json
  import opened CanonicalJson
  import opened Refs

  type Digest = string

  /**
   * Stands for sha256. Only two things about it are used: it is a function of the bytes,
   * and distinct bytes have distinct digests.
   */
  function Sha256(bytes: string): Digest {
    "sha256:" + bytes
  }

  lemma Sha256Injective(a: string, b: string)
    ensures Sha256(a) == Sha256(b) ==> a == b
  {
    assert Sha256(a)[7..] == a && Sha256(b)[7..] == b;
  }

  function DigestOf(v: Json): Digest {
    Sha256(Canonicalize(v))
  }

  /** The digest of a JSON value determines the value. */
  lemma DigestOfInjective(a: Json, b: Json)
    ensures DigestOf(a) == DigestOf(b) <==> a == b
  {
    Sha256Injective(Canonicalize(a), Canonicalize(b));
    CanonicalEqualsIsEquality(a, b);
  }

  /** The members of `metadata` other than the three that are modelled as fields. */
  type Metadata = m: map<string, Json> | m.Keys !! {"id", "revision", "status"} witness map[]

  datatype Document = Document(
    apiVersion: string,
    kind: Kind,
    id: string,
    revision: nat,
    status: string,
    metadata: Metadata,
    spec: Json
  )

  function DocumentKey(d: Document): Key {
    KeyText(KindName(d.kind), d.id, Decimal(d.revision))
  }

  /** The whole document as JSON. */
  function ToJson(d: Document): Json {
    Object(map["apiVersion" := Str(d.apiVersion), "kind" := Str(KindName(d.kind)),
      "metadata" := Object(d.metadata + map["id" := Str(d.id), "revision" := NumberOf(d.revision), "status" := Str(d.status)]),
      "spec" := d.spec])
  }

  /** The content of a document: everything but its lifecycle status. */
  function ContentOf(d: Document): Json {
    Object(map["apiVersion" := Str(d.apiVersion), "kind" := Str(KindName(d.kind)),
      "metadata" := Object(d.metadata + map["id" := Str(d.id), "revision" := NumberOf(d.revision)]),
      "spec" := d.spec])
  }

  function ContractDigest(d: Document): Digest {
    DigestOf(ContentOf(d))
  }

  lemma KindNameInjective(a: Kind, b: Kind)
    ensures KindName(a) == KindName(b) <==> a == b
  {}

  lemma DecimalInjective(a: nat, b: nat)
    ensures Decimal(a) == Decimal(b) <==> a == b
  {
    DecimalIsIndex(a);
    DecimalIsIndex(b);
  }

  /** A key tells the kind of the document it names. */
  lemma KeyTellsKind(a: Document, b: Document)
    requires DocumentKey(a) == DocumentKey(b)
    ensures a.kind == b.kind
  {
    hide KindName, Decimal;
    var x, y := a.id + "@" + Decimal(a.revision), b.id + "@" + Decimal(b.revision);
    assert DocumentKey(a) == KindName(a.kind) + ['/'] + x;
    assert DocumentKey(b) == KindName(b.kind) + ['/'] + y;
    KindHasNoSlash(a.kind);
    KindHasNoSlash(b.kind);
    FirstPartAgrees(KindName(a.kind), KindName(b.kind), x, y, '/');
    KindNameInjective(a.kind, b.kind);
  }

  lemma SameMetadata(a: Document, b: Document)
    requires a.metadata + map["id" := Str(a.id), "revision" := NumberOf(a.revision)] ==
             b.metadata + map["id" := Str(b.id), "revision" := NumberOf(b.revision)]
    ensures a.metadata == b.metadata && a.id == b.id && a.revision == b.revision
  {
    var m := a.metadata + map["id" := Str(a.id), "revision" := NumberOf(a.revision)];
    assert m["id"] == Str(a.id) == Str(b.id);
    assert m["revision"] == NumberOf(a.revision) == NumberOf(b.revision);
    DecimalInjective(a.revision, b.revision);
    assert a.metadata == m - {"id", "revision"};
    assert b.metadata == m - {"id", "revision"};
  }

  /** Equal digests mean equal documents, the lifecycle status excepted. */
  lemma DigestIdentifiesContent(a: Document, b: Document)
    ensures ContractDigest(a) == ContractDigest(b) <==> a == b.(status := a.status)
  {
    DigestOfInjective(ContentOf(a), ContentOf(b));
    if ContentOf(a) == ContentOf(b) {
      var m, n := ContentOf(a).members, ContentOf(b).members;
      assert m["apiVersion"] == n["apiVersion"] && m["kind"] == n["kind"];
      assert m["metadata"] == n["metadata"] && m["spec"] == n["spec"];
      KindNameInjective(a.kind, b.kind);
      SameMetadata(a, b);
    }
  }

  /** The reference that pins a document. */
  function PinnedTo(d: Document): Json {
    Object(map["kind" := Str(KindName(d.kind)), "id" := Str(d.id), "revision" := NumberOf(d.revision), "digest" := Str(ContractDigest(d))])
  }

  lemma PinIsRef(d: Document)
    ensures IsRef(PinnedTo(d)) && RefKey(PinnedTo(d)) == DocumentKey(d)
    ensures "digest" in PinnedTo(d).members && PinnedTo(d).members["digest"] == Str(ContractDigest(d)) && "item" !in PinnedTo(d).members
    ensures forall k | k in PinnedTo(d).members :: !IsContainer(PinnedTo(d).members[k])
  {
    hide Decimal, ContractDigest;
  }
}
