/**
 The append-only corpus of api/internal/harvest/corpus.go.

 Unicode handling and SHA-256 are uninterpreted functions of the text; the writer's clock
 stamps every row, so two deliveries of one event write two different rows.
 */
module Corpus {
  import opened Wrappers

  datatype TextEnv = TextEnv(
    trim: string -> string,
    lower: string -> string,
    normalize: string -> string,
    sha: string -> string,
    fraction: string -> real)    // the leading hash bits of a key as a fraction of one
  {
    function ContentHash(text: string): string { sha(normalize(text)) }

    predicate SampleHash(key: string, rate: real) {
      if rate >= 1.0 then true else if rate <= 0.0 then false else fraction(key) < rate
    }
  }

  const HASH_VERSION := 1

  /** One corpus row as the prep step projects it. Empty optional fields are absent. */
  datatype Document = Document(
    platform: string, docId: string, authorDid: Option<string>, text: string,
    langs: seq<string>, createdAt: Option<string>, contentHash: string, hashVersion: nat)

  datatype Scope = DocScope | AccountScope

  datatype Tombstone = Tombstone(platform: string, scope: Scope, docId: Option<string>, authorDid: string)

  /** json omitempty. */
  function OmitEmpty(s: string): Option<string> {
    if s == "" then None else Some(s)
  }

  datatype Stamped<T> = Stamped(row: T, at: nat)

  function Rows<T>(stamped: seq<Stamped<T>>): (r: seq<T>)
    ensures |r| == |stamped| && forall i :: 0 <= i < |r| ==> r[i] == stamped[i].row
  {
    seq(|stamped|, i requires 0 <= i < |stamped| => stamped[i].row)
  }

  /** What the machine does to one write: the clock it reads and whether the append succeeds. */
  datatype Io = Io(now: nat, ok: bool)

  class CorpusWriter {
    const platform: string
    var documents: seq<Stamped<Document>>
    var tombstones: seq<Stamped<Tombstone>>

    constructor (platform: string)
      ensures this.platform == platform && documents == [] && tombstones == []
    {
      this.platform, documents, tombstones := platform, [], [];
    }

    /** Fills the hash fields and the stamp; a failed append leaves the corpus as it was. */
    method WriteDocument(env: TextEnv, d: Document, io: Io) returns (ok: bool)
      modifies this`documents
      ensures ok == io.ok
      ensures Rows(documents) == Rows(old(documents)) +
          if ok then [d.(contentHash := env.ContentHash(d.text), hashVersion := HASH_VERSION)] else []
    {
      if io.ok {
        documents := documents +
          [Stamped(d.(contentHash := env.ContentHash(d.text), hashVersion := HASH_VERSION), io.now)];
      }
      ok := io.ok;
    }

    method WriteTombstone(t: Tombstone, io: Io) returns (ok: bool)
      modifies this`tombstones
      ensures ok == io.ok
      ensures Rows(tombstones) == Rows(old(tombstones)) + if ok then [t] else []
    {
      if io.ok {
        tombstones := tombstones + [Stamped(t, io.now)];
      }
      ok := io.ok;
    }
  }
}
