/**
 What one firehose event puts into the corpus, field by field: which posts are written,
 which are skipped, which events revoke.
 */
module Admission {
  import opened Wrappers
  import opened Strings
  import opened Corpus
  import opened Harvest

  /* ---------- languages ---------- */

  /** The region is what follows the first hyphen. */
  lemma {:induction false} RegionIsStripped(base: string, region: string)
    requires '-' !in base
    ensures BaseOf(base) == base && BaseOf(base + "-" + region) == base
  {
    if base != "" {
      RegionIsStripped(base[1..], region);
      assert (base + "-" + region)[1..] == base[1..] + "-" + region;
    }
  }

  lemma {:induction false} BaseIsStripped(tag: string)
    ensures '-' !in BaseOf(tag)
    ensures BaseOf(tag) == tag || BaseOf(tag) + "-" <= tag
  {
    if tag != "" && tag[0] != '-' {
      BaseIsStripped(tag[1..]);
    }
  }

  lemma BaseIs(tag: string, base: string)
    ensures BaseOf(tag) == base <==> '-' !in base && (tag == base || base + "-" <= tag)
  {
    BaseIsStripped(tag);
    if '-' !in base && base + "-" <= tag {
      RegionIsStripped(base, tag[|base| + 1..]);
      assert tag == base + "-" + tag[|base| + 1..];
    }
    if '-' !in base && tag == base {
      RegionIsStripped(base, "");
    }
  }

  /** Some declared language is a wanted one, whatever its case, or a region of it. */
  ghost predicate DeclaresWanted(setup: Setup, langs: seq<string>) {
    exists l, w ::
      && l in langs && w in setup.filter.langs
      && '-' !in setup.env.lower(w)
      && (setup.env.lower(l) == setup.env.lower(w) || setup.env.lower(w) + "-" <= setup.env.lower(l))
  }

  lemma SpeaksIff(setup: Setup, langs: seq<string>)
    ensures Speaks(setup, langs) <==> DeclaresWanted(setup, langs)
  {
    forall l, w ensures BaseOf(setup.env.lower(l)) == setup.env.lower(w) <==>
        && '-' !in setup.env.lower(w)
        && (setup.env.lower(l) == setup.env.lower(w) || setup.env.lower(w) + "-" <= setup.env.lower(l))
    {
      BaseIs(setup.env.lower(l), setup.env.lower(w));
    }
  }

  /* ---------- posts ---------- */

  /** Long and short enough in bytes, in a wanted language, and in the sample. */
  ghost predicate Qualifies(setup: Setup, docId: string, text: string, langs: seq<string>) {
    var f, bytes := setup.filter, |Utf8(text)|;
    && text != ""
    && (f.minChars <= 0 || f.minChars <= bytes)
    && (f.maxChars <= 0 || bytes <= f.maxChars)
    && (f.langs == [] || DeclaresWanted(setup, langs))
    && (f.sampleRate >= 1.0 || (f.sampleRate > 0.0 && setup.env.fraction(docId) < f.sampleRate))
  }

  /** A created or updated post writes exactly this row if it qualifies, and is skipped if not. */
  lemma PostIsWrittenIff(setup: Setup, ev: Event, c: CommitInfo, r: Record)
    requires ev.kind == Commit(Some(c)) && c.collection == "app.bsky.feed.post" && c.record == Some(r)
    requires c.operation == Create || c.operation == Update
    ensures var docId, text := ev.did + "/app.bsky.feed.post/" + c.rkey, setup.env.trim(r.text);
            EffectOf(setup, ev) ==
              if Qualifies(setup, docId, text, r.langs)
              then Writes(Document(setup.platform, docId, if ev.did == "" then None else Some(ev.did), text, r.langs,
                                   if r.createdAt == "" then None else Some(r.createdAt),
                                   setup.env.sha(setup.env.normalize(text)), 1))
              else Skipped
  {
    DocIdIs(ev.did, c.rkey);
    SpeaksIff(setup, r.langs);
    ByteLengthIsUtf8(setup.env.trim(r.text));
  }

  lemma DocIdIs(did: string, rkey: string)
    ensures DocId(did, rkey) == did + "/app.bsky.feed.post/" + rkey
  {
    assert "/" + "app.bsky.feed.post" + "/" == "/app.bsky.feed.post/";
    assert did + "/" + "app.bsky.feed.post" + "/" + rkey == did + ("/" + "app.bsky.feed.post" + "/") + rkey;
  }

  /** Nothing but a created or updated post with a record is written or counted as skipped. */
  lemma OnlyPostsCount(setup: Setup, ev: Event)
    requires EffectOf(setup, ev).Writes? || EffectOf(setup, ev).Skipped?
    ensures ev.kind.Commit? && ev.kind.commit.Some?
    ensures var c := ev.kind.commit.value;
            c.collection == "app.bsky.feed.post" && c.record.Some? && (c.operation == Create || c.operation == Update)
  {
  }

  /** For instance, a post in bounds and in the sample that declares a region of a wanted
      language is written; one that declares no wanted base is skipped. */
  lemma RegionQualifies(setup: Setup, docId: string, text: string, langs: seq<string>, l: string, w: string, region: string)
    requires l in langs && w in setup.filter.langs && '-' !in setup.env.lower(w)
    requires setup.env.lower(l) == setup.env.lower(w) + "-" + region
    ensures Qualifies(setup, docId, text, langs) <==>
        && text != ""
        && (setup.filter.minChars <= 0 || setup.filter.minChars <= |Utf8(text)|)
        && (setup.filter.maxChars <= 0 || |Utf8(text)| <= setup.filter.maxChars)
        && setup.env.SampleHash(docId, setup.filter.sampleRate)
  {
    assert setup.env.lower(w) + "-" <= setup.env.lower(l);
  }

  /** A higher rate only adds to the sample: nothing at zero, everything at one. */
  lemma SampleGrows(env: TextEnv, key: string, rate: real, higher: real)
    requires rate <= higher
    ensures env.SampleHash(key, rate) ==> env.SampleHash(key, higher)
    ensures rate <= 0.0 ==> !env.SampleHash(key, rate)
    ensures higher >= 1.0 ==> env.SampleHash(key, higher)
  {
  }

  /** Document ids do not confuse posts: a did holds no slash. */
  lemma DocIdsDistinct(did: string, rkey: string, did': string, rkey': string)
    requires '/' !in did && '/' !in did'
    ensures DocId(did, rkey) == DocId(did', rkey') <==> did == did' && rkey == rkey'
  {
    if DocId(did, rkey) == DocId(did', rkey') {
      var s, t := POST_COLLECTION + "/" + rkey, POST_COLLECTION + "/" + rkey';
      assert DocId(did, rkey) == did + ['/'] + s && DocId(did', rkey') == did' + ['/'] + t;
      HeadsMatch('/', did, s, did', t);
      assert s[|POST_COLLECTION| + 1..] == rkey && t[|POST_COLLECTION| + 1..] == rkey';
    }
  }

  /* ---------- revocations ---------- */

  /** The event deletes the post with this document id. */
  predicate DeletesPost(ev: Event, docId: string) {
    && ev.kind.Commit? && ev.kind.commit.Some?
    && ev.kind.commit.value.operation == Delete
    && ev.kind.commit.value.collection == "app.bsky.feed.post"
    && docId == ev.did + "/app.bsky.feed.post/" + ev.kind.commit.value.rkey
  }

  /** The event takes this account down. */
  predicate Deactivates(ev: Event, did: string) {
    ev.kind == Account(Some(false)) && ev.did == did
  }

  /** Deletes of posts and deactivations revoke, whatever the filter says; nothing else does. */
  lemma RevokesIff(setup: Setup, ev: Event, t: Tombstone)
    ensures t in TombsOfEvent(setup, ev) <==>
        || (t.docId.Some? && DeletesPost(ev, t.docId.value) && t == Tombstone(setup.platform, DocScope, t.docId, ev.did))
        || (Deactivates(ev, t.authorDid) && t == Tombstone(setup.platform, AccountScope, None, t.authorDid))
  {
    if ev.kind.Commit? && ev.kind.commit.Some? {
      DocIdIs(ev.did, ev.kind.commit.value.rkey);
    }
  }
}
