/**
 Fan-out and de-duplication of api/internal/service/service.go. Every platform is searched
 at once; each search writes its own slot whenever it finishes.
 */
module Fanout {
  import opened Wrappers
  import opened Batching

  datatype Document = Document(platform: string, id: string, text: string, url: string)

  /** What one connector did: its search may give documents, an error, or both, and may have
      outlived its deadline. */
  datatype Connector = Connector(
    id: string, docs: seq<Document>, error: Option<string>, deadlineExceeded: bool)

  datatype Slot = Slot(platform: string, docs: seq<Document>, error: Option<string>)

  datatype Warning = Warning(platform: string, message: string)

  datatype Gathered =
    | Gathered(docs: seq<Document>, warnings: seq<Warning>)
    | AllConnectorsFailed(warnings: seq<Warning>)

  /** A late failure is reported as a timeout, a late success is a success. */
  function SlotOf(c: Connector, timedOut: string): Slot {
    Slot(c.id, c.docs, if c.error.Some? && c.deadlineExceeded then Some(timedOut) else c.error)
  }

  function DocsOf(c: Connector): seq<Document> {
    if c.error.None? then c.docs else []
  }

  function WarningsOf(c: Connector, timedOut: string): seq<Warning> {
    if c.error.None? then []
    else [Warning(c.id, if c.deadlineExceeded then timedOut else c.error.value)]
  }

  function EachDocs(cs: seq<Connector>): (r: seq<seq<Document>>)
    ensures |r| == |cs| && forall i :: 0 <= i < |cs| ==> r[i] == DocsOf(cs[i])
  {
    seq(|cs|, i requires 0 <= i < |cs| => DocsOf(cs[i]))
  }

  function EachWarnings(cs: seq<Connector>, timedOut: string): (r: seq<seq<Warning>>)
    ensures |r| == |cs| && forall i :: 0 <= i < |cs| ==> r[i] == WarningsOf(cs[i], timedOut)
  {
    seq(|cs|, i requires 0 <= i < |cs| => WarningsOf(cs[i], timedOut))
  }

  predicate AllFailed(cs: seq<Connector>) {
    forall i :: 0 <= i < |cs| ==> cs[i].error.Some?
  }

  /** In platform order: the successful outputs end to end, and a warning a failed platform. */
  function InPlatformOrder(cs: seq<Connector>, timedOut: string): Gathered {
    var warnings := Flatten(EachWarnings(cs, timedOut));
    if AllFailed(cs) then AllConnectorsFailed(warnings) else Gathered(Flatten(EachDocs(cs)), warnings)
  }

  /** The searches finish in the order of the schedule; the answer does not depend on it. */
  method Fanout(cs: seq<Connector>, schedule: seq<nat>, timedOut: string) returns (r: Gathered)
    requires IsPermutation(schedule, |cs|)
    ensures r == InPlatformOrder(cs, timedOut)
  {
    var results := new Option<Slot>[|cs|](_ => None);
    for k := 0 to |schedule|
      invariant forall p :: 0 <= p < k ==> results[schedule[p]] == Some(SlotOf(cs[schedule[p]], timedOut))
    {
      results[schedule[k]] := Some(SlotOf(cs[schedule[k]], timedOut));
    }
    forall i | 0 <= i < |cs| ensures results[i] == Some(SlotOf(cs[i], timedOut)) {
      assert i in schedule;
    }
    r := Collect(cs, results[..], timedOut);
  }

  method Collect(cs: seq<Connector>, results: seq<Option<Slot>>, timedOut: string) returns (r: Gathered)
    requires |results| == |cs| && forall i :: 0 <= i < |cs| ==> results[i] == Some(SlotOf(cs[i], timedOut))
    ensures r == InPlatformOrder(cs, timedOut)
  {
    var all: seq<Document>, warnings: seq<Warning>, errs := [], [], 0;
    for i := 0 to |cs|
      invariant all == Flatten(EachDocs(cs[..i])) && warnings == Flatten(EachWarnings(cs[..i], timedOut))
      invariant errs <= i && (errs == i <==> AllFailed(cs[..i]))
    {
      Extend(cs, i, timedOut);
      var slot := results[i].value;
      if slot.error.Some? {
        errs, warnings := errs + 1, warnings + [Warning(slot.platform, slot.error.value)];
      } else {
        all := all + slot.docs;
      }
    }
    assert cs[..|cs|] == cs;
    if errs == |cs| {
      return AllConnectorsFailed(warnings);
    }
    r := Gathered.Gathered(all, warnings);
  }

  lemma Extend(cs: seq<Connector>, i: nat, timedOut: string)
    requires i < |cs|
    ensures Flatten(EachDocs(cs[..i + 1])) == Flatten(EachDocs(cs[..i])) + DocsOf(cs[i])
    ensures Flatten(EachWarnings(cs[..i + 1], timedOut))
         == Flatten(EachWarnings(cs[..i], timedOut)) + WarningsOf(cs[i], timedOut)
    ensures AllFailed(cs[..i + 1]) <==> AllFailed(cs[..i]) && cs[i].error.Some?
  {
    FlattenSnoc(EachDocs(cs[..i]), DocsOf(cs[i]));
    FlattenSnoc(EachWarnings(cs[..i], timedOut), WarningsOf(cs[i], timedOut));
    assert EachDocs(cs[..i + 1]) == EachDocs(cs[..i]) + [DocsOf(cs[i])];
    assert EachWarnings(cs[..i + 1], timedOut) == EachWarnings(cs[..i], timedOut) + [WarningsOf(cs[i], timedOut)];
    assert forall k :: 0 <= k < i ==> cs[..i + 1][k] == cs[..i][k];
  }

  /* ---------- what is warned about ---------- */

  /** The platforms that failed, in order. */
  function FailedPlatforms(cs: seq<Connector>): seq<string> {
    if cs == [] then []
    else (if cs[0].error.Some? then [cs[0].id] else []) + FailedPlatforms(cs[1..])
  }

  function Platforms(ws: seq<Warning>): (r: seq<string>)
    ensures |r| == |ws| && forall i :: 0 <= i < |ws| ==> r[i] == ws[i].platform
  {
    seq(|ws|, i requires 0 <= i < |ws| => ws[i].platform)
  }

  lemma PlatformsAppend(a: seq<Warning>, b: seq<Warning>)
    ensures Platforms(a + b) == Platforms(a) + Platforms(b)
  {
  }

  /** Warnings name exactly the failed platforms, in order. */
  lemma {:induction false} WarningsNameTheFailed(cs: seq<Connector>, timedOut: string)
    ensures Platforms(Flatten(EachWarnings(cs, timedOut))) == FailedPlatforms(cs)
  {
    if cs != [] {
      var all := EachWarnings(cs, timedOut);
      WarningsNameTheFailed(cs[1..], timedOut);
      assert all[1..] == EachWarnings(cs[1..], timedOut);
      PlatformsAppend(all[0], Flatten(all[1..]));
      assert Platforms(all[0]) == if cs[0].error.Some? then [cs[0].id] else [];
    }
  }

  /** An answer without warnings is everything every platform gave. */
  lemma {:induction false} NoWarningMeansNoneFailed(cs: seq<Connector>, timedOut: string)
    ensures Flatten(EachWarnings(cs, timedOut)) == [] <==> forall i :: 0 <= i < |cs| ==> cs[i].error.None?
  {
    if cs != [] {
      var all := EachWarnings(cs, timedOut);
      NoWarningMeansNoneFailed(cs[1..], timedOut);
      assert all[1..] == EachWarnings(cs[1..], timedOut);
      assert all[0] == [] <==> cs[0].error.None?;
      assert forall i :: 0 <= i < |cs[1..]| ==> cs[1..][i] == cs[i + 1];
    }
  }

  /** The successful outputs, in platform order. */
  function Successes(cs: seq<Connector>): seq<seq<Document>> {
    if cs == [] then []
    else
      var before, last := Successes(cs[..|cs| - 1]), cs[|cs| - 1];
      if last.error.None? then before + [last.docs] else before
  }

  /** The failures, each with what it failed of: a timeout for one that outlived its deadline. */
  function Failures(cs: seq<Connector>, timedOut: string): seq<Warning> {
    if cs == [] then []
    else
      var before, last := Failures(cs[..|cs| - 1], timedOut), cs[|cs| - 1];
      match last.error
      case None => before
      case Some(message) => before + [Warning(last.id, if last.deadlineExceeded then timedOut else message)]
  }

  lemma {:induction false} SuccessesAre(cs: seq<Connector>)
    ensures Flatten(EachDocs(cs)) == Flatten(Successes(cs))
  {
    if cs != [] {
      var init, last := cs[..|cs| - 1], cs[|cs| - 1];
      SuccessesAre(init);
      SnocDocs(init, last);
      SnocSuccess(init, last);
      assert cs == init + [last];
    }
  }

  lemma SnocDocs(cs: seq<Connector>, c: Connector)
    ensures Flatten(EachDocs(cs + [c])) == Flatten(EachDocs(cs)) + DocsOf(c)
  {
    FlattenSnoc(EachDocs(cs), DocsOf(c));
    assert EachDocs(cs + [c]) == EachDocs(cs) + [DocsOf(c)];
  }

  lemma SnocSuccess(cs: seq<Connector>, c: Connector)
    ensures Flatten(Successes(cs + [c])) == Flatten(Successes(cs)) + DocsOf(c)
  {
    assert (cs + [c])[..|cs|] == cs;
    if c.error.None? {
      FlattenSnoc(Successes(cs), c.docs);
    }
  }

  lemma {:induction false} FailuresAre(cs: seq<Connector>, timedOut: string)
    ensures Flatten(EachWarnings(cs, timedOut)) == Failures(cs, timedOut)
  {
    if cs != [] {
      var init, last := cs[..|cs| - 1], cs[|cs| - 1];
      FailuresAre(init, timedOut);
      FlattenSnoc(EachWarnings(init, timedOut), WarningsOf(last, timedOut));
      assert EachWarnings(cs, timedOut) == EachWarnings(init, timedOut) + [WarningsOf(last, timedOut)];
    }
  }

  /** The fan-out in full: it fails exactly when there are as many failures as platforms, and
      then has no documents; otherwise the documents of the successes end to end. Either way
      there is a warning for each failure, in platform order, with its own message. */
  lemma FanoutInFull(cs: seq<Connector>, timedOut: string)
    ensures InPlatformOrder(cs, timedOut)
         == if |Failures(cs, timedOut)| == |cs| then AllConnectorsFailed(Failures(cs, timedOut))
            else Gathered(Flatten(Successes(cs)), Failures(cs, timedOut))
    ensures |Failures(cs, timedOut)| == |cs| <==> forall i :: 0 <= i < |cs| ==> cs[i].error.Some?
  {
    SuccessesAre(cs);
    FailuresAre(cs, timedOut);
    FailuresFill(cs, timedOut);
  }

  lemma {:induction false} FailuresFill(cs: seq<Connector>, timedOut: string)
    ensures |Failures(cs, timedOut)| <= |cs|
    ensures |Failures(cs, timedOut)| == |cs| <==> forall i :: 0 <= i < |cs| ==> cs[i].error.Some?
  {
    if cs != [] {
      FailuresFill(cs[..|cs| - 1], timedOut);
      assert forall i :: 0 <= i < |cs| - 1 ==> cs[..|cs| - 1][i] == cs[i];
    }
  }

  /* ---------- de-duplication ---------- */

  function DedupeKey(d: Document): string {
    d.platform + "|" + d.id
  }

  /** The index is the first with its key. */
  predicate IsFirst(docs: seq<Document>, i: nat)
    requires i < |docs|
  {
    forall j :: 0 <= j < i ==> DedupeKey(docs[j]) != DedupeKey(docs[i])
  }

  /** The first n indices that are, in order. */
  function Firsts(docs: seq<Document>, n: nat): (r: seq<nat>)
    requires n <= |docs|
    ensures forall k :: 0 <= k < |r| ==> r[k] < n && IsFirst(docs, r[k])
    ensures forall k, l :: 0 <= k < l < |r| ==> r[k] < r[l]
    ensures forall i :: 0 <= i < n && IsFirst(docs, i) ==> i in r
  {
    if n == 0 then []
    else Firsts(docs, n - 1) + if IsFirst(docs, n - 1) then [n - 1] else []
  }

  function Pick(docs: seq<Document>, at: seq<nat>): (r: seq<Document>)
    requires forall k :: 0 <= k < |at| ==> at[k] < |docs|
    ensures |r| == |at| && forall k :: 0 <= k < |r| ==> r[k] == docs[at[k]]
  {
    seq(|at|, k requires 0 <= k < |at| => docs[at[k]])
  }

  function Kept(docs: seq<Document>, n: nat): seq<Document>
    requires n <= |docs|
  {
    Pick(docs, Firsts(docs, n))
  }

  function Deduped(docs: seq<Document>): seq<Document> {
    Kept(docs, |docs|)
  }

  function KeysBefore(docs: seq<Document>, n: nat): set<string>
    requires n <= |docs|
  {
    set j | 0 <= j < n :: DedupeKey(docs[j])
  }

  lemma FirstIsUnseen(docs: seq<Document>, i: nat)
    requires i < |docs|
    ensures IsFirst(docs, i) <==> DedupeKey(docs[i]) !in KeysBefore(docs, i)
    ensures KeysBefore(docs, i + 1) == KeysBefore(docs, i) + {DedupeKey(docs[i])}
    ensures Kept(docs, i + 1) == Kept(docs, i) + if IsFirst(docs, i) then [docs[i]] else []
  {
    assert IsFirst(docs, i) <==> forall j :: 0 <= j < i ==> DedupeKey(docs[j]) != DedupeKey(docs[i]);
  }

  method DedupeByID(docs: seq<Document>) returns (out: seq<Document>)
    ensures out == Deduped(docs)
  {
    if |docs| <= 1 {
      assert |docs| == 1 ==> Kept(docs, 1) == Kept(docs, 0) + [docs[0]];
      return docs;
    }
    var seen: set<string> := {};
    out := [];
    for i := 0 to |docs|
      invariant seen == KeysBefore(docs, i)
      invariant out == Kept(docs, i)
    {
      var key := DedupeKey(docs[i]);
      FirstIsUnseen(docs, i);
      if key !in seen {
        seen, out := seen + {key}, out + [docs[i]];
      }
    }
  }

  /** The document is the first of its platform with its id. */
  predicate IsFirstOfPair(docs: seq<Document>, i: nat)
    requires i < |docs|
  {
    forall j :: 0 <= j < i ==> !(docs[j].platform == docs[i].platform && docs[j].id == docs[i].id)
  }

  /** Two platforms whose names cannot be mistaken for each other inside a key. */
  predicate Apart(p: string, q: string) {
    !(p + "|" <= q) && !(q + "|" <= p)
  }

  /** Some ids make the keys of two platforms collide exactly when one name continues the
      other past a bar. */
  lemma KeysCollideIff(p: string, q: string)
    requires p != q
    ensures (exists x: string, y: string :: p + "|" + x == q + "|" + y) <==> !Apart(p, q)
  {
    forall x: string, y: string | p + "|" + x == q + "|" + y ensures !Apart(p, q) {
      KeyExtends(p, x, q, y);
    }
    if p + "|" <= q {
      var rest := q[|p| + 1..];
      assert p + "|" + (rest + "|" + "") == q + "|" + "";
    } else if q + "|" <= p {
      var rest := p[|q| + 1..];
      assert p + "|" + "" == q + "|" + (rest + "|" + "");
    }
  }

  lemma KeyExtends(p: string, x: string, q: string, y: string)
    requires p != q && p + "|" + x == q + "|" + y
    ensures !Apart(p, q)
  {
    var s, t := p + "|" + x, q + "|" + y;
    assert s[..|p|] == p && t[..|q|] == q;
    assert s[..|p| + 1] == p + "|" && t[..|q| + 1] == q + "|";
    assert |p| < |q| ==> t[..|q|][..|p| + 1] == t[..|p| + 1];
    assert |q| < |p| ==> s[..|p|][..|q| + 1] == s[..|q| + 1];
  }

  lemma SameKeyIsSamePair(a: Document, b: Document)
    requires a.platform == b.platform || Apart(a.platform, b.platform)
    ensures DedupeKey(a) == DedupeKey(b) <==> a.platform == b.platform && a.id == b.id
  {
    if DedupeKey(a) == DedupeKey(b) {
      if a.platform != b.platform {
        KeyExtends(a.platform, a.id, b.platform, b.id);
      }
      assert DedupeKey(a)[|a.platform| + 1..] == a.id && DedupeKey(b)[|b.platform| + 1..] == b.id;
    }
  }

  /** One document per platform and id, the first, in order of first occurrence. */
  ghost predicate OnePerPair(docs: seq<Document>, out: seq<Document>, at: seq<nat>) {
    && |at| == |out|
    && (forall k :: 0 <= k < |at| ==> at[k] < |docs| && out[k] == docs[at[k]])
    && (forall k, l :: 0 <= k < l < |at| ==> at[k] < at[l])
    && (forall i :: 0 <= i < |docs| ==> (i in at <==> IsFirstOfPair(docs, i)))
  }

  lemma DedupeKeepsOnePerPair(docs: seq<Document>)
    requires forall i, j :: 0 <= i < |docs| && 0 <= j < |docs| ==>
        docs[i].platform == docs[j].platform || Apart(docs[i].platform, docs[j].platform)
    ensures OnePerPair(docs, Deduped(docs), Firsts(docs, |docs|))
  {
    forall i | 0 <= i < |docs| ensures IsFirst(docs, i) <==> IsFirstOfPair(docs, i) {
      forall j | 0 <= j < i
        ensures DedupeKey(docs[j]) == DedupeKey(docs[i])
           <==> docs[j].platform == docs[i].platform && docs[j].id == docs[i].id
      {
        SameKeyIsSamePair(docs[j], docs[i]);
      }
    }
  }

  /** Names without a bar are apart. */
  lemma BarFreeNamesAreApart(p: string, q: string)
    requires '|' !in p && '|' !in q
    ensures Apart(p, q)
  {
    ContinuedNameHasBar(p, q);
    ContinuedNameHasBar(q, p);
  }

  lemma ContinuedNameHasBar(p: string, q: string)
    ensures p + "|" <= q ==> '|' in q
  {
    if p + "|" <= q {
      assert q[|p|] == '|';
    }
  }

  /** A connector stamps its documents with its own id, which holds no bar: every connector's
      is a plain word. */
  predicate StampsItsName(c: Connector) {
    '|' !in c.id && forall i :: 0 <= i < |c.docs| ==> c.docs[i].platform == c.id
  }

  lemma {:induction false} GatheredNamesAreBarFree(cs: seq<Connector>, i: nat)
    requires forall k :: 0 <= k < |cs| ==> StampsItsName(cs[k])
    requires i < |Flatten(EachDocs(cs))|
    ensures '|' !in Flatten(EachDocs(cs))[i].platform
  {
    var rest := EachDocs(cs)[1..];
    assert Flatten(EachDocs(cs)) == DocsOf(cs[0]) + Flatten(rest);
    assert rest == EachDocs(cs[1..]);
    assert StampsItsName(cs[0]);
    if i >= |DocsOf(cs[0])| {
      GatheredNamesAreBarFree(cs[1..], i - |DocsOf(cs[0])|);
    }
  }

  /** So whatever the connectors found, one document per platform and id is kept, the first. */
  lemma GatheredKeepOnePerPair(cs: seq<Connector>)
    requires forall k :: 0 <= k < |cs| ==> StampsItsName(cs[k])
    ensures var docs := Flatten(EachDocs(cs)); OnePerPair(docs, Deduped(docs), Firsts(docs, |docs|))
  {
    var docs := Flatten(EachDocs(cs));
    forall i, j | 0 <= i < |docs| && 0 <= j < |docs| ensures Apart(docs[i].platform, docs[j].platform) {
      GatheredNamesAreBarFree(cs, i);
      GatheredNamesAreBarFree(cs, j);
      BarFreeNamesAreApart(docs[i].platform, docs[j].platform);
    }
    DedupeKeepsOnePerPair(docs);
  }

  /** Names that are not apart would lose a document: the second is dropped as a copy of the first. */
  lemma BarInPlatformDropsADocument(p: string, rest: string, id: string, text: string, text': string, url: string)
    ensures var first := Document(p, rest + "|" + id, text, url);
            var second := Document(p + "|" + rest, id, text', url);
            Deduped([first, second]) == [first]
  {
    var first := Document(p, rest + "|" + id, text, url);
    var second := Document(p + "|" + rest, id, text', url);
    var docs := [first, second];
    Associative(p + "|", rest + "|", id);
    Associative(p + "|", rest, "|");
    assert DedupeKey(docs[0]) == DedupeKey(docs[1]);
    assert IsFirst(docs, 0) && !IsFirst(docs, 1);
    assert Firsts(docs, 1) == [0] && Firsts(docs, 2) == [0];
  }
}
