/**
 Content negotiation of api/internal/server/negotiate.go, from the parsed media ranges on:
 section 12.5.1 of RFC 9110, with quality values (section 12.4.2) as reals.
 */
module Negotiate {
  import opened Wrappers

  const MIME_JSON := "application/json"
  const MIME_XML := "application/xml"
  const MIME_YAML := "application/yaml"
  const MIME_HTML := "text/html"
  const MIME_CSV := "text/csv"
  const MIME_NDJSON := "application/x-ndjson"

  /** One entry of the header as the media-type parser delivers it: the lower-cased type and
      the q parameter where it parses as a number. Entries it rejects are not delivered. */
  datatype Entry = Entry(media: string, q: Option<real>)

  datatype AcceptRange = AcceptRange(typ: string, sub: string, q: real)

  function CanonicalMedia(media: string): string {
    if media in {"application/json", "text/json"} then MIME_JSON
    else if media in {"application/xml", "text/xml"} then MIME_XML
    else if media in {"application/yaml", "text/yaml", "application/x-yaml", "text/x-yaml"} then MIME_YAML
    else if media in {"text/csv", "application/csv"} then MIME_CSV
    else if media in {"application/x-ndjson", "application/ndjson"} then MIME_NDJSON
    else ""
  }

  /** The parts before and after the first slash; None without one. */
  function Cut(s: string): (r: Option<(string, string)>)
    ensures r.Some? ==> s == r.value.0 + "/" + r.value.1 && '/' !in r.value.0
    ensures r.None? ==> '/' !in s
  {
    if s == "" then None
    else if s[0] == '/' then Some(("", s[1..]))
    else
      var rest := Cut(s[1..]);
      if rest.None? then None else Some(([s[0]] + rest.value.0, rest.value.1))
  }

  /** Aliases fold onto the offered spelling; wildcards and unknown types pass through. */
  function RangeOf(e: Entry): Option<AcceptRange> {
    var media := if CanonicalMedia(e.media) != "" then CanonicalMedia(e.media) else e.media;
    var parts := Cut(media);
    if parts.None? then None
    else Some(AcceptRange(parts.value.0, parts.value.1, e.q.GetOr(1.0)))
  }

  function Ranges(entries: seq<Entry>): seq<AcceptRange> {
    if entries == [] then []
    else
      var before, last := Ranges(entries[..|entries| - 1]), RangeOf(entries[|entries| - 1]);
      if last.Some? then before + [last.value] else before
  }

  method ParseAccept(entries: seq<Entry>) returns (out: seq<AcceptRange>)
    ensures out == Ranges(entries)
  {
    out := [];
    for i := 0 to |entries|
      invariant out == Ranges(entries[..i])
    {
      assert entries[..i + 1][..i] == entries[..i];
      var media := entries[i].media;
      var c := CanonicalMedia(media);
      if c != "" {
        media := c;
      }
      var parts := Cut(media);
      if parts.Some? {
        out := out + [AcceptRange(parts.value.0, parts.value.1, entries[i].q.GetOr(1.0))];
      }
    }
    assert entries[..|entries|] == entries;
  }

  /* ---------- quality ---------- */

  /** 2 for an exact match, 1 for type/\*, 0 for \*\/\*, -1 for none. */
  function Specificity(typ: string, sub: string, r: AcceptRange): int {
    if r.typ == typ && r.sub == sub then 2
    else if r.typ == typ && r.sub == "*" then 1
    else if r.typ == "*" && r.sub == "*" then 0
    else -1
  }

  /** q is what the first of the most specific matching ranges says. */
  ghost predicate IsQuality(typ: string, sub: string, ranges: seq<AcceptRange>, q: real, spec: int) {
    && (forall j :: 0 <= j < |ranges| ==> Specificity(typ, sub, ranges[j]) <= spec)
    && (if spec < 0 then spec == -1 && q == 0.0
        else exists k :: 0 <= k < |ranges| && Specificity(typ, sub, ranges[k]) == spec && ranges[k].q == q
               && forall j :: 0 <= j < k ==> Specificity(typ, sub, ranges[j]) < spec)
  }

  lemma QualityUnique(typ: string, sub: string, ranges: seq<AcceptRange>, q: real, spec: int, q': real, spec': int)
    requires IsQuality(typ, sub, ranges, q, spec) && IsQuality(typ, sub, ranges, q', spec')
    ensures q == q' && spec == spec'
  {
  }

  function QualityOf(typ: string, sub: string, ranges: seq<AcceptRange>): (r: (real, int))
    ensures IsQuality(typ, sub, ranges, r.0, r.1)
  {
    if ranges == [] then (0.0, -1)
    else
      var before, last := QualityOf(typ, sub, ranges[..|ranges| - 1]), ranges[|ranges| - 1];
      var s := Specificity(typ, sub, last);
      QualityGrows(typ, sub, ranges[..|ranges| - 1], last, before.0, before.1);
      assert ranges == ranges[..|ranges| - 1] + [last];
      if s > before.1 then (last.q, s) else before
  }

  lemma QualityGrows(typ: string, sub: string, ranges: seq<AcceptRange>, last: AcceptRange, q: real, spec: int)
    requires IsQuality(typ, sub, ranges, q, spec)
    ensures var s := Specificity(typ, sub, last);
            if s > spec then IsQuality(typ, sub, ranges + [last], last.q, s)
            else IsQuality(typ, sub, ranges + [last], q, spec)
  {
    if Specificity(typ, sub, last) > spec {
      assert (ranges + [last])[|ranges|] == last;
    } else {
      QualityExtends(typ, sub, ranges, last, q, spec);
    }
  }

  lemma QualityExtends(typ: string, sub: string, ranges: seq<AcceptRange>, last: AcceptRange, q: real, spec: int)
    requires IsQuality(typ, sub, ranges, q, spec) && Specificity(typ, sub, last) <= spec
    ensures IsQuality(typ, sub, ranges + [last], q, spec)
  {
    var all := ranges + [last];
    forall j | 0 <= j < |all| ensures Specificity(typ, sub, all[j]) <= spec {
      assert j < |ranges| ==> all[j] == ranges[j];
    }
    if spec >= 0 {
      var k :| 0 <= k < |ranges| && Specificity(typ, sub, ranges[k]) == spec && ranges[k].q == q
        && forall j :: 0 <= j < k ==> Specificity(typ, sub, ranges[j]) < spec;
      assert all[k] == ranges[k];
      assert forall j :: 0 <= j < k ==> all[j] == ranges[j];
    }
  }

  function TypeOf(media: string): (string, string) {
    var parts := Cut(media);
    if parts.Some? then parts.value else (media, "")
  }

  method Quality(media: string, ranges: seq<AcceptRange>) returns (q: real, spec: int)
    ensures (q, spec) == QualityOf(TypeOf(media).0, TypeOf(media).1, ranges)
  {
    var (typ, sub) := TypeOf(media);
    q, spec := 0.0, -1;
    for i := 0 to |ranges|
      invariant (q, spec) == QualityOf(typ, sub, ranges[..i])
    {
      assert ranges[..i + 1][..i] == ranges[..i];
      var r := ranges[i];
      var s := -1;
      if r.typ == typ && r.sub == sub {
        s := 2;
      } else if r.typ == typ && r.sub == "*" {
        s := 1;
      } else if r.typ == "*" && r.sub == "*" {
        s := 0;
      }
      if s > spec {
        q, spec := r.q, s;
      }
    }
    assert ranges[..|ranges|] == ranges;
  }

  /* ---------- negotiate ---------- */

  /** The client's preference for one offer; zero when nothing matches it. An offer is
      acceptable when this is positive. */
  function Weight(offer: string, ranges: seq<AcceptRange>): real {
    QualityOf(TypeOf(offer).0, TypeOf(offer).1, ranges).0
  }

  function Weights(offers: seq<string>, ranges: seq<AcceptRange>): (ws: seq<real>)
    ensures |ws| == |offers| && forall j :: 0 <= j < |ws| ==> ws[j] == Weight(offers[j], ranges)
  {
    seq(|offers|, j requires 0 <= j < |offers| => Weight(offers[j], ranges))
  }

  /** The earliest of greatest positive weight. */
  predicate IsBest(ws: seq<real>, k: nat) {
    && k < |ws| && ws[k] > 0.0
    && forall j :: 0 <= j < |ws| ==> ws[j] <= ws[k] && (j < k ==> ws[j] < ws[k])
  }

  predicate NonePositive(ws: seq<real>) {
    forall j :: 0 <= j < |ws| ==> ws[j] <= 0.0
  }

  /** A literal text/html at or above the best weight. */
  predicate BrowserLeads(ranges: seq<AcceptRange>, best: real) {
    var html := QualityOf("text", "html", ranges);
    html.1 == 2 && html.0 >= best
  }

  /** The result: the default without ranges, nothing when every offer is refused, JSON for a
      browser, and otherwise the best offer. */
  ghost predicate IsNegotiated(offers: seq<string>, ranges: seq<AcceptRange>, r: string) {
    var ws := Weights(offers, ranges);
    if ranges == [] then offers != [] && r == offers[0]
    else if NonePositive(ws) then r == ""
    else
      exists k: nat ::
        && IsBest(ws, k)
        && r == if BrowserLeads(ranges, ws[k]) then MIME_JSON else offers[k]
  }

  lemma NextWeight(ws: seq<real>, i: nat, at: nat)
    requires i < |ws|
    ensures NonePositive(ws[..i]) ==>
        if ws[i] > 0.0 then IsBest(ws[..i + 1], i) else NonePositive(ws[..i + 1])
    ensures IsBest(ws[..i], at) ==> if ws[i] > ws[at] then IsBest(ws[..i + 1], i) else IsBest(ws[..i + 1], at)
  {
    assert ws[..i + 1] == ws[..i] + [ws[i]];
  }

  /** The running best over the offers; "" when none is acceptable. */
  method PickBest(ranges: seq<AcceptRange>, offers: seq<string>) returns (best: string, bestQ: real, ghost at: nat)
    requires forall j :: 0 <= j < |offers| ==> offers[j] != ""
    ensures best == "" ==> NonePositive(Weights(offers, ranges))
    ensures best != "" ==>
        IsBest(Weights(offers, ranges), at) && best == offers[at] && bestQ == Weights(offers, ranges)[at]
  {
    ghost var ws := Weights(offers, ranges);
    best, bestQ, at := "", 0.0, 0;
    for i := 0 to |offers|
      invariant best == "" ==> bestQ == 0.0 && NonePositive(ws[..i])
      invariant best != "" ==> IsBest(ws[..i], at) && best == offers[at] && bestQ == ws[at]
    {
      NextWeight(ws, i, at);
      var q, spec := Quality(offers[i], ranges);
      if spec < 0 || q <= 0.0 {
        continue;
      }
      if q > bestQ {
        best, bestQ, at := offers[i], q, i;
      }
    }
    assert ws[..|offers|] == ws;
  }

  predicate AreOffers(offers: seq<string>) {
    offers != [] && forall j :: 0 <= j < |offers| ==> offers[j] != ""
  }

  /** The client accepts none of these. */
  predicate AllRefused(offers: seq<string>, ranges: seq<AcceptRange>) {
    forall j :: 0 <= j < |offers| ==> Weight(offers[j], ranges) <= 0.0
  }

  /** The client refuses JSON, and its literal text/html leads every offer. */
  ghost predicate OverruledByBrowser(offers: seq<string>, ranges: seq<AcceptRange>) {
    && Weight(MIME_JSON, ranges) <= 0.0
    && exists k: nat :: IsBest(Weights(offers, ranges), k) && BrowserLeads(ranges, Weights(offers, ranges)[k])
  }

  /** Refused exactly when ranges exist and every offer is refused; otherwise an offer the client
      accepts, unless a browser's text/html decided it and JSON is refused: that exception, and
      nothing else, can serve what Accept excludes. */
  method NegotiateRanges(ranges: seq<AcceptRange>, offers: seq<string>) returns (r: string)
    requires AreOffers(offers)
    ensures IsNegotiated(offers, ranges, r)
    ensures r == "" <==> ranges != [] && AllRefused(offers, ranges)
    ensures ranges != [] && r != "" ==> (Weight(r, ranges) <= 0.0 <==> OverruledByBrowser(offers, ranges))
  {
    if |ranges| == 0 {
      return offers[0];
    }
    var best, bestQ;
    ghost var at;
    best, bestQ, at := PickBest(ranges, offers);
    if best == "" {
      RefusedExactlyWhenNothingServes(offers, ranges, "");
      return "";
    }
    var hq, hspec := Quality(MIME_HTML, ranges);
    HtmlType();
    r := if hspec == 2 && hq >= bestQ then MIME_JSON else best;
    RefusedExactlyWhenNothingServes(offers, ranges, r);
    ServesOnlyWhatIsAccepted(offers, ranges, r);
  }

  lemma {:induction false} CutJoined(typ: string, sub: string)
    requires '/' !in typ
    ensures Cut(typ + "/" + sub) == Some((typ, sub))
  {
    var s := typ + "/" + sub;
    if typ == "" {
      assert s[1..] == sub;
    } else {
      CutJoined(typ[1..], sub);
      assert s[1..] == typ[1..] + "/" + sub;
      assert typ == [s[0]] + typ[1..];
    }
  }

  lemma HtmlType()
    ensures TypeOf(MIME_HTML) == ("text", "html")
  {
    CutJoined("text", "html");
    assert MIME_HTML == "text" + "/" + "html";
  }

  /** negotiate, for a header that parses into these entries. */
  method NegotiateHeader(entries: seq<Entry>, offers: seq<string>) returns (r: string)
    requires AreOffers(offers)
    ensures IsNegotiated(offers, Ranges(entries), r)
    ensures r == "" <==> Ranges(entries) != [] && AllRefused(offers, Ranges(entries))
    ensures Ranges(entries) != [] && r != "" ==>
        (Weight(r, Ranges(entries)) <= 0.0 <==> OverruledByBrowser(offers, Ranges(entries)))
  {
    var ranges := ParseAccept(entries);
    r := NegotiateRanges(ranges, offers);
  }

  /* ---------- what the choice means ---------- */

  lemma BestIsUnique(ws: seq<real>, j: nat, k: nat)
    requires IsBest(ws, j) && IsBest(ws, k)
    ensures j == k
  {
  }

  /** The answer is determined: two runs over the same ranges agree. */
  lemma NegotiatedIsUnique(offers: seq<string>, ranges: seq<AcceptRange>, r: string, r': string)
    requires IsNegotiated(offers, ranges, r) && IsNegotiated(offers, ranges, r')
    ensures r == r'
  {
    var ws := Weights(offers, ranges);
    if ranges != [] && !NonePositive(ws) {
      var k: nat :| IsBest(ws, k) && r == if BrowserLeads(ranges, ws[k]) then MIME_JSON else offers[k];
      var k': nat :| IsBest(ws, k') && r' == if BrowserLeads(ranges, ws[k']) then MIME_JSON else offers[k'];
      BestIsUnique(ws, k, k');
    }
  }

  /** Refusal happens exactly when ranges exist and every offer is refused. */
  lemma RefusedExactlyWhenNothingServes(offers: seq<string>, ranges: seq<AcceptRange>, r: string)
    requires AreOffers(offers) && IsNegotiated(offers, ranges, r)
    ensures r == "" <==> ranges != [] && AllRefused(offers, ranges)
  {
    if ranges != [] {
      assert NonePositive(Weights(offers, ranges)) <==> AllRefused(offers, ranges);
    }
  }

  /** Only the browser exception can serve what Accept excludes. */
  lemma ServesOnlyWhatIsAccepted(offers: seq<string>, ranges: seq<AcceptRange>, r: string)
    requires AreOffers(offers) && ranges != [] && r != "" && IsNegotiated(offers, ranges, r)
    ensures Weight(r, ranges) <= 0.0 <==> OverruledByBrowser(offers, ranges)
  {
    var ws := Weights(offers, ranges);
    var k: nat :| IsBest(ws, k) && r == if BrowserLeads(ranges, ws[k]) then MIME_JSON else offers[k];
    assert ws[k] == Weight(offers[k], ranges);
    if OverruledByBrowser(offers, ranges) {
      var j: nat :| IsBest(ws, j) && BrowserLeads(ranges, ws[j]);
      BestIsUnique(ws, j, k);
    }
  }

  /* ---------- the order of the header ---------- */

  /** No two ranges name the same type. */
  ghost predicate DistinctTypes(ranges: seq<AcceptRange>) {
    forall i, j :: 0 <= i < j < |ranges| ==> (ranges[i].typ, ranges[i].sub) != (ranges[j].typ, ranges[j].sub)
  }

  ghost predicate SameRanges(a: seq<AcceptRange>, b: seq<AcceptRange>) {
    forall r :: r in a <==> r in b
  }

  lemma NoMoreSpecific(typ: string, sub: string, a: seq<AcceptRange>, b: seq<AcceptRange>)
    requires SameRanges(a, b)
    ensures QualityOf(typ, sub, b).1 <= QualityOf(typ, sub, a).1
  {
    var (qa, sa) := QualityOf(typ, sub, a);
    forall j | 0 <= j < |b| ensures Specificity(typ, sub, b[j]) <= sa {
      assert b[j] in a;
      var i :| 0 <= i < |a| && a[i] == b[j];
    }
  }

  lemma QualityIgnoresOrder(typ: string, sub: string, a: seq<AcceptRange>, b: seq<AcceptRange>)
    requires DistinctTypes(a) && SameRanges(a, b)
    ensures QualityOf(typ, sub, a) == QualityOf(typ, sub, b)
  {
    var (qa, sa) := QualityOf(typ, sub, a);
    var (qb, sb) := QualityOf(typ, sub, b);
    NoMoreSpecific(typ, sub, a, b);
    NoMoreSpecific(typ, sub, b, a);
    if sa >= 0 {
      var i :| 0 <= i < |a| && Specificity(typ, sub, a[i]) == sa && a[i].q == qa;
      var j :| 0 <= j < |b| && Specificity(typ, sub, b[j]) == sb && b[j].q == qb;
      assert b[j] in a;
      var k :| 0 <= k < |a| && a[k] == b[j];
      assert i == k;
    }
  }

  /** Reordering ranges with distinct folded types never changes the answer. */
  lemma OrderOfRangesIsIrrelevant(offers: seq<string>, a: seq<AcceptRange>, b: seq<AcceptRange>, r: string)
    requires DistinctTypes(a) && SameRanges(a, b) && IsNegotiated(offers, a, r)
    ensures IsNegotiated(offers, b, r)
  {
    assert a != [] ==> a[0] in b;
    assert b != [] ==> b[0] in a;
    if a != [] {
      forall offer ensures Weight(offer, a) == Weight(offer, b) {
        QualityIgnoresOrder(TypeOf(offer).0, TypeOf(offer).1, a, b);
      }
      QualityIgnoresOrder("text", "html", a, b);
      assert Weights(offers, a) == Weights(offers, b);
    }
  }

  predicate Names(ranges: seq<AcceptRange>, typ: string, sub: string) {
    exists i :: 0 <= i < |ranges| && ranges[i].typ == typ && ranges[i].sub == sub
  }

  /** The weight of the first range with this type and subtype. */
  function FirstWeight(ranges: seq<AcceptRange>, typ: string, sub: string): real
    requires Names(ranges, typ, sub)
  {
    if ranges[0].typ == typ && ranges[0].sub == sub then ranges[0].q
    else
      assert Names(ranges[1..], typ, sub) by {
        var i :| 0 <= i < |ranges| && ranges[i].typ == typ && ranges[i].sub == sub;
        assert ranges[1..][i - 1] == ranges[i];
      }
      FirstWeight(ranges[1..], typ, sub)
  }

  lemma {:induction false} FirstWeightIsFirst(ranges: seq<AcceptRange>, typ: string, sub: string) returns (i: nat)
    requires Names(ranges, typ, sub)
    ensures i < |ranges| && ranges[i].typ == typ && ranges[i].sub == sub
    ensures ranges[i].q == FirstWeight(ranges, typ, sub)
    ensures forall j :: 0 <= j < i ==> !(ranges[j].typ == typ && ranges[j].sub == sub)
  {
    if ranges[0].typ == typ && ranges[0].sub == sub {
      i := 0;
    } else {
      assert Names(ranges[1..], typ, sub) by {
        var k :| 0 <= k < |ranges| && ranges[k].typ == typ && ranges[k].sub == sub;
        assert ranges[1..][k - 1] == ranges[k];
      }
      var k := FirstWeightIsFirst(ranges[1..], typ, sub);
      i := k + 1;
      assert forall j :: 1 <= j < i ==> ranges[j] == ranges[1..][j - 1];
    }
  }

  /** The precedence of RFC 9110 section 12.5.1, written out: an exact range, else type/\*, else
      \*\/\*, else nothing; the order in which the ranges stand does not override it. */
  lemma MostSpecificRangeDecides(typ: string, sub: string, ranges: seq<AcceptRange>)
    requires typ != "*" && sub != "*"
    ensures QualityOf(typ, sub, ranges)
         == if Names(ranges, typ, sub) then (FirstWeight(ranges, typ, sub), 2)
            else if Names(ranges, typ, "*") then (FirstWeight(ranges, typ, "*"), 1)
            else if Names(ranges, "*", "*") then (FirstWeight(ranges, "*", "*"), 0)
            else (0.0, -1)
  {
    if Names(ranges, typ, sub) {
      var i := FirstWeightIsFirst(ranges, typ, sub);
      IsTheQuality(typ, sub, ranges, ranges[i].q, 2);
    } else if Names(ranges, typ, "*") {
      var i := FirstWeightIsFirst(ranges, typ, "*");
      IsTheQuality(typ, sub, ranges, ranges[i].q, 1);
    } else if Names(ranges, "*", "*") {
      var i := FirstWeightIsFirst(ranges, "*", "*");
      IsTheQuality(typ, sub, ranges, ranges[i].q, 0);
    } else {
      IsTheQuality(typ, sub, ranges, 0.0, -1);
    }
  }

  /** So the weight of an offer is that of the first range naming it exactly, else its type, else
      everything; an offer no range reaches weighs nothing. */
  lemma WeightInFull(typ: string, sub: string, ranges: seq<AcceptRange>)
    requires '/' !in typ && typ != "*" && sub != "*"
    ensures Weight(typ + "/" + sub, ranges)
         == if Names(ranges, typ, sub) then FirstWeight(ranges, typ, sub)
            else if Names(ranges, typ, "*") then FirstWeight(ranges, typ, "*")
            else if Names(ranges, "*", "*") then FirstWeight(ranges, "*", "*")
            else 0.0
  {
    CutJoined(typ, sub);
    MostSpecificRangeDecides(typ, sub, ranges);
  }

  /** A literal text/html weighs no less than any offer. */
  ghost predicate HtmlLeads(offers: seq<string>, ranges: seq<AcceptRange>) {
    && Names(ranges, "text", "html")
    && forall j :: 0 <= j < |offers| ==> Weight(offers[j], ranges) <= FirstWeight(ranges, "text", "html")
  }

  /** The answer in full: the first offer for a header without ranges, nothing when every offer is
      refused, JSON when a literal text/html leads, and otherwise the earliest offer of greatest
      weight. */
  lemma AnswerInFull(offers: seq<string>, ranges: seq<AcceptRange>, r: string)
    requires AreOffers(offers) && IsNegotiated(offers, ranges, r)
    ensures if ranges == [] then r == offers[0]
            else if AllRefused(offers, ranges) then r == ""
            else if HtmlLeads(offers, ranges) then r == "application/json"
            else exists k ::
              && 0 <= k < |offers| && r == offers[k] && Weight(offers[k], ranges) > 0.0
              && forall j :: 0 <= j < |offers| ==>
                   && Weight(offers[j], ranges) <= Weight(offers[k], ranges)
                   && (j < k ==> Weight(offers[j], ranges) < Weight(offers[k], ranges))
  {
    RefusedExactlyWhenNothingServes(offers, ranges, r);
    if ranges != [] && !AllRefused(offers, ranges) {
      var ws := Weights(offers, ranges);
      var k: nat :| IsBest(ws, k) && r == if BrowserLeads(ranges, ws[k]) then MIME_JSON else offers[k];
      MostSpecificRangeDecides("text", "html", ranges);
      assert forall j :: 0 <= j < |offers| ==> ws[j] == Weight(offers[j], ranges);
    }
  }

  /** Of two ranges of one type the first decides, so with a repeated type (or two aliases of
      one type) the order of the header does matter. */
  lemma RepeatedTypeMakesOrderMatter(typ: string, sub: string, low: real, high: real)
    ensures QualityOf(typ, sub, [AcceptRange(typ, sub, low), AcceptRange(typ, sub, high)]) == (low, 2)
    ensures QualityOf(typ, sub, [AcceptRange(typ, sub, high), AcceptRange(typ, sub, low)]) == (high, 2)
  {
    var a, b := AcceptRange(typ, sub, low), AcceptRange(typ, sub, high);
    assert [a, b][0] == a && [b, a][0] == b;
    IsTheQuality(typ, sub, [a, b], low, 2);
    IsTheQuality(typ, sub, [b, a], high, 2);
  }

  /** Two headers that spell the same media types in different known ways. */
  ghost predicate SameButForSpelling(a: seq<Entry>, b: seq<Entry>) {
    && |a| == |b|
    && forall i :: 0 <= i < |a| ==>
         && a[i].q == b[i].q
         && (a[i].media == b[i].media
             || (CanonicalMedia(a[i].media) == CanonicalMedia(b[i].media) && CanonicalMedia(a[i].media) != ""))
  }

  /** Known aliases fold: how a client spells a type never changes the answer. */
  lemma {:induction false} SpellingIsIrrelevant(a: seq<Entry>, b: seq<Entry>)
    requires SameButForSpelling(a, b)
    ensures Ranges(a) == Ranges(b)
  {
    if a != [] {
      var n := |a| - 1;
      assert SameButForSpelling(a[..n], b[..n]);
      SpellingIsIrrelevant(a[..n], b[..n]);
      assert RangeOf(a[n]) == RangeOf(b[n]);
    }
  }

  lemma ReadAs(m: string, typ: string, sub: string, q: Option<real>)
    requires '/' !in typ && CanonicalMedia(m) == typ + "/" + sub
    ensures RangeOf(Entry(m, q)) == Some(AcceptRange(typ, sub, q.GetOr(1.0)))
  {
    CutJoined(typ, sub);
    assert (typ + "/" + sub)[|typ|] == '/';
  }

  /** The spellings the parser knows, and the type each is read as. */
  lemma KnownSpellings(m: string, q: Option<real>)
    ensures m in {"application/json", "text/json"} ==>
        RangeOf(Entry(m, q)) == Some(AcceptRange("application", "json", q.GetOr(1.0)))
    ensures m in {"application/xml", "text/xml"} ==>
        RangeOf(Entry(m, q)) == Some(AcceptRange("application", "xml", q.GetOr(1.0)))
    ensures m in {"application/yaml", "text/yaml", "application/x-yaml", "text/x-yaml"} ==>
        RangeOf(Entry(m, q)) == Some(AcceptRange("application", "yaml", q.GetOr(1.0)))
    ensures m in {"text/csv", "application/csv"} ==>
        RangeOf(Entry(m, q)) == Some(AcceptRange("text", "csv", q.GetOr(1.0)))
    ensures m in {"application/x-ndjson", "application/ndjson"} ==>
        RangeOf(Entry(m, q)) == Some(AcceptRange("application", "x-ndjson", q.GetOr(1.0)))
  {
    CanonicalSpellings(m);
    if m in {"application/json", "text/json"} {
      ReadAs(m, "application", "json", q);
    } else if m in {"application/xml", "text/xml"} {
      ReadAs(m, "application", "xml", q);
    } else if m in {"application/yaml", "text/yaml", "application/x-yaml", "text/x-yaml"} {
      ReadAs(m, "application", "yaml", q);
    } else if m in {"text/csv", "application/csv"} {
      ReadAs(m, "text", "csv", q);
    } else if m in {"application/x-ndjson", "application/ndjson"} {
      ReadAs(m, "application", "x-ndjson", q);
    }
  }

  /** No spelling is of two types: they end differently. */
  lemma CanonicalSpellings(m: string)
    ensures m in {"application/json", "text/json"} ==> CanonicalMedia(m) == "application" + "/" + "json"
    ensures m in {"application/xml", "text/xml"} ==> CanonicalMedia(m) == "application" + "/" + "xml"
    ensures m in {"application/yaml", "text/yaml", "application/x-yaml", "text/x-yaml"} ==>
        CanonicalMedia(m) == "application" + "/" + "yaml"
    ensures m in {"text/csv", "application/csv"} ==> CanonicalMedia(m) == "text" + "/" + "csv"
    ensures m in {"application/x-ndjson", "application/ndjson"} ==> CanonicalMedia(m) == "application" + "/" + "x-ndjson"
  {
    MarkupSpellings(m);
    RowSpellings(m);
  }

  lemma MarkupSpellings(m: string)
    ensures m in {"application/json", "text/json"} ==> CanonicalMedia(m) == "application" + "/" + "json"
    ensures m in {"application/xml", "text/xml"} ==> CanonicalMedia(m) == "application" + "/" + "xml"
    ensures m in {"application/yaml", "text/yaml", "application/x-yaml", "text/x-yaml"} ==>
        CanonicalMedia(m) == "application" + "/" + "yaml"
  {
    var n := |m|;
    if m in {"application/json", "text/json"} {
      assert m[n - 4..] == "json";
    } else if m in {"application/xml", "text/xml"} {
      assert m[n - 3..] == "xml";
    } else if m in {"application/yaml", "text/yaml", "application/x-yaml", "text/x-yaml"} {
      assert m[n - 4..] == "yaml";
    }
  }

  lemma RowSpellings(m: string)
    ensures m in {"text/csv", "application/csv"} ==> CanonicalMedia(m) == "text" + "/" + "csv"
    ensures m in {"application/x-ndjson", "application/ndjson"} ==> CanonicalMedia(m) == "application" + "/" + "x-ndjson"
  {
    var n := |m|;
    if m in {"text/csv", "application/csv"} {
      assert m[n - 3..] == "csv";
    } else if m in {"application/x-ndjson", "application/ndjson"} {
      assert m[n - 6..] == "ndjson";
    }
  }

  const KNOWN := {
    "application/json", "text/json", "application/xml", "text/xml",
    "application/yaml", "text/yaml", "application/x-yaml", "text/x-yaml",
    "text/csv", "application/csv", "application/x-ndjson", "application/ndjson" }

  lemma UnknownSpelling(m: string)
    requires m !in KNOWN
    ensures CanonicalMedia(m) == ""
  {
  }

  /** Any other type, a wildcard too, is read as it is spelled; without a slash it is dropped. The
      entries of a header are read one by one, in order. */
  lemma OtherSpellings(typ: string, sub: string, q: Option<real>, media: string, a: seq<Entry>, e: Entry)
    requires '/' !in typ && typ + "/" + sub !in KNOWN
    ensures RangeOf(Entry(typ + "/" + sub, q)) == Some(AcceptRange(typ, sub, q.GetOr(1.0)))
    ensures '/' !in media ==> RangeOf(Entry(media, q)) == None
    ensures Ranges(a + [e]) == Ranges(a) + if RangeOf(e).Some? then [RangeOf(e).value] else []
  {
    UnknownSpelling(typ + "/" + sub);
    CutJoined(typ, sub);
    assert (a + [e])[..|a|] == a;
    if '/' !in media {
      if media in KNOWN {
        KnownHasSlash(media);
      } else {
        UnknownSpelling(media);
      }
    }
  }

  lemma KnownHasSlash(media: string)
    requires media in KNOWN
    ensures '/' in media
  {
    CutJoined("application", "json");
    assert "application/json"[11] == '/' && "text/json"[4] == '/';
    assert "application/xml"[11] == '/' && "text/xml"[4] == '/';
    assert "application/yaml"[11] == '/' && "text/yaml"[4] == '/' && "application/x-yaml"[11] == '/' && "text/x-yaml"[4] == '/';
    assert "text/csv"[4] == '/' && "application/csv"[11] == '/';
    assert "application/x-ndjson"[11] == '/' && "application/ndjson"[11] == '/';
  }

  /** Three ranges of three exact types: each type gets its own range's weight. */
  lemma ExactTypesGetTheirOwn(a: AcceptRange, b: AcceptRange, c: AcceptRange)
    requires (a.typ, a.sub) != (b.typ, b.sub) && (a.typ, a.sub) != (c.typ, c.sub) && (b.typ, b.sub) != (c.typ, c.sub)
    ensures QualityOf(a.typ, a.sub, [a, b, c]) == (a.q, 2)
    ensures QualityOf(b.typ, b.sub, [a, b, c]) == (b.q, 2)
    ensures QualityOf(c.typ, c.sub, [a, b, c]) == (c.q, 2)
  {
    var ranges := [a, b, c];
    assert ranges[0] == a && ranges[1] == b && ranges[2] == c;
    IsTheQuality(a.typ, a.sub, ranges, a.q, 2);
    IsTheQuality(b.typ, b.sub, ranges, b.q, 2);
    IsTheQuality(c.typ, c.sub, ranges, c.q, 2);
  }

  /** The exception overrides even an explicit refusal. Accept: text/html, application/json;q=0,
      application/xml;q=0.5 is answered in JSON. */
  lemma BrowserRuleOverridesRefusal()
    ensures var html, json, xml := AcceptRange("text", "html", 1.0), AcceptRange("application", "json", 0.0),
                                   AcceptRange("application", "xml", 0.5);
            && IsNegotiated([MIME_JSON, MIME_XML], [html, json, xml], MIME_JSON)
            && Weight(MIME_JSON, [html, json, xml]) == 0.0
  {
    var html, json, xml := AcceptRange("text", "html", 1.0), AcceptRange("application", "json", 0.0),
                           AcceptRange("application", "xml", 0.5);
    assert |"text"| != |"application"| && |"json"| != |"xml"|;
    ExactTypesGetTheirOwn(html, json, xml);
    JsonType();
    XmlType();
    BrowserLeadsOver(MIME_JSON, MIME_XML, [html, json, xml]);
  }

  lemma SecondIsBest(ws: seq<real>)
    requires |ws| == 2 && ws[0] <= 0.0 < ws[1]
    ensures IsBest(ws, 1) && !NonePositive(ws)
  {
  }

  /** The first offer refused, the other accepted, and a literal text/html no lower. */
  lemma BrowserLeadsOver(first: string, other: string, ranges: seq<AcceptRange>)
    requires ranges != [] && Weight(first, ranges) <= 0.0 < Weight(other, ranges)
    requires BrowserLeads(ranges, Weight(other, ranges))
    ensures IsNegotiated([first, other], ranges, MIME_JSON)
  {
    var offers := [first, other];
    var ws := Weights(offers, ranges);
    assert offers[0] == first && offers[1] == other;
    assert ws[0] == Weight(offers[0], ranges) && ws[1] == Weight(offers[1], ranges);
    SecondIsBest(ws);
  }

  lemma JsonType()
    ensures TypeOf(MIME_JSON) == ("application", "json")
  {
    CutJoined("application", "json");
    assert MIME_JSON == "application" + "/" + "json";
  }

  lemma XmlType()
    ensures TypeOf(MIME_XML) == ("application", "xml")
  {
    CutJoined("application", "xml");
    assert MIME_XML == "application" + "/" + "xml";
  }

  lemma IsTheQuality(typ: string, sub: string, ranges: seq<AcceptRange>, q: real, spec: int)
    requires IsQuality(typ, sub, ranges, q, spec)
    ensures QualityOf(typ, sub, ranges) == (q, spec)
  {
    var r := QualityOf(typ, sub, ranges);
    QualityUnique(typ, sub, ranges, q, spec, r.0, r.1);
  }
}
