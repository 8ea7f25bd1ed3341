/**
 The topic cache key of api/internal/service/service.go, with the credential fingerprint of
 api/internal/connectors/credentials.go. Trimming with lower-casing and SHA-256 in
 hexadecimal are uninterpreted functions.
 */
module CacheKey {
  import opened Wrappers
  import opened Orders
  import opened Strings

  datatype KeyEnv = KeyEnv(trimLower: string -> string, sha: string -> string)

  datatype Credentials = Credentials(youtubeApiKey: string, mastodonToken: string, mastodonInstance: string) {
    predicate IsZero() { this == Credentials("", "", "") }
  }

  datatype Request = Request(
    topic: string, platforms: seq<string>, limit: int, aspects: seq<string>,
    language: string, sinceSeconds: int, location: string, creds: Credentials)

  const NUL := '\0'

  function CredText(c: Credentials): string {
    Join(NUL, [c.youtubeApiKey, c.mastodonToken, c.mastodonInstance])
  }

  /** A one-way name for the credential set; "" for none. */
  function Fingerprint(env: KeyEnv, c: Credentials): string {
    if c.IsZero() then "" else env.sha(CredText(c))
  }

  function Listed(xs: seq<string>): string {
    Join(',', Sort(LexLeq, xs))
  }

  function Parts(env: KeyEnv, r: Request): seq<string> {
    [ env.trimLower(r.topic),
      "limit=" + Decimal(r.limit),
      "lang=" + r.language,
      "since=" + Decimal(r.sinceSeconds),
      "location=" + env.trimLower(r.location),
      "creds=" + Fingerprint(env, r.creds),
      "platforms=" + Listed(r.platforms),
      "aspects=" + Listed(r.aspects) ]
  }

  function KeyText(env: KeyEnv, r: Request): string {
    Join('|', Parts(env, r))
  }

  function BuildCacheKey(env: KeyEnv, r: Request): string {
    env.sha(KeyText(env, r))
  }

  /* ---------- when the key is unambiguous ---------- */

  predicate CleanList(xs: seq<string>) {
    forall k :: 0 <= k < |xs| ==> xs[k] != "" && ',' !in xs[k] && '|' !in xs[k]
  }

  predicate CleanCreds(c: Credentials) {
    NUL !in c.youtubeApiKey && NUL !in c.mastodonToken && NUL !in c.mastodonInstance
  }

  predicate Clean(env: KeyEnv, r: Request) {
    && '|' !in env.trimLower(r.topic) && '|' !in r.language && '|' !in env.trimLower(r.location)
    && CleanList(r.platforms) && CleanList(r.aspects) && CleanCreds(r.creds)
  }

  /** What the hash is trusted for: no collision between the texts at hand, and a non-empty
      hexadecimal result. */
  predicate HashTrusted(env: KeyEnv, a: string, b: string) {
    && (env.sha(a) == env.sha(b) ==> a == b)
    && env.sha(a) != "" && '|' !in env.sha(a)
    && env.sha(b) != "" && '|' !in env.sha(b)
  }

  /** The requests ask for the same thing. */
  predicate Agree(env: KeyEnv, a: Request, b: Request) {
    && env.trimLower(a.topic) == env.trimLower(b.topic)
    && env.trimLower(a.location) == env.trimLower(b.location)
    && a.limit == b.limit && a.language == b.language && a.sinceSeconds == b.sinceSeconds
    && a.creds == b.creds
    && multiset(a.platforms) == multiset(b.platforms)
    && multiset(a.aspects) == multiset(b.aspects)
  }

  lemma ListedIsClean(xs: seq<string>)
    requires CleanList(xs)
    ensures CleanList(Sort(LexLeq, xs)) && '|' !in Listed(xs)
  {
    var sorted := Sort(LexLeq, xs);
    SameElements(xs, sorted);
    forall k | 0 <= k < |sorted| ensures sorted[k] != "" && ',' !in sorted[k] && '|' !in sorted[k] {
      assert sorted[k] in xs;
    }
    JoinFree(',', sorted, '|');
  }

  /** Two clean lists read the same exactly when they are the same multiset. */
  lemma ListedUnambiguous(xs: seq<string>, ys: seq<string>)
    requires CleanList(xs) && CleanList(ys)
    ensures Listed(xs) == Listed(ys) <==> multiset(xs) == multiset(ys)
  {
    LexLeqIsOrdering();
    LexLeqHasNoTies(xs);
    if multiset(xs) == multiset(ys) {
      SortForgetsOrder(LexLeq, xs, ys);
    }
    if Listed(xs) == Listed(ys) {
      ListedIsClean(xs);
      ListedIsClean(ys);
      var a, b := Sort(LexLeq, xs), Sort(LexLeq, ys);
      JoinEmpty(',', a);
      JoinEmpty(',', b);
      if a != [] && b != [] {
        JoinInjective(',', a, b);
      }
      assert multiset(a) == multiset(b);
    }
  }

  lemma FingerprintUnambiguous(env: KeyEnv, a: Credentials, b: Credentials)
    requires CleanCreds(a) && CleanCreds(b) && HashTrusted(env, CredText(a), CredText(b))
    ensures Fingerprint(env, a) == Fingerprint(env, b) <==> a == b
    ensures '|' !in Fingerprint(env, a) && '|' !in Fingerprint(env, b)
  {
    var xs := [a.youtubeApiKey, a.mastodonToken, a.mastodonInstance];
    var ys := [b.youtubeApiKey, b.mastodonToken, b.mastodonInstance];
    if Fingerprint(env, a) == Fingerprint(env, b) && !a.IsZero() && !b.IsZero() {
      JoinInjective(NUL, xs, ys);
      assert xs[0] == ys[0] && xs[1] == ys[1] && xs[2] == ys[2];
    }
  }

  lemma FreeAfter(prefix: string, s: string)
    requires '|' !in prefix && '|' !in s
    ensures '|' !in prefix + s
  {
  }

  lemma PartsBarFree(env: KeyEnv, r: Request)
    requires '|' !in env.trimLower(r.topic) && '|' !in r.language && '|' !in env.trimLower(r.location)
    requires '|' !in Fingerprint(env, r.creds) && '|' !in Listed(r.platforms) && '|' !in Listed(r.aspects)
    ensures AllFree('|', Parts(env, r))
  {
    DecimalSign(r.limit);
    DecimalSign(r.sinceSeconds);
    FreeAfter("limit=", Decimal(r.limit));
    FreeAfter("lang=", r.language);
    FreeAfter("since=", Decimal(r.sinceSeconds));
    FreeAfter("location=", env.trimLower(r.location));
    FreeAfter("creds=", Fingerprint(env, r.creds));
    FreeAfter("platforms=", Listed(r.platforms));
    FreeAfter("aspects=", Listed(r.aspects));
  }

  lemma PartsAreFree(env: KeyEnv, r: Request, other: Credentials)
    requires Clean(env, r) && HashTrusted(env, CredText(r.creds), CredText(other))
    ensures AllFree('|', Parts(env, r))
  {
    ListedIsClean(r.platforms);
    ListedIsClean(r.aspects);
    PartsBarFree(env, r);
  }

  lemma PrefixCancels(p: string, a: string, b: string)
    requires p + a == p + b
    ensures a == b
  {
    assert (p + a)[|p|..] == a && (p + b)[|p|..] == b;
  }

  /** What equal parts say of the fields. */
  lemma PartsSay(env: KeyEnv, a: Request, b: Request)
    requires Parts(env, a) == Parts(env, b)
    ensures env.trimLower(a.topic) == env.trimLower(b.topic) && env.trimLower(a.location) == env.trimLower(b.location)
    ensures a.limit == b.limit && a.language == b.language && a.sinceSeconds == b.sinceSeconds
    ensures Fingerprint(env, a.creds) == Fingerprint(env, b.creds)
    ensures Listed(a.platforms) == Listed(b.platforms) && Listed(a.aspects) == Listed(b.aspects)
  {
    var xs, ys := Parts(env, a), Parts(env, b);
    assert xs[0] == ys[0] && xs[1] == ys[1] && xs[2] == ys[2] && xs[3] == ys[3]
        && xs[4] == ys[4] && xs[5] == ys[5] && xs[6] == ys[6] && xs[7] == ys[7];
    PrefixCancels("limit=", Decimal(a.limit), Decimal(b.limit));
    PrefixCancels("lang=", a.language, b.language);
    PrefixCancels("since=", Decimal(a.sinceSeconds), Decimal(b.sinceSeconds));
    PrefixCancels("location=", env.trimLower(a.location), env.trimLower(b.location));
    PrefixCancels("creds=", Fingerprint(env, a.creds), Fingerprint(env, b.creds));
    PrefixCancels("platforms=", Listed(a.platforms), Listed(b.platforms));
    PrefixCancels("aspects=", Listed(a.aspects), Listed(b.aspects));
    DecimalInjective(a.limit, b.limit);
    DecimalInjective(a.sinceSeconds, b.sinceSeconds);
  }

  /** With clean fields the parts, and so the key, are the same exactly when the requests agree. */
  lemma PartsUnambiguous(env: KeyEnv, a: Request, b: Request)
    requires Clean(env, a) && Clean(env, b) && HashTrusted(env, CredText(a.creds), CredText(b.creds))
    ensures Parts(env, a) == Parts(env, b) <==> Agree(env, a, b)
  {
    ListedUnambiguous(a.platforms, b.platforms);
    ListedUnambiguous(a.aspects, b.aspects);
    FingerprintUnambiguous(env, a.creds, b.creds);
    if Parts(env, a) == Parts(env, b) {
      PartsSay(env, a, b);
    }
  }

  /** The cache key is unambiguous: two clean requests share a key exactly when they agree on
      topic and location up to trimming and case, limit, language, window, credentials, and
      the multisets of platforms and aspects. */
  lemma KeyIsUnambiguous(env: KeyEnv, a: Request, b: Request)
    requires Clean(env, a) && Clean(env, b)
    requires HashTrusted(env, CredText(a.creds), CredText(b.creds))
    requires HashTrusted(env, KeyText(env, a), KeyText(env, b))
    ensures BuildCacheKey(env, a) == BuildCacheKey(env, b) <==> Agree(env, a, b)
  {
    PartsUnambiguous(env, a, b);
    if BuildCacheKey(env, a) == BuildCacheKey(env, b) {
      PartsAreFree(env, a, b.creds);
      PartsAreFree(env, b, a.creds);
      JoinInjective('|', Parts(env, a), Parts(env, b));
    }
  }

  /* ---------- where the key is ambiguous ---------- */

  /** Another multiset of entries reads the same. */
  ghost predicate Ambiguous(xs: seq<string>) {
    exists ys :: multiset(ys) != multiset(xs) && Listed(ys) == Listed(xs)
  }

  /** What a caller can see on the list: no entry, one empty entry, two or more entries, or one
      entry with a comma whose two sides stand in order. */
  predicate ReadsTwoWays(xs: seq<string>) {
    xs == [] || xs == [""] || |xs| >= 2 || SplitsInOrder(xs[0])
  }

  predicate SplitsInOrder(x: string) {
    exists k :: 0 <= k < |x| && x[k] == ',' && LexLeq(x[..k], x[k + 1..])
  }

  lemma ListedOne(a: string)
    ensures Listed([a]) == a
  {
    assert [a][1..] == [];
    assert Sort(LexLeq, [a]) == [a];
  }

  lemma ListedTwo(a: string, b: string)
    requires LexLeq(a, b)
    ensures Listed([a, b]) == a + [','] + b
  {
    var xs := [a, b];
    assert xs[1..] == [b] && [b][1..] == [];
    assert Sort(LexLeq, xs[1..]) == [b];
    assert Sort(LexLeq, xs) == Insert(LexLeq, a, [b]) == xs;
    assert Join(',', xs[1..]) == b;
  }

  lemma {:induction false} LexLeqExtends(a: string, b: string, t: string)
    requires LexLeq(a, b)
    ensures LexLeq(a, b + t)
  {
    if a != "" && b != "" && a[0] == b[0] {
      LexLeqExtends(a[1..], b[1..], t);
      assert (b + t)[1..] == b[1..] + t;
    }
  }

  lemma SplitsAtComma(a: string, b: string)
    requires LexLeq(a, b)
    ensures SplitsInOrder(a + [','] + b)
  {
    var x, k := a + [','] + b, |a|;
    assert x[k] == ',' && x[..k] == a && x[k + 1..] == b;
  }

  /** A list of two or more reads as one entry: its first part, a comma, and the rest, in order. */
  lemma ListedSplits(ys: seq<string>)
    requires |ys| >= 2
    ensures SplitsInOrder(Listed(ys))
  {
    var s := Sort(LexLeq, ys);
    LexLeqIsOrdering();
    SortSorts(LexLeq, ys);
    var rest := Join(',', s[1..]);
    assert LexLeq(s[0], s[1]);
    if |s| > 2 {
      assert rest == s[1] + ([','] + Join(',', s[1..][1..]));
      LexLeqExtends(s[0], s[1], [','] + Join(',', s[1..][1..]));
    }
    SplitsAtComma(s[0], rest);
    assert Listed(ys) == s[0] + [','] + rest;
  }

  lemma AmbiguousBy(xs: seq<string>, ys: seq<string>)
    requires |xs| != |ys| && Listed(ys) == Listed(xs)
    ensures Ambiguous(xs)
  {
    assert |multiset(xs)| == |xs| && |multiset(ys)| == |ys|;
  }

  /** One entry that does not split is read only as itself. */
  lemma OneEntryIsItself(x: string, ys: seq<string>)
    requires x != "" && !SplitsInOrder(x) && Listed(ys) == x
    ensures ys == [x]
  {
    assert Listed([]) == "";
    if |ys| == 1 {
      ListedOne(ys[0]);
      assert ys == [ys[0]];
    } else if |ys| >= 2 {
      ListedSplits(ys);
    }
  }

  lemma NothingIsAmbiguous()
    ensures Ambiguous([]) && Ambiguous([""])
  {
    ListedOne("");
    assert Listed([]) == "";
    AmbiguousBy([], [""]);
    AmbiguousBy([""], []);
  }

  lemma PairIsAmbiguous(x: string, a: string, b: string)
    requires LexLeq(a, b) && x == a + [','] + b
    ensures Ambiguous([x])
  {
    ListedTwo(a, b);
    ListedOne(x);
    AmbiguousBy([x], [a, b]);
  }

  lemma CutAt(x: string, k: nat)
    requires k < |x|
    ensures x == x[..k] + [x[k]] + x[k + 1..]
  {
  }

  lemma SplitIsAmbiguous(x: string)
    requires SplitsInOrder(x)
    ensures Ambiguous([x])
  {
    var k :| 0 <= k < |x| && x[k] == ',' && LexLeq(x[..k], x[k + 1..]);
    CutAt(x, k);
    PairIsAmbiguous(x, x[..k], x[k + 1..]);
  }

  lemma ManyIsAmbiguous(xs: seq<string>)
    requires |xs| >= 2
    ensures Ambiguous(xs)
  {
    ListedOne(Listed(xs));
    AmbiguousBy(xs, [Listed(xs)]);
  }

  /** What a single entry's reading twice comes from. */
  lemma SingleReadsTwoWays(x: string)
    ensures ReadsTwoWays([x]) <==> x == "" || SplitsInOrder(x)
  {
    assert [x][0] == x;
  }

  /** The exact condition on one list. */
  lemma ListAmbiguousIff(xs: seq<string>)
    ensures Ambiguous(xs) <==> ReadsTwoWays(xs)
  {
    if |xs| >= 2 {
      ManyIsAmbiguous(xs);
    } else if |xs| == 1 {
      ListOfOne(xs);
      SingleAmbiguousIff(xs[0]);
      SingleReadsTwoWays(xs[0]);
    } else {
      NothingIsAmbiguous();
    }
  }

  lemma ListOfOne(xs: seq<string>)
    requires |xs| == 1
    ensures xs == [xs[0]]
  {
  }

  lemma SingleAmbiguousIff(x: string)
    ensures Ambiguous([x]) <==> x == "" || SplitsInOrder(x)
  {
    NothingIsAmbiguous();
    if SplitsInOrder(x) {
      SplitIsAmbiguous(x);
    } else if x != "" {
      ListedOne(x);
      forall ys | Listed(ys) == Listed([x]) ensures multiset(ys) == multiset([x]) {
        OneEntryIsItself(x, ys);
      }
    }
  }

  /** No bar in any text of the request, and no NUL in its credentials. Lists may hold anything
      else: commas, empty entries, no entry. */
  predicate BarFree(env: KeyEnv, r: Request) {
    && '|' !in env.trimLower(r.topic) && '|' !in r.language && '|' !in env.trimLower(r.location)
    && AllFree('|', r.platforms) && AllFree('|', r.aspects) && CleanCreds(r.creds)
  }

  ghost predicate HashInjective(env: KeyEnv) {
    forall a, b :: HashTrusted(env, a, b)
  }

  lemma BarFreeParts(env: KeyEnv, r: Request)
    requires BarFree(env, r) && HashInjective(env)
    ensures AllFree('|', Parts(env, r))
  {
    assert HashTrusted(env, CredText(r.creds), "");
    ListedBarFree(r.platforms);
    ListedBarFree(r.aspects);
    PartsBarFree(env, r);
  }

  lemma ListedBarFree(xs: seq<string>)
    requires AllFree('|', xs)
    ensures '|' !in Listed(xs)
  {
    var sorted := Sort(LexLeq, xs);
    SameElements(xs, sorted);
    forall k | 0 <= k < |sorted| ensures '|' !in sorted[k] {
      assert sorted[k] in xs;
    }
    JoinFree(',', sorted, '|');
  }

  /** Another request, asking for something else, has this key. */
  ghost predicate KeyAmbiguous(env: KeyEnv, r: Request) {
    exists other :: !Agree(env, r, other) && BuildCacheKey(env, other) == BuildCacheKey(env, r)
  }

  /** The exact condition on a request without bars: some other question shares its key exactly
      when one of its two lists reads two ways. */
  lemma KeyAmbiguousIff(env: KeyEnv, r: Request)
    requires BarFree(env, r) && HashInjective(env)
    ensures KeyAmbiguous(env, r) <==> ReadsTwoWays(r.platforms) || ReadsTwoWays(r.aspects)
  {
    ListAmbiguousIff(r.platforms);
    ListAmbiguousIff(r.aspects);
    if KeyAmbiguous(env, r) {
      var other :| !Agree(env, r, other) && BuildCacheKey(env, other) == BuildCacheKey(env, r);
      SharedKeyDiffersInLists(env, r, other);
    }
    if Ambiguous(r.platforms) {
      PlatformsMakeKeyAmbiguous(env, r);
    }
    if Ambiguous(r.aspects) {
      AspectsMakeKeyAmbiguous(env, r);
    }
  }

  lemma PlatformsMakeKeyAmbiguous(env: KeyEnv, r: Request)
    requires Ambiguous(r.platforms)
    ensures KeyAmbiguous(env, r)
  {
    var ys :| multiset(ys) != multiset(r.platforms) && Listed(ys) == Listed(r.platforms);
    var other := r.(platforms := ys);
    assert Parts(env, other) == Parts(env, r);
    assert !Agree(env, r, other);
  }

  lemma AspectsMakeKeyAmbiguous(env: KeyEnv, r: Request)
    requires Ambiguous(r.aspects)
    ensures KeyAmbiguous(env, r)
  {
    var ys :| multiset(ys) != multiset(r.aspects) && Listed(ys) == Listed(r.aspects);
    var other := r.(aspects := ys);
    assert Parts(env, other) == Parts(env, r);
    assert !Agree(env, r, other);
  }

  lemma SharedKeyDiffersInLists(env: KeyEnv, r: Request, other: Request)
    requires BarFree(env, r) && HashInjective(env)
    requires !Agree(env, r, other) && BuildCacheKey(env, other) == BuildCacheKey(env, r)
    ensures Ambiguous(r.platforms) || Ambiguous(r.aspects)
  {
    assert HashTrusted(env, KeyText(env, r), KeyText(env, other));
    BarFreeParts(env, r);
    JoinSameLengthInjective('|', Parts(env, r), Parts(env, other));
    PartsSay(env, r, other);
    SameFingerprint(env, r.creds, other.creds);
  }

  lemma SameFingerprint(env: KeyEnv, a: Credentials, b: Credentials)
    requires CleanCreds(a) && HashInjective(env) && Fingerprint(env, a) == Fingerprint(env, b)
    ensures a == b
  {
    assert HashTrusted(env, CredText(a), CredText(b));
    if !a.IsZero() && !b.IsZero() {
      var xs := [a.youtubeApiKey, a.mastodonToken, a.mastodonInstance];
      var ys := [b.youtubeApiKey, b.mastodonToken, b.mastodonInstance];
      JoinSameLengthInjective(NUL, xs, ys);
      assert xs[0] == ys[0] && xs[1] == ys[1] && xs[2] == ys[2];
    }
  }

  /** For instance, one aspect holding a comma is two aspects to the key, and an empty platform
      is no platform. */
  lemma CommasAndEmptyEntriesCollide(env: KeyEnv, r: Request, a: string, b: string)
    requires LexLeq(a, b)
    ensures BuildCacheKey(env, r.(aspects := [a + [','] + b])) == BuildCacheKey(env, r.(aspects := [a, b]))
    ensures BuildCacheKey(env, r.(platforms := [""])) == BuildCacheKey(env, r.(platforms := []))
  {
    ListedOne(a + [','] + b);
    ListedTwo(a, b);
    ListedOne("");
    var one, two := Parts(env, r.(aspects := [a + [','] + b])), Parts(env, r.(aspects := [a, b]));
    assert one == two;
    assert Listed([]) == "";
    assert Parts(env, r.(platforms := [""])) == Parts(env, r.(platforms := []));
  }
}
