/**
 The Bluesky harvester of api/internal/harvest/bluesky.go over the event stream of
 api/internal/harvest/jetstream.go: at-least-once delivery with cursor rewind.
 */
module Harvest {
  import opened Wrappers
  import opened Corpus
  import opened Strings

  const POST_COLLECTION := "app.bsky.feed.post"
  const REWIND_US := 5_000_000

  /* ---------- events ---------- */

  datatype Record = Record(text: string, langs: seq<string>, createdAt: string)

  datatype Operation = Create | Update | Delete | OtherOperation

  datatype CommitInfo = CommitInfo(operation: Operation, collection: string, rkey: string, record: Option<Record>)

  datatype Kind =
    | Account(active: Option<bool>)          // None: the account body is missing
    | Commit(commit: Option<CommitInfo>)
    | OtherKind

  datatype Event = Event(did: string, timeUs: int, kind: Kind)

  datatype PostFilter = PostFilter(langs: seq<string>, minChars: int, maxChars: int, sampleRate: real)

  /** What does not change over a harvester's life. */
  datatype Setup = Setup(env: TextEnv, filter: PostFilter, platform: string, persists: bool)

  function DocId(did: string, rkey: string): string {
    did + "/" + POST_COLLECTION + "/" + rkey
  }

  /** The part before the first hyphen. */
  function BaseOf(tag: string): string {
    if tag == "" || tag[0] == '-' then "" else [tag[0]] + BaseOf(tag[1..])
  }

  /** Some declared language, its region stripped, is a wanted one. */
  predicate Speaks(setup: Setup, langs: seq<string>) {
    exists l, w ::
      l in langs && w in setup.filter.langs && BaseOf(setup.env.lower(l)) == setup.env.lower(w)
  }

  predicate Admits(setup: Setup, docId: string, text: string, langs: seq<string>) {
    var f := setup.filter;
    && (f.minChars > 0 ==> ByteLength(text) >= f.minChars)
    && (f.maxChars > 0 ==> ByteLength(text) <= f.maxChars)
    && (f.langs != [] ==> Speaks(setup, langs))
    && setup.env.SampleHash(docId, f.sampleRate)
  }

  method Admit(setup: Setup, docId: string, text: string, langs: seq<string>) returns (admitted: bool)
    ensures admitted == Admits(setup, docId, text, langs)
  {
    var f, n := setup.filter, ByteLength(text);
    if f.minChars > 0 && n < f.minChars {
      return false;
    }
    if f.maxChars > 0 && n > f.maxChars {
      return false;
    }
    if |f.langs| > 0 {
      var found := false;
      for i := 0 to |langs|
        invariant found <==> Speaks(setup, langs[..i])
      {
        var base := BaseOf(setup.env.lower(langs[i]));
        assert langs[..i + 1] == langs[..i] + [langs[i]];
        for j := 0 to |f.langs|
          invariant forall k :: 0 <= k < j ==> base != setup.env.lower(f.langs[k])
          invariant found <==> Speaks(setup, langs[..i])
        {
          if base == setup.env.lower(f.langs[j]) {
            assert langs[i] in langs[..i + 1] && f.langs[j] in f.langs;
            found := true;
            break;
          }
        }
      }
      assert langs[..|langs|] == langs;
      if !found {
        return false;
      }
    }
    admitted := setup.env.SampleHash(docId, f.sampleRate);
  }

  /* ---------- handling one event ---------- */

  datatype Effect = Ignored | Skipped | Writes(doc: Document) | Revokes(tomb: Tombstone)

  function DocumentOf(setup: Setup, did: string, docId: string, text: string, r: Record): Document {
    Document(setup.platform, docId, OmitEmpty(did), text, r.langs, OmitEmpty(r.createdAt),
             setup.env.ContentHash(text), HASH_VERSION)
  }

  function EffectOf(setup: Setup, ev: Event): Effect {
    match ev.kind
    case Account(active) =>
      if active == Some(false)
      then Revokes(Tombstone(setup.platform, AccountScope, None, ev.did)) else Ignored
    case OtherKind => Ignored
    case Commit(None) => Ignored
    case Commit(Some(c)) =>
      if c.collection != POST_COLLECTION then Ignored
      else
        var docId := DocId(ev.did, c.rkey);
        match c.operation
        case OtherOperation => Ignored
        case Delete => Revokes(Tombstone(setup.platform, DocScope, OmitEmpty(docId), ev.did))
        case _ =>
          if c.record.None? then Ignored
          else
            var text := setup.env.trim(c.record.value.text);
            if text == "" || !Admits(setup, docId, text, c.record.value.langs) then Skipped
            else Writes(DocumentOf(setup, ev.did, docId, text, c.record.value))
  }

  /** Only an event that appends a row can fail to be handled. */
  predicate Appends(setup: Setup, ev: Event) {
    EffectOf(setup, ev).Writes? || EffectOf(setup, ev).Revokes?
  }

  function DocsOfEvent(setup: Setup, ev: Event): seq<Document> {
    var e := EffectOf(setup, ev);
    if e.Writes? then [e.doc] else []
  }

  function TombsOfEvent(setup: Setup, ev: Event): seq<Tombstone> {
    var e := EffectOf(setup, ev);
    if e.Revokes? then [e.tomb] else []
  }

  /** The rows appended by handling these positions of the log, in this order. */
  function DocsOf(setup: Setup, log: seq<Event>, handled: seq<nat>): seq<Document>
    requires forall k :: 0 <= k < |handled| ==> handled[k] < |log|
  {
    if handled == [] then []
    else DocsOf(setup, log, handled[..|handled| - 1]) + DocsOfEvent(setup, log[handled[|handled| - 1]])
  }

  function TombsOf(setup: Setup, log: seq<Event>, handled: seq<nat>): seq<Tombstone>
    requires forall k :: 0 <= k < |handled| ==> handled[k] < |log|
  {
    if handled == [] then []
    else TombsOf(setup, log, handled[..|handled| - 1]) + TombsOfEvent(setup, log[handled[|handled| - 1]])
  }

  /* ---------- one connection ---------- */

  /** What the environment does to one accepted connection: where the live tail stands, how
      many events arrive before the drop, at which position an append fails, at which
      positions a cursor save falls due and succeeds, whether the save at the end does. */
  datatype Connection = Connection(
    tail: nat, delivered: nat, failsAt: Option<nat>, saves: set<nat>, endSaveOk: bool, now: nat)

  datatype Step = Dial(connection: Connection) | DialFails | Restart

  /** First position at or after the given time. */
  function FirstAtOrAfter(log: seq<Event>, time: int): (i: nat)
    ensures i <= |log| && forall j :: 0 <= j < i ==> log[j].timeUs < time
    ensures i < |log| ==> log[i].timeUs >= time
  {
    if log == [] || log[0].timeUs >= time then 0 else 1 + FirstAtOrAfter(log[1..], time)
  }

  /** A positive cursor is rewound by five seconds, not below zero; without one the stream
      starts at the live tail. */
  function StartOf(log: seq<Event>, cursor: int, tail: nat): (i: nat)
    ensures i <= |log|
    ensures cursor > 0 ==>
        && (forall j :: 0 <= j < i ==> log[j].timeUs < cursor - REWIND_US || log[j].timeUs < 0)
        && (i < |log| ==> log[i].timeUs >= cursor - REWIND_US && log[i].timeUs >= 0)
    ensures cursor <= 0 && tail <= |log| ==> i == tail
  {
    if cursor > 0
    then FirstAtOrAfter(log, if cursor - REWIND_US > 0 then cursor - REWIND_US else 0)
    else Min(tail, |log|)
  }

  /** What a connection leaves behind: the last event time seen, the cursor file, and the
      position it stopped before. */
  datatype Streamed = Streamed(last: int, saved: int, stop: nat)

  function StreamFrom(setup: Setup, log: seq<Event>, c: Connection, start: nat, i: nat, last: int, saved: int)
      : (r: Streamed)
    requires start <= i
    ensures i <= |log| ==> i <= r.stop <= |log|
    decreases if i < |log| then |log| - i else 0
  {
    if i >= |log| || i - start >= c.delivered then Streamed(last, saved, i)
    else
      var time := log[i].timeUs;
      var last' := if time > 0 then time else last;
      if c.failsAt == Some(i) && Appends(setup, log[i]) then Streamed(last', saved, i)
      else
        StreamFrom(setup, log, c, start, i + 1, last',
                   if setup.persists && time > 0 && i in c.saves then time else saved)
  }

  function Interval(lo: nat, hi: nat): (r: seq<nat>)
    ensures lo <= hi ==> |r| == hi - lo && forall k :: 0 <= k < |r| ==> r[k] == lo + k
    ensures lo > hi ==> r == []
  {
    if lo <= hi then seq(hi - lo, k requires 0 <= k => lo + k) else []
  }

  /* ---------- runs ---------- */

  /** The harvester between connections: its cursor, the cursor file, the positions handled so
      far; and, since it last started without a cursor, where it started and how far it got. */
  datatype State = State(cursor: int, saved: int, handled: seq<nat>, lo: nat, hi: nat)

  const INITIAL := State(0, 0, [], 0, 0)

  function Next(setup: Setup, log: seq<Event>, s: State, step: Step): State {
    match step
    case DialFails => s
    case Restart => s.(cursor := if setup.persists then s.saved else 0)
    case Dial(c) =>
      var start := StartOf(log, s.cursor, c.tail);
      var r := StreamFrom(setup, log, c, start, start, s.cursor, s.saved);
      State(
        if r.last > s.cursor then r.last else s.cursor,
        if r.last > s.cursor && setup.persists && c.endSaveOk then r.last else r.saved,
        s.handled + Interval(start, r.stop),
        if s.cursor > 0 then s.lo else start,
        if s.cursor > 0 && r.stop <= s.hi then s.hi else r.stop)
  }

  function After(setup: Setup, log: seq<Event>, steps: seq<Step>): State {
    if steps == [] then INITIAL
    else Next(setup, log, After(setup, log, steps[..|steps| - 1]), steps[|steps| - 1])
  }

  /** What a harvester has handled and recorded. */
  datatype Holdings = Holdings(handled: seq<nat>, documents: seq<Document>, tombstones: seq<Tombstone>)

  /** One event more: its position and its row. */
  function Plus(setup: Setup, c: Holdings, i: nat, ev: Event): Holdings {
    Holdings(c.handled + [i], c.documents + DocsOfEvent(setup, ev), c.tombstones + TombsOfEvent(setup, ev))
  }

  ghost predicate GrewBy(setup: Setup, log: seq<Event>, positions: seq<nat>, before: Holdings, now: Holdings) {
    && (forall k :: 0 <= k < |positions| ==> positions[k] < |log|)
    && now.handled == before.handled + positions
    && now.documents == before.documents + DocsOf(setup, log, positions)
    && now.tombstones == before.tombstones + TombsOf(setup, log, positions)
  }

  class Harvester {
    const setup: Setup
    const writer: CorpusWriter
    var docs: nat
    var tombs: nat
    var skipped: nat
    var cursor: int
    var saved: int                 // the cursor file; zero when there is none
    ghost var handled: seq<nat>    // log positions handled without error

    constructor (setup: Setup, writer: CorpusWriter)
      ensures this.setup == setup && this.writer == writer
      ensures docs == tombs == skipped == 0 && cursor == 0 && saved == 0 && handled == []
    {
      this.setup, this.writer := setup, writer;
      docs, tombs, skipped, cursor, saved, handled := 0, 0, 0, 0, 0, [];
    }

    /** handle: deletes and deactivations are recorded whatever the filter says. */
    method Handle(ev: Event, io: Io) returns (ok: bool)
      requires writer.platform == setup.platform
      modifies this`docs, this`tombs, this`skipped, writer
      ensures ok <==> (Appends(setup, ev) ==> io.ok)
      ensures Rows(writer.documents) == Rows(old(writer.documents)) + if ok then DocsOfEvent(setup, ev) else []
      ensures Rows(writer.tombstones) == Rows(old(writer.tombstones)) + if ok then TombsOfEvent(setup, ev) else []
      ensures docs == old(docs) + if EffectOf(setup, ev).Writes? then 1 else 0
      ensures tombs == old(tombs) + if EffectOf(setup, ev).Revokes? then 1 else 0
      ensures skipped == old(skipped) + if EffectOf(setup, ev).Skipped? then 1 else 0
    {
      match ev.kind
      case Account(active) =>
        if active.Some? && !active.value {
          tombs := tombs + 1;
          ok := writer.WriteTombstone(Tombstone(writer.platform, AccountScope, None, ev.did), io);
          return;
        }
        return true;
      case OtherKind =>
        return true;
      case Commit(None) =>
        return true;
      case Commit(Some(c)) =>
        if c.collection != POST_COLLECTION {
          return true;
        }
        var docId := DocId(ev.did, c.rkey);
        match c.operation {
          case OtherOperation =>
            return true;
          case Delete =>
            tombs := tombs + 1;
            ok := writer.WriteTombstone(Tombstone(writer.platform, DocScope, OmitEmpty(docId), ev.did), io);
          case _ =>
            if c.record.None? {
              return true;
            }
            var text := setup.env.trim(c.record.value.text);
            var admitted := text != "";
            if admitted {
              admitted := Admit(setup, docId, text, c.record.value.langs);
            }
            if !admitted {
              skipped := skipped + 1;
              return true;
            }
            docs := docs + 1;
            ok := writer.WriteDocument(
              setup.env,
              Document(writer.platform, docId, OmitEmpty(ev.did), text, c.record.value.langs,
                       OmitEmpty(c.record.value.createdAt), "", 0),
              io);
        }
    }

    /** One delivered event. Its time counts even when its handling fails; a cursor save that
        falls due follows a success. */
    method Deliver(ev: Event, i: nat, c: Connection, last: int) returns (last': int, ok: bool)
      requires writer.platform == setup.platform
      modifies this`docs, this`tombs, this`skipped, this`saved, this`handled, writer
      ensures last' == if ev.timeUs > 0 then ev.timeUs else last
      ensures ok <==> !(c.failsAt == Some(i) && Appends(setup, ev))
      ensures saved == if ok && setup.persists && ev.timeUs > 0 && i in c.saves then ev.timeUs else old(saved)
      ensures Content() == if ok then Plus(setup, old(Content()), i, ev) else old(Content())
    {
      last' := if ev.timeUs > 0 then ev.timeUs else last;
      ok := Handle(ev, Io(c.now, c.failsAt != Some(i)));
      if ok {
        if setup.persists && ev.timeUs > 0 && i in c.saves {
          saved := ev.timeUs;
        }
        handled := handled + [i];
      }
    }

    /** Stream: delivers the log from the rewound cursor until the drop or a failed append. */
    method Stream(log: seq<Event>, c: Connection) returns (last: int)
      requires writer.platform == setup.platform
      modifies this`docs, this`tombs, this`skipped, this`saved, this`handled, writer
      ensures var start := StartOf(log, cursor, c.tail);
              var r := StreamFrom(setup, log, c, start, start, cursor, old(saved));
              && last == r.last && saved == r.saved
              && GrewBy(setup, log, Interval(start, r.stop), old(Content()), Content())
    {
      var start := StartOf(log, cursor, c.tail);
      last := cursor;
      ghost var goal, before := StreamFrom(setup, log, c, start, start, cursor, saved), Content();
      var i := start;
      while i < |log| && i - start < c.delivered
        invariant start <= i <= |log|
        invariant StreamFrom(setup, log, c, start, i, last, saved) == goal
        invariant GrewBy(setup, log, Interval(start, i), before, Content())
        decreases |log| - i
      {
        var ok;
        ghost var now := Content();
        last, ok := Deliver(log[i], i, c, last);
        if !ok {
          assert Content() == now;
          return;
        }
        GrowsByOne(setup, log, start, i, before, now);
        i := i + 1;
      }
    }

    ghost function Content(): Holdings
      reads this, writer
    {
      Holdings(handled, Rows(writer.documents), Rows(writer.tombstones))
    }

    /** The corpus holds exactly the rows of the positions handled. */
    ghost predicate Recorded(log: seq<Event>)
      reads this, writer
    {
      && writer.platform == setup.platform
      && (forall k :: 0 <= k < |handled| ==> handled[k] < |log|)
      && Rows(writer.documents) == DocsOf(setup, log, handled)
      && Rows(writer.tombstones) == TombsOf(setup, log, handled)
    }

    /** One turn of Run's reconnect loop, or a clean restart of the process. */
    method Take(log: seq<Event>, step: Step)
      requires Recorded(log)
      modifies this, writer
      ensures Recorded(log)
      ensures forall lo, hi ::
          var s := Next(setup, log, State(old(cursor), old(saved), old(handled), lo, hi), step);
          cursor == s.cursor && saved == s.saved && handled == s.handled
    {
      match step
      case DialFails =>
      case Restart =>
        cursor := if setup.persists then saved else 0;
      case Dial(c) =>
        ghost var start := StartOf(log, cursor, c.tail);
        ghost var stop := StreamFrom(setup, log, c, start, start, cursor, saved).stop;
        RowsAppend(setup, log, handled, Interval(start, stop));
        var last := Stream(log, c);
        if last > cursor {
          cursor := last;
          if setup.persists && c.endSaveOk {
            saved := cursor;
          }
        }
    }

    /** Any sequence of connections, failed dials and clean restarts, from nothing. */
    method Run(log: seq<Event>, steps: seq<Step>)
      requires writer.platform == setup.platform && writer.documents == [] && writer.tombstones == []
      requires cursor == 0 && saved == 0 && handled == []
      modifies this, writer
      ensures Recorded(log)
      ensures var s := After(setup, log, steps);
              cursor == s.cursor && saved == s.saved && handled == s.handled
    {
      for k := 0 to |steps|
        invariant Recorded(log)
        invariant var s := After(setup, log, steps[..k]);
            cursor == s.cursor && saved == s.saved && handled == s.handled
      {
        assert steps[..k + 1][..k] == steps[..k];
        Take(log, steps[k]);
      }
      assert steps[..|steps|] == steps;
    }
  }

  lemma RowsAppend(setup: Setup, log: seq<Event>, a: seq<nat>, b: seq<nat>)
    requires forall k :: 0 <= k < |a| ==> a[k] < |log|
    requires forall k :: 0 <= k < |b| ==> b[k] < |log|
    ensures DocsOf(setup, log, a + b) == DocsOf(setup, log, a) + DocsOf(setup, log, b)
    ensures TombsOf(setup, log, a + b) == TombsOf(setup, log, a) + TombsOf(setup, log, b)
  {
    DocsAppend(setup, log, a, b);
    TombsAppend(setup, log, a, b);
  }

  lemma {:induction false} DocsAppend(setup: Setup, log: seq<Event>, a: seq<nat>, b: seq<nat>)
    requires forall k :: 0 <= k < |a| ==> a[k] < |log|
    requires forall k :: 0 <= k < |b| ==> b[k] < |log|
    ensures DocsOf(setup, log, a + b) == DocsOf(setup, log, a) + DocsOf(setup, log, b)
  {
    if b == [] {
      assert a + b == a;
    } else {
      assert (a + b)[..|a + b| - 1] == a + b[..|b| - 1];
      DocsAppend(setup, log, a, b[..|b| - 1]);
    }
  }

  lemma {:induction false} TombsAppend(setup: Setup, log: seq<Event>, a: seq<nat>, b: seq<nat>)
    requires forall k :: 0 <= k < |a| ==> a[k] < |log|
    requires forall k :: 0 <= k < |b| ==> b[k] < |log|
    ensures TombsOf(setup, log, a + b) == TombsOf(setup, log, a) + TombsOf(setup, log, b)
  {
    if b == [] {
      assert a + b == a;
    } else {
      assert (a + b)[..|a + b| - 1] == a + b[..|b| - 1];
      TombsAppend(setup, log, a, b[..|b| - 1]);
    }
  }

  lemma GrowsByOne(setup: Setup, log: seq<Event>, start: nat, i: nat, before: Holdings, now: Holdings)
    requires start <= i < |log| && GrewBy(setup, log, Interval(start, i), before, now)
    ensures GrewBy(setup, log, Interval(start, i + 1), before, Plus(setup, now, i, log[i]))
  {
    var next := Interval(start, i + 1);
    assert next == Interval(start, i) + [i];
    assert next[..|next| - 1] == Interval(start, i);
  }
}
