/**
 Batch planning of api/internal/inference/batch.go: the length order, the cut into
 ranges, and the flattening of (document, aspect) pairs with its regrouping.
 */
module Batching {
  import opened Wrappers
  import opened Orders
  import opened Strings

  datatype AspectInput = AspectInput(text: string, aspects: seq<string>)

  /** Locates one (document, aspect) pair in the caller's input. */
  datatype AspectRef = AspectRef(item: nat, pos: nat)

  /* ---------- sequences ---------- */

  function Range(n: nat): (r: seq<nat>)
    ensures |r| == n && forall i :: 0 <= i < n ==> r[i] == i
  {
    seq(n, i => i)
  }

  function Flatten<T>(xss: seq<seq<T>>): seq<T> {
    if xss == [] then [] else xss[0] + Flatten(xss[1..])
  }

  lemma {:induction false} FlattenSnoc<T>(xss: seq<seq<T>>, xs: seq<T>)
    ensures Flatten(xss + [xs]) == Flatten(xss) + xs
  {
    if xss == [] {
      assert xss + [xs] == [xs];
    } else {
      assert (xss + [xs])[1..] == xss[1..] + [xs];
      FlattenSnoc(xss[1..], xs);
    }
  }

  lemma Associative<T>(a: seq<T>, b: seq<T>, c: seq<T>)
    ensures (a + b) + c == a + (b + c)
  {
  }

  lemma {:induction false} FlattenAppend<T>(a: seq<seq<T>>, b: seq<seq<T>>)
    ensures Flatten(a + b) == Flatten(a) + Flatten(b)
  {
    if a == [] {
      assert a + b == b;
    } else {
      assert (a + b)[1..] == a[1..] + b;
      FlattenAppend(a[1..], b);
    }
  }

  lemma {:induction false} FlattenSplit<T>(xss: seq<seq<T>>, g: nat)
    requires g < |xss|
    ensures Flatten(xss) == Flatten(xss[..g]) + xss[g] + Flatten(xss[g + 1..])
  {
    if g > 0 {
      FlattenSplit(xss[1..], g - 1);
      assert xss[1..][..g - 1] == xss[..g][1..] && xss[1..][g..] == xss[g + 1..];
    }
  }

  lemma MiddleOfSlice<T>(xs: seq<T>, at: nat, a: seq<T>, b: seq<T>, c: seq<T>)
    requires at + |a| + |b| + |c| <= |xs| && a + b + c == xs[at..at + |a| + |b| + |c|]
    ensures b == xs[at + |a|..at + |a| + |b|]
  {
    forall k | 0 <= k < |b| ensures b[k] == xs[at + |a| + k] {
      assert b[k] == (a + b + c)[|a| + k];
    }
  }

  /** Consecutive pieces of max elements, the last one possibly shorter. */
  function Chunks<T>(xs: seq<T>, max: pos): seq<seq<T>> {
    if xs == [] then []
    else if |xs| <= max then [xs]
    else [xs[..max]] + Chunks(xs[max..], max)
  }

  /** Cutting loses nothing, and only the last chunk may be short. */
  lemma {:induction false} ChunksPartition<T>(xs: seq<T>, max: pos)
    ensures Flatten(Chunks(xs, max)) == xs
    ensures forall k :: 0 <= k < |Chunks(xs, max)| ==> 1 <= |Chunks(xs, max)[k]| <= max
    ensures forall k :: 0 <= k < |Chunks(xs, max)| - 1 ==> |Chunks(xs, max)[k]| == max
    ensures xs != [] ==> |Chunks(xs, max)| > 0 && |Chunks(xs, max)[0]| == Min(|xs|, max)
  {
    if |xs| > max {
      ChunksPartition(xs[max..], max);
      assert xs == xs[..max] + xs[max..];
    } else if xs != [] {
      assert Flatten([xs]) == xs + Flatten([]);
    }
  }

  /* ---------- chunkRanges ---------- */

  function RangesFrom(start: nat, n: nat, max: pos): seq<(nat, nat)>
    decreases if start < n then n - start else 0
  {
    if start >= n then [] else [(start, Min(start + max, n))] + RangesFrom(start + max, n, max)
  }

  /** A limit below one is raised to one. */
  method ChunkRanges(n: nat, limit: int) returns (out: seq<(nat, nat)>)
    ensures out == RangesFrom(0, n, if limit < 1 then 1 else limit)
  {
    var max: pos := if limit < 1 then 1 else limit;
    out := [];
    var start := 0;
    while start < n
      invariant out + RangesFrom(start, n, max) == RangesFrom(0, n, max)
      decreases if start < n then n - start else 0
    {
      var range := (start, Min(start + max, n));
      assert (out + [range]) + RangesFrom(start + max, n, max) == out + ([range] + RangesFrom(start + max, n, max));
      out := out + [range];
      start := start + max;
    }
  }

  /** The ranges cut any list of n elements into its chunks. */
  lemma {:induction false} RangesCutChunks<T>(xs: seq<T>, start: nat, max: pos)
    requires start <= |xs|
    ensures var ranges, chunks := RangesFrom(start, |xs|, max), Chunks(xs[start..], max);
            && |ranges| == |chunks|
            && forall k :: 0 <= k < |ranges| ==>
                 0 <= ranges[k].0 < ranges[k].1 <= |xs| && xs[ranges[k].0..ranges[k].1] == chunks[k]
    decreases |xs| - start
  {
    if |xs| - start > max {
      RangesCutChunks(xs, start + max, max);
      assert xs[start..][max..] == xs[start + max..];
      assert xs[start..][..max] == xs[start..start + max];
    } else if start < |xs| {
      assert RangesFrom(start + max, |xs|, max) == [];
    }
  }

  /* ---------- lengthOrder ---------- */

  function LengthAt(texts: seq<string>, i: nat): nat {
    if i < |texts| then ByteLength(texts[i]) else 0
  }

  /** A stable sort by length of ascending indices orders them by length, then index. */
  function ShorterFirst(texts: seq<string>): (nat, nat) -> bool {
    (i: nat, j: nat) =>
      LengthAt(texts, i) < LengthAt(texts, j) || (LengthAt(texts, i) == LengthAt(texts, j) && i <= j)
  }

  function LengthOrder(texts: seq<string>): seq<nat> {
    Sort(ShorterFirst(texts), Range(|texts|))
  }

  /** One slot of n each, none twice. */
  ghost predicate IsInjection(order: seq<nat>, n: nat) {
    && |order| == n
    && (forall p :: 0 <= p < n ==> order[p] < n)
    && (forall p, q :: 0 <= p < q < n ==> order[p] != order[q])
  }

  /** Each index exactly once. */
  ghost predicate IsPermutation(order: seq<nat>, n: nat) {
    IsInjection(order, n) && forall i :: 0 <= i < n ==> i in order
  }

  lemma {:induction false} DistinctByMultiset<T>(xs: seq<T>)
    requires forall x :: x in xs ==> multiset(xs)[x] == 1
    ensures forall p, q :: 0 <= p < q < |xs| ==> xs[p] != xs[q]
  {
    forall p, q | 0 <= p < q < |xs| ensures xs[p] != xs[q] {
      var a, b := xs[..p + 1], xs[p + 1..];
      assert xs == a + b && a[p] == xs[p] && b[q - (p + 1)] == xs[q];
      assert xs[p] in a && xs[q] in b;
      assert multiset(xs)[xs[p]] == multiset(a)[xs[p]] + multiset(b)[xs[p]];
    }
  }

  lemma {:induction false} RangeIsSet(n: nat)
    ensures forall i: nat :: multiset(Range(n))[i] == if i < n then 1 else 0
  {
    if n > 0 {
      RangeIsSet(n - 1);
      assert Range(n) == Range(n - 1) + [n - 1];
    }
  }

  /** The batches drawn from this order hold similar lengths, and every text is in one. */
  lemma LengthOrderCorrect(texts: seq<string>)
    ensures IsPermutation(LengthOrder(texts), |texts|)
    ensures forall p, q :: 0 <= p < q < |texts| ==>
        var i, j := LengthOrder(texts)[p], LengthOrder(texts)[q];
        LengthAt(texts, i) < LengthAt(texts, j) || (LengthAt(texts, i) == LengthAt(texts, j) && i < j)
  {
    var n, order := |texts|, LengthOrder(texts);
    SameElements(order, Range(n));
    RangeIsSet(n);
    DistinctByMultiset(order);
    forall i | 0 <= i < n ensures i in order {
      assert Range(n)[i] in Range(n);
    }
    forall p | 0 <= p < n ensures order[p] < n {
      assert order[p] in order;
    }
    SortSorts(ShorterFirst(texts), Range(n));
    forall p, q | 0 <= p < q < n ensures ShorterFirst(texts)(order[p], order[q]) {}
  }

  /* ---------- aspectRefs ---------- */

  function RefsOf(i: nat, count: nat): (r: seq<AspectRef>)
    ensures |r| == count && forall p :: 0 <= p < count ==> r[p] == AspectRef(i, p)
  {
    seq(count, p requires 0 <= p => AspectRef(i, p))
  }

  function Texts(items: seq<AspectInput>): (r: seq<string>)
    ensures |r| == |items| && forall i :: 0 <= i < |items| ==> r[i] == items[i].text
  {
    seq(|items|, i requires 0 <= i < |items| => items[i].text)
  }

  predicate Within(order: seq<nat>, n: nat) {
    forall k :: 0 <= k < |order| ==> order[k] < n
  }

  function RefsInOrder(items: seq<AspectInput>, order: seq<nat>): seq<AspectRef>
    requires Within(order, |items|)
  {
    if order == [] then []
    else RefsOf(order[0], |items[order[0]].aspects|) + RefsInOrder(items, order[1..])
  }

  predicate ValidRef(items: seq<AspectInput>, ref: AspectRef) {
    ref.item < |items| && ref.pos < |items[ref.item].aspects|
  }

  /** Pairs come out document by document; each reference is valid and occurs once. */
  lemma {:induction false} RefsInOrderCorrect(items: seq<AspectInput>, order: seq<nat>)
    requires Within(order, |items|)
    requires forall p, q :: 0 <= p < q < |order| ==> order[p] != order[q]
    ensures var refs := RefsInOrder(items, order);
            && (forall ref :: ref in refs <==> ValidRef(items, ref) && ref.item in order)
            && (forall p, q :: 0 <= p < q < |refs| ==> refs[p] != refs[q])
  {
    if order != [] {
      assert order[0] in order && forall i :: i in order[1..] ==> i in order;
      RefsInOrderCorrect(items, order[1..]);
      var first := RefsOf(order[0], |items[order[0]].aspects|);
      var rest := RefsInOrder(items, order[1..]);
      forall ref ensures ref in first + rest <==> ValidRef(items, ref) && ref.item in order {
        if ValidRef(items, ref) && ref.item == order[0] {
          assert first[ref.pos] == ref;
        }
      }
      forall p, q | 0 <= p < q < |first + rest| ensures (first + rest)[p] != (first + rest)[q] {
        if p < |first| <= q {
          assert rest[q - |first|] in rest;
        }
      }
    }
  }

  function Refs(items: seq<AspectInput>): seq<AspectRef> {
    LengthOrderInRange(Texts(items));
    RefsInOrder(items, LengthOrder(Texts(items)))
  }

  lemma LengthOrderInRange(texts: seq<string>)
    ensures Within(LengthOrder(texts), |texts|)
  {
    LengthOrderCorrect(texts);
  }

  lemma {:induction false} RefsInOrderSnoc(items: seq<AspectInput>, order: seq<nat>, i: nat)
    requires Within(order, |items|) && i < |items|
    ensures RefsInOrder(items, order + [i]) == RefsInOrder(items, order) + RefsOf(i, |items[i].aspects|)
  {
    if order == [] {
      assert order + [i] == [i];
    } else {
      assert (order + [i])[1..] == order[1..] + [i];
      RefsInOrderSnoc(items, order[1..], i);
    }
  }

  method AspectRefs(items: seq<AspectInput>) returns (refs: seq<AspectRef>)
    ensures refs == Refs(items)
  {
    var order := LengthOrder(Texts(items));
    LengthOrderInRange(Texts(items));
    refs := [];
    for k := 0 to |order|
      invariant refs == RefsInOrder(items, order[..k])
    {
      var i := order[k];
      assert order[..k + 1] == order[..k] + [i];
      RefsInOrderSnoc(items, order[..k], i);
      ghost var before := refs;
      for p := 0 to |items[i].aspects|
        invariant refs == before + RefsOf(i, p)
      {
        refs := refs + [AspectRef(i, p)];
      }
    }
    assert order[..|order|] == order;
  }

  /** Every pair of the caller's input exactly once. */
  lemma RefsCorrect(items: seq<AspectInput>)
    ensures forall ref :: ref in Refs(items) <==> ValidRef(items, ref)
    ensures forall p, q :: 0 <= p < q < |Refs(items)| ==> Refs(items)[p] != Refs(items)[q]
  {
    LengthOrderCorrect(Texts(items));
    LengthOrderInRange(Texts(items));
    RefsInOrderCorrect(items, LengthOrder(Texts(items)));
  }

  /** Shorter in bytes, or as long and earlier in the input. */
  predicate StandsBefore(texts: seq<string>, i: nat, j: nat)
    requires i < |texts| && j < |texts|
  {
    ByteLength(texts[i]) < ByteLength(texts[j]) || (ByteLength(texts[i]) == ByteLength(texts[j]) && i < j)
  }

  ghost predicate RefBefore(items: seq<AspectInput>, a: AspectRef, b: AspectRef) {
    && a.item < |items| && b.item < |items|
    && (if a.item == b.item then a.pos < b.pos else StandsBefore(Texts(items), a.item, b.item))
  }

  lemma {:induction false} RefsInOrderSorted(items: seq<AspectInput>, order: seq<nat>)
    requires Within(order, |items|)
    requires forall p, q :: 0 <= p < q < |order| ==> StandsBefore(Texts(items), order[p], order[q])
    ensures var refs := RefsInOrder(items, order);
            forall p, q :: 0 <= p < q < |refs| ==> RefBefore(items, refs[p], refs[q])
  {
    if order != [] {
      assert forall p, q :: 0 <= p < q < |order| ==> order[p] != order[q];
      RefsInOrderSorted(items, order[1..]);
      RefsInOrderCorrect(items, order[1..]);
      var first, rest := RefsOf(order[0], |items[order[0]].aspects|), RefsInOrder(items, order[1..]);
      forall q | 0 <= q < |rest| ensures rest[q].item in order[1..] && StandsBefore(Texts(items), order[0], rest[q].item) {
        assert rest[q] in rest;
        var b :| 0 <= b < |order[1..]| && order[1..][b] == rest[q].item;
        assert order[b + 1] == rest[q].item;
      }
    }
  }

  /** Documents come shortest first, each with its aspects in their own order. */
  lemma RefsStandInOrder(items: seq<AspectInput>)
    ensures forall p, q :: 0 <= p < q < |Refs(items)| ==> RefBefore(items, Refs(items)[p], Refs(items)[q])
  {
    var texts := Texts(items);
    LengthOrderCorrect(texts);
    LengthOrderInRange(texts);
    assert Refs(items) == RefsInOrder(items, LengthOrder(texts));
    RefsInOrderSorted(items, LengthOrder(texts));
  }

  /* ---------- groupByItem ---------- */

  predicate IsRun(group: seq<AspectRef>) {
    group != [] && forall k :: 0 <= k < |group| ==> group[k].item == group[0].item
  }

  /** A list of non-empty runs of one document each, neighbours differing. */
  predicate IsGrouping(groups: seq<seq<AspectRef>>) {
    && (forall g :: 0 <= g < |groups| ==> IsRun(groups[g]))
    && (forall g :: 1 <= g < |groups| ==> groups[g - 1][0].item != groups[g][0].item)
  }

  lemma FlattenGrowLast<T>(init: seq<seq<T>>, last: seq<T>, x: T)
    ensures Flatten(init + [last + [x]]) == Flatten(init + [last]) + [x]
  {
    FlattenSnoc(init, last);
    FlattenSnoc(init, last + [x]);
    Associative(Flatten(init), last, [x]);
  }

  /** One step of the grouping loop. */
  function AddToGroups(groups: seq<seq<AspectRef>>, ref: AspectRef): seq<seq<AspectRef>> {
    var n := |groups|;
    if n > 0 && groups[n - 1] != [] && groups[n - 1][0].item == ref.item
    then groups[..n - 1] + [groups[n - 1] + [ref]]
    else groups + [[ref]]
  }

  lemma AddToGroupsFlattens(groups: seq<seq<AspectRef>>, ref: AspectRef)
    ensures Flatten(AddToGroups(groups, ref)) == Flatten(groups) + [ref]
  {
    var n := |groups|;
    FlattenSnoc(groups, [ref]);
    if n > 0 {
      assert groups == groups[..n - 1] + [groups[n - 1]];
      FlattenGrowLast(groups[..n - 1], groups[n - 1], ref);
    }
  }

  lemma AddToGroupsGroups(groups: seq<seq<AspectRef>>, ref: AspectRef)
    requires IsGrouping(groups)
    ensures IsGrouping(AddToGroups(groups, ref))
  {
    var n, result := |groups|, AddToGroups(groups, ref);
    assert n > 0 ==> IsRun(groups[n - 1]);
    forall g | 0 <= g < |result| ensures IsRun(result[g]) {
      assert g < n ==> IsRun(groups[g]);
    }
  }

  function Groups(refs: seq<AspectRef>): seq<seq<AspectRef>> {
    if refs == [] then []
    else AddToGroups(Groups(refs[..|refs| - 1]), refs[|refs| - 1])
  }

  /** Regrouping loses nothing and keeps the order. */
  lemma {:induction false} GroupsCorrect(refs: seq<AspectRef>)
    ensures IsGrouping(Groups(refs)) && Flatten(Groups(refs)) == refs
  {
    if refs != [] {
      var before, last := refs[..|refs| - 1], refs[|refs| - 1];
      GroupsCorrect(before);
      AddToGroupsFlattens(Groups(before), last);
      AddToGroupsGroups(Groups(before), last);
      assert refs == before + [last];
    }
  }

  method GroupByItem(refs: seq<AspectRef>) returns (groups: seq<seq<AspectRef>>)
    ensures groups == Groups(refs)
  {
    groups := [];
    for k := 0 to |refs|
      invariant groups == Groups(refs[..k])
    {
      assert refs[..k + 1][..k] == refs[..k];
      GroupsCorrect(refs[..k]);
      var n := |groups|;
      if n > 0 && groups[n - 1][0].item == refs[k].item {
        groups := groups[..n - 1] + [groups[n - 1] + [refs[k]]];
      } else {
        groups := groups + [[refs[k]]];
      }
    }
    assert refs[..|refs|] == refs;
  }
}
