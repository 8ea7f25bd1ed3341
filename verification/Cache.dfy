/**
 The result cache of api/internal/cache/cache.go: a fixed-size LRU whose entries also expire.
 The LRU library is modelled as its list of entries, most recently used first.
 */
module Cache {
  import opened Wrappers

  datatype Slot<K, V> = Slot(key: K, value: V, expiresAt: real)

  function Find<K(==), V>(slots: seq<Slot<K, V>>, key: K): (s: Option<Slot<K, V>>)
    ensures s.Some? ==> s.value in slots && s.value.key == key
  {
    if slots == [] then None
    else if slots[0].key == key then Some(slots[0])
    else Find(slots[1..], key)
  }

  function Without<K(==), V>(slots: seq<Slot<K, V>>, key: K): (r: seq<Slot<K, V>>)
    ensures |r| <= |slots|
  {
    if slots == [] then []
    else if slots[0].key == key then Without(slots[1..], key)
    else [slots[0]] + Without(slots[1..], key)
  }

  /** A key already present takes its new entry to the front; a new key may push out the
      entry used longest ago. */
  function LruAdd<K(==), V>(slots: seq<Slot<K, V>>, size: pos, s: Slot<K, V>): seq<Slot<K, V>> {
    if Find(slots, s.key).Some? then [s] + Without(slots, s.key)
    else [s] + slots[..Min(size - 1, |slots|)]
  }

  datatype Op<K, V> = Get(key: K, now: real) | Set(key: K, value: V, now: real)

  /** The cache after one operation, and what it answers. */
  function Step<K(==), V>(slots: seq<Slot<K, V>>, size: pos, ttl: real, op: Op<K, V>)
      : (seq<Slot<K, V>>, Option<V>)
  {
    match op
    case Set(k, v, now) => (LruAdd(slots, size, Slot(k, v, now + ttl)), None)
    case Get(k, now) =>
      match Find(slots, k)
      case None => (slots, None)
      case Some(s) =>
        if now > s.expiresAt then (Without(slots, k), None)
        else ([s] + Without(slots, k), Some(s.value))
  }

  class TTLCache<K(==), V> {
    const size: pos
    const ttl: real
    var slots: seq<Slot<K, V>>

    /** One entry a key, and no more than the size. */
    ghost predicate Valid()
      reads this
    {
      Distinct(slots) && |slots| <= size
    }

    constructor (size: pos, ttl: real)
      ensures Valid() && this.size == size && this.ttl == ttl && slots == []
    {
      this.size, this.ttl, slots := size, ttl, [];
    }

    method Get(key: K, now: real) returns (value: Option<V>)
      requires Valid()
      modifies this
      ensures Valid()
      ensures (slots, value) == Step(old(slots), size, ttl, Op.Get(key, now))
    {
      StepKeepsShape(slots, size, ttl, Op.Get(key, now));
      var found := Find(slots, key);
      if found.None? {
        return None;
      }
      slots := [found.value] + Without(slots, key);    // the lookup itself is a use
      if now > found.value.expiresAt {
        WithoutTwice(old(slots), found.value, key);
        slots := Without(slots, key);
        return None;
      }
      value := Some(found.value.value);
    }

    method Set(key: K, value: V, now: real)
      requires Valid()
      modifies this
      ensures Valid()
      ensures slots == Step(old(slots), size, ttl, Op.Set(key, value, now)).0
    {
      StepKeepsShape(slots, size, ttl, Op.Set(key, value, now));
      var s := Slot(key, value, now + ttl);
      if Find(slots, key).Some? {
        WithoutShrinks(slots, key);
        slots := [s] + Without(slots, key);
      } else {
        slots := [s] + slots;
        if |slots| > size {
          slots := slots[..|slots| - 1];
        }
        assert slots == [s] + old(slots)[..Min(size - 1, |old(slots)|)];
      }
    }
  }

  /* ---------- looking up after an update ---------- */

  lemma {:induction false} FindWithout<K, V>(slots: seq<Slot<K, V>>, key: K, k: K)
    ensures Find(Without(slots, key), k) == if k == key then None else Find(slots, k)
  {
    if slots != [] {
      FindWithout(slots[1..], key, k);
      assert ([slots[0]] + Without(slots[1..], key))[1..] == Without(slots[1..], key);
    }
  }

  lemma {:induction false} WithoutAbsent<K, V>(slots: seq<Slot<K, V>>, key: K)
    requires Find(slots, key).None?
    ensures Without(slots, key) == slots
  {
    if slots != [] {
      WithoutAbsent(slots[1..], key);
    }
  }

  lemma {:induction false} WithoutShrinks<K, V>(slots: seq<Slot<K, V>>, key: K)
    requires Find(slots, key).Some?
    ensures |Without(slots, key)| < |slots|
  {
    if slots[0].key != key {
      WithoutShrinks(slots[1..], key);
    }
  }

  lemma WithoutTwice<K, V>(slots: seq<Slot<K, V>>, s: Slot<K, V>, key: K)
    requires s.key == key
    ensures Without([s] + Without(slots, key), key) == Without(slots, key)
  {
    FindWithout(slots, key, key);
    WithoutAbsent(Without(slots, key), key);
    assert ([s] + Without(slots, key))[1..] == Without(slots, key);
  }

  lemma FindFront<K, V>(s: Slot<K, V>, rest: seq<Slot<K, V>>, k: K)
    ensures Find([s] + rest, k) == if k == s.key then Some(s) else Find(rest, k)
  {
    assert ([s] + rest)[1..] == rest;
  }

  lemma {:induction false} FindPrefix<K, V>(slots: seq<Slot<K, V>>, n: nat, k: K)
    requires n <= |slots|
    ensures Find(slots[..n], k).Some? ==> Find(slots[..n], k) == Find(slots, k)
  {
    if n > 0 {
      FindPrefix(slots[1..], n - 1, k);
      assert slots[..n][1..] == slots[1..][..n - 1];
    }
  }

  /* ---------- agreement with a plain map ---------- */

  /** The most recent value stored under each key, and when. */
  type History<K, V> = map<K, (V, real)>

  function Record<K, V>(h: History<K, V>, op: Op<K, V>): History<K, V> {
    match op
    case Set(k, v, now) => h[k := (v, now)]
    case Get(_, _) => h
  }

  /** What a map that forgets nothing and expires entries would answer. */
  function Lookup<K, V>(h: History<K, V>, ttl: real, key: K, now: real): Option<V> {
    if key in h && now <= h[key].1 + ttl then Some(h[key].0) else None
  }

  function Slots<K(==), V>(size: pos, ttl: real, ops: seq<Op<K, V>>): seq<Slot<K, V>> {
    if ops == [] then []
    else Step(Slots(size, ttl, ops[..|ops| - 1]), size, ttl, ops[|ops| - 1]).0
  }

  function Recorded<K, V>(ops: seq<Op<K, V>>): History<K, V> {
    if ops == [] then map[] else Record(Recorded(ops[..|ops| - 1]), ops[|ops| - 1])
  }

  ghost predicate ClockForward<K, V>(ops: seq<Op<K, V>>) {
    forall i, j :: 0 <= i < j < |ops| ==> ops[i].now <= ops[j].now
  }

  /** The entry found for k, if any, is the latest stored under it. */
  ghost predicate AgreesAt<K, V>(slots: seq<Slot<K, V>>, h: History<K, V>, ttl: real, k: K) {
    Find(slots, k).Some? ==>
      && k in h
      && h[k] == (Find(slots, k).value.value, Find(slots, k).value.expiresAt - ttl)
  }

  lemma AddElsewhere<K, V>(slots: seq<Slot<K, V>>, size: pos, s: Slot<K, V>, k: K)
    requires k != s.key
    ensures Find(LruAdd(slots, size, s), k) == None || Find(LruAdd(slots, size, s), k) == Find(slots, k)
    ensures |slots| < size || Find(slots, s.key).Some? ==> Find(LruAdd(slots, size, s), k) == Find(slots, k)
  {
    var n := Min(size - 1, |slots|);
    if Find(slots, s.key).Some? {
      FindWithout(slots, s.key, k);
      FindFront(s, Without(slots, s.key), k);
    } else {
      FindFront(s, slots[..n], k);
      FindPrefix(slots, n, k);
      assert |slots| < size ==> slots[..n] == slots;
    }
  }

  /** A step says of other keys nothing new. */
  lemma StepElsewhere<K, V>(slots: seq<Slot<K, V>>, size: pos, ttl: real, op: Op<K, V>, k: K)
    requires k != op.key
    ensures var after := Step(slots, size, ttl, op).0;
            Find(after, k) == None || Find(after, k) == Find(slots, k)
    ensures |slots| < size || op.Get? || Find(slots, op.key).Some? ==>
            Find(Step(slots, size, ttl, op).0, k) == Find(slots, k)
  {
    match op
    case Set(key, v, now) => AddElsewhere(slots, size, Slot(key, v, now + ttl), k);
    case Get(key, now) =>
      FindWithout(slots, key, k);
      if Find(slots, key).Some? {
        FindFront(Find(slots, key).value, Without(slots, key), k);
      }
  }

  function OwnSlot<K, V>(was: Option<Slot<K, V>>, ttl: real, op: Op<K, V>): Option<Slot<K, V>> {
    match op
    case Set(k, v, now) => Some(Slot(k, v, now + ttl))
    case Get(k, now) => if was.Some? && now > was.value.expiresAt then None else was
  }

  /** A step leaves its own key with the value it stored, or as it was, or gone. */
  lemma StepAtKey<K, V>(slots: seq<Slot<K, V>>, size: pos, ttl: real, op: Op<K, V>)
    ensures Find(Step(slots, size, ttl, op).0, op.key) == OwnSlot(Find(slots, op.key), ttl, op)
  {
    match op
    case Set(k, v, now) => {}
    case Get(k, now) => FindWithout(slots, k, k);
  }

  lemma {:induction false} SlotsAgree<K, V>(size: pos, ttl: real, ops: seq<Op<K, V>>, k: K)
    ensures AgreesAt(Slots(size, ttl, ops), Recorded(ops), ttl, k)
  {
    if ops != [] {
      var init, op := ops[..|ops| - 1], ops[|ops| - 1];
      SlotsAgree(size, ttl, init, k);
      if k == op.key {
        StepAtKey(Slots(size, ttl, init), size, ttl, op);
      } else {
        StepElsewhere(Slots(size, ttl, init), size, ttl, op, k);
      }
    }
  }

  /** Over every sequence of operations a hit is the most recent value stored under that key,
      stored no longer than the time to live ago: whatever was evicted can only turn what a
      plain map would answer into a miss. */
  lemma HitsAgreeWithMap<K, V>(size: pos, ttl: real, ops: seq<Op<K, V>>, key: K, now: real)
    ensures var answer := Step(Slots(size, ttl, ops), size, ttl, Get(key, now)).1;
            answer == None || answer == Lookup(Recorded(ops), ttl, key, now)
  {
    SlotsAgree(size, ttl, ops, key);
  }

  /* ---------- how long an entry stays ---------- */

  predicate Distinct<K(==), V>(slots: seq<Slot<K, V>>) {
    slots == [] || (Find(slots[1..], slots[0].key).None? && Distinct(slots[1..]))
  }

  lemma {:induction false} WithoutDistinct<K, V>(slots: seq<Slot<K, V>>, key: K)
    requires Distinct(slots)
    ensures Distinct(Without(slots, key))
  {
    if slots != [] {
      WithoutDistinct(slots[1..], key);
      FindWithout(slots[1..], key, slots[0].key);
      assert ([slots[0]] + Without(slots[1..], key))[1..] == Without(slots[1..], key);
    }
  }

  lemma {:induction false} PrefixDistinct<K, V>(slots: seq<Slot<K, V>>, n: nat)
    requires Distinct(slots) && n <= |slots|
    ensures Distinct(slots[..n])
  {
    if n > 0 {
      PrefixDistinct(slots[1..], n - 1);
      FindPrefix(slots[1..], n - 1, slots[0].key);
      assert slots[..n][1..] == slots[1..][..n - 1];
    }
  }

  lemma DistinctFront<K, V>(s: Slot<K, V>, rest: seq<Slot<K, V>>)
    requires Distinct(rest) && Find(rest, s.key).None?
    ensures Distinct([s] + rest)
  {
    assert ([s] + rest)[1..] == rest;
  }

  /** The cache holds one entry a key, and never more than its size. */
  lemma StepKeepsShape<K, V>(slots: seq<Slot<K, V>>, size: pos, ttl: real, op: Op<K, V>)
    requires Distinct(slots) && |slots| <= size
    ensures Distinct(Step(slots, size, ttl, op).0) && |Step(slots, size, ttl, op).0| <= size
  {
    var rest := Without(slots, op.key);
    WithoutDistinct(slots, op.key);
    FindWithout(slots, op.key, op.key);
    if Find(slots, op.key).Some? {
      WithoutShrinks(slots, op.key);
      DistinctFront(Find(slots, op.key).value, rest);
    }
    match op
    case Set(key, v, now) =>
      var s, n := Slot(key, v, now + ttl), Min(size - 1, |slots|);
      DistinctFront(s, rest);
      if Find(slots, key).None? {
        PrefixDistinct(slots, n);
        FindPrefix(slots, n, key);
        DistinctFront(s, slots[..n]);
      }
    case Get(_, _) => {}
  }

  lemma {:induction false} SlotsKeepShape<K, V>(size: pos, ttl: real, ops: seq<Op<K, V>>)
    ensures Distinct(Slots(size, ttl, ops)) && |Slots(size, ttl, ops)| <= size
  {
    if ops != [] {
      SlotsKeepShape(size, ttl, ops[..|ops| - 1]);
      StepKeepsShape(Slots(size, ttl, ops[..|ops| - 1]), size, ttl, ops[|ops| - 1]);
    }
  }

  ghost predicate KeysWithin<K, V>(slots: seq<Slot<K, V>>, keys: set<K>) {
    forall i :: 0 <= i < |slots| ==> slots[i].key in keys
  }

  lemma {:induction false} FindsFirst<K, V>(slots: seq<Slot<K, V>>, i: nat)
    requires i < |slots|
    ensures Find(slots, slots[i].key).Some?
  {
    if i > 0 {
      FindsFirst(slots[1..], i - 1);
    }
  }

  /** Distinct entries are no more than the keys they range over. */
  lemma {:induction false} NoMoreThanKeys<K, V>(slots: seq<Slot<K, V>>, keys: set<K>)
    requires Distinct(slots) && KeysWithin(slots, keys)
    ensures |slots| <= |keys|
  {
    if slots != [] {
      forall i | 0 <= i < |slots[1..]| ensures slots[1..][i].key in keys - {slots[0].key} {
        assert slots[1..][i] == slots[i + 1];
        FindsFirst(slots[1..], i);
      }
      NoMoreThanKeys(slots[1..], keys - {slots[0].key});
    }
  }

  /** What is recorded under k is in the cache, or has expired by now. */
  predicate PresentOrExpired<K(==), V>(slots: seq<Slot<K, V>>, h: History<K, V>, ttl: real, now: real, k: K) {
    k in h && Find(slots, k).None? ==> now > h[k].1 + ttl
  }

  /** A new key finds room while no more keys were stored than the cache holds. */
  lemma NewKeyFits<K, V>(size: pos, ttl: real, ops: seq<Op<K, V>>, op: Op<K, V>)
    requires |Record(Recorded(ops), op)| <= size && op.Set? && Find(Slots(size, ttl, ops), op.key).None?
    ensures |Slots(size, ttl, ops)| < size
  {
    var slots, h := Slots(size, ttl, ops), Record(Recorded(ops), op);
    SlotsKeepShape(size, ttl, ops);
    forall i | 0 <= i < |slots| ensures slots[i].key in h.Keys - {op.key} {
      FindsFirst(slots, i);
      SlotsAgree(size, ttl, ops, slots[i].key);
    }
    NoMoreThanKeys(slots, h.Keys - {op.key});
  }

  lemma {:induction false} SmallerSet<T>(a: set<T>, b: set<T>)
    requires a <= b
    ensures |a| <= |b|
  {
    if a != {} {
      var x :| x in a;
      SmallerSet(a - {x}, b - {x});
    }
  }

  lemma {:induction false} NothingLiveIsMissing<K, V>(size: pos, ttl: real, ops: seq<Op<K, V>>, k: K)
    requires ops != [] && ClockForward(ops) && |Recorded(ops)| <= size
    ensures PresentOrExpired(Slots(size, ttl, ops), Recorded(ops), ttl, ops[|ops| - 1].now, k)
  {
    var init, op := ops[..|ops| - 1], ops[|ops| - 1];
    SmallerSet(Recorded(init).Keys, Recorded(ops).Keys);
    if init != [] {
      NothingLiveIsMissing(size, ttl, init, k);
    }
    SlotsAgree(size, ttl, init, k);
    if k == op.key {
      StepAtKey(Slots(size, ttl, init), size, ttl, op);
    } else {
      if op.Set? && Find(Slots(size, ttl, init), op.key).None? {
        NewKeyFits(size, ttl, init, op);
      }
      StepElsewhere(Slots(size, ttl, init), size, ttl, op, k);
    }
  }

  /** While no more keys were stored than the cache holds, it answers exactly as the map does,
      on a clock that does not go back. */
  lemma WithRoomCacheIsMap<K, V>(size: pos, ttl: real, ops: seq<Op<K, V>>, key: K, now: real)
    requires ClockForward(ops) && |Recorded(ops)| <= size
    requires ops != [] ==> ops[|ops| - 1].now <= now
    ensures Step(Slots(size, ttl, ops), size, ttl, Get(key, now)).1 == Lookup(Recorded(ops), ttl, key, now)
  {
    SlotsAgree(size, ttl, ops, key);
    if ops != [] {
      NothingLiveIsMissing(size, ttl, ops, key);
    }
  }

  /* ---------- least recently used goes first ---------- */

  /** The keys of the entries in front of k's. */
  function Ahead<K(==), V>(slots: seq<Slot<K, V>>, k: K): set<K> {
    if slots == [] || slots[0].key == k then {} else {slots[0].key} + Ahead(slots[1..], k)
  }

  lemma {:induction false} AheadWithout<K, V>(slots: seq<Slot<K, V>>, key: K, k: K)
    requires k != key
    ensures Ahead(Without(slots, key), k) == Ahead(slots, k) - {key}
  {
    if slots != [] {
      AheadWithout(slots[1..], key, k);
      assert ([slots[0]] + Without(slots[1..], key))[1..] == Without(slots[1..], key);
    }
  }

  lemma AheadFront<K, V>(s: Slot<K, V>, rest: seq<Slot<K, V>>, k: K)
    requires k != s.key
    ensures Ahead([s] + rest, k) == {s.key} + Ahead(rest, k)
  {
    assert ([s] + rest)[1..] == rest;
  }

  /** An entry with fewer than n distinct ones in front of it is within the first n. */
  lemma {:induction false} AheadBoundsPlace<K, V>(slots: seq<Slot<K, V>>, n: nat, k: K)
    requires Distinct(slots) && n <= |slots| && Find(slots, k).Some? && |Ahead(slots, k)| < n
    ensures Find(slots[..n], k) == Find(slots, k) && Ahead(slots[..n], k) == Ahead(slots, k)
  {
    if slots[0].key != k {
      AheadIsFound(slots[1..], k, slots[0].key);
      AheadBoundsPlace(slots[1..], n - 1, k);
      assert slots[..n][1..] == slots[1..][..n - 1];
    }
  }

  lemma {:induction false} AheadIsFound<K, V>(slots: seq<Slot<K, V>>, k: K, j: K)
    requires Find(slots, j).None?
    ensures j !in Ahead(slots, k)
  {
    if slots != [] {
      AheadIsFound(slots[1..], k, j);
    }
  }

  lemma {:induction false} FindsWithin<K, V>(slots: seq<Slot<K, V>>, k: K)
    requires Distinct(slots) && Find(slots, k).Some?
    ensures |Ahead(slots, k)| < |slots|
  {
    if slots[0].key != k {
      FindsWithin(slots[1..], k);
    }
  }

  lemma {:induction false} AheadOfPrefix<K, V>(slots: seq<Slot<K, V>>, n: nat, k: K)
    requires n <= |slots| && Find(slots[..n], k).Some?
    ensures Ahead(slots[..n], k) == Ahead(slots, k)
  {
    if slots[0].key != k {
      assert slots[..n][1..] == slots[1..][..n - 1];
      AheadOfPrefix(slots[1..], n - 1, k);
    }
  }

  /** The keys in front of an entry after one more operation on another key: a store or a hit
      brings its key there, a lookup in vain leaves none under its key. */
  function Fronted<K(==), V>(front: set<K>, slots: seq<Slot<K, V>>, size: pos, ttl: real, op: Op<K, V>): set<K> {
    if op.Set? || Step(slots, size, ttl, op).1.Some? then front + {op.key} else front - {op.key}
  }

  lemma NewKeyPushesBack<K, V>(slots: seq<Slot<K, V>>, size: pos, s: Slot<K, V>, k: K)
    requires Distinct(slots) && |slots| <= size && Find(slots, k).Some? && Find(slots, s.key).None?
    ensures |Ahead(slots, k) + {s.key}| < size ==>
        && Find(LruAdd(slots, size, s), k) == Find(slots, k)
        && Ahead(LruAdd(slots, size, s), k) == Ahead(slots, k) + {s.key}
    ensures |Ahead(slots, k) + {s.key}| >= size ==> Find(LruAdd(slots, size, s), k).None?
  {
    var n := Min(size - 1, |slots|);
    AheadIsFound(slots, k, s.key);
    assert |Ahead(slots, k) + {s.key}| == |Ahead(slots, k)| + 1;
    FindsWithin(slots, k);
    AheadFront(s, slots[..n], k);
    FindFront(s, slots[..n], k);
    if |Ahead(slots, k)| < n {
      AheadBoundsPlace(slots, n, k);
    } else if Find(slots[..n], k).Some? {
      PrefixDistinct(slots, n);
      AheadOfPrefix(slots, n, k);
      FindsWithin(slots[..n], k);
      assert false;
    }
  }

  lemma MovedToFrontPushesBack<K, V>(slots: seq<Slot<K, V>>, s: Slot<K, V>, k: K)
    requires k != s.key
    ensures Find([s] + Without(slots, s.key), k) == Find(slots, k)
    ensures Ahead([s] + Without(slots, s.key), k) == Ahead(slots, k) + {s.key}
  {
    AheadWithout(slots, s.key, k);
    AheadFront(s, Without(slots, s.key), k);
    FindWithout(slots, s.key, k);
    FindFront(s, Without(slots, s.key), k);
  }

  /** Looking another key up pushes nothing out. */
  lemma LookupPushesBack<K, V>(slots: seq<Slot<K, V>>, size: pos, ttl: real, op: Op<K, V>, k: K)
    requires op.Get? && Find(slots, k).Some? && k != op.key
    ensures var after := Step(slots, size, ttl, op).0;
            Find(after, k) == Find(slots, k) && Ahead(after, k) == Fronted(Ahead(slots, k), slots, size, ttl, op)
  {
    if Find(slots, op.key).Some? {
      MovedToFrontPushesBack(slots, Find(slots, op.key).value, k);
      AheadWithout(slots, op.key, k);
      FindWithout(slots, op.key, k);
    } else {
      AheadIsFound(slots, k, op.key);
    }
  }

  /** One operation on another key moves k's entry back accordingly, and pushes it out exactly
      when as many keys would be in front as the cache holds. */
  lemma StepPushesBack<K, V>(slots: seq<Slot<K, V>>, size: pos, ttl: real, op: Op<K, V>, k: K)
    requires Distinct(slots) && |slots| <= size && Find(slots, k).Some? && k != op.key
    ensures var after, front := Step(slots, size, ttl, op).0, Fronted(Ahead(slots, k), slots, size, ttl, op);
            if |front| < size then Find(after, k) == Find(slots, k) && Ahead(after, k) == front
            else Find(after, k).None?
  {
    if op.Set? && Find(slots, op.key).None? {
      NewKeyPushesBack(slots, size, Slot(op.key, op.value, op.now + ttl), k);
    } else {
      if op.Set? {
        MovedToFrontPushesBack(slots, Slot(op.key, op.value, op.now + ttl), k);
      } else {
        LookupPushesBack(slots, size, ttl, op, k);
      }
      StepKeepsShape(slots, size, ttl, op);
      FindsWithin(Step(slots, size, ttl, op).0, k);
    }
  }

  ghost function KeysUsed<K, V>(ops: seq<Op<K, V>>): set<K> {
    set op | op in ops :: op.key
  }

  /** The cache after the operations, from a given one. */
  function SlotsAfter<K(==), V>(slots: seq<Slot<K, V>>, size: pos, ttl: real, ops: seq<Op<K, V>>): seq<Slot<K, V>> {
    if ops == [] then slots
    else Step(SlotsAfter(slots, size, ttl, ops[..|ops| - 1]), size, ttl, ops[|ops| - 1]).0
  }

  /** Of the other keys used since a value was stored, those stored or hit and not looked up in
      vain after that. */
  function InFront<K(==), V>(slots: seq<Slot<K, V>>, size: pos, ttl: real, ops: seq<Op<K, V>>): set<K> {
    if ops == [] then {}
    else
      var init := ops[..|ops| - 1];
      Fronted(InFront(slots, size, ttl, init), SlotsAfter(slots, size, ttl, init), size, ttl, ops[|ops| - 1])
  }

  /** They were fewer than the size all the time. */
  ghost predicate NeverFull<K, V>(slots: seq<Slot<K, V>>, size: pos, ttl: real, ops: seq<Op<K, V>>) {
    |InFront(slots, size, ttl, ops)| < size && (ops == [] || NeverFull(slots, size, ttl, ops[..|ops| - 1]))
  }

  lemma {:induction false} AfterKeepsShape<K, V>(slots: seq<Slot<K, V>>, size: pos, ttl: real, ops: seq<Op<K, V>>)
    requires Distinct(slots) && |slots| <= size
    ensures Distinct(SlotsAfter(slots, size, ttl, ops)) && |SlotsAfter(slots, size, ttl, ops)| <= size
  {
    if ops != [] {
      AfterKeepsShape(slots, size, ttl, ops[..|ops| - 1]);
      StepKeepsShape(SlotsAfter(slots, size, ttl, ops[..|ops| - 1]), size, ttl, ops[|ops| - 1]);
    }
  }

  lemma {:induction false} UsesPushBack<K, V>(slots: seq<Slot<K, V>>, size: pos, ttl: real, ops: seq<Op<K, V>>, k: K)
    requires Distinct(slots) && |slots| <= size && Find(slots, k).Some? && Ahead(slots, k) == {}
    requires k !in KeysUsed(ops)
    ensures var after := SlotsAfter(slots, size, ttl, ops);
            if NeverFull(slots, size, ttl, ops)
            then Find(after, k) == Find(slots, k) && Ahead(after, k) == InFront(slots, size, ttl, ops)
            else Find(after, k).None?
  {
    if ops != [] {
      var init, op := ops[..|ops| - 1], ops[|ops| - 1];
      assert op in ops && forall o :: o in init ==> o in ops;
      UsesPushBack(slots, size, ttl, init, k);
      AfterKeepsShape(slots, size, ttl, init);
      var before := SlotsAfter(slots, size, ttl, init);
      if Find(before, k).Some? {
        StepPushesBack(before, size, ttl, op, k);
      } else {
        StepElsewhere(before, size, ttl, op, k);
      }
    }
  }

  /** What goes is the entry used longest ago: after any uses of other keys a stored value is
      answered exactly while it has not expired and the keys stored or hit since, less those found
      expired, have always been fewer than the size. */
  lemma EvictedExactlyWhenFull<K, V>(size: pos, ttl: real, before: seq<Op<K, V>>, key: K, value: V, at: real,
                                     uses: seq<Op<K, V>>, now: real)
    requires key !in KeysUsed(uses)
    ensures var stored := Step(Slots(size, ttl, before), size, ttl, Set(key, value, at)).0;
            Step(SlotsAfter(stored, size, ttl, uses), size, ttl, Get(key, now)).1
            == if now <= at + ttl && NeverFull(stored, size, ttl, uses) then Some(value) else None
  {
    SlotsKeepShape(size, ttl, before);
    StepKeepsShape(Slots(size, ttl, before), size, ttl, Set(key, value, at));
    StepAtKey(Slots(size, ttl, before), size, ttl, Set(key, value, at));
    UsesPushBack(Step(Slots(size, ttl, before), size, ttl, Set(key, value, at)).0, size, ttl, uses, key);
  }

  lemma {:induction false} FewUsesNeverFill<K, V>(slots: seq<Slot<K, V>>, size: pos, ttl: real, uses: seq<Op<K, V>>)
    ensures InFront(slots, size, ttl, uses) <= KeysUsed(uses)
    ensures |KeysUsed(uses)| < size ==> NeverFull(slots, size, ttl, uses)
    ensures (forall op :: op in uses ==> op.Set?) ==> InFront(slots, size, ttl, uses) == KeysUsed(uses)
  {
    if uses != [] {
      var init, op := uses[..|uses| - 1], uses[|uses| - 1];
      assert uses == init + [op];
      FewUsesNeverFill(slots, size, ttl, init);
      SmallerSet(KeysUsed(init), KeysUsed(uses));
    }
    SmallerSet(InFront(slots, size, ttl, uses), KeysUsed(uses));
  }

  /** So with fewer other keys used than the cache holds, whatever the uses, a stored value is
      answered exactly while it has not expired. */
  lemma StoredValueSurvives<K, V>(size: pos, ttl: real, before: seq<Op<K, V>>, key: K, value: V, at: real,
                                  uses: seq<Op<K, V>>, now: real)
    requires key !in KeysUsed(uses) && |KeysUsed(uses)| < size
    ensures var stored := Step(Slots(size, ttl, before), size, ttl, Set(key, value, at)).0;
            Step(SlotsAfter(stored, size, ttl, uses), size, ttl, Get(key, now)).1
            == if now <= at + ttl then Some(value) else None
  {
    EvictedExactlyWhenFull(size, ttl, before, key, value, at, uses, now);
    FewUsesNeverFill(Step(Slots(size, ttl, before), size, ttl, Set(key, value, at)).0, size, ttl, uses);
  }

  /** And with other keys only stored, exactly while they are fewer than the size too. */
  lemma EvictedByStoresExactlyWhenFull<K, V>(size: pos, ttl: real, before: seq<Op<K, V>>, key: K, value: V, at: real,
                                             stores: seq<Op<K, V>>, now: real)
    requires forall op :: op in stores ==> op.Set? && op.key != key
    ensures var stored := Step(Slots(size, ttl, before), size, ttl, Set(key, value, at)).0;
            Step(SlotsAfter(stored, size, ttl, stores), size, ttl, Get(key, now)).1
            == if now <= at + ttl && |KeysUsed(stores)| < size then Some(value) else None
  {
    EvictedExactlyWhenFull(size, ttl, before, key, value, at, stores, now);
    FewUsesNeverFill(Step(Slots(size, ttl, before), size, ttl, Set(key, value, at)).0, size, ttl, stores);
  }
}
