/** The gate's command guards: a cooldown between openings and a ring cache
    of recently processed request ids that makes command handling
    idempotent. The firmware keeps this state in static members; here it is
    one object. `GATE_COOLDOWN_MS` and `DEDUP_CACHE_SIZE` are build
    constants this model takes as parameters. */
module Gate {
  import opened Config
  import opened Wrappers

  /** Room for a request id (a UUID is 36 characters) in one cache slot. */
  const RequestIdMax: nat := 36

  /** The ring cache as a value: the slots, the next slot to write, and the
      number of slots written so far (saturating at the cache size). */
  datatype DedupeCache = DedupeCache(slots: seq<string>, index: nat, count: nat)

  ghost predicate ValidCache(c: DedupeCache)
  {
    && 0 < |c.slots| <= 255
    && c.index < |c.slots| && c.count <= |c.slots|
    // until the ring wraps, slots are filled from 0 upwards
    && (c.count < |c.slots| ==> c.index == c.count)
    && (forall i | 0 <= i < |c.slots| :: |c.slots[i]| <= RequestIdMax)
  }

  /** The cache `init()` leaves: every slot an empty string. */
  function EmptyCache(size: nat): (c: DedupeCache)
    requires 0 < size <= 255
    ensures ValidCache(c) && |c.slots| == size && c.count == 0
  {
    DedupeCache(seq(size, _ => ""), 0, 0)
  }

  /** `wasProcessed(id)`: the id is non-null, non-empty and equal to one of
      the slots written so far. */
  ghost predicate Seen(c: DedupeCache, id: Option<string>)
  {
    match id
    case None => false
    case Some(s) =>
      s != "" && exists i | 0 <= i < Min(c.count, |c.slots|) :: c.slots[i] == s
  }

  /** `markProcessed(id)`: a null or empty id changes nothing; otherwise the
      id, cut to 36 characters, overwrites the slot at the index, the index
      advances around the ring and the count grows until the cache is full. */
  function MarkStep(c: DedupeCache, id: Option<string>): (d: DedupeCache)
    requires ValidCache(c)
    ensures ValidCache(d) && |d.slots| == |c.slots|
    ensures id == None || id == Some("") ==> d == c
    ensures id != None && id != Some("") ==>
      && d.index == (c.index + 1) % |c.slots|
      && d.count == Min(c.count + 1, |c.slots|)
      && d.slots == c.slots[c.index := Truncate(id.value, RequestIdMax)]
  {
    match id
    case None => c
    case Some(s) =>
      if s == "" then c
      else
        var slots := c.slots[c.index := Truncate(s, RequestIdMax)];
        SlotWriteBounded(c.slots, c.index, Truncate(s, RequestIdMax), slots);
        NextIndex(c.index, |c.slots|);
        DedupeCache(slots, (c.index + 1) % |c.slots|, if c.count < |c.slots| then c.count + 1 else c.count)
  }

  /** The index after `i` in a ring of `n` slots. */
  lemma NextIndex(i: nat, n: nat)
    requires i < n
    ensures (i + 1) % n < n
    ensures i + 1 < n ==> (i + 1) % n == i + 1
    ensures i + 1 == n ==> (i + 1) % n == 0
  {
  }

  /** Writing a short enough id keeps every slot within its room. */
  lemma SlotWriteBounded(slots: seq<string>, i: nat, v: string, written: seq<string>)
    requires i < |slots| && |v| <= RequestIdMax && written == slots[i := v]
    requires forall j | 0 <= j < |slots| :: |slots[j]| <= RequestIdMax
    ensures forall j | 0 <= j < |written| :: |written[j]| <= RequestIdMax
  {
  }

  /** An id of 1 to 36 characters is reported as processed right after it
      is marked. */
  lemma MarkThenSeen(c: DedupeCache, s: string)
    requires ValidCache(c)
    requires 1 <= |s| <= RequestIdMax
    ensures Seen(MarkStep(c, Some(s)), Some(s))
  {
    var d := MarkStep(c, Some(s));
    assert d.slots[c.index] == s;
  }

  /** Every slot holds at most 36 characters, so a longer id is never
      reported, however often it is marked. */
  lemma LongIdNeverSeen(c: DedupeCache, s: string)
    requires ValidCache(c)
    requires |s| > RequestIdMax
    ensures !Seen(c, Some(s))
    ensures !Seen(MarkStep(c, Some(s)), Some(s))
  {
  }

  /** Marking a long id makes its 36-character prefix count as processed. */
  lemma TruncatedPrefixSeen(c: DedupeCache, s: string)
    requires ValidCache(c)
    requires |s| > RequestIdMax
    ensures Seen(MarkStep(c, Some(s)), Some(s[..RequestIdMax]))
  {
    MarkThenSeen(c, s[..RequestIdMax]);
  }

  /** A null or empty id is never reported and never stored. */
  lemma NullOrEmptyIgnored(c: DedupeCache)
    requires ValidCache(c)
    ensures !Seen(c, None) && !Seen(c, Some(""))
    ensures MarkStep(c, None) == c && MarkStep(c, Some("")) == c
  {
  }

  /** After `init()` no id is reported. */
  lemma EmptyCacheSeesNothing(size: nat, id: Option<string>)
    requires 0 < size <= 255
    ensures !Seen(EmptyCache(size), id)
  {
  }

  /** Marking a run of ids in order. */
  function MarkAll(c: DedupeCache, ids: seq<string>): (d: DedupeCache)
    requires ValidCache(c)
    ensures ValidCache(d) && |d.slots| == |c.slots|
    decreases |ids|
  {
    if ids == [] then c
    else MarkStep(MarkAll(c, ids[..|ids| - 1]), Some(ids[|ids| - 1]))
  }

  /** After a run of non-empty ids the index has moved on by the run's
      length and the count has grown by it, up to the size. */
  lemma {:induction false} MarkAllCounters(c: DedupeCache, ids: seq<string>)
    requires ValidCache(c)
    requires forall j | 0 <= j < |ids| :: ids[j] != ""
    ensures MarkAll(c, ids).index == (c.index + |ids|) % |c.slots|
    ensures MarkAll(c, ids).count == Min(c.count + |ids|, |c.slots|)
  {
    if ids == [] {
      ModUnique(c.index, 0, c.index, |c.slots|);
    } else {
      var front := ids[..|ids| - 1];
      MarkAllCounters(c, front);
      ModStep(c.index + |front|, |c.slots|);
    }
  }

  /** Each of the last `size` ids of a run sits, truncated, in the slot it
      was written to. */
  lemma {:induction false} MarkAllPlacement(c: DedupeCache, ids: seq<string>, j: nat)
    requires ValidCache(c)
    requires forall k | 0 <= k < |ids| :: ids[k] != ""
    requires j < |ids| && |ids| - j <= |c.slots|
    ensures MarkAll(c, ids).slots[(c.index + j) % |c.slots|] == Truncate(ids[j], RequestIdMax)
  {
    var n := |c.slots|;
    var front := ids[..|ids| - 1];
    MarkAllCounters(c, front);
    var p := MarkAll(c, front);
    assert MarkAll(c, ids) == MarkStep(p, Some(ids[|ids| - 1]));
    if j < |ids| - 1 {
      // slot j was written fewer than n steps ago, so the last write went
      // to a different slot
      ModDistinct(c.index + j, |ids| - 1 - j, n);
      MarkAllPlacement(c, front, j);
      assert front[j] == ids[j];
    }
  }

  /** After `size` further non-empty ids the cache holds only those: an id
      that is none of them (cut to 36 characters) is no longer reported. */
  lemma {:induction false} OldIdsEvicted(c: DedupeCache, ids: seq<string>, old_id: string)
    requires ValidCache(c)
    requires |ids| == |c.slots|
    requires forall j | 0 <= j < |ids| :: ids[j] != ""
    requires forall j | 0 <= j < |ids| :: Truncate(ids[j], RequestIdMax) != old_id
    ensures !Seen(MarkAll(c, ids), Some(old_id))
  {
    var n := |c.slots|;
    var d := MarkAll(c, ids);
    forall k | 0 <= k < n
      ensures d.slots[k] != old_id
    {
      var j := (k - c.index) % n;
      ShiftBack(c.index, k, n);
      MarkAllPlacement(c, ids, j);
    }
  }

  lemma ShiftBack(i: nat, k: nat, n: nat)
    requires i < n && k < n
    ensures (i + (k - i) % n) % n == k
  {
    if k >= i {
      ModUnique(k - i, 0, k - i, n);
      ModUnique(k, 0, k, n);
    } else {
      ModShift(k - i, n);
      ModUnique(k - i + n, 0, k - i + n, n);
      ModUnique(k + n, 1, k, n);
    }
  }

  class GateControl {
    const cooldownMs: U32
    const dedupeCache: array<string>
    var lastOpenAtMs: U32
    var dedupeCacheIndex: U8
    var dedupeCacheCount: U8

    ghost function Cache(): DedupeCache
      reads this, dedupeCache
    {
      DedupeCache(dedupeCache[..], dedupeCacheIndex, dedupeCacheCount)
    }

    ghost predicate Valid()
      reads this, dedupeCache
    {
      ValidCache(Cache())
    }

    constructor (cacheSize: nat, cooldownMs: U32)
      requires 0 < cacheSize <= 255
      ensures Valid() && fresh(dedupeCache)
      ensures this.cooldownMs == cooldownMs && Cache() == EmptyCache(cacheSize)
      ensures lastOpenAtMs == 0
    {
      this.cooldownMs := cooldownMs;
      dedupeCache := new string[cacheSize](_ => "");
      lastOpenAtMs := 0;
      dedupeCacheIndex := 0;
      dedupeCacheCount := 0;
    }

    method Init()
      requires Valid()
      modifies this, dedupeCache
      ensures Valid() && lastOpenAtMs == 0
      ensures Cache() == EmptyCache(dedupeCache.Length)
    {
      lastOpenAtMs := 0;
      dedupeCacheIndex := 0;
      dedupeCacheCount := 0;
      var i := 0;
      while i < dedupeCache.Length
        modifies dedupeCache
        invariant 0 <= i <= dedupeCache.Length
        invariant forall k | 0 <= k < i :: dedupeCache[k] == ""
      {
        dedupeCache[i] := "";
        i := i + 1;
      }
      assert dedupeCache[..] == seq(dedupeCache.Length, _ => "");
    }

    /** Whether the gate may open at `nowMs`, and if not how much of the
        cooldown remains. Changes nothing. */
    method CanExecuteNow(nowMs: U32) returns (ok: bool, remainingMs: U32)
      ensures lastOpenAtMs == 0 ==> ok && remainingMs == 0
      ensures lastOpenAtMs != 0 ==> (ok <==> Elapsed(nowMs, lastOpenAtMs) >= cooldownMs)
      ensures ok ==> remainingMs == 0
      ensures !ok ==> remainingMs == cooldownMs - Elapsed(nowMs, lastOpenAtMs)
                      && 1 <= remainingMs <= cooldownMs
    {
      if lastOpenAtMs == 0 {
        return true, 0;
      }
      var elapsed := Elapsed(nowMs, lastOpenAtMs);
      if elapsed >= cooldownMs {
        return true, 0;
      }
      return false, cooldownMs - elapsed;
    }

    method RecordOpen(nowMs: U32)
      modifies this
      ensures lastOpenAtMs == nowMs
      ensures dedupeCacheIndex == old(dedupeCacheIndex) && dedupeCacheCount == old(dedupeCacheCount)
    {
      lastOpenAtMs := nowMs;
    }

    /** Scans the slots written so far for the id. */
    method WasProcessed(requestId: Option<string>) returns (r: bool)
      requires Valid()
      ensures r == Seen(Cache(), requestId)
    {
      if requestId == None || requestId.value == "" {
        return false;
      }
      var entriesToCheck := if dedupeCacheCount < dedupeCache.Length then dedupeCacheCount else dedupeCache.Length;
      var i := 0;
      while i < entriesToCheck
        invariant 0 <= i <= entriesToCheck
        invariant forall k | 0 <= k < i :: dedupeCache[k] != requestId.value
      {
        if dedupeCache[i] == requestId.value {
          return true;
        }
        i := i + 1;
      }
      return false;
    }

    method MarkProcessed(requestId: Option<string>)
      requires Valid()
      modifies this, dedupeCache
      ensures Valid() && lastOpenAtMs == old(lastOpenAtMs)
      ensures Cache() == MarkStep(old(Cache()), requestId)
    {
      if requestId == None || requestId.value == "" {
        return;
      }
      ghost var c := Cache();
      dedupeCache[dedupeCacheIndex] := Truncate(requestId.value, RequestIdMax);
      assert dedupeCache[..] == c.slots[c.index := Truncate(requestId.value, RequestIdMax)];
      dedupeCacheIndex := (dedupeCacheIndex + 1) % dedupeCache.Length;
      if dedupeCacheCount < dedupeCache.Length {
        dedupeCacheCount := dedupeCacheCount + 1;
      }
      assert Cache() == MarkStep(c, requestId);
    }
  }
}
