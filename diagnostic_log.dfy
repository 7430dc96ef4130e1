/** The device's diagnostic log: a fixed ring of entries, read oldest
    first for upload, trimmed after an upload, and persisted as a count plus
    an oldest-first image. `DIAGNOSTIC_LOG_MAX_ENTRIES` is a build constant
    this model takes as the array's length (1 to 255, as the head and count
    are `uint8_t`). */
module Diag {
  import opened Config
  import opened Wrappers

  /** `DIAG_EVENT_LEN` and `DIAG_MESSAGE_LEN`: buffer sizes including the NUL. */
  const DiagEventLen: nat := 20
  const DiagMessageLen: nat := 32

  datatype Level = Info | Warn | Error

  datatype Entry = Entry(ts: U32, level: Level, event: string, message: string)

  /** An all-zero entry, as `memset` leaves one. */
  const ZeroEntry: Entry := Entry(0, Info, "", "")

  /** The ring as a value: the slots, the next slot to write and the number
      of live entries. */
  datatype LogValue = LogValue(slots: seq<Entry>, head: nat, count: nat)

  ghost predicate ValidLog(v: LogValue)
  {
    0 < |v.slots| <= 255 && v.head < |v.slots| && v.count <= |v.slots|
  }

  /** Where the `i`-th oldest live entry sits. */
  function Pos(v: LogValue, i: nat): (p: nat)
    requires ValidLog(v)
    ensures p < |v.slots|
  {
    (v.head + |v.slots| - v.count + i) % |v.slots|
  }

  /** The live entries, oldest first. */
  ghost function View(v: LogValue): (s: seq<Entry>)
    requires ValidLog(v)
    ensures |s| == v.count
  {
    seq(v.count, i requires 0 <= i < v.count => v.slots[Pos(v, i)])
  }

  function EmptyLog(size: nat): (v: LogValue)
    requires 0 < size <= 255
    ensures ValidLog(v) && |v.slots| == size && v.head == 0 && v.count == 0
  {
    LogValue(seq(size, _ => ZeroEntry), 0, 0)
  }

  /** The entry `append` builds: event cut to 19 characters, message to 31,
      a null message stored as empty. */
  function MakeEntry(now: U32, level: Level, event: string, message: Option<string>): (e: Entry)
    ensures |e.event| <= DiagEventLen - 1 && e.event <= event
    ensures |e.message| <= DiagMessageLen - 1
    ensures message == None ==> e.message == ""
    ensures message != None ==> e.message <= message.value
    ensures e.ts == now && e.level == level
  {
    Entry(now, level, Truncate(event, DiagEventLen - 1),
          match message case None => "" case Some(m) => Truncate(m, DiagMessageLen - 1))
  }

  function LogAppend(v: LogValue, e: Entry): (w: LogValue)
    requires ValidLog(v)
    ensures ValidLog(w) && |w.slots| == |v.slots|
    ensures w.count == Min(v.count + 1, |v.slots|)
  {
    LogValue(v.slots[v.head := e], (v.head + 1) % |v.slots|,
             if v.count < |v.slots| then v.count + 1 else v.count)
  }

  /** `append` adds the entry as the newest; when the log is full the
      oldest entry is dropped. */
  lemma AppendView(v: LogValue, e: Entry)
    requires ValidLog(v)
    ensures v.count < |v.slots| ==> View(LogAppend(v, e)) == View(v) + [e]
    ensures v.count == |v.slots| ==> View(LogAppend(v, e)) == View(v)[1..] + [e]
  {
    var n := |v.slots|;
    var w := LogAppend(v, e);
    var c := v.count;
    var h := v.head;
    ModUnique(h, 0, h, n);
    if c < n {
      forall i | 0 <= i <= c
        ensures Pos(w, i) == (h + n - c + i) % n
      {
        ModAdd(h + 1, n - c - 1 + i, n);
      }
      forall i | 0 <= i < c
        ensures View(w)[i] == View(v)[i]
      {
        ModDistinct(h, n - (c - i), n);
      }
      ModShift(h, n);
      assert View(w) == View(v) + [e];
    } else {
      forall i | 0 <= i < n
        ensures Pos(w, i) == (h + 1 + i) % n
      {
        ModAdd(h + 1, i, n);
      }
      forall i | 0 <= i < n - 1
        ensures View(w)[i] == View(v)[i + 1]
      {
        ModDistinct(h, i + 1, n);
      }
      ModShift(h, n);
      assert View(w) == View(v)[1..] + [e];
    }
  }

  /** `removeFirst(n)`: at least `count` removals empty the log (and zero
      it, as `clear` does); fewer keep the newer entries in order. */
  function LogRemoveFirst(v: LogValue, k: nat): (w: LogValue)
    requires ValidLog(v)
    ensures ValidLog(w) && |w.slots| == |v.slots|
    ensures k >= v.count ==> w == EmptyLog(|v.slots|)
    ensures k < v.count ==> w.count == v.count - k && w.head == v.head
  {
    if k >= v.count then EmptyLog(|v.slots|) else v.(count := v.count - k)
  }

  lemma RemoveFirstView(v: LogValue, k: nat)
    requires ValidLog(v)
    ensures k >= v.count ==> View(LogRemoveFirst(v, k)) == []
    ensures k < v.count ==> View(LogRemoveFirst(v, k)) == View(v)[k..]
  {
    if k < v.count {
      var w := LogRemoveFirst(v, k);
      forall i | 0 <= i < w.count
        ensures View(w)[i] == View(v)[k + i]
      {
        assert Pos(w, i) == Pos(v, k + i);
      }
    }
  }

  /** The counters `load()` restores, as written: `head_` is set to the
      count, which equals the size when the stored log was full. */
  function LoadCountersAsWritten(storedCount: U8, size: nat): (r: (nat, nat))
    requires 0 < size <= 255
    ensures r.0 == Min(storedCount, size) && r.1 == r.0
  {
    var count := if storedCount > size then size else storedCount;
    (count, count)
  }

  /** From a full stored log, `load()` leaves the head one past the last
      slot, so the next `append` writes outside the ring. */
  lemma LoadAsWrittenOverrunsWhenFull(storedCount: U8, size: nat)
    requires 0 < size <= 255 && storedCount >= size
    ensures LoadCountersAsWritten(storedCount, size).1 == size
    ensures !ValidLog(LogValue(seq(size, _ => ZeroEntry), LoadCountersAsWritten(storedCount, size).1,
                               LoadCountersAsWritten(storedCount, size).0))
  {
  }

  /** The counters with the head wrapped into the ring, as the append
      arithmetic `(head + 1) % size` assumes. */
  function LoadCounters(storedCount: U8, size: nat): (r: (nat, nat))
    requires 0 < size <= 255
    ensures r.0 == Min(storedCount, size) && r.1 < size
    ensures r.0 < size ==> r.1 == r.0
  {
    var count := if storedCount > size then size else storedCount;
    (count, count % size)
  }

  /** The log `load()` rebuilds: the stored entries, oldest first, in the
      first slots. */
  function Loaded(slots: seq<Entry>, storedCount: U8, stored: seq<Entry>): (v: LogValue)
    requires 0 < |slots| <= 255
    requires |stored| >= Min(storedCount, |slots|)
    ensures ValidLog(v) && |v.slots| == |slots|
  {
    var (count, head) := LoadCounters(storedCount, |slots|);
    LogValue(stored[..count] + slots[count..], head, count)
  }

  /** With the head wrapped, a loaded log reads back exactly the stored
      entries, oldest first; `AppendView` then applies to it as to any log. */
  lemma LoadedView(slots: seq<Entry>, storedCount: U8, stored: seq<Entry>)
    requires 0 < |slots| <= 255
    requires |stored| >= Min(storedCount, |slots|)
    ensures View(Loaded(slots, storedCount, stored)) == stored[..Min(storedCount, |slots|)]
  {
    var n := |slots|;
    var count := Min(storedCount, n);
    var v := Loaded(slots, storedCount, stored);
    assert v.count == count && v.head == count % n;
    assert v.slots == stored[..count] + slots[count..];
    forall i | 0 <= i < count
      ensures View(v)[i] == stored[i]
    {
      if count < n {
        ModUnique(count, 0, count, n);
        ModUnique(n + i, 1, i, n);
      } else {
        ModUnique(n, 1, 0, n);
        ModUnique(i, 0, i, n);
      }
      assert Pos(v, i) == i;
    }
  }

  class DiagnosticLog {
    const entries: array<Entry>
    var count: U8
    var head: U8

    ghost function Value(): LogValue
      reads this, entries
    {
      LogValue(entries[..], head, count)
    }

    ghost predicate Valid()
      reads this, entries
    {
      ValidLog(Value())
    }

    /** The live entries, oldest first. */
    ghost function Contents(): seq<Entry>
      reads this, entries
      requires Valid()
    {
      View(Value())
    }

    /** Zeroes the ring, then restores what non-volatile storage holds:
        `nvsOpened` says whether the namespace could be opened, and
        `storedCount` and `stored` are the saved count and image. */
    constructor (maxEntries: nat, nvsOpened: bool, storedCount: U8, stored: seq<Entry>)
      requires 0 < maxEntries <= 255
      requires |stored| >= Min(storedCount, maxEntries)
      ensures Valid() && fresh(entries) && entries.Length == maxEntries
      ensures !nvsOpened ==> Value() == EmptyLog(maxEntries)
      ensures nvsOpened ==> Value() == Loaded(seq(maxEntries, _ => ZeroEntry), storedCount, stored)
    {
      entries := new Entry[maxEntries](_ => ZeroEntry);
      count := 0;
      head := 0;
      new;
      Load(nvsOpened, storedCount, stored);
    }

    method Append(level: Level, event: Option<string>, message: Option<string>, now: U32)
      requires Valid()
      modifies this, entries
      ensures Valid()
      ensures event == None ==> Value() == old(Value())
      ensures event != None ==>
        Value() == LogAppend(old(Value()), MakeEntry(now, level, event.value, message))
    {
      if event == None {
        return;
      }
      var e := MakeEntry(now, level, event.value, message);
      entries[head] := e;
      head := (head + 1) % entries.Length;
      if count < entries.Length {
        count := count + 1;
      }
    }

    method GetEntryCount() returns (n: nat)
      ensures n == count
    {
      n := count;
    }

    /** Copies the `index`-th oldest entry into the caller's buffers of
        `eventLen` and `messageLen` bytes; the `has…` flags say which output
        pointers are non-null. */
    method GetEntry(index: nat, hasTs: bool, hasLevel: bool, hasEvent: bool, eventLen: nat,
                    hasMessage: bool, messageLen: nat)
      returns (ok: bool, e: Entry)
      requires Valid()
      requires index < count && hasTs && hasLevel && hasEvent && hasMessage ==> eventLen > 0 && messageLen > 0
      ensures ok <==> index < count && hasTs && hasLevel && hasEvent && hasMessage
      ensures ok ==>
        var x := Contents()[index];
        e == Entry(x.ts, x.level, Truncate(x.event, eventLen - 1), Truncate(x.message, messageLen - 1))
    {
      if index >= count as nat || !hasTs || !hasLevel || !hasEvent || !hasMessage {
        return false, ZeroEntry;
      }
      var pos := (head + entries.Length - count + index) % entries.Length;
      var x := entries[pos];
      e := Entry(x.ts, x.level, Truncate(x.event, eventLen - 1), Truncate(x.message, messageLen - 1));
      ok := true;
    }

    method Clear()
      requires Valid()
      modifies this, entries
      ensures Valid() && Value() == EmptyLog(entries.Length)
    {
      count := 0;
      head := 0;
      var i := 0;
      while i < entries.Length
        modifies entries
        invariant 0 <= i <= entries.Length
        invariant forall k | 0 <= k < i :: entries[k] == ZeroEntry
      {
        entries[i] := ZeroEntry;
        i := i + 1;
      }
      assert entries[..] == seq(entries.Length, _ => ZeroEntry);
    }

    method RemoveFirst(n: nat)
      requires Valid()
      modifies this, entries
      ensures Valid() && Value() == LogRemoveFirst(old(Value()), n)
    {
      if n >= count as nat {
        Clear();
        return;
      }
      count := count - n;
    }

    method HasEntries() returns (r: bool)
      ensures r <==> count > 0
    {
      r := count > 0;
    }

    /** Restores the ring from non-volatile storage, wrapping the head. */
    method Load(nvsOpened: bool, storedCount: U8, stored: seq<Entry>)
      requires Valid()
      requires |stored| >= Min(storedCount, entries.Length)
      modifies this, entries
      ensures Valid()
      ensures !nvsOpened ==> Value() == old(Value())
      ensures nvsOpened ==> Value() == Loaded(old(entries[..]), storedCount, stored)
    {
      if !nvsOpened {
        return;
      }
      count := storedCount;
      if count > entries.Length {
        count := entries.Length;
      }
      var i := 0;
      while i < count
        modifies entries
        invariant 0 <= i <= count
        invariant forall k | 0 <= k < i :: entries[k] == stored[k]
        invariant forall k | i <= k < entries.Length :: entries[k] == old(entries[k])
      {
        entries[i] := stored[i];
        i := i + 1;
      }
      head := count % entries.Length;
      assert entries[..] == stored[..count] + old(entries[..])[count..];
    }

    /** The image `save()` writes: the count and the live entries, oldest
        first. Writing it to storage is outside this model. */
    method SaveImage() returns (countByte: U8, image: seq<Entry>)
      requires Valid()
      ensures countByte == count && image == Contents()
    {
      countByte := count;
      image := [];
      var i := 0;
      while i < count
        invariant 0 <= i <= count
        invariant image == Contents()[..i]
      {
        var pos := (head + entries.Length - count + i) % entries.Length;
        image := image + [entries[pos]];
        i := i + 1;
      }
    }
  }
}
