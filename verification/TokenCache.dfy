// TokenCache: liveTokens of collector/src/auth.ts, which reads the token file
// through a cache of at most a second keyed by the file's mtime, while other
// processes replace the file.

module TokenCache {
  import opened Text
  import opened Tokens

  /** The clock, and the file with its mtime, at one instant; no file has mtime -1. */
  datatype Instant = Instant(clock: int, file: File, mtime: int)

  type History = seq<Instant>

  /** One call: the instants at which it reads the clock, stats the file and would read it. */
  datatype Call = Call(clock: nat, stat: nat, read: nat)

  datatype Cache = Cache(mtime: int, checkedAt: int, data: seq<Record>)

  predicate During(h: History, c: Call) {
    c.clock <= c.stat <= c.read < |h|
  }

  /** The cache after a call, and with it what the call served: the cache's data. */
  function Serve(cache: Option<Cache>, h: History, c: Call): Cache
    requires During(h, c)
  {
    var now := h[c.clock].clock;
    if cache.Some? && now - cache.value.checkedAt < 1000 then cache.value
    else if cache.Some? && cache.value.mtime == h[c.stat].mtime then cache.value.(checkedAt := now)
    else Cache(h[c.stat].mtime, now, Table(h[c.read].file))
  }

  /** The collector makes its calls one after another. */
  predicate InOrder(h: History, calls: seq<Call>) {
    (forall i :: 0 <= i < |calls| ==> During(h, calls[i])) &&
    forall i, j :: 0 <= i < j < |calls| ==> calls[i].read <= calls[j].clock
  }

  function AfterCalls(h: History, calls: seq<Call>): Option<Cache>
    requires InOrder(h, calls)
  {
    if calls == [] then None
    else Some(Serve(AfterCalls(h, calls[..|calls| - 1]), h, calls[|calls| - 1]))
  }

  predicate MonotoneClock(h: History) {
    forall i, j :: 0 <= i <= j < |h| ==> h[i].clock <= h[j].clock
  }

  /** A failed stat, recorded as -1, is how a missing file is known. */
  predicate StatsTell(h: History) {
    forall i :: 0 <= i < |h| ==> (h[i].mtime == -1 <==> h[i].file.Missing?)
  }

  /** The mtime of a file that is there, seen twice, means it did not change between. */
  predicate EachWriteNewMtime(h: History) {
    forall i, j, k :: 0 <= i <= j <= k < |h| && h[i].mtime == h[k].mtime != -1 ==> h[j].file == h[i].file
  }

  /** When the stat finds no file, there is none for the read either, or nothing in it. */
  predicate NoFileAppears(h: History, c: Call)
    requires During(h, c)
  {
    h[c.stat].mtime == -1 ==> Table(h[c.read].file) == []
  }

  /** What the file system and the clock must do for the cache to keep its promise. */
  predicate WellBehaved(h: History, calls: seq<Call>)
    requires InOrder(h, calls)
  {
    MonotoneClock(h) && StatsTell(h) && EachWriteNewMtime(h) &&
    forall i :: 0 <= i < |calls| ==> NoFileAppears(h, calls[i])
  }

  /** data was the file's content at an instant no earlier than the time t and no later than the instant upTo. */
  predicate ContentSince(h: History, data: seq<Record>, t: int, upTo: nat) {
    exists v :: 0 <= v <= upTo && v < |h| && t <= h[v].clock && data == Table(h[v].file)
  }

  /** The cache's mtime was seen, and its data read no earlier; with no mtime there is no data. */
  predicate Gathered(h: History, cache: Cache, upTo: nat) {
    (cache.mtime == -1 ==> cache.data == []) &&
    exists s, r :: 0 <= s <= r <= upTo && r < |h| && h[s].mtime == cache.mtime && cache.data == Table(h[r].file)
  }

  predicate Sound(h: History, cache: Option<Cache>, upTo: nat) {
    cache.Some? ==> ContentSince(h, cache.value.data, cache.value.checkedAt, upTo) && Gathered(h, cache.value, upTo)
  }

  lemma SoundLater(h: History, cache: Option<Cache>, upTo: nat, later: nat)
    requires Sound(h, cache, upTo) && upTo <= later
    ensures Sound(h, cache, later)
  {
    if cache.Some? {
      var c := cache.value;
      var v :| 0 <= v <= upTo && v < |h| && c.checkedAt <= h[v].clock && c.data == Table(h[v].file);
      assert v <= later;
      var s, r :| 0 <= s <= r <= upTo && r < |h| && h[s].mtime == c.mtime && c.data == Table(h[r].file);
      assert r <= later;
    }
  }

  /** The same mtime again: what was read under it is what the file holds now, even if a write fell between stat and read. */
  lemma SameMtimeSameContent(h: History, cache: Cache, upTo: nat, stat: nat)
    requires EachWriteNewMtime(h) && StatsTell(h)
    requires Gathered(h, cache, upTo) && upTo <= stat < |h| && cache.mtime == h[stat].mtime
    ensures cache.data == Table(h[stat].file)
  {
    var s, r :| 0 <= s <= r <= upTo && r < |h| && h[s].mtime == cache.mtime && cache.data == Table(h[r].file);
    if cache.mtime != -1 { assert h[r].file == h[s].file && h[stat].file == h[s].file; }
  }

  lemma OneCall(h: History, cache: Option<Cache>, upTo: nat, c: Call)
    requires MonotoneClock(h) && StatsTell(h) && EachWriteNewMtime(h) && During(h, c) && NoFileAppears(h, c)
    requires upTo <= c.clock && Sound(h, cache, upTo)
    ensures Sound(h, Some(Serve(cache, h, c)), c.read)
    ensures Serve(cache, h, c).checkedAt > h[c.clock].clock - 1000
  {
    hide Table, EachWriteNewMtime, StatsTell;
    var now := h[c.clock].clock;
    var c' := Serve(cache, h, c);
    SoundLater(h, cache, upTo, c.read);
    if cache.Some? && now - cache.value.checkedAt < 1000 {
    } else if cache.Some? && cache.value.mtime == h[c.stat].mtime {
      SameMtimeSameContent(h, cache.value, upTo, c.stat);
      assert now <= h[c.stat].clock;
      assert ContentSince(h, c'.data, now, c.read);
      var s, r :| 0 <= s <= r <= c.read && r < |h| && h[s].mtime == cache.value.mtime && c'.data == Table(h[r].file);
      assert Gathered(h, c', c.read);
    } else {
      assert now <= h[c.read].clock && c'.data == Table(h[c.read].file) && h[c.stat].mtime == c'.mtime;
    }
  }

  lemma FrontInOrder(h: History, calls: seq<Call>)
    requires InOrder(h, calls) && calls != []
    ensures InOrder(h, calls[..|calls| - 1])
    ensures WellBehaved(h, calls) ==> WellBehaved(h, calls[..|calls| - 1]) && NoFileAppears(h, calls[|calls| - 1])
    ensures |calls| > 1 ==> calls[|calls| - 2].read <= calls[|calls| - 1].clock
  {
  }

  lemma {:induction false} CallsKeepSound(h: History, calls: seq<Call>)
    requires InOrder(h, calls) && WellBehaved(h, calls)
    ensures Sound(h, AfterCalls(h, calls), if calls == [] then 0 else calls[|calls| - 1].read)
  {
    hide Sound, Serve, EachWriteNewMtime, StatsTell, MonotoneClock, NoFileAppears;
    if calls == [] {
      NothingCached(h);
    } else {
      var front := calls[..|calls| - 1];
      FrontInOrder(h, calls);
      CallsKeepSound(h, front);
      OneCall(h, AfterCalls(h, front), if front == [] then 0 else front[|front| - 1].read, calls[|calls| - 1]);
    }
  }

  lemma NothingCached(h: History)
    ensures Sound(h, None, 0)
  {
  }

  /** What the last of a run of calls serves. */
  function Served(h: History, calls: seq<Call>): seq<Record>
    requires InOrder(h, calls) && calls != []
  {
    AfterCalls(h, calls).value.data
  }

  /**
   * Whatever the calls and however the file is replaced meanwhile, even between
   * a call's stat and its read, and removed and made again: with a clock that
   * does not go back, an mtime that no two contents share, and no file appearing
   * between a stat that found none and its read, a call serves what the file
   * held - nothing, if it was missing or corrupt - at some instant less than a
   * second before it.
   */
  lemma ServedIsUnderASecondOld(h: History, calls: seq<Call>)
    requires InOrder(h, calls) && calls != [] && WellBehaved(h, calls)
    ensures var c := calls[|calls| - 1];
      exists v :: 0 <= v <= c.read && h[c.clock].clock - 1000 < h[v].clock && Served(h, calls) == Table(h[v].file)
  {
    hide Serve, Table, EachWriteNewMtime, StatsTell, MonotoneClock, NoFileAppears;
    var front, c := calls[..|calls| - 1], calls[|calls| - 1];
    FrontInOrder(h, calls);
    CallsKeepSound(h, front);
    OneCall(h, AfterCalls(h, front), if front == [] then 0 else front[|front| - 1].read, c);
    var cache := AfterCalls(h, calls).value;
    assert ContentSince(h, cache.data, cache.checkedAt, c.read);
  }

  /** So a token refused by every content from some instant on is refused by every call a second or more later. */
  lemma RevocationHoldsWithinASecond(h: History, calls: seq<Call>, token: string, from: nat, now: int)
    requires InOrder(h, calls) && calls != [] && WellBehaved(h, calls)
    requires from < |h| && h[from].clock + 1000 <= h[calls[|calls| - 1].clock].clock
    requires forall v :: from <= v < |h| ==> Lookup(Table(h[v].file), token, now).None?
    ensures Lookup(Served(h, calls), token, now).None?
  {
    hide Serve, Table, EachWriteNewMtime, StatsTell, NoFileAppears, AfterCalls, Lookup;
    ServedIsUnderASecondOld(h, calls);
    var c := calls[|calls| - 1];
    var v :| 0 <= v <= c.read && h[c.clock].clock - 1000 < h[v].clock && Served(h, calls) == Table(h[v].file);
    assert v >= from;
  }

  // ---- how often the file is looked at ---------------------------------------

  /** The cache the j-th call finds. */
  function Before(h: History, calls: seq<Call>, j: nat): Option<Cache>
    requires InOrder(h, calls) && j <= |calls|
  {
    AfterCalls(h, calls[..j])
  }

  /** The j-th call stats the file. */
  predicate Stats(h: History, calls: seq<Call>, j: nat)
    requires InOrder(h, calls) && j < |calls|
  {
    var cache := Before(h, calls, j);
    cache.None? || h[calls[j].clock].clock - cache.value.checkedAt >= 1000
  }

  /** The j-th call reads the file. */
  predicate Reads(h: History, calls: seq<Call>, j: nat)
    requires InOrder(h, calls) && j < |calls|
  {
    var cache := Before(h, calls, j);
    Stats(h, calls, j) && (cache.None? || cache.value.mtime != h[calls[j].stat].mtime)
  }

  lemma OneMoreCall(h: History, calls: seq<Call>, j: nat)
    requires InOrder(h, calls) && j < |calls|
    ensures InOrder(h, calls[..j]) && InOrder(h, calls[..j + 1])
    ensures Before(h, calls, j + 1) == Some(Serve(Before(h, calls, j), h, calls[j]))
  {
    hide Serve;
    assert calls[..j + 1][..j] == calls[..j];
  }

  /** From a call that stats, the cache's time is no earlier than that call's, whatever the clock does. */
  lemma {:induction false} CheckedSince(h: History, calls: seq<Call>, i: nat, j: nat)
    requires InOrder(h, calls) && i < j <= |calls| && Stats(h, calls, i)
    ensures var cache := Before(h, calls, j); cache.Some? && cache.value.checkedAt >= h[calls[i].clock].clock
  {
    hide Before;
    OneMoreCall(h, calls, j - 1);
    if i < j - 1 { CheckedSince(h, calls, i, j - 1); }
  }

  /**
   * The file is statted at most once a second: two calls that do so read clocks a
   * second or more apart, even if the clock is set back between them.
   */
  lemma StatsAreASecondApart(h: History, calls: seq<Call>, i: nat, j: nat)
    requires InOrder(h, calls) && i < j < |calls| && Stats(h, calls, i) && Stats(h, calls, j)
    ensures h[calls[i].clock].clock + 1000 <= h[calls[j].clock].clock
  {
    hide Before;
    CheckedSince(h, calls, i, j);
  }

  /** i is the last call before j that reads the file. */
  predicate IsLastRead(h: History, calls: seq<Call>, i: nat, j: nat)
    requires InOrder(h, calls) && j <= |calls|
  {
    i < j && Reads(h, calls, i) && forall k :: i < k < j ==> !Reads(h, calls, k)
  }

  /** The cache is what the last reading call left, but for its time. */
  lemma {:induction false} CacheIsTheLastRead(h: History, calls: seq<Call>, j: nat) returns (i: nat)
    requires InOrder(h, calls) && 0 < j <= |calls|
    ensures IsLastRead(h, calls, i, j)
    ensures var cache := Before(h, calls, j);
      cache.Some? && cache.value.mtime == h[calls[i].stat].mtime && cache.value.data == Table(h[calls[i].read].file)
  {
    hide Before, Table;
    OneMoreCall(h, calls, j - 1);
    if Reads(h, calls, j - 1) {
      i := j - 1;
    } else {
      if j == 1 { NothingBefore(h, calls); }
      i := CacheIsTheLastRead(h, calls, j - 1);
    }
  }

  lemma NothingBefore(h: History, calls: seq<Call>)
    requires InOrder(h, calls)
    ensures Before(h, calls, 0).None?
    ensures calls != [] ==> Reads(h, calls, 0)
  {
  }

  lemma OneLastRead(h: History, calls: seq<Call>, a: nat, b: nat, j: nat)
    requires InOrder(h, calls) && j <= |calls| && IsLastRead(h, calls, a, j) && IsLastRead(h, calls, b, j)
    ensures a == b
  {
    hide Reads;
  }

  /**
   * The file is read only when it changed: after the first call, which reads, a
   * call that stats reads exactly when it finds another mtime than the last call
   * that read, and a call that does not read serves what that one read.
   */
  lemma ReadsExactlyWhenChanged(h: History, calls: seq<Call>, i: nat, j: nat)
    requires InOrder(h, calls) && j < |calls| && IsLastRead(h, calls, i, j)
    ensures Reads(h, calls, 0)
    ensures Reads(h, calls, j) <==> Stats(h, calls, j) && h[calls[i].stat].mtime != h[calls[j].stat].mtime
    ensures var read := if Reads(h, calls, j) then j else i;
      Before(h, calls, j + 1).Some? && Before(h, calls, j + 1).value.data == Table(h[calls[read].read].file)
  {
    hide Before, Table, IsLastRead;
    NothingBefore(h, calls);
    OneMoreCall(h, calls, j);
    ReadIsEarlier(h, calls, i, j);
    var last := CacheIsTheLastRead(h, calls, j);
    OneLastRead(h, calls, i, last, j);
  }

  lemma ReadIsEarlier(h: History, calls: seq<Call>, i: nat, j: nat)
    requires InOrder(h, calls) && j <= |calls| && IsLastRead(h, calls, i, j)
    ensures i < j
  {
  }

  /** A write that keeps the mtime is never seen: the table served stays the old one for as long as one likes. */
  lemma AWriteWithTheSameMtimeIsMissed(before: File, now: File, mtime: nat, later: nat)
    requires !before.Missing? && !now.Missing? && Table(before) != Table(now) && later >= 1000
    ensures var h := [Instant(0, before, mtime), Instant(later, now, mtime)];
      var calls := [Call(0, 0, 0), Call(1, 1, 1)];
      InOrder(h, calls) && MonotoneClock(h) && StatsTell(h) && NoFileAppears(h, calls[0]) && NoFileAppears(h, calls[1]) &&
      !EachWriteNewMtime(h) && Served(h, calls) == Table(before) != Table(h[1].file)
  {
    var h := [Instant(0, before, mtime), Instant(later, now, mtime)];
    var calls := [Call(0, 0, 0), Call(1, 1, 1)];
    assert calls[..1] == [Call(0, 0, 0)];
    assert calls[..1][..0] == [];
    assert AfterCalls(h, calls[..1]) == Some(Cache(mtime, 0, Table(before)));
    assert h[0].mtime == h[1].mtime != -1 && h[0].file != h[1].file;
  }

  /** A file made between a stat that finds none and the read, then removed again, is served although there is none. */
  lemma ARemovedFileIsServed(records: seq<Record>, later: nat)
    requires records != [] && later >= 1000
    ensures var h := [Instant(0, Missing, -1), Instant(0, Holding(records), 7), Instant(later, Missing, -1)];
      var calls := [Call(0, 0, 1), Call(2, 2, 2)];
      InOrder(h, calls) && MonotoneClock(h) && StatsTell(h) && EachWriteNewMtime(h) && NoFileAppears(h, calls[1]) &&
      !NoFileAppears(h, calls[0]) && Served(h, calls) == records != Table(h[2].file)
  {
    var h := [Instant(0, Missing, -1), Instant(0, Holding(records), 7), Instant(later, Missing, -1)];
    var calls := [Call(0, 0, 1), Call(2, 2, 2)];
    assert calls[..1] == [Call(0, 0, 1)];
    assert calls[..1][..0] == [];
    assert AfterCalls(h, calls[..1]) == Some(Cache(-1, 0, records));
  }

  /** A clock set back keeps a cache in use until it has caught up, with the file long since changed. */
  lemma AClockSetBackKeepsTheCache(before: File, now: File, back: nat)
    requires !before.Missing? && !now.Missing? && Table(before) != Table(now) && back >= 1
    ensures var h := [Instant(back, before, 1), Instant(0, now, 2), Instant(back + 999, now, 2)];
      var calls := [Call(0, 0, 0), Call(2, 2, 2)];
      InOrder(h, calls) && StatsTell(h) && EachWriteNewMtime(h) && NoFileAppears(h, calls[0]) && NoFileAppears(h, calls[1]) &&
      !MonotoneClock(h) && Served(h, calls) == Table(before) != Table(h[2].file)
  {
    var h := [Instant(back, before, 1), Instant(0, now, 2), Instant(back + 999, now, 2)];
    var calls := [Call(0, 0, 0), Call(2, 2, 2)];
    assert h[0].clock > h[1].clock;
    assert calls[..1] == [Call(0, 0, 0)];
    assert calls[..1][..0] == [];
    assert AfterCalls(h, calls[..1]) == Some(Cache(1, back, Table(before)));
  }

  class TokenReader {
    var cache: Option<Cache>

    constructor ()
      ensures cache == None
    {
      cache := None;
    }

    method LiveTokens(h: History, c: Call) returns (data: seq<Record>)
      requires During(h, c)
      modifies this
      ensures cache == Some(Serve(old(cache), h, c)) && data == cache.value.data
    {
      var now := h[c.clock].clock;
      if cache.Some? && now - cache.value.checkedAt < 1000 { return cache.value.data; }
      var mtime := h[c.stat].mtime;
      if cache.Some? && cache.value.mtime == mtime {
        cache := Some(cache.value.(checkedAt := now));
        return cache.value.data;
      }
      data := [];
      if h[c.read].file.Holding? { data := h[c.read].file.records; }
      cache := Some(Cache(mtime, now, data));
    }

    /** lookup reads the clock itself, before it asks for the tokens. */
    method LookUp(h: History, at: nat, c: Call, token: string) returns (r: Option<Record>)
      requires During(h, c) && at <= c.clock
      modifies this
      ensures cache == Some(Serve(old(cache), h, c))
      ensures r == Lookup(cache.value.data, token, h[at].clock)
    {
      var now := h[at].clock;
      var tokens := LiveTokens(h, c);
      for i := 0 to |tokens|
        invariant Lookup(tokens, token, now) == Lookup(tokens[i..], token, now)
      {
        assert tokens[i..][1..] == tokens[i + 1..];
        if tokens[i].hash != Sha256(token) { continue; }
        if !IsLive(tokens[i]) { return None; }
        if Expired(tokens[i], now) { return None; }
        return Some(tokens[i]);
      }
      return None;
    }
  }
}
