/** The short-term memory of recently spoken messages (`lastSpokenRef` in
    App.tsx): a table of (message, timestamp) entries, with the lookups,
    the refresh-or-insert step, the age-based eviction and the recent-context
    slice that the client performs on it. Times are integer milliseconds. */
module Memory {
  import opened Wrappers
  import opened Types
  import opened Seqs

  /** Entries survive eviction while younger than this many milliseconds. */
  const Lifetime := 120000

  /** How many of the latest messages are sent as context with a frame. */
  const ContextSize := 3

  datatype SpokenEntry = SpokenEntry(message: string, timestamp: int)

  /** No two entries share a message. */
  ghost predicate Unique(mem: seq<SpokenEntry>)
  {
    forall i, j :: 0 <= i < j < |mem| ==> mem[i].message != mem[j].message
  }

  /** The messages of the table, in table order. */
  function EntryMessages(mem: seq<SpokenEntry>): seq<string>
  {
    Map(mem, (e: SpokenEntry) => e.message)
  }

  /** The index of the first entry for `msg`, or -1 when there is none. */
  function IndexOf(mem: seq<SpokenEntry>, msg: string): (k: int)
    ensures -1 <= k < |mem|
    ensures k == -1 <==> forall i :: 0 <= i < |mem| ==> mem[i].message != msg
    ensures 0 <= k ==> mem[k].message == msg && forall i :: 0 <= i < k ==> mem[i].message != msg
  {
    FirstIndex(mem, (e: SpokenEntry) => e.message == msg)
  }

  /** The first entry for `msg`, if any. */
  function Lookup(mem: seq<SpokenEntry>, msg: string): (r: Option<SpokenEntry>)
    ensures r.None? <==> forall i :: 0 <= i < |mem| ==> mem[i].message != msg
    ensures r.Some? ==> exists k :: 0 <= k < |mem| && mem[k] == r.value && r.value.message == msg &&
                                    forall i :: 0 <= i < k ==> mem[i].message != msg
  {
    var k := IndexOf(mem, msg);
    if k == -1 then None else Some(mem[k])
  }

  /** In a table without duplicate messages the first entry for a message
      is the only one, so a lookup finds exactly that entry. */
  lemma LookupUnique(mem: seq<SpokenEntry>, k: nat)
    requires Unique(mem)
    requires k < |mem|
    ensures Lookup(mem, mem[k].message) == Some(mem[k])
  {
    assert IndexOf(mem, mem[k].message) == k;
  }

  /** One step of the update loop: refresh the timestamp of the entry for
      `msg` in place, or append a new entry when there is none. */
  function Touch(mem: seq<SpokenEntry>, msg: string, now: int): (r: seq<SpokenEntry>)
    ensures |mem| <= |r| <= |mem| + 1
    ensures exists i :: 0 <= i < |r| && r[i] == SpokenEntry(msg, now)
    ensures forall i :: 0 <= i < |mem| ==> r[i].message == mem[i].message
    ensures |r| == |mem| + 1 <==> forall i :: 0 <= i < |mem| ==> mem[i].message != msg
    ensures |r| == |mem| + 1 ==> r[|mem|] == SpokenEntry(msg, now)
    ensures Unique(mem) ==> Unique(r)
    ensures Unique(mem) ==>
              forall i :: 0 <= i < |mem| ==>
                r[i] == if mem[i].message == msg then SpokenEntry(msg, now) else mem[i]
  {
    var k := IndexOf(mem, msg);
    if k > -1 then
      var r := mem[k := mem[k].(timestamp := now)];
      assert r[k] == SpokenEntry(msg, now);
      r
    else
      var r := mem + [SpokenEntry(msg, now)];
      assert r[|mem|] == SpokenEntry(msg, now);
      r
  }

  /** The update loop over all spoken messages, in order. Entries are
      only ever refreshed or appended, never moved or removed. */
  function RecordAll(mem: seq<SpokenEntry>, msgs: seq<string>, now: int): (r: seq<SpokenEntry>)
    ensures |mem| <= |r| <= |mem| + |msgs|
    ensures forall i :: 0 <= i < |mem| ==> r[i].message == mem[i].message
  {
    if msgs == [] then mem
    else Touch(RecordAll(mem, msgs[..|msgs| - 1], now), msgs[|msgs| - 1], now)
  }

  /** After recording, every spoken message has an entry stamped `now`;
      existing entries keep their place and are refreshed exactly when
      their message was spoken; the appended entries are spoken messages
      stamped `now`; and no message is duplicated. */
  lemma {:induction false} RecordAllSpec(mem: seq<SpokenEntry>, msgs: seq<string>, now: int)
    requires Unique(mem)
    ensures var r := RecordAll(mem, msgs, now);
      && Unique(r)
      && |mem| <= |r|
      && (forall k :: 0 <= k < |msgs| ==>
            exists i :: 0 <= i < |r| && r[i] == SpokenEntry(msgs[k], now))
      && (forall i :: 0 <= i < |mem| ==>
            r[i] == if mem[i].message in msgs then SpokenEntry(mem[i].message, now) else mem[i])
      && (forall i :: |mem| <= i < |r| ==> r[i].timestamp == now && r[i].message in msgs)
  {
    if msgs != [] {
      var init, last := msgs[..|msgs| - 1], msgs[|msgs| - 1];
      assert msgs == init + [last];
      RecordAllSpec(mem, init, now);
      var prev := RecordAll(mem, init, now);
      var r := Touch(prev, last, now);
      assert r == RecordAll(mem, msgs, now);
      forall k | 0 <= k < |msgs|
        ensures exists i :: 0 <= i < |r| && r[i] == SpokenEntry(msgs[k], now)
      {
        if k < |init| {
          assert msgs[k] == init[k];
          var i :| 0 <= i < |prev| && prev[i] == SpokenEntry(init[k], now);
          assert r[i] == SpokenEntry(msgs[k], now);
        }
      }
      assert Unique(prev) && Unique(r);
      forall i | 0 <= i < |mem|
        ensures r[i] == if mem[i].message in msgs then SpokenEntry(mem[i].message, now) else mem[i]
      {
        assert mem[i].message in msgs <==> mem[i].message in init || mem[i].message == last;
      }
      forall i | |mem| <= i < |r|
        ensures r[i].timestamp == now && r[i].message in msgs
      {
        if i < |prev| {
          assert prev[i].message in init;
        }
      }
    }
  }

  /** Evict the entries that are `Lifetime` milliseconds old or older. */
  function Cleanup(mem: seq<SpokenEntry>, now: int): (r: seq<SpokenEntry>)
    ensures forall e :: e in r ==> now - e.timestamp < Lifetime
    ensures forall e :: e in mem && now - e.timestamp < Lifetime ==> e in r
    ensures forall e :: e in r ==> e in mem
  {
    Filter(mem, (e: SpokenEntry) => now - e.timestamp < Lifetime)
  }

  /** Removing entries from a table cannot introduce a duplicate message. */
  lemma {:induction false} FilterKeepsUnique(mem: seq<SpokenEntry>, p: SpokenEntry -> bool)
    requires Unique(mem)
    ensures Unique(Filter(mem, p))
  {
    if mem != [] {
      var rest := mem[1..];
      assert Unique(rest) by {
        forall i, j | 0 <= i < j < |rest| ensures rest[i].message != rest[j].message {
          assert rest[i] == mem[i + 1] && rest[j] == mem[j + 1];
        }
      }
      FilterKeepsUnique(rest, p);
      var t := Filter(rest, p);
      forall j | 0 <= j < |t| ensures t[j].message != mem[0].message {
        assert t[j] in rest;
        var k :| 0 <= k < |rest| && rest[k] == t[j];
        assert rest[k] == mem[k + 1];
      }
      assert Filter(mem, p) == (if p(mem[0]) then [mem[0]] else []) + t;
    }
  }

  /** Eviction keeps the table free of duplicate messages. */
  lemma CleanupUnique(mem: seq<SpokenEntry>, now: int)
    requires Unique(mem)
    ensures Unique(Cleanup(mem, now))
  {
    FilterKeepsUnique(mem, (e: SpokenEntry) => now - e.timestamp < Lifetime);
  }

  /** The whole memory update of one announcement: record every spoken
      message, then evict; when nothing is spoken the table is untouched. */
  function Remember(mem: seq<SpokenEntry>, spoken: seq<GuidanceItem>, now: int): (r: seq<SpokenEntry>)
    ensures spoken == [] ==> r == mem
  {
    if |spoken| > 0 then Cleanup(RecordAll(mem, Messages(spoken), now), now) else mem
  }

  /** After an announcement the table holds each spoken message exactly
      once, stamped `now`; every entry is younger than `Lifetime`; every
      other entry is an old entry, and every old entry for a message that
      was not spoken survives unchanged when it is still young enough. */
  lemma RememberSpec(mem: seq<SpokenEntry>, spoken: seq<GuidanceItem>, now: int)
    requires Unique(mem)
    requires spoken != []
    ensures var r := Remember(mem, spoken, now);
      && Unique(r)
      && (forall k :: 0 <= k < |spoken| ==> SpokenEntry(spoken[k].message, now) in r)
      && (forall e :: e in r ==> now - e.timestamp < Lifetime)
      && (forall e :: e in r ==> e in mem || (e.timestamp == now && e.message in Messages(spoken)))
      && (forall e :: e in mem && e.message !in Messages(spoken) && now - e.timestamp < Lifetime ==> e in r)
  {
    var msgs := Messages(spoken);
    var rec := RecordAll(mem, msgs, now);
    RecordAllSpec(mem, msgs, now);
    CleanupUnique(rec, now);
    var r := Cleanup(rec, now);
    assert r == Remember(mem, spoken, now);
    forall k | 0 <= k < |spoken| ensures SpokenEntry(spoken[k].message, now) in r {
      assert msgs[k] == spoken[k].message;
      var i :| 0 <= i < |rec| && rec[i] == SpokenEntry(msgs[k], now);
      assert rec[i] in rec;
    }
    forall e | e in r ensures e in mem || (e.timestamp == now && e.message in msgs) {
      assert e in rec;
      var i :| 0 <= i < |rec| && rec[i] == e;
      if i < |mem| {
        if mem[i].message !in msgs {
          assert e == mem[i];
        }
      }
    }
    forall e | e in mem && e.message !in msgs && now - e.timestamp < Lifetime ensures e in r {
      var i :| 0 <= i < |mem| && mem[i] == e;
      assert rec[i] == e;
      assert e in rec;
    }
  }

  /** The context sent with a frame: the messages of the last (at most)
      three entries, in table order. */
  function RecentContext(mem: seq<SpokenEntry>): (r: seq<string>)
    ensures |r| == if |mem| < ContextSize then |mem| else ContextSize
    ensures forall i :: 0 <= i < |r| ==> r[i] == mem[|mem| - |r| + i].message
  {
    var ms := EntryMessages(mem);
    var r := Last(ms, ContextSize);
    assert forall i :: 0 <= i < |r| ==> r[i] == ms[|ms| - |r| + i];
    r
  }
}
