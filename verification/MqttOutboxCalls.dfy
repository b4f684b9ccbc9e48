/** What single calls of the retry queue promise their callers, in plain terms: who is
    let in and who makes room, what a pass offers, what a load brings back from any
    storage, and how long a rejected entry waits.
 */
module MqttOutboxCalls {
  import opened Words
  import opened MqttOutbox
  import opened MqttOutboxRuns

  // ---- Enqueue ---------------------------------------------------------------

  /** A named topic, a payload that fits, and a slot: a free one, one that a noncritical
      entry can give up, or any if the newcomer is critical. */
  predicate Admitted(q: seq<Message>, topic: string, payload: string, critical: bool) {
    && topic != "" && |payload| < 768
    && (|q| < 8 || critical || exists k :: 0 <= k < |q| && !q[k].critical)
  }

  /** Entry `d` is the oldest noncritical one, or the oldest if all are critical. */
  predicate Yields(q: seq<Message>, d: nat) {
    && d < |q|
    && (forall k :: 0 <= k < d ==> q[k].critical)
    && (q[d].critical ==> d == 0 && forall k :: 0 <= k < |q| ==> q[k].critical)
  }

  /** An admitted message is last in the queue, due at once and without failures; it is one
      longer, or a full queue has given up the one entry that yields.  A message that is
      not admitted changes nothing. */
  lemma EnqueueAppends(s: Outbox, topic: string, payload: string, retain: bool, critical: bool, now: U32)
    returns (d: nat)
    requires |s.queue| <= 8
    ensures var t := Step(s, Enqueue(topic, payload, retain, critical, now));
            var newcomer := Message(topic, payload, retain, critical, now, 0);
            && (Refused(s, topic, payload, critical) <==> !Admitted(s.queue, topic, payload, critical))
            && (!Admitted(s.queue, topic, payload, critical) ==> t == s)
            && (Admitted(s.queue, topic, payload, critical) ==>
                  && |t.queue| == Min(|s.queue| + 1, 8) && t.queue[|t.queue| - 1] == newcomer
                  && (|s.queue| < 8 ==> t.queue == s.queue + [newcomer])
                  && (|s.queue| == 8 ==>
                        Yields(s.queue, d) && t.queue == s.queue[..d] + s.queue[d + 1..] + [newcomer]))
  {
    d := Victim(s.queue);
  }

  // ---- Service ---------------------------------------------------------------

  /** A pass offers entry `i`, if it is due, at its turn among the due ones, as it is. */
  lemma OfferedAtTurn(q: seq<Message>, now: U32, i: nat)
    requires i < |q| && Due(q[i], now)
    ensures |DueOnes(q[..i], now)| < |DueOnes(q, now)| && DueOnes(q, now)[|DueOnes(q[..i], now)|] == q[i]
  {
    assert q == q[..i] + q[i..] && q[i..][0] == q[i];
    DueOnesSplits(q[..i], q[i..], now);
  }

  /** And it offers nothing else. */
  lemma {:induction false} OfferedOnlyDue(q: seq<Message>, now: U32, n: nat, k: nat) returns (i: nat)
    requires n <= |q| && k < |DueOnes(q[..n], now)|
    ensures i < n && Due(q[i], now) && |DueOnes(q[..i], now)| == k
  {
    assert q[..n] == q[..n - 1] + [q[n - 1]] && [q[n - 1]][1..] == [];
    DueOnesSplits(q[..n - 1], [q[n - 1]], now);
    if k < |DueOnes(q[..n - 1], now)| {
      i := OfferedOnlyDue(q, now, n - 1, k);
    } else {
      i := n - 1;
    }
  }

  lemma SentShifts(q: seq<Message>, now: U32, answers: seq<bool>, i: nat)
    requires q != [] && i < |q| - 1
    ensures Sent(q, now, answers, i + 1) <==> Sent(q[1..], now, Unspent(q[0], now, answers), i)
  {
    assert q[..i + 1] == [q[0]] + q[1..][..i] && [q[0]][1..] == [];
    DueOnesSplits([q[0]], q[1..][..i], now);
  }

  /** A pass writes to storage exactly when the broker has accepted a critical entry. */
  lemma {:induction false} SentCriticalMeans(q: seq<Message>, now: U32, answers: seq<bool>)
    ensures SentCritical(q, now, answers) <==> exists i :: 0 <= i < |q| && q[i].critical && Sent(q, now, answers, i)
  {
    if q != [] {
      var tail, unspent := q[1..], Unspent(q[0], now, answers);
      SentCriticalMeans(tail, now, unspent);
      assert q[..0] == [];
      forall i | 0 <= i < |tail|
        ensures Sent(q, now, answers, i + 1) <==> Sent(tail, now, unspent, i)
      {
        SentShifts(q, now, answers, i);
      }
      if i :| 0 <= i < |q| && q[i].critical && Sent(q, now, answers, i) {
        assert i > 0 ==> tail[i - 1].critical && Sent(tail, now, unspent, i - 1);
      }
      if i :| 0 <= i < |tail| && tail[i].critical && Sent(tail, now, unspent, i) {
        assert q[i + 1].critical && Sent(q, now, answers, i + 1);
      }
    }
  }

  /** The waits after one, two, three and four failures double; all later ones are half a
      minute. */
  lemma WaitTable(n: nat)
    ensures Backoff(n) == if n == 0 then 1000 else if n == 1 then 2000 else if n == 2 then 4000
                          else if n == 3 then 8000 else if n == 4 then 16000 else 30000
  {
    assert Pow2(4) == 16 && Pow2(5) == 32;
    if n >= 5 {
      Pow2Grows(5, n);
    }
  }

  // ---- Load ------------------------------------------------------------------

  /** The critical entries themselves, in queue order. */
  function CriticalOnes(q: seq<Message>): (r: seq<Message>)
    ensures |r| <= |q|
  {
    if q == [] then [] else
      var n := |q| - 1;
      CriticalOnes(q[..n]) + if q[n].critical then [q[n]] else []
  }

  lemma {:induction false} RecordsOfCritical(q: seq<Message>)
    ensures |Critical(q)| == |CriticalOnes(q)|
    ensures forall k :: 0 <= k < |CriticalOnes(q)| ==> Critical(q)[k] == RecordOf(CriticalOnes(q)[k])
  {
    if q != [] {
      RecordsOfCritical(q[..|q| - 1]);
    }
  }

  lemma {:induction false} AllRebuilt(records: seq<Record>)
    requires AllFit(records)
    ensures |Rebuilt(records)| == |records|
    ensures forall k :: 0 <= k < |records| ==> Rebuilt(records)[k] == Restored(records[k])
  {
    if records != [] {
      assert forall k :: 0 <= k < |records| - 1 ==> records[1..][k] == records[k + 1];
      AllRebuilt(records[1..]);
    }
  }

  /** A critical message that has come back from storage. */
  function Returned(m: Message): Message {
    Message(m.topic, m.payload, m.retain, true, 0, 0)
  }

  /** With topics below 160 bytes a power cut keeps every critical message, word for word
      and in order, and nothing else. */
  lemma RebootKeepsMessages(s: Outbox)
    requires Agrees(s) && forall m <- s.queue :: |m.payload| < 768 && (m.critical ==> |m.topic| < 160)
    ensures var boot, kept := ColdBoot(s.nvs).queue, CriticalOnes(s.queue);
            |boot| == |kept| && forall k :: 0 <= k < |kept| ==> boot[k] == Returned(kept[k])
  {
    PowerCycleRebuilds(s);
    CriticalFits(s.queue);
    RecordsOfCritical(s.queue);
    AllRebuilt(Critical(s.queue));
  }

  /** Entry `i` of a store can be read back. */
  predicate Readable(store: Store, i: nat) {
    && TopicKey(i) in store && store[TopicKey(i)].Text? && |store[TopicKey(i)].text| < 160
    && PayloadKey(i) in store && store[PayloadKey(i)].Text? && |store[PayloadKey(i)].text| < 768
  }

  function ReadableBelow(store: Store, n: nat): (r: nat)
    ensures r <= n
  {
    if n == 0 then 0 else ReadableBelow(store, n - 1) + if Readable(store, n - 1) then 1 else 0
  }

  /** How many entries a store claims to hold, at most eight. */
  function Claimed(nvs: Option<Store>): (n: nat)
    ensures n <= 8
  {
    if nvs.Some? && CountKey in nvs.value && nvs.value[CountKey].Number?
    then Min(nvs.value[CountKey].number, 8) else 0
  }

  lemma {:induction false} LoadedSplits(a: seq<Option<Record>>, b: seq<Option<Record>>, room: nat)
    ensures Loaded(a + b, room) == Loaded(a, room) + Loaded(b, room - |Loaded(a, room)|)
  {
    if a == [] {
      assert a + b == b;
    } else if room > 0 {
      assert (a + b)[1..] == a[1..] + b;
      LoadedSplits(a[1..], b, if a[0].None? then room else room - 1);
    }
  }

  lemma {:induction false} LoadedCount(store: Store, n: nat, room: nat)
    requires n <= Claimed(Some(store))
    ensures |Loaded(StoredEntries(Some(store))[..n], room)| == Min(ReadableBelow(store, n), room)
  {
    if n > 0 {
      var entries := StoredEntries(Some(store));
      LoadedCount(store, n - 1, room);
      assert entries[..n] == entries[..n - 1] + [entries[n - 1]] && [entries[n - 1]][1..] == [];
      LoadedSplits(entries[..n - 1], [entries[n - 1]], room);
    }
  }

  /** A load into `room` free slots, from storage in whatever condition: each readable entry
      below the claimed count that still finds a slot comes back as it was stored, in the
      order of storage, and nothing else does. */
  lemma LoadFate(store: Store, i: nat, room: nat)
    ensures var loaded := Loaded(StoredEntries(Some(store)), room);
            && |loaded| == Min(ReadableBelow(store, Claimed(Some(store))), room)
            && (i < Claimed(Some(store)) && Readable(store, i) && ReadableBelow(store, i) < room ==>
                  var retain := RetainKey(i) in store && store[RetainKey(i)].Number?
                                && store[RetainKey(i)].number != 0;
                  && ReadableBelow(store, i) < |loaded|
                  && loaded[ReadableBelow(store, i)] ==
                     Message(store[TopicKey(i)].text, store[PayloadKey(i)].text, retain, true, 0, 0))
  {
    var entries, n := StoredEntries(Some(store)), Claimed(Some(store));
    LoadedCount(store, n, room);
    assert entries[..n] == entries;
    if i < n && Readable(store, i) && ReadableBelow(store, i) < room {
      LoadedCount(store, i, room);
      assert entries == entries[..i] + entries[i..] && entries[i..][0] == entries[i];
      LoadedSplits(entries[..i], entries[i..], room);
    }
  }

  /** Storage that was never written, or has lost its count, brings back nothing. */
  lemma NothingClaimed(nvs: Option<Store>)
    requires Claimed(nvs) == 0
    ensures ColdBoot(nvs).queue == []
  {
    if nvs.Some? {
      LoadFate(nvs.value, 0, QUEUE_SIZE);
    }
  }
}
