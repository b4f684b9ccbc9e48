/** What the retry queue keeps over whole runs: its copy in storage, and every
    critical entry until it is published or the queue overflows with critical ones.
 */
module MqttOutboxRuns {
  import opened Words
  import opened MqttOutbox

  datatype Op =
    | Enqueue(topic: string, payload: string, retain: bool, critical: bool, now: U32)
    | Service(connected: bool, now: U32, answers: seq<bool>)

  function Step(s: Outbox, op: Op): (t: Outbox)
    requires |s.queue| <= QUEUE_SIZE
    ensures |t.queue| <= QUEUE_SIZE
  {
    match op
    case Enqueue(topic, payload, retain, critical, now) =>
      Enqueued(s, topic, payload, retain, critical, now)
    case Service(connected, now, answers) => Serviced(s, connected, now, answers)
  }

  function Run(s: Outbox, ops: seq<Op>): (t: Outbox)
    requires |s.queue| <= QUEUE_SIZE
    ensures |t.queue| <= QUEUE_SIZE
  {
    if ops == [] then s else Step(Run(s, ops[..|ops| - 1]), ops[|ops| - 1])
  }

  // ---- Storage agrees with the queue -----------------------------------------

  /** Storage holds the critical entries in queue order, and nothing else. */
  ghost predicate Agrees(s: Outbox) {
    && |s.queue| <= QUEUE_SIZE
    && match s.nvs
       case None => Critical(s.queue) == []
       case Some(store) => store == Image(Critical(s.queue))
  }

  lemma {:induction false} CriticalConcat(a: seq<Message>, b: seq<Message>)
    ensures Critical(a + b) == Critical(a) + Critical(b)
  {
    if b == [] {
      assert a + b == a;
    } else {
      var n := |b| - 1;
      assert a + b == (a + b[..n]) + [b[n]];
      CriticalAppend(a + b[..n], b[n]);
      CriticalConcat(a, b[..n]);
    }
  }

  lemma CriticalCons(m: Message, q: seq<Message>)
    ensures Critical([m] + q) == if m.critical then [RecordOf(m)] + Critical(q) else Critical(q)
  {
    CriticalConcat([m], q);
    assert [m][..0] == [];
  }

  lemma SplitAt(q: seq<Message>, d: nat)
    requires d < |q|
    ensures q == q[..d] + ([q[d]] + q[d + 1..])
  {
  }

  lemma CriticalWithout(q: seq<Message>, d: nat)
    requires d < |q| && !q[d].critical
    ensures Critical(Without(q, d)) == Critical(q)
  {
    var before, after := q[..d], q[d + 1..];
    SplitAt(q, d);
    CriticalConcat(before, [q[d]] + after);
    CriticalCons(q[d], after);
    CriticalConcat(before, after);
  }

  lemma {:induction false} CriticalServed(q: seq<Message>, now: U32, answers: seq<bool>)
    requires !SentCritical(q, now, answers)
    ensures Critical(Served(q, now, answers)) == Critical(q)
  {
    if q != [] {
      assert q == [q[0]] + q[1..];
      CriticalCons(q[0], q[1..]);
      var unspent := Unspent(q[0], now, answers);
      CriticalServed(q[1..], now, unspent);
      var first := Outcome(q[0], now, Accepts(answers, 0));
      CriticalConcat(first, Served(q[1..], now, unspent));
      CriticalConcat([q[0]], q[1..]);
      assert first != [] ==> first[..0] == [q[0]][..0] == [];
    }
  }

  lemma StepAgrees(s: Outbox, op: Op)
    requires Agrees(s)
    ensures Agrees(Step(s, op))
  {
    match op
    case Enqueue(topic, payload, retain, critical, now) =>
      if !Refused(s, topic, payload, critical) && !critical {
        var full := |s.queue| == QUEUE_SIZE;
        var kept := if full then Without(s.queue, Victim(s.queue)) else s.queue;
        if full {
          CriticalWithout(s.queue, Victim(s.queue));
        }
        CriticalAppend(kept, Message(topic, payload, retain, critical, now, 0));
      }
    case Service(connected, now, answers) =>
      if connected && !SentCritical(s.queue, now, answers) {
        CriticalServed(s.queue, now, answers);
      }
  }

  /** After every enqueue and service call of a run, storage agrees with the queue. */
  lemma {:induction false} StorageAlwaysAgrees(s: Outbox, ops: seq<Op>)
    requires Agrees(s)
    ensures Agrees(Run(s, ops))
  {
    if ops != [] {
      StorageAlwaysAgrees(s, ops[..|ops| - 1]);
      StepAgrees(Run(s, ops[..|ops| - 1]), ops[|ops| - 1]);
    }
  }

  // ---- Loading it back -------------------------------------------------------

  /** A record whose strings fit the buffers that a load reads them into. */
  predicate Fits(r: Record) {
    |r.topic| < TOPIC_BUFFER && |r.payload| < PAYLOAD_LIMIT
  }

  ghost predicate AllFit(records: seq<Record>) {
    forall k :: 0 <= k < |records| ==> Fits(records[k])
  }

  ghost predicate Reloadable(s: Outbox) {
    forall m <- s.queue :: |m.payload| < PAYLOAD_LIMIT && |m.topic| < TOPIC_BUFFER
  }

  /** The records that fit, as fresh critical messages. */
  function Rebuilt(records: seq<Record>): (r: seq<Message>)
    ensures |r| <= |records|
  {
    if records == [] then []
    else (if Fits(records[0]) then [Restored(records[0])] else []) + Rebuilt(records[1..])
  }

  lemma {:induction false} FieldsLookup(records: seq<Record>, i: nat)
    requires i < |records|
    ensures var f := Fields(records);
            && TopicKey(i) in f && f[TopicKey(i)] == Text(records[i].topic)
            && PayloadKey(i) in f && f[PayloadKey(i)] == Text(records[i].payload)
            && RetainKey(i) in f && f[RetainKey(i)] == Number(if records[i].retain then 1 else 0)
  {
    var n := |records| - 1;
    if i < n {
      FieldsLookup(records[..n], i);
    }
  }

  lemma EntriesOfImage(records: seq<Record>)
    requires |records| <= QUEUE_SIZE
    ensures var entries := StoredEntries(Some(Image(records)));
            |entries| == |records| &&
            forall i :: 0 <= i < |records| ==>
              entries[i] == if Fits(records[i]) then Some(records[i]) else None
  {
    forall i | 0 <= i < |records| {
      FieldsLookup(records, i);
    }
  }

  lemma {:induction false} LoadedIsRebuilt(entries: seq<Option<Record>>, records: seq<Record>, room: nat)
    requires |entries| == |records|
    requires forall i :: 0 <= i < |records| ==>
               entries[i] == if Fits(records[i]) then Some(records[i]) else None
    ensures var all := Rebuilt(records);
            Loaded(entries, room) == all[..Min(room, |all|)]
  {
    if records != [] && room > 0 {
      var rest := Rebuilt(records[1..]);
      if Fits(records[0]) {
        LoadedIsRebuilt(entries[1..], records[1..], room - 1);
        var all := [Restored(records[0])] + rest;
        assert all[..Min(room, |all|)] == [Restored(records[0])] + rest[..Min(room - 1, |rest|)];
      } else {
        LoadedIsRebuilt(entries[1..], records[1..], room);
        assert [] + rest == rest;
      }
    }
  }

  /** What a reload appends, for storage that agrees with some earlier queue. */
  lemma ReloadAppends(s: Outbox, records: seq<Record>)
    requires |s.queue| <= QUEUE_SIZE && |records| <= QUEUE_SIZE
    requires s.nvs == Some(Image(records)) || (s.nvs.None? && records == [])
    ensures var all := Rebuilt(records);
            Reload(s) == s.(queue := s.queue + all[..Min(QUEUE_SIZE - |s.queue|, |all|)])
  {
    if s.nvs.Some? {
      EntriesOfImage(records);
      LoadedIsRebuilt(StoredEntries(s.nvs), records, QUEUE_SIZE - |s.queue|);
    }
  }

  lemma {:induction false} RebuiltRecords(records: seq<Record>)
    ensures AllFit(records) ==> Critical(Rebuilt(records)) == records
    ensures !AllFit(records) ==> |Rebuilt(records)| < |records|
  {
    if records != [] {
      RebuiltRecords(records[1..]);
      assert records == [records[0]] + records[1..];
      assert forall k :: 0 < k < |records| ==> records[k] == records[1..][k - 1];
      assert forall k :: 0 <= k < |records| - 1 ==> records[1..][k] == records[k + 1];
      if Fits(records[0]) {
        CriticalCons(Restored(records[0]), Rebuilt(records[1..]));
      }
    }
  }

  lemma {:induction false} RebuiltFresh(records: seq<Record>)
    ensures forall m <- Rebuilt(records) ::
              m.critical && m.attempts == 0 && |m.topic| < TOPIC_BUFFER && |m.payload| < PAYLOAD_LIMIT
  {
    if records != [] {
      RebuiltFresh(records[1..]);
    }
  }

  /** Power-up rebuilds the critical subsequence that fits, in order and with its
      attempt counters reset; it is the whole of it exactly when every critical
      topic is below 160 bytes, and only then does storage agree again. */
  lemma PowerCycleRebuilds(s: Outbox)
    requires Agrees(s)
    requires forall m <- s.queue :: |m.payload| < PAYLOAD_LIMIT
    ensures var boot := ColdBoot(s.nvs);
            var short := forall m <- s.queue :: m.critical ==> |m.topic| < TOPIC_BUFFER;
            && boot.queue == Rebuilt(Critical(s.queue)) && boot.nvs == s.nvs
            && Reloadable(boot) && (forall m <- boot.queue :: m.critical && m.attempts == 0)
            && (Critical(boot.queue) == Critical(s.queue) <==> short)
            && (Agrees(boot) <==> short)
  {
    var records := Critical(s.queue);
    ReloadAppends(Outbox([], s.nvs), records);
    var all := Rebuilt(records);
    assert [] + all[..|all|] == all;
    RebuiltRecords(records);
    RebuiltFresh(records);
    CriticalFits(s.queue);
    assert |Critical(all)| <= |all|;
    if s.nvs.Some? && Agrees(ColdBoot(s.nvs)) {
      ImageSize(Critical(all), records);
    }
  }

  lemma ImageSize(a: seq<Record>, b: seq<Record>)
    requires |a| <= QUEUE_SIZE && |b| <= QUEUE_SIZE && Image(a) == Image(b)
    ensures |a| == |b|
  {
    assert Image(a)[CountKey] == Number(|a|);
    assert Image(b)[CountKey] == Number(|b|);
  }

  lemma {:induction false} CriticalFits(q: seq<Message>)
    requires forall m <- q :: |m.payload| < PAYLOAD_LIMIT
    ensures AllFit(Critical(q)) <==> forall m <- q :: m.critical ==> |m.topic| < TOPIC_BUFFER
  {
    if q != [] {
      var n := |q| - 1;
      CriticalFits(q[..n]);
      assert q == q[..n] + [q[n]];
      CriticalAppend(q[..n], q[n]);
      var before, after := Critical(q[..n]), Critical(q);
      assert forall k :: 0 <= k < |before| ==> after[k] == before[k];
      assert q[n].critical ==> after[|before|] == RecordOf(q[n]);
    }
  }

  /** A client restart reloads storage onto a queue that was never emptied: every
      critical entry that fits is queued a second time while slots last.  Storage
      then disagrees, except where nothing was appended. */
  lemma RestartDuplicates(s: Outbox)
    requires Agrees(s)
    ensures var copies := Rebuilt(Critical(s.queue));
            var added := copies[..Min(QUEUE_SIZE - |s.queue|, |copies|)];
            && Reload(s) == s.(queue := s.queue + added)
            && (Agrees(Reload(s)) <==> |s.queue| == QUEUE_SIZE || copies == [])
  {
    var records := Critical(s.queue);
    ReloadAppends(s, records);
    RebuiltFresh(records);
    var copies := Rebuilt(records);
    var added := copies[..Min(QUEUE_SIZE - |s.queue|, |copies|)];
    CriticalConcat(s.queue, added);
    AllCriticalLength(added);
    if added == [] {
      assert s.queue + added == s.queue;
    } else if s.nvs.Some? && Agrees(Reload(s)) {
      ImageSize(records, Critical(s.queue + added));
    }
  }

  /** The call writes the queue's critical entries to storage. */
  predicate Persists(s: Outbox, op: Op) {
    match op
    case Enqueue(topic, payload, _, critical, _) => critical && !Refused(s, topic, payload, critical)
    case Service(connected, now, answers) => connected && SentCritical(s.queue, now, answers)
  }

  /** Any other call changes neither storage nor what should be in it. */
  lemma StepAgreesAgain(s: Outbox, op: Op)
    requires |s.queue| <= QUEUE_SIZE
    ensures Persists(s, op) ==> Agrees(Step(s, op))
    ensures !Persists(s, op) ==> Step(s, op).nvs == s.nvs && Critical(Step(s, op).queue) == Critical(s.queue)
  {
    if !Persists(s, op) {
      match op
      case Enqueue(topic, payload, retain, critical, now) =>
        if !Refused(s, topic, payload, critical) {
          var full := |s.queue| == QUEUE_SIZE;
          var kept := if full then Without(s.queue, Victim(s.queue)) else s.queue;
          if full {
            CriticalWithout(s.queue, Victim(s.queue));
          }
          CriticalAppend(kept, Message(topic, payload, retain, critical, now, 0));
        }
      case Service(connected, now, answers) =>
        if connected {
          CriticalServed(s.queue, now, answers);
        }
    }
  }

  /** What may happen to a client between two power cuts. */
  datatype Event = Call(op: Op) | Restart

  function Happened(s: Outbox, e: Event): (t: Outbox)
    requires |s.queue| <= QUEUE_SIZE
    ensures |t.queue| <= QUEUE_SIZE
  {
    match e
    case Call(op) => Step(s, op)
    case Restart => Reload(s)
  }

  function History(s: Outbox, events: seq<Event>): (t: Outbox)
    requires |s.queue| <= QUEUE_SIZE
    ensures |t.queue| <= QUEUE_SIZE
  {
    if events == [] then s else Happened(History(s, events[..|events| - 1]), events[|events| - 1])
  }

  /** Since the last call that wrote to storage no restart has found anything to append. */
  predicate Settled(s: Outbox, events: seq<Event>)
    requires |s.queue| <= QUEUE_SIZE
  {
    events == [] ||
    var n := |events| - 1;
    var before := History(s, events[..n]);
    match events[n]
    case Call(op) => Persists(before, op) || Settled(s, events[..n])
    case Restart => Settled(s, events[..n]) && Reload(before) == before
  }

  /** Storage holds fewer entries than it should, the first of those. */
  ghost predicate Behind(s: Outbox) {
    s.nvs.Some? && exists n: nat :: Lacks(s, n)
  }

  ghost predicate Lacks(s: Outbox, n: nat) {
    n < |Critical(s.queue)| && n <= QUEUE_SIZE && s.nvs == Some(Image(Critical(s.queue)[..n]))
  }

  lemma BehindDisagrees(s: Outbox)
    requires |s.queue| <= QUEUE_SIZE && Behind(s)
    ensures !Agrees(s)
  {
    var n: nat :| Lacks(s, n);
    if Agrees(s) {
      ImageSize(Critical(s.queue), Critical(s.queue)[..n]);
    }
  }

  /** A reload never brings storage back into agreement. */
  lemma ReloadLags(s: Outbox)
    requires |s.queue| <= QUEUE_SIZE && (Agrees(s) || Behind(s)) && Reload(s) != s
    ensures Behind(Reload(s))
  {
    var records := Critical(s.queue);
    if Agrees(s) {
      assert records[..|records|] == records;
    }
    var n: nat :| n <= |records| && n <= QUEUE_SIZE && (s.nvs == Some(Image(records[..n])) || (s.nvs.None? && n == 0));
    AppendedLags(s, n);
  }

  lemma {:induction false} AppendedLags(s: Outbox, n: nat)
    requires |s.queue| <= QUEUE_SIZE && n <= |Critical(s.queue)| && n <= QUEUE_SIZE && Reload(s) != s
    requires s.nvs == Some(Image(Critical(s.queue)[..n])) || (s.nvs.None? && n == 0)
    ensures Lacks(Reload(s), n)
  {
    var records := Critical(s.queue)[..n];
    ReloadAppends(s, records);
    RebuiltFresh(records);
    var all := Rebuilt(records);
    var copies := all[..Min(QUEUE_SIZE - |s.queue|, |all|)];
    assert s.queue + [] == s.queue;
    assert Reload(s).queue == s.queue + copies && Reload(s).nvs == s.nvs;
    CopiesFollow(s.queue, copies, n);
  }

  lemma {:induction false} CopiesFollow(q: seq<Message>, copies: seq<Message>, n: nat)
    requires AllCritical(copies) && copies != [] && n <= |Critical(q)|
    ensures n < |Critical(q + copies)| && Critical(q + copies)[..n] == Critical(q)[..n]
  {
    CriticalConcat(q, copies);
    AllCriticalLength(copies);
  }

  lemma {:induction false} SettledOrBehind(s: Outbox, events: seq<Event>)
    requires Agrees(s)
    ensures Settled(s, events) ==> Agrees(History(s, events))
    ensures !Settled(s, events) ==> Behind(History(s, events))
  {
    if events != [] {
      var n := |events| - 1;
      SettledOrBehind(s, events[..n]);
      var before := History(s, events[..n]);
      match events[n]
      case Call(op) =>
        StepAgreesAgain(before, op);
        if !Settled(s, events) {
          var k: nat :| Lacks(before, k);
          assert Lacks(Step(before, op), k);
        }
      case Restart =>
        if Reload(before) != before {
          ReloadLags(before);
        }
    }
  }

  /** Over runs with restarts storage agrees with the queue exactly when no restart has
      appended anything since the last accepted critical enqueue or publish. */
  lemma AgreesExactlyWhenSettled(s: Outbox, events: seq<Event>)
    requires Agrees(s)
    ensures Agrees(History(s, events)) <==> Settled(s, events)
  {
    SettledOrBehind(s, events);
    if !Settled(s, events) {
      BehindDisagrees(History(s, events));
    }
  }

  /** One critical entry, one restart: it is queued twice. */
  lemma RestartDuplicatesOne(topic: string, payload: string, now: U32)
    requires topic != "" && |topic| < TOPIC_BUFFER && |payload| < PAYLOAD_LIMIT
    ensures var s := Enqueued(Outbox([], None), topic, payload, false, true, now);
            && |s.queue| == 1 && |Reload(s).queue| == 2
            && RecordOf(Reload(s).queue[0]) == RecordOf(Reload(s).queue[1])
            && !Agrees(Reload(s))
  {
    var s := Enqueued(Outbox([], None), topic, payload, false, true, now);
    var m := Message(topic, payload, false, true, now, 0);
    assert s.queue == [m] && [m][..0] == [];
    var records := Critical([m]);
    assert records == [RecordOf(m)] && Fits(records[0]) && records[1..] == [];
    assert Rebuilt(records) == [Restored(records[0])];
    RestartDuplicates(s);
  }

  /** A critical entry whose topic fills the load's buffer is stored, and lost at the
      next power cut. */
  lemma LongTopicIsLost(topic: string, payload: string, now: U32)
    requires |topic| >= TOPIC_BUFFER && |payload| < PAYLOAD_LIMIT
    ensures var s := Enqueued(Outbox([], None), topic, payload, false, true, now);
            |s.queue| == 1 && s.queue[0].critical && ColdBoot(s.nvs).queue == []
  {
    var s := Enqueued(Outbox([], None), topic, payload, false, true, now);
    var m := Message(topic, payload, false, true, now, 0);
    assert s.queue == [m] && [m][..0] == [];
    var records := Critical([m]);
    assert records == [RecordOf(m)] && !Fits(records[0]) && records[1..] == [];
    assert s.nvs == Some(Image(records)) && Rebuilt(records) == [];
    ReloadAppends(Outbox([], s.nvs), records);
  }

  lemma {:induction false} AllCriticalLength(q: seq<Message>)
    requires AllCritical(q)
    ensures |Critical(q)| == |q|
  {
    if q != [] {
      AllCriticalLength(q[..|q| - 1]);
    }
  }

  // ---- Many lives ------------------------------------------------------------

  predicate ShortTopics(ops: seq<Op>) {
    forall op <- ops :: op.Enqueue? ==> |op.topic| < TOPIC_BUFFER
  }

  lemma {:induction false} ServedKeeps(q: seq<Message>, now: U32, answers: seq<bool>)
    requires forall m <- q :: |m.payload| < PAYLOAD_LIMIT && |m.topic| < TOPIC_BUFFER
    ensures forall m <- Served(q, now, answers) :: |m.payload| < PAYLOAD_LIMIT && |m.topic| < TOPIC_BUFFER
  {
    if q != [] {
      ServedKeeps(q[1..], now, Unspent(q[0], now, answers));
    }
  }

  lemma {:induction false} RunReloadable(s: Outbox, ops: seq<Op>)
    requires |s.queue| <= QUEUE_SIZE && Reloadable(s) && ShortTopics(ops)
    ensures Reloadable(Run(s, ops))
  {
    if ops != [] {
      var n := |ops| - 1;
      RunReloadable(s, ops[..n]);
      var t := Run(s, ops[..n]);
      match ops[n]
      case Enqueue(_, _, _, _, _) => assert ops[n] in ops;
      case Service(_, now, answers) => ServedKeeps(t.queue, now, answers);
    }
  }

  /** Each element of `lives` is the calls made between two power cuts. */
  function Lives(lives: seq<seq<Op>>): (t: Outbox)
    ensures |t.queue| <= QUEUE_SIZE
  {
    if lives == [] then Outbox([], None)
    else Run(ColdBoot(Lives(lives[..|lives| - 1]).nvs), lives[|lives| - 1])
  }

  /** From a blank device, through any number of power cuts, storage agrees after
      every call: stated here for the last call of the last life. */
  lemma {:induction false} AgreesThroughPowerCuts(lives: seq<seq<Op>>)
    requires forall ops <- lives :: ShortTopics(ops)
    ensures Agrees(Lives(lives)) && Reloadable(Lives(lives))
  {
    if lives != [] {
      var n := |lives| - 1;
      AgreesThroughPowerCuts(lives[..n]);
      var before := Lives(lives[..n]);
      PowerCycleRebuilds(before);
      StorageAlwaysAgrees(ColdBoot(before.nvs), lives[n]);
      RunReloadable(ColdBoot(before.nvs), lives[n]);
    }
  }

  // ---- One service pass ------------------------------------------------------

  /** Entry `i` is due and the broker accepts it; the answer that counts is the one
      after those spent on the due entries ahead of it. */
  predicate Sent(q: seq<Message>, now: U32, answers: seq<bool>, i: nat)
    requires i < |q|
  {
    var turn := |DueOnes(q[..i], now)|;
    Due(q[i], now) && turn < |answers| && answers[turn]
  }

  lemma {:induction false} DueOnesSplits(a: seq<Message>, b: seq<Message>, now: U32)
    ensures DueOnes(a + b, now) == DueOnes(a, now) + DueOnes(b, now)
  {
    if a == [] {
      assert a + b == b;
    } else {
      assert (a + b)[1..] == a[1..] + b;
      DueOnesSplits(a[1..], b, now);
      ConcatAssociates(if Due(a[0], now) then [a[0]] else [], DueOnes(a[1..], now), DueOnes(b, now));
    }
  }

  lemma {:induction false} PassSplits(a: seq<Message>, b: seq<Message>, now: U32, answers: seq<bool>)
    ensures Served(a + b, now, answers)
         == Served(a, now, answers) + Served(b, now, Later(answers, |DueOnes(a, now)|))
  {
    if a == [] {
      assert a + b == b;
      return;
    }
    assert (a + b)[1..] == a[1..] + b;
    var rest := Unspent(a[0], now, answers);
    PassSplits(a[1..], b, now, rest);
    var last := Later(answers, |DueOnes(a, now)|);
    assert Later(rest, |DueOnes(a[1..], now)|) == last;
    ConcatAssociates(Outcome(a[0], now, Accepts(answers, 0)), Served(a[1..], now, rest), Served(b, now, last));
  }

  /** Where one pass leaves entry `i`: gone if it was sent, otherwise right behind the
      survivors ahead of it, untouched if it was not due and rescheduled if it was. */
  lemma PassFate(q: seq<Message>, now: U32, answers: seq<bool>, i: nat)
    requires i < |q|
    ensures var r, p := Served(q, now, answers), |Served(q[..i], now, answers)|;
            var p' := |Served(q[..i + 1], now, answers)|;
            && (Sent(q, now, answers, i) ==> p' == p)
            && (!Sent(q, now, answers, i) ==>
                  p' == p + 1 && p < |r| &&
                  r[p] == if Due(q[i], now) then Rescheduled(q[i], now) else q[i])
  {
    var rest := Later(answers, |DueOnes(q[..i], now)|);
    assert q == q[..i] + q[i..] && q[i..][0] == q[i];
    PassSplits(q[..i], q[i..], now, answers);
    assert q[..i + 1] == q[..i] + [q[i]];
    PassSplits(q[..i], [q[i]], now, answers);
    assert Served([q[i]], now, rest) == Outcome(q[i], now, Accepts(rest, 0)) by {
      assert [q[i]][1..] == [];
    }
  }

  // ---- Following an entry ----------------------------------------------------

  /** The new index of entry `i`; `None` once it has left the queue. */
  function Moved(s: Outbox, op: Op, i: nat): Option<nat>
    requires |s.queue| <= QUEUE_SIZE && i < |s.queue|
  {
    match op
    case Enqueue(topic, payload, _, critical, _) =>
      if Refused(s, topic, payload, critical) || |s.queue| < QUEUE_SIZE || i < Victim(s.queue) then Some(i)
      else if i == Victim(s.queue) then None
      else Some(i - 1)
    case Service(connected, now, answers) =>
      if !connected then Some(i)
      else if Sent(s.queue, now, answers, i) then None
      else Some(|Served(s.queue[..i], now, answers)|)
  }

  predicate Rejected(s: Outbox, op: Op, i: nat)
    requires i < |s.queue|
  {
    op.Service? && op.connected && Due(s.queue[i], op.now) && !Sent(s.queue, op.now, op.answers, i)
  }

  /** A surviving entry is at its new index, rescheduled if and only if it was rejected. */
  lemma MovedKeepsEntry(s: Outbox, op: Op, i: nat)
    requires |s.queue| <= QUEUE_SIZE && i < |s.queue| && Moved(s, op, i).Some?
    ensures var p := Moved(s, op, i).value;
            && p < |Step(s, op).queue|
            && Step(s, op).queue[p] ==
               if Rejected(s, op, i) then Rescheduled(s.queue[i], op.now) else s.queue[i]
  {
    if op.Service? && op.connected {
      PassFate(s.queue, op.now, op.answers, i);
    }
  }

  lemma {:induction false} PassMonotone(q: seq<Message>, now: U32, answers: seq<bool>, i: nat, j: nat)
    requires i <= j <= |q|
    ensures |Served(q[..i], now, answers)| <= |Served(q[..j], now, answers)|
  {
    assert q[..j] == q[..i] + q[i..j];
    PassSplits(q[..i], q[i..j], now, answers);
  }

  /** Survivors keep their order. */
  lemma MovedKeepsOrder(s: Outbox, op: Op, i: nat, j: nat)
    requires |s.queue| <= QUEUE_SIZE && i < j < |s.queue|
    requires Moved(s, op, i).Some? && Moved(s, op, j).Some?
    ensures Moved(s, op, i).value < Moved(s, op, j).value
  {
    if op.Service? && op.connected {
      PassFate(s.queue, op.now, op.answers, i);
      PassMonotone(s.queue, op.now, op.answers, i + 1, j);
    }
  }

  /** The new queue holds survivors and at most one newcomer, which is last. */
  lemma NothingElseAppears(s: Outbox, op: Op, p: nat)
    requires |s.queue| <= QUEUE_SIZE && p < |Step(s, op).queue|
    ensures || (exists i :: 0 <= i < |s.queue| && Moved(s, op, i) == Some(p))
            || (&& op.Enqueue? && !Refused(s, op.topic, op.payload, op.critical)
                && p == |Step(s, op).queue| - 1
                && Step(s, op).queue[p] ==
                   Message(op.topic, op.payload, op.retain, op.critical, op.now, 0))
  {
    if op.Service? && op.connected {
      assert s.queue[..|s.queue|] == s.queue;
      var i := PassOrigin(s.queue, op.now, op.answers, |s.queue|, p);
      assert Moved(s, op, i) == Some(p);
    } else if p < |s.queue| && Moved(s, op, p) != Some(p) && p + 1 < |s.queue| {
      assert Moved(s, op, p + 1) == Some(p);
    }
  }

  lemma {:induction false} PassOrigin(q: seq<Message>, now: U32, answers: seq<bool>, n: nat, p: nat)
    returns (i: nat)
    requires n <= |q| && p < |Served(q[..n], now, answers)|
    ensures i < n && !Sent(q, now, answers, i) && |Served(q[..i], now, answers)| == p
  {
    PassFate(q, now, answers, n - 1);
    if p < |Served(q[..n - 1], now, answers)| {
      i := PassOrigin(q, now, answers, n - 1, p);
    } else {
      i := n - 1;
    }
  }

  /** Where a run has taken entry `i`. */
  function Journey(s: Outbox, ops: seq<Op>, i: nat): (p: Option<nat>)
    requires |s.queue| <= QUEUE_SIZE && i < |s.queue|
    ensures p.Some? ==> p.value < |Run(s, ops).queue|
  {
    if ops == [] then Some(i) else
      var n := |ops| - 1;
      var at := Journey(s, ops[..n], i);
      if at.None? then None else
        var t := Run(s, ops[..n]);
        var to := Moved(t, ops[n], at.value);
        assert to.Some? ==> to.value < |Step(t, ops[n]).queue| by {
          if to.Some? {
            MovedKeepsEntry(t, ops[n], at.value);
          }
        }
        to
  }

  function Rejections(s: Outbox, ops: seq<Op>, i: nat): nat
    requires |s.queue| <= QUEUE_SIZE && i < |s.queue|
  {
    if ops == [] then 0 else
      var n := |ops| - 1;
      var at := Journey(s, ops[..n], i);
      Rejections(s, ops[..n], i)
      + if at.Some? && Rejected(Run(s, ops[..n]), ops[n], at.value) then 1 else 0
  }

  /** A one-byte counter after `k` increments. */
  function Counted(a: Byte, k: nat): Byte {
    if k == 0 then a else (Counted(a, k - 1) + 1) % 256
  }

  lemma {:induction false} CountedWraps(a: Byte, k: nat)
    ensures Counted(a, k) == (a + k) % 256
  {
    if k > 0 {
      CountedWraps(a, k - 1);
      OneMore(a + k - 1);
    }
  }

  lemma OneMore(n: nat)
    ensures (n % 256 + 1) % 256 == (n + 1) % 256
  {
  }

  /** `e` is `m` with `k` more failures on its counter. */
  predicate AgedCopy(m: Message, e: Message, k: nat) {
    && e.topic == m.topic && e.payload == m.payload && e.retain == m.retain && e.critical == m.critical
    && e.attempts == Counted(m.attempts, k)
  }

  lemma MoveAges(m: Message, k: nat, s: Outbox, op: Op, i: nat, t: Outbox, p: nat)
    requires |s.queue| <= QUEUE_SIZE && i < |s.queue| && t == Step(s, op) && Moved(s, op, i) == Some(p)
    requires AgedCopy(m, s.queue[i], k)
    ensures p < |t.queue|
    ensures AgedCopy(m, t.queue[p], if Rejected(s, op, i) then k + 1 else k)
  {
    MovedKeepsEntry(s, op, i);
  }

  /** At the end of its journey an entry has its content and class unchanged, and its
      one-byte counter has been bumped once for each rejection it met. */
  lemma {:induction false} JourneyKeepsEntry(s: Outbox, ops: seq<Op>, i: nat)
    requires |s.queue| <= QUEUE_SIZE && i < |s.queue| && Journey(s, ops, i).Some?
    ensures AgedCopy(s.queue[i], Run(s, ops).queue[Journey(s, ops, i).value], Rejections(s, ops, i))
  {
    if ops != [] {
      JourneyKeepsEntry(s, ops[..|ops| - 1], i);
      JourneyAges(s, ops, i);
    }
  }

  lemma JourneyAges(s: Outbox, ops: seq<Op>, i: nat)
    requires |s.queue| <= QUEUE_SIZE && i < |s.queue| && ops != []
    requires Journey(s, ops, i).Some? && Journey(s, ops[..|ops| - 1], i).Some?
    requires AgedCopy(s.queue[i], Run(s, ops[..|ops| - 1]).queue[Journey(s, ops[..|ops| - 1], i).value],
                      Rejections(s, ops[..|ops| - 1], i))
    ensures AgedCopy(s.queue[i], Run(s, ops).queue[Journey(s, ops, i).value], Rejections(s, ops, i))
  {
    var n := |ops| - 1;
    var t, at, k := Run(s, ops[..n]), Journey(s, ops[..n], i).value, Rejections(s, ops[..n], i);
    var u, to := Run(s, ops), Journey(s, ops, i).value;
    JourneyUnfolds(s, ops, i);
    assert AgedCopy(s.queue[i], t.queue[at], k);
    assert u == Step(t, ops[n]);
    assert Moved(t, ops[n], at) == Some(to);
    MoveAges(s.queue[i], k, t, ops[n], at, u, to);
    assert Rejections(s, ops, i) == if Rejected(t, ops[n], at) then k + 1 else k;
  }

  lemma JourneyUnfolds(s: Outbox, ops: seq<Op>, i: nat)
    requires |s.queue| <= QUEUE_SIZE && i < |s.queue| && ops != []
    requires Journey(s, ops[..|ops| - 1], i).Some?
    ensures var n := |ops| - 1;
            var t, at := Run(s, ops[..n]), Journey(s, ops[..n], i).value;
            && Run(s, ops) == Step(t, ops[n]) && Journey(s, ops, i) == Moved(t, ops[n], at)
            && Rejections(s, ops, i) == Rejections(s, ops[..n], i) + if Rejected(t, ops[n], at) then 1 else 0
  {
  }

  lemma {:induction false} JourneyKeepsOrder(s: Outbox, ops: seq<Op>, i: nat, j: nat)
    requires |s.queue| <= QUEUE_SIZE && i < j < |s.queue|
    requires Journey(s, ops, i).Some? && Journey(s, ops, j).Some?
    ensures Journey(s, ops, i).value < Journey(s, ops, j).value
  {
    if ops != [] {
      var n := |ops| - 1;
      JourneyKeepsOrder(s, ops[..n], i, j);
      MovedKeepsOrder(Run(s, ops[..n]), ops[n], Journey(s, ops[..n], i).value, Journey(s, ops[..n], j).value);
    }
  }

  /** Entry `i` left the queue at call `j` of the run, which published it, or pushed it out
      as the oldest of eight critical entries to make room for a ninth. */
  ghost predicate LeavesAt(s: Outbox, ops: seq<Op>, i: nat, j: nat)
    requires |s.queue| <= QUEUE_SIZE && i < |s.queue|
  {
    && j < |ops| && Journey(s, ops[..j], i).Some? && Journey(s, ops[..j + 1], i).None?
    && var t, p := Run(s, ops[..j]), Journey(s, ops[..j], i).value;
       match ops[j]
       case Service(connected, now, answers) => connected && Sent(t.queue, now, answers, p)
       case Enqueue(_, _, _, critical, _) =>
         critical && |t.queue| == QUEUE_SIZE && AllCritical(t.queue) && p == 0
  }

  /** A critical entry leaves the queue in no other way. */
  lemma {:induction false} CriticalLeavesOnlySentOrOverflow(s: Outbox, ops: seq<Op>, i: nat)
    requires |s.queue| <= QUEUE_SIZE && i < |s.queue| && s.queue[i].critical
    ensures Journey(s, ops, i).Some? || exists j: nat :: LeavesAt(s, ops, i, j)
  {
    if ops != [] && Journey(s, ops, i).None? {
      var n := |ops| - 1;
      if Journey(s, ops[..n], i).Some? {
        JourneyKeepsEntry(s, ops[..n], i);
        assert ops[..n + 1] == ops;
        assert LeavesAt(s, ops, i, n);
      } else {
        CriticalLeavesOnlySentOrOverflow(s, ops[..n], i);
        var j: nat :| LeavesAt(s, ops[..n], i, j);
        assert ops[..n][..j] == ops[..j] && ops[..n][..j + 1] == ops[..j + 1];
        assert LeavesAt(s, ops, i, j);
      }
    }
  }

  // ---- Backoff ---------------------------------------------------------------

  /** The byte counter makes the wait fall back when it wraps: the wait after `n`
      failures is the capped doubling of `n` exactly when `n` has not wrapped or the
      wrapped count is large enough to be capped anyway. */
  lemma BackoffCounterWraps(n: nat)
    ensures Backoff(n % 256) == Backoff(n) <==> n < 256 || n % 256 >= 5
  {
    assert Pow2(5) == 32;
    var r := n % 256;
    if r < 5 {
      assert r <= 4 && Pow2(4) == 16;
      Pow2Grows(r, 4);
    } else {
      Pow2Grows(5, r);
    }
    if n >= 5 {
      Pow2Grows(5, n);
    }
  }

  /** The date an entry is given at time `now` by its `n`-th rejection. */
  ghost predicate DatedAs(date: U32, now: U32, n: nat) {
    && date == (now + Backoff(n % 256)) % TWO32
    && (date == (now + Backoff(n)) % TWO32 <==> n < 256 || n % 256 >= 5)
  }

  lemma OneRejection(s: Outbox, op: Op, i: nat, k: nat)
    requires |s.queue| <= QUEUE_SIZE && i < |s.queue| && Rejected(s, op, i) && s.queue[i].attempts == Counted(0, k)
    ensures Moved(s, op, i).Some? && Moved(s, op, i).value < |Step(s, op).queue|
    ensures DatedAs(Step(s, op).queue[Moved(s, op, i).value].nextAttemptMs, op.now, k + 1)
  {
    MovedKeepsEntry(s, op, i);
    CountedWraps(0, k);
    OneMore(k);
    BackoffCounterWraps(k + 1);
    SameDate(op.now, Backoff((k + 1) % 256), Backoff(k + 1));
  }

  /** An entry that started without failures is given, by its `n`-th rejection, the date
      of the capped doubling of `n`, exactly when the counter allows it as above. */
  lemma RejectionDate(s: Outbox, ops: seq<Op>, i: nat, op: Op) returns (p: nat)
    requires |s.queue| <= QUEUE_SIZE && i < |s.queue| && s.queue[i].attempts == 0
    requires Journey(s, ops, i).Some? && Rejected(Run(s, ops), op, Journey(s, ops, i).value)
    ensures Journey(s, ops + [op], i) == Some(p) && p < |Run(s, ops + [op]).queue|
    ensures DatedAs(Run(s, ops + [op]).queue[p].nextAttemptMs, op.now, Rejections(s, ops + [op], i))
  {
    var t, at, k := Run(s, ops), Journey(s, ops, i).value, Rejections(s, ops, i);
    assert (ops + [op])[..|ops|] == ops;
    JourneyUnfolds(s, ops + [op], i);
    JourneyKeepsEntry(s, ops, i);
    OneRejection(t, op, at, k);
    p := Moved(t, op, at).value;
    assert Run(s, ops + [op]) == Step(t, op) && Rejections(s, ops + [op], i) == k + 1;
  }

  lemma SameDate(now: U32, a: nat, b: nat)
    requires a <= MAX_BACKOFF_MS && b <= MAX_BACKOFF_MS
    ensures (now + a) % TWO32 == (now + b) % TWO32 <==> a == b
  {
  }

  // ---- True dates ------------------------------------------------------------

  /** An entry whose true date has passed is offered exactly while the counter has moved
      on from it by less than half a turn; one whose date is still to come is held back
      exactly while the counter has up to half a turn to go. */
  lemma DueExact(m: Message, date: nat, t: nat)
    requires m.nextAttemptMs == Stamp(date)
    ensures date <= t ==> (Due(m, Stamp(t)) <==> Stamp(t - date) < 0x8000_0000)
    ensures t < date ==> (!Due(m, Stamp(t)) <==> 0 < Stamp(date - t) <= 0x8000_0000)
  {
    if date <= t {
      ElapsedOfStamps(t, date);
    } else {
      ElapsedOfStamps(date, t);
    }
  }

  lemma {:induction false} LoadedAtZero(entries: seq<Option<Record>>, room: nat)
    ensures forall m <- Loaded(entries, room) :: m.nextAttemptMs == 0 && m.attempts == 0
  {
    if entries != [] && room > 0 {
      LoadedAtZero(entries[1..], if entries[0].None? then room else room - 1);
    }
  }

  /** A reloaded entry is dated zero.  In the second half of every turn of the counter it
      is not due, and a service call leaves it as it is, however often it is made. */
  lemma ReloadedIsHeldBack(s: Outbox, p: nat, t: nat, answers: seq<bool>)
    requires |s.queue| <= QUEUE_SIZE && |s.queue| <= p < |Reload(s).queue| <= QUEUE_SIZE
    ensures Due(Reload(s).queue[p], Stamp(t)) <==> Stamp(t) < 0x8000_0000
    ensures Stamp(t) >= 0x8000_0000 ==> LeftAsIs(Reload(s), Service(true, Stamp(t), answers), p)
  {
    var loaded := Loaded(StoredEntries(s.nvs), QUEUE_SIZE - |s.queue|);
    LoadedAtZero(StoredEntries(s.nvs), QUEUE_SIZE - |s.queue|);
    assert Reload(s).queue[p] == loaded[p - |s.queue|];
    DueExact(Reload(s).queue[p], 0, t);
    if Stamp(t) >= 0x8000_0000 {
      MovedKeepsEntry(Reload(s), Service(true, Stamp(t), answers), p);
    }
  }

  ghost predicate LeftAsIs(s: Outbox, op: Op, i: nat)
    requires |s.queue| <= QUEUE_SIZE && i < |s.queue|
  {
    && Moved(s, op, i).Some? && Moved(s, op, i).value < |Step(s, op).queue|
    && Step(s, op).queue[Moved(s, op, i).value] == s.queue[i]
  }
}
