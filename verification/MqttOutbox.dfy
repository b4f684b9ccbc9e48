/** The MQTT retry queue: eight slots, two priority classes, exponential
    backoff, and a copy of the critical entries in non-volatile storage (NVS).

    `Outbox` is the queue and its NVS namespace as values, with one step function
    per operation; `RetryQueue` is the device's own form, an array shifted in
    place, proved to take exactly those steps.
 */
module MqttOutbox {
  import opened Words

  const QUEUE_SIZE: nat := 8
  const PAYLOAD_LIMIT: nat := 768
  const TOPIC_BUFFER: nat := 160
  const BASE_BACKOFF_MS: nat := 1000
  const MAX_BACKOFF_MS: nat := 30000

  datatype Message = Message(
    topic: string, payload: string, retain: bool, critical: bool,
    nextAttemptMs: U32, attempts: Byte)

  /** What one persisted entry keeps. */
  datatype Record = Record(topic: string, payload: string, retain: bool)

  /** The keys "t<i>", "p<i>", "r<i>" and "count" of the NVS namespace. */
  datatype Key = TopicKey(i: nat) | PayloadKey(i: nat) | RetainKey(i: nat) | CountKey
  datatype Value = Text(text: string) | Number(number: Byte)
  type Store = map<Key, Value>

  /** `nvs` is `None` until the namespace is first opened for writing. */
  datatype Outbox = Outbox(queue: seq<Message>, nvs: Option<Store>)

  // ---- Non-volatile storage ------------------------------------------------

  /** The entries a store must hold for `records`, without the count. */
  function Fields(records: seq<Record>): Store {
    if records == [] then map[] else
      var n := |records| - 1;
      Fields(records[..n])
        [TopicKey(n) := Text(records[n].topic)]
        [PayloadKey(n) := Text(records[n].payload)]
        [RetainKey(n) := Number(if records[n].retain then 1 else 0)]
  }

  /** The whole namespace after a persist of `records`. */
  function Image(records: seq<Record>): Store
    requires |records| <= QUEUE_SIZE
  {
    Fields(records)[CountKey := Number(|records|)]
  }

  lemma FieldsAppend(records: seq<Record>, r: Record)
    ensures Fields(records + [r]) ==
            Fields(records)
              [TopicKey(|records|) := Text(r.topic)]
              [PayloadKey(|records|) := Text(r.payload)]
              [RetainKey(|records|) := Number(if r.retain then 1 else 0)]
  {
    assert (records + [r])[..|records|] == records;
  }

  function RecordOf(m: Message): Record {
    Record(m.topic, m.payload, m.retain)
  }

  /** The records of the critical entries, in queue order. */
  function Critical(q: seq<Message>): (r: seq<Record>)
    ensures |r| <= |q|
  {
    if q == [] then [] else
      var n := |q| - 1;
      Critical(q[..n]) + if q[n].critical then [RecordOf(q[n])] else []
  }

  lemma CriticalAppend(q: seq<Message>, m: Message)
    ensures Critical(q + [m]) == if m.critical then Critical(q) + [RecordOf(m)] else Critical(q)
  {
    assert (q + [m])[..|q|] == q;
  }

  /** `nvs_get_str` into a buffer of `capacity` bytes, terminator included. */
  function GetText(store: Store, key: Key, capacity: nat): Option<string> {
    if key in store && store[key].Text? && |store[key].text| < capacity
    then Some(store[key].text) else None
  }

  function GetNumber(store: Store, key: Key): Option<Byte> {
    if key in store && store[key].Number? then Some(store[key].number) else None
  }

  function Restored(r: Record): Message {
    Message(r.topic, r.payload, r.retain, true, 0, 0)
  }

  /** Entry `i` as a load reads it; `None` when a string is missing or too long. */
  function StoredRecord(store: Store, i: nat): Option<Record> {
    var topic := GetText(store, TopicKey(i), TOPIC_BUFFER);
    var payload := GetText(store, PayloadKey(i), PAYLOAD_LIMIT);
    var retain := GetNumber(store, RetainKey(i));
    if topic.Some? && payload.Some?
    then Some(Record(topic.value, payload.value, retain.Some? && retain.value != 0))
    else None
  }

  /** The entries a load tries, one for each counted index. */
  function StoredEntries(nvs: Option<Store>): (r: seq<Option<Record>>)
    ensures |r| <= QUEUE_SIZE
  {
    if nvs.None? || GetNumber(nvs.value, CountKey).None? then [] else
      var n := Min(GetNumber(nvs.value, CountKey).value, QUEUE_SIZE);
      seq(n, i requires 0 <= i => StoredRecord(nvs.value, i))
  }

  /** The messages those entries add to a queue with `room` free slots. */
  function Loaded(entries: seq<Option<Record>>, room: nat): (r: seq<Message>)
    ensures |r| <= room
  {
    if entries == [] || room == 0 then []
    else if entries[0].None? then Loaded(entries[1..], room)
    else [Restored(entries[0].value)] + Loaded(entries[1..], room - 1)
  }

  /** Reloading storage onto whatever the queue already holds. */
  function Reload(s: Outbox): Outbox
    requires |s.queue| <= QUEUE_SIZE
  {
    s.(queue := s.queue + Loaded(StoredEntries(s.nvs), QUEUE_SIZE - |s.queue|))
  }

  /** Power-up: RAM is empty, storage is what the last run left. */
  function ColdBoot(nvs: Option<Store>): Outbox {
    Reload(Outbox([], nvs))
  }

  // ---- Enqueue ---------------------------------------------------------------

  predicate AllCritical(q: seq<Message>) {
    forall k :: 0 <= k < |q| ==> q[k].critical
  }

  /** The slot a full queue gives up: its oldest noncritical entry, else its oldest. */
  function Victim(q: seq<Message>): (d: nat)
    ensures AllCritical(q) ==> d == 0
    ensures !AllCritical(q) ==> FirstNoncritical(q, d)
  {
    if AllCritical(q) || !q[0].critical then 0
    else
      assert forall k :: 0 < k < |q| ==> q[k] == q[1..][k - 1];
      1 + Victim(q[1..])
  }

  predicate FirstNoncritical(q: seq<Message>, d: nat) {
    d < |q| && !q[d].critical && forall k :: 0 <= k < d ==> q[k].critical
  }

  function Without<T>(q: seq<T>, d: nat): seq<T>
    requires d < |q|
  {
    q[..d] + q[d + 1..]
  }

  predicate Refused(s: Outbox, topic: string, payload: string, critical: bool) {
    || topic == ""
    || |payload| >= PAYLOAD_LIMIT
    || (|s.queue| >= QUEUE_SIZE && AllCritical(s.queue) && !critical)
  }

  function Enqueued(s: Outbox, topic: string, payload: string, retain: bool,
                    critical: bool, now: U32): (t: Outbox)
    requires |s.queue| <= QUEUE_SIZE
    ensures |t.queue| <= QUEUE_SIZE
  {
    if Refused(s, topic, payload, critical) then s else
      var full := |s.queue| == QUEUE_SIZE;
      var kept := if full then Without(s.queue, Victim(s.queue)) else s.queue;
      var queue := kept + [Message(topic, payload, retain, critical, now, 0)];
      Outbox(queue, if critical then Some(Image(Critical(queue))) else s.nvs)
  }

  // ---- Service ---------------------------------------------------------------

  /** The signed reading of `now - nextAttemptMs`: not before its time. */
  predicate Due(m: Message, now: U32) {
    Elapsed(now, m.nextAttemptMs) < 0x8000_0000
  }

  function DueOnes(q: seq<Message>, now: U32): (r: seq<Message>)
    ensures |r| <= |q|
  {
    if q == [] then []
    else (if Due(q[0], now) then [q[0]] else []) + DueOnes(q[1..], now)
  }

  /** The wait after `attempts` failures. */
  function Backoff(attempts: nat): nat {
    Min(BASE_BACKOFF_MS * Pow2(attempts), MAX_BACKOFF_MS)
  }

  /** A rejected entry: one more failure on its one-byte counter, and a later date. */
  function Rescheduled(m: Message, now: U32): Message {
    var attempts := (m.attempts + 1) % 256;
    m.(attempts := attempts, nextAttemptMs := (now + Backoff(attempts)) % TWO32)
  }

  // The broker's answers, one for each publish in the order they are made; an
  // answer that is not listed is a rejection.
  predicate Accepts(answers: seq<bool>, k: nat) {
    k < |answers| && answers[k]
  }

  function Later(answers: seq<bool>, k: nat): seq<bool> {
    if k <= |answers| then answers[k..] else []
  }

  /** What a pass leaves of one entry. */
  function Outcome(m: Message, now: U32, accepted: bool): (r: seq<Message>)
    ensures |r| <= 1
  {
    if !Due(m, now) then [m] else if accepted then [] else [Rescheduled(m, now)]
  }

  /** The answers left for the entries behind `m`. */
  function Unspent(m: Message, now: U32, answers: seq<bool>): seq<bool> {
    if Due(m, now) then Later(answers, 1) else answers
  }

  /** The queue after one pass over it. */
  function Served(q: seq<Message>, now: U32, answers: seq<bool>): (r: seq<Message>)
    ensures |r| <= |q|
  {
    if q == [] then []
    else Outcome(q[0], now, Accepts(answers, 0))
         + Served(q[1..], now, Unspent(q[0], now, answers))
  }

  predicate SentCritical(q: seq<Message>, now: U32, answers: seq<bool>) {
    q != [] &&
    ((Due(q[0], now) && Accepts(answers, 0) && q[0].critical)
     || SentCritical(q[1..], now, Unspent(q[0], now, answers)))
  }

  function Serviced(s: Outbox, connected: bool, now: U32, answers: seq<bool>): (t: Outbox)
    requires |s.queue| <= QUEUE_SIZE
    ensures |t.queue| <= QUEUE_SIZE
  {
    if !connected then s else
      var queue := Served(s.queue, now, answers);
      Outbox(queue, if SentCritical(s.queue, now, answers)
                    then Some(Image(Critical(queue))) else s.nvs)
  }

  lemma LoadStep(held: seq<Message>, entries: seq<Option<Record>>)
    requires |held| < QUEUE_SIZE && entries != []
    ensures var room := QUEUE_SIZE - |held|;
            held + Loaded(entries, room) ==
            if entries[0].None? then held + Loaded(entries[1..], room)
            else (held + [Restored(entries[0].value)]) + Loaded(entries[1..], room - 1)
  {
  }

  /** A pass under way: `done` is settled, `rest` still to visit. */
  ghost predicate PassState(before: seq<Message>, now: U32, answers: seq<bool>, done: seq<Message>,
                            rest: seq<Message>, offered: seq<Message>, sentCritical: bool) {
    var remaining := Later(answers, |offered|);
    && Served(before, now, answers) == done + Served(rest, now, remaining)
    && DueOnes(before, now) == offered + DueOnes(rest, now)
    && SentCritical(before, now, answers) == (sentCritical || SentCritical(rest, now, remaining))
  }

  lemma PassStep(before: seq<Message>, now: U32, answers: seq<bool>, done: seq<Message>,
                 rest: seq<Message>, offered: seq<Message>, sentCritical: bool)
    requires rest != [] && PassState(before, now, answers, done, rest, offered, sentCritical)
    ensures var m, ok := rest[0], Accepts(answers, |offered|);
            PassState(before, now, answers, done + Outcome(m, now, ok), rest[1..],
                      if Due(m, now) then offered + [m] else offered,
                      sentCritical || (Due(m, now) && ok && m.critical))
  {
    var m, remaining := rest[0], Later(answers, |offered|);
    assert Later(remaining, 1) == Later(answers, |offered + [m]|);
    var tail := rest[1..];
    ConcatAssociates(offered, if Due(m, now) then [m] else [], DueOnes(tail, now));
    ConcatAssociates(done, Outcome(m, now, Accepts(remaining, 0)),
                     Served(tail, now, Unspent(m, now, remaining)));
  }

  lemma Splice<T>(a: seq<T>, b: seq<T>)
    requires b != []
    ensures (a + b)[..|a|] == a && (a + b)[|a| + 1..] == b[1..]
    ensures a + b == (a + [b[0]]) + b[1..]
  {
  }

  lemma ConcatAssociates<T>(a: seq<T>, b: seq<T>, c: seq<T>)
    ensures a + (b + c) == (a + b) + c
    ensures a + ([] + c) == a + c
    ensures a + [] == a
  {
    assert [] + c == c;
  }

  // ---- The device's form -----------------------------------------------------

  method QueueBackoffMs(attempts: Byte) returns (backoff: nat)
    ensures backoff == Backoff(attempts)
  {
    backoff := BASE_BACKOFF_MS;
    var i := 0;
    while i < attempts && backoff < MAX_BACKOFF_MS
      invariant 0 <= i <= attempts
      invariant backoff == BASE_BACKOFF_MS * Pow2(i)
      decreases attempts - i
    {
      backoff := backoff * 2;
      i := i + 1;
    }
    Pow2Grows(i, attempts);
    if backoff > MAX_BACKOFF_MS {
      backoff := MAX_BACKOFF_MS;
    }
  }

  class RetryQueue {
    var slots: array<Message>
    var count: nat
    var nvs: Option<Store>

    ghost predicate Valid()
      reads this
    {
      slots.Length == QUEUE_SIZE && count <= QUEUE_SIZE
    }

    ghost function View(): Outbox
      requires Valid()
      reads this, slots
    {
      Outbox(slots[..count], nvs)
    }

    constructor (stored: Option<Store>)
      ensures Valid() && fresh(slots)
      ensures View() == ColdBoot(stored)
    {
      slots := new Message[QUEUE_SIZE](_ => Message("", "", false, false, 0, 0));
      count := 0;
      nvs := stored;
      new;
      assert slots[..count] == [];
      LoadCriticalQueue();
    }

    method PersistCriticalQueue()
      requires Valid()
      modifies `nvs
      ensures nvs == Some(Image(Critical(slots[..count])))
    {
      var store: Store := map[];
      var persisted := 0;
      var i := 0;
      while i < count && persisted < QUEUE_SIZE
        invariant 0 <= i <= count
        invariant persisted == |Critical(slots[..i])|
        invariant store == Fields(Critical(slots[..i]))
      {
        assert slots[..i + 1] == slots[..i] + [slots[i]];
        CriticalAppend(slots[..i], slots[i]);
        if slots[i].critical {
          FieldsAppend(Critical(slots[..i]), RecordOf(slots[i]));
          store := store[TopicKey(persisted) := Text(slots[i].topic)];
          store := store[PayloadKey(persisted) := Text(slots[i].payload)];
          store := store[RetainKey(persisted) := Number(if slots[i].retain then 1 else 0)];
          persisted := persisted + 1;
        }
        i := i + 1;
      }
      nvs := Some(store[CountKey := Number(persisted)]);
    }

    method LoadCriticalQueue()
      requires Valid()
      modifies `count, slots
      ensures Valid() && slots == old(slots)
      ensures View() == Reload(old(View()))
    {
      ghost var total := Reload(View()).queue;
      ghost var entries := StoredEntries(nvs);
      if nvs.None? {
        return;
      }
      var n := GetNumber(nvs.value, CountKey);
      if n.None? {
        return;
      }
      var i := 0;
      while i < Min(n.value, QUEUE_SIZE) && count < QUEUE_SIZE
        invariant Valid() && 0 <= i <= |entries|
        invariant total == slots[..count] + Loaded(entries[i..], QUEUE_SIZE - count)
        decreases |entries| - i
      {
        ghost var held, rest := slots[..count], entries[i..];
        var stored := StoredRecord(nvs.value, i);
        assert rest[0] == entries[i] == stored && rest[1..] == entries[i + 1..];
        LoadStep(held, rest);
        if stored.Some? {
          Put(Restored(stored.value));
        }
        i := i + 1;
      }
    }

    /** Fills the next free slot. */
    method Put(item: Message)
      requires Valid() && count < QUEUE_SIZE
      modifies `count, slots
      ensures Valid() && count == old(count) + 1
      ensures slots[..count] == old(slots[..count]) + [item]
    {
      slots[count] := item;
      count := count + 1;
    }

    /** A rejected publish counts one more failure and waits its turn again. */
    method RetryLater(i: nat, now: U32)
      requires Valid() && i < count
      modifies slots
      ensures slots[..count] == old(slots[..count])[i := Rescheduled(old(slots[i]), now)]
    {
      var attempts := (slots[i].attempts + 1) % 256;
      var wait := QueueBackoffMs(attempts);
      slots[i] := slots[i].(attempts := attempts, nextAttemptMs := (now + wait) % TWO32);
    }

    /** Settles a due entry: gone when the broker accepted it, otherwise rescheduled. */
    method Settle(i: nat, now: U32, ok: bool)
      requires Valid() && i < count && Due(slots[i], now)
      modifies `count, slots
      ensures Valid()
      ensures var q := old(slots[..count]);
              slots[..count] == (q[..i] + Outcome(q[i], now, ok)) + q[i + 1..]
    {
      ghost var q := slots[..count];
      if ok {
        RemoveAt(i);
        assert q[..i] + [] == q[..i];
      } else {
        RetryLater(i, now);
        assert slots[..count] == (q[..i] + [Rescheduled(q[i], now)]) + q[i + 1..];
      }
    }

    /** Closes the gap left by slot `d`. */
    method RemoveAt(d: nat)
      requires Valid() && d < count
      modifies `count, slots
      ensures Valid()
      ensures slots[..count] == Without(old(slots[..count]), d)
    {
      ghost var q := slots[..count];
      var i := d + 1;
      while i < count
        invariant d + 1 <= i <= count
        invariant slots[..i - 1] == Without(q, d)[..i - 1]
        invariant slots[i - 1..count] == q[i - 1..]
        modifies slots
      {
        assert slots[i] == slots[i - 1..count][1] == q[i] == Without(q, d)[i - 1];
        ghost var head, tail := slots[..i - 1], slots[i..count];
        slots[i - 1] := slots[i];
        assert slots[..i] == head + [q[i]] && slots[i..count] == tail == q[i..];
        i := i + 1;
      }
      count := count - 1;
    }

    method EnqueueOutbound(topic: string, payload: string, retain: bool, critical: bool, now: U32)
      returns (ok: bool)
      requires Valid()
      modifies this, slots
      ensures Valid() && slots == old(slots)
      ensures ok == !Refused(old(View()), topic, payload, critical)
      ensures View() == Enqueued(old(View()), topic, payload, retain, critical, now)
    {
      if topic == "" || |payload| >= PAYLOAD_LIMIT {
        return false;
      }
      ghost var before := slots[..count];
      if count >= QUEUE_SIZE {
        var drop := 0;
        var foundNoncritical := false;
        var i := 0;
        while i < count && !foundNoncritical
          invariant 0 <= i <= count
          invariant forall k :: 0 <= k < i ==> slots[k].critical
          invariant foundNoncritical ==> drop == i < count && !slots[i].critical
          invariant !foundNoncritical ==> drop == 0
          decreases count - i, !foundNoncritical
        {
          if !slots[i].critical {
            drop := i;
            foundNoncritical := true;
          } else {
            i := i + 1;
          }
        }
        assert drop == Victim(before);
        if !foundNoncritical && !critical {
          return false;
        }
        var droppedCritical := slots[drop].critical;
        RemoveAt(drop);
        if droppedCritical {
          PersistCriticalQueue();
        }
      }
      Put(Message(topic, payload, retain, critical, now, 0));
      if critical {
        PersistCriticalQueue();
      }
      return true;
    }

    /** One pass over the queue: `offered` lists the publishes made, in order. */
    method OfferDue(now: U32, answers: seq<bool>) returns (offered: seq<Message>, criticalChanged: bool)
      requires Valid()
      modifies `count, slots
      ensures Valid()
      ensures slots[..count] == Served(old(slots[..count]), now, answers)
      ensures offered == DueOnes(old(slots[..count]), now)
      ensures criticalChanged == SentCritical(old(slots[..count]), now, answers)
    {
      ghost var before, done, rest := slots[..count], [], slots[..count];
      offered, criticalChanged := [], false;
      var i := 0;
      while i < count
        invariant Valid() && i <= count && i == |done| && slots[..count] == done + rest
        invariant PassState(before, now, answers, done, rest, offered, criticalChanged)
        decreases count - i
      {
        var item, ok := slots[i], Accepts(answers, |offered|);
        assert item == (done + rest)[i] == rest[0];
        PassStep(before, now, answers, done, rest, offered, criticalChanged);
        Splice(done, rest);
        done, rest := done + Outcome(item, now, ok), rest[1..];
        if !Due(item, now) {
          i := i + 1;
          continue;
        }
        offered := offered + [item];
        Settle(i, now, ok);
        if ok {
          if item.critical {
            criticalChanged := true;
          }
          continue;
        }
        i := i + 1;
      }
      assert rest == [];
    }

    method ServiceOutboundQueue(connected: bool, now: U32, answers: seq<bool>)
      returns (offered: seq<Message>)
      requires Valid()
      modifies this, slots
      ensures Valid() && slots == old(slots)
      ensures View() == Serviced(old(View()), connected, now, answers)
      ensures offered == if connected then DueOnes(old(slots[..count]), now) else []
    {
      if !connected || count == 0 {
        assert slots[..0] == [];
        return [];
      }
      var criticalChanged;
      offered, criticalChanged := OfferDue(now, answers);
      if criticalChanged {
        PersistCriticalQueue();
      }
    }
  }
}
