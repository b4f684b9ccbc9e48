/** What a debounced input of the cabinet lock says about the raw samples behind it. */
module CabinetLockInputs {
  import opened Words
  import opened CabinetLock
  import opened CabinetLockRuns

  /** A raw reading and the true time it was taken. */
  datatype Sample = Sample(raw: bool, at: nat)

  /** The firmware's fold over a sample history. */
  function Debounced(hist: seq<Sample>, start: Input, debounceMs: nat): Input {
    if hist == [] then start else
      var last := hist[|hist| - 1];
      Sampled(Debounced(hist[..|hist| - 1], start, debounceMs), last.raw, Stamp(last.at), debounceMs)
  }

  /** The time of the last sample that read `raw`. */
  function LastSeen(hist: seq<Sample>, raw: bool): nat {
    if hist == [] then 0
    else var last := hist[|hist| - 1]; if last.raw == raw then last.at else LastSeen(hist[..|hist| - 1], raw)
  }

  /** The intended value, from the history alone and in true time: it flips at a sample
      that differs from it, once the debounce time has passed since it was last seen. */
  function Intended(hist: seq<Sample>, debounceMs: nat): bool
    requires hist != []
  {
    var n := |hist| - 1;
    if n == 0 then hist[0].raw else
      var held := Intended(hist[..n], debounceMs);
      if hist[n].raw != held && hist[n].at - LastSeen(hist[..n], held) >= debounceMs then !held else held
  }

  /** The stretch of samples, from `a` to the last, that make the input flip: `a` agrees
      with the held value, none after it does, and it is old enough. */
  ghost predicate FlipsSince(hist: seq<Sample>, debounceMs: nat, a: nat)
    requires |hist| >= 2
  {
    var n := |hist| - 1;
    var held := Intended(hist[..n], debounceMs);
    && a < n && hist[a].raw == held
    && (forall k :: a < k <= n ==> hist[k].raw != held)
    && hist[n].at - hist[a].at >= debounceMs
  }

  /** An intended flip happens exactly when such a stretch exists. */
  lemma FlipMeaning(hist: seq<Sample>, debounceMs: nat)
    requires |hist| >= 2
    ensures var n := |hist| - 1;
            Intended(hist, debounceMs) != Intended(hist[..n], debounceMs)
            <==> exists a: nat :: FlipsSince(hist, debounceMs, a)
  {
    var n := |hist| - 1;
    var held := Intended(hist[..n], debounceMs);
    HeldWasSeen(hist[..n], debounceMs);
    var a := LastSeenAt(hist[..n], held);
    if hist[n].raw != held && hist[n].at - hist[a].at >= debounceMs {
      assert forall k :: a < k < n ==> hist[..n][k].raw != held;
      assert FlipsSince(hist, debounceMs, a);
    }
    forall b: nat | FlipsSince(hist, debounceMs, b)
      ensures b == a
    {
      assert hist[..n][b].raw == held;
    }
  }

  lemma {:induction false} HeldWasSeen(hist: seq<Sample>, debounceMs: nat)
    requires hist != []
    ensures exists k :: 0 <= k < |hist| && hist[k].raw == Intended(hist, debounceMs)
  {
    var n := |hist| - 1;
    if n == 0 {
      assert hist[0].raw == Intended(hist, debounceMs);
    } else {
      HeldWasSeen(hist[..n], debounceMs);
      var k :| 0 <= k < n && hist[..n][k].raw == Intended(hist[..n], debounceMs);
      assert hist[k] == hist[..n][k];
      assert hist[n].raw == Intended(hist, debounceMs) || hist[k].raw == Intended(hist, debounceMs);
    }
  }

  lemma {:induction false} LastSeenAt(hist: seq<Sample>, raw: bool) returns (a: nat)
    requires exists k :: 0 <= k < |hist| && hist[k].raw == raw
    ensures a < |hist| && hist[a].raw == raw && LastSeen(hist, raw) == hist[a].at
    ensures forall k :: a < k < |hist| ==> hist[k].raw != raw
  {
    var n := |hist| - 1;
    if hist[n].raw == raw {
      a := n;
    } else {
      var k :| 0 <= k < |hist| && hist[k].raw == raw;
      assert hist[..n][k].raw == raw;
      a := LastSeenAt(hist[..n], raw);
      forall k | a < k < n
        ensures hist[k].raw != raw
      {
        assert hist[..n][k].raw != raw;
      }
    }
  }

  ghost predicate Spaced(hist: seq<Sample>, gap: nat) {
    forall k :: 0 < k < |hist| ==> hist[k - 1].at <= hist[k].at <= hist[k - 1].at + gap
  }

  /** With sample gaps of at most 2^32 less the debounce time, the firmware's fold is
      the intended value. */
  lemma {:induction false} DebounceFollowsIntent(hist: seq<Sample>, start: Input, debounceMs: nat, gap: nat)
    requires hist != [] && !start.init && Spaced(hist, gap)
    requires debounceMs >= 1 && gap + debounceMs <= TWO32
    ensures var d, held := Debounced(hist, start, debounceMs), Intended(hist, debounceMs);
            var last := hist[|hist| - 1].at;
            && d == Input(held, Stamp(LastSeen(hist, held)), true)
            && LastSeen(hist, held) <= last < LastSeen(hist, held) + debounceMs
  {
    var n := |hist| - 1;
    if n == 0 {
      assert hist[..0] == [];
    } else {
      DebounceFollowsIntent(hist[..n], start, debounceMs, gap);
      var held := Intended(hist[..n], debounceMs);
      var seen := LastSeen(hist[..n], held);
      assert hist[..n][n - 1] == hist[n - 1];
      ElapsedOfStamps(hist[n].at, seen);
    }
  }

  ghost predicate DebounceSound(start: Input, debounceMs: nat, gap: nat) {
    forall hist: seq<Sample> :: hist != [] && Spaced(hist, gap) ==>
      Debounced(hist, start, debounceMs).held == Intended(hist, debounceMs)
  }

  /** The bound on the gap is exact.  A gap below 2^32 is not enough: a differing sample
      just short of the debounce time, then one a wrap after the agreeing sample. */
  lemma DebounceExact(start: Input, debounceMs: nat, gap: nat)
    requires !start.init && 1 <= debounceMs <= 0x8000_0000
    ensures DebounceSound(start, debounceMs, gap) <==> gap + debounceMs <= TWO32
  {
    if gap + debounceMs <= TWO32 {
      forall hist: seq<Sample> | hist != [] && Spaced(hist, gap)
        ensures Debounced(hist, start, debounceMs).held == Intended(hist, debounceMs)
      {
        DebounceFollowsIntent(hist, start, debounceMs, gap);
      }
    } else {
      var hist := [Sample(false, 0), Sample(true, debounceMs - 1), Sample(true, TWO32)];
      var two, one := hist[..2], hist[..1];
      assert two[..1] == one && one[..0] == [];
      assert Debounced(one, start, debounceMs) == Input(false, 0, true);
      assert Debounced(two, start, debounceMs) == Input(false, 0, true);
      assert Stamp(TWO32) == 0;
      assert !Debounced(hist, start, debounceMs).held;
      assert !Intended(one, debounceMs) && LastSeen(one, false) == 0;
      assert !Intended(two, debounceMs) && LastSeen(two, false) == 0;
      assert Intended(hist, debounceMs);
      assert Spaced(hist, gap);
    }
  }

  // ---- The four inputs of a run ----------------------------------------------

  datatype Channel = Reed | Latch | Ir | Mortise

  function InputOf(l: Lock, c: Channel): Input {
    match c case Reed => l.reed case Latch => l.latch case Ir => l.ir case Mortise => l.mortise
  }

  function PinOf(pins: Pins, c: Channel): bool {
    match c case Reed => pins.reed case Latch => pins.latch case Ir => pins.ir case Mortise => pins.mortise
  }

  function DebounceTime(c: Channel): nat {
    match c
    case Reed => REED_DEBOUNCE_MS
    case Latch => LATCH_DEBOUNCE_MS
    case Ir => IR_DEBOUNCE_MS
    case Mortise => MORTISE_DEBOUNCE_MS
  }

  /** What the ticks of a run sampled on one channel. */
  function Samples(ops: seq<Op>, c: Channel): seq<Sample> {
    if ops == [] then [] else
      var last := ops[|ops| - 1];
      Samples(ops[..|ops| - 1], c) + if last.Tick? then [Sample(PinOf(last.pins, c), last.sampledAt)] else []
  }

  lemma StepInput(l: Lock, op: Op, relock: nat, c: Channel)
    ensures InputOf(Step(l, op, relock), c) ==
            if op.Tick? then Sampled(InputOf(l, c), PinOf(op.pins, c), Stamp(op.sampledAt), DebounceTime(c))
            else InputOf(l, c)
  {
  }

  /** Each input of the lock is the debounced history of its own pin, with its own
      debounce time, whatever commands come between the ticks. */
  lemma {:induction false} InputsFollowPins(ops: seq<Op>, relock: nat, c: Channel)
    ensures InputOf(Run(ops, relock), c) == Debounced(Samples(ops, c), InputOf(Begun(0), c), DebounceTime(c))
  {
    if ops != [] {
      var n := |ops| - 1;
      InputsFollowPins(ops[..n], relock, c);
      StepInput(Run(ops[..n], relock), ops[n], relock, c);
      assert Run(ops, relock) == Step(Run(ops[..n], relock), ops[n], relock);
      var hist := Samples(ops[..n], c);
      if ops[n].Tick? {
        var s := Sample(PinOf(ops[n].pins, c), ops[n].sampledAt);
        assert (hist + [s])[..|hist|] == hist;
      } else {
        assert hist + [] == hist;
      }
    }
  }

  /** SECURE can be trusted: the intended values of reed and latch, from the raw
      samples of the run, are both true. */
  lemma SecureMeansClosed(ops: seq<Op>, relock: nat, gap: nat)
    requires Run(ops, relock).state == Secure
    requires Spaced(Samples(ops, Reed), gap) && Spaced(Samples(ops, Latch), gap)
    requires gap + REED_DEBOUNCE_MS <= TWO32
    ensures forall c <- [Reed, Latch] ::
              Samples(ops, c) != [] && Intended(Samples(ops, c), DebounceTime(c))
  {
    AlwaysSafe(ops, relock);
    forall c <- [Reed, Latch]
      ensures Samples(ops, c) != [] && Intended(Samples(ops, c), DebounceTime(c))
    {
      InputsFollowPins(ops, relock, c);
      if Samples(ops, c) != [] {
        DebounceFollowsIntent(Samples(ops, c), InputOf(Begun(0), c), DebounceTime(c), gap);
      }
    }
  }
}
