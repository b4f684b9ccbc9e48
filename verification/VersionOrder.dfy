/** Firmware version comparison: a scan with two cursors that compares the digit runs
    of two strings, and the update policy gates that use it.

    The specification is the order on lists of numbers, shorter lists padded with zeros.
 */
module VersionOrder {
  import opened Words

  predicate IsDigit(c: char) {
    '0' <= c <= '9'
  }

  function DigitValue(c: char): (d: nat)
    ensures d < 10
  {
    if IsDigit(c) then c as int - '0' as int else 0
  }

  // ---- The numbers in a string -----------------------------------------------

  /** The length of the longest prefix without a digit. */
  function Gap(s: string): (n: nat)
    ensures n <= |s|
  {
    if s == "" || IsDigit(s[0]) then 0 else 1 + Gap(s[1..])
  }

  /** The length of the longest prefix of digits. */
  function Run(s: string): (n: nat)
    ensures n <= |s|
  {
    if s == "" || !IsDigit(s[0]) then 0 else 1 + Run(s[1..])
  }

  /** The decimal value of a run of digits. */
  function Decimal(s: string): nat {
    if s == "" then 0 else 10 * Decimal(s[..|s| - 1]) + DigitValue(s[|s| - 1])
  }

  /** A gap ends at a digit or at the end. */
  lemma {:induction false} GapStops(s: string)
    ensures Gap(s) < |s| ==> IsDigit(s[Gap(s)]) && Run(s[Gap(s)..]) > 0
  {
    if s != "" && !IsDigit(s[0]) {
      GapStops(s[1..]);
      assert s[1..][Gap(s[1..])..] == s[Gap(s)..];
    } else if s != "" {
      assert s[0..] == s;
    }
  }

  /** The digit runs of a version string as numbers, in order. */
  function Fields(s: string): seq<nat>
    decreases |s|
  {
    var t := s[Gap(s)..];
    GapStops(s);
    if t == "" then [] else [Decimal(t[..Run(t)])] + Fields(t[Run(t)..])
  }

  // ---- The order -------------------------------------------------------------

  function Head(v: seq<nat>): nat {
    if v == [] then 0 else v[0]
  }

  function Tail(v: seq<nat>): seq<nat> {
    if v == [] then [] else v[1..]
  }

  function Sign(a: nat, b: nat): int {
    if a < b then -1 else if a > b then 1 else 0
  }

  /** Lexicographic order with missing numbers read as zero. */
  function Compare(v: seq<nat>, w: seq<nat>): (r: int)
    ensures -1 <= r <= 1
    decreases |v| + |w|
  {
    if v == [] && w == [] then 0
    else if Head(v) != Head(w) then Sign(Head(v), Head(w))
    else Compare(Tail(v), Tail(w))
  }

  /** What the 32-bit accumulator holds of each number. */
  function Wrapped(v: seq<nat>): (w: seq<nat>)
    ensures |w| == |v|
  {
    if v == [] then [] else [Stamp(v[0])] + Wrapped(v[1..])
  }

  ghost predicate Fits(v: seq<nat>) {
    forall k :: 0 <= k < |v| ==> v[k] < TWO32
  }

  lemma {:induction false} CompareAntisymmetric(v: seq<nat>, w: seq<nat>)
    ensures Compare(v, w) == -Compare(w, v)
    decreases |v| + |w|
  {
    if v != [] || w != [] {
      CompareAntisymmetric(Tail(v), Tail(w));
    }
  }

  lemma {:induction false} CompareTransitive(u: seq<nat>, v: seq<nat>, w: seq<nat>)
    requires Compare(u, v) <= 0 && Compare(v, w) <= 0
    ensures Compare(u, w) <= 0
    ensures Compare(u, w) == 0 ==> Compare(u, v) == 0 && Compare(v, w) == 0
    decreases |u| + |v| + |w|
  {
    if u != [] || v != [] || w != [] {
      HeadTail(u, v);
      HeadTail(v, w);
      HeadTail(u, w);
      if Head(u) == Head(v) == Head(w) {
        CompareTransitive(Tail(u), Tail(v), Tail(w));
      }
    }
  }

  /** One step of the comparison, also for two empty lists. */
  lemma HeadTail(v: seq<nat>, w: seq<nat>)
    ensures Compare(v, w) == if Head(v) != Head(w) then Sign(Head(v), Head(w)) else Compare(Tail(v), Tail(w))
  {
  }

  /** The order reads every position up to the first difference: equal means equal number
      by number, with zeros for what is missing. */
  lemma {:induction false} CompareZero(v: seq<nat>, w: seq<nat>)
    ensures Compare(v, w) == 0 <==> forall k: nat :: NumberAt(v, k) == NumberAt(w, k)
    decreases |v| + |w|
  {
    if v != [] || w != [] {
      CompareZero(Tail(v), Tail(w));
      assert NumberAt(v, 0) == Head(v) && NumberAt(w, 0) == Head(w);
      forall k: nat
        ensures NumberAt(Tail(v), k) == NumberAt(v, k + 1) && NumberAt(Tail(w), k) == NumberAt(w, k + 1)
      {
      }
      assert forall k: nat :: k > 0 ==> NumberAt(v, k) == NumberAt(Tail(v), k - 1);
      assert forall k: nat :: k > 0 ==> NumberAt(w, k) == NumberAt(Tail(w), k - 1);
    }
  }

  function NumberAt(v: seq<nat>, k: nat): nat {
    if k < |v| then v[k] else 0
  }

  /** The first place at which two lists differ decides: `v` is below `w` exactly when it
      has the smaller number there. */
  ghost predicate Below(v: seq<nat>, w: seq<nat>, k: nat) {
    NumberAt(v, k) < NumberAt(w, k) && forall j: nat :: j < k ==> NumberAt(v, j) == NumberAt(w, j)
  }

  lemma {:induction false} CompareDecides(v: seq<nat>, w: seq<nat>)
    ensures Compare(v, w) == -1 <==> exists k: nat :: Below(v, w, k)
    decreases |v| + |w|
  {
    if v != [] || w != [] {
      HeadTail(v, w);
      CompareDecides(Tail(v), Tail(w));
      assert forall k: nat {:trigger NumberAt(v, k + 1)} :: NumberAt(v, k + 1) == NumberAt(Tail(v), k);
      assert forall k: nat {:trigger NumberAt(w, k + 1)} :: NumberAt(w, k + 1) == NumberAt(Tail(w), k);
      assert NumberAt(v, 0) == Head(v) && NumberAt(w, 0) == Head(w);
      if Head(v) == Head(w) {
        BelowShifts(v, w);
      } else if Head(v) < Head(w) {
        assert Below(v, w, 0);
      }
    }
  }

  lemma BelowShifts(v: seq<nat>, w: seq<nat>)
    requires Head(v) == Head(w)
    ensures (exists k: nat :: Below(v, w, k)) <==> exists k: nat :: Below(Tail(v), Tail(w), k)
  {
    assert NumberAt(v, 0) == Head(v) && NumberAt(w, 0) == Head(w);
    if k: nat :| Below(v, w, k) {
      assert k > 0;
      forall j: nat | j < k - 1
        ensures NumberAt(Tail(v), j) == NumberAt(Tail(w), j)
      {
        assert NumberAt(v, j + 1) == NumberAt(w, j + 1);
      }
      assert Below(Tail(v), Tail(w), k - 1);
    }
    if k: nat :| Below(Tail(v), Tail(w), k) {
      forall j: nat | j < k + 1
        ensures NumberAt(v, j) == NumberAt(w, j)
      {
        if j > 0 {
          assert NumberAt(Tail(v), j - 1) == NumberAt(Tail(w), j - 1);
        }
      }
      assert Below(v, w, k + 1);
    }
  }

  // ---- The scan --------------------------------------------------------------

  function Later(s: string): string {
    var t := s[Gap(s)..]; t[Run(t)..]
  }

  lemma FieldsStep(s: string)
    ensures var t := s[Gap(s)..];
            Head(Fields(s)) == Decimal(t[..Run(t)]) && Tail(Fields(s)) == Fields(Later(s))
  {
    var t := s[Gap(s)..];
    if t == "" {
      assert Later(s) == "" && t[..Run(t)] == "";
    }
  }

  lemma {:induction false} GapUnique(s: string, n: nat)
    requires n <= |s| && (n < |s| ==> IsDigit(s[n])) && forall k :: 0 <= k < n ==> !IsDigit(s[k])
    ensures Gap(s) == n
  {
    if n > 0 {
      assert forall k :: 0 <= k < |s| - 1 ==> s[1..][k] == s[k + 1];
      GapUnique(s[1..], n - 1);
    }
  }

  lemma {:induction false} RunUnique(s: string, n: nat)
    requires n <= |s| && (n < |s| ==> !IsDigit(s[n])) && forall k :: 0 <= k < n ==> IsDigit(s[k])
    ensures Run(s) == n
  {
    if n > 0 {
      assert forall k :: 0 <= k < |s| - 1 ==> s[1..][k] == s[k + 1];
      RunUnique(s[1..], n - 1);
    }
  }

  /** Anything that is not a digit only separates. */
  lemma {:induction false} NonDigitsSeparate(junk: string, s: string)
    requires forall c <- junk :: !IsDigit(c)
    ensures Fields(junk + s) == Fields(s)
  {
    if junk == [] {
      assert junk + s == s;
    } else {
      assert (junk + s)[1..] == junk[1..] + s;
      NonDigitsSeparate(junk[1..], s);
      var t := junk + s;
      assert t[Gap(t)..] == t[1..][Gap(t[1..])..];
    }
  }

  /** Every run of digits is one number, whatever comes after it. */
  lemma DigitsAreNumber(digits: string, s: string)
    requires digits != "" && (forall c <- digits :: IsDigit(c)) && (s == "" || !IsDigit(s[0]))
    ensures Fields(digits + s) == [Decimal(digits)] + Fields(s)
  {
    var t := digits + s;
    assert Gap(t) == 0 && t[0..] == t;
    RunUnique(t, |digits|);
    assert t[..|digits|] == digits && t[|digits|..] == s;
  }

  /** `acc * 10 + digit` on the 32-bit accumulator. */
  function Accumulated(acc: U32, digit: nat): U32
    requires digit < 10
  {
    (acc * 10 + digit) % TWO32
  }

  lemma AccumulatedStamp(value: nat, digit: nat)
    requires digit < 10
    ensures Accumulated(Stamp(value), digit) == Stamp(10 * value + digit)
  {
    StampIsRemainder(value);
    StampIsRemainder(10 * value + digit);
    var q := value / TWO32;
    var low := Stamp(value) * 10 + digit;
    assert 10 * value + digit == (10 * q) * TWO32 + low;
    RemainderShift(low, 10 * q);
  }

  lemma RemainderShift(low: nat, k: nat)
    ensures (k * TWO32 + low) % TWO32 == low % TWO32
  {
    var r, q := low % TWO32, low / TWO32;
    ModUnique(k * TWO32 + low, k + q, r);
  }

  method SkipToDigit(s: string, from: nat) returns (start: nat)
    requires from <= |s|
    ensures from <= start <= |s| && start - from == Gap(s[from..])
  {
    start := from;
    while start < |s| && !IsDigit(s[start])
      invariant from <= start <= |s|
      invariant forall k :: from <= k < start ==> !IsDigit(s[k])
    {
      start := start + 1;
    }
    GapUnique(s[from..], start - from);
  }

  lemma DecimalExtends(s: string, start: nat, end: nat)
    requires start <= end < |s|
    ensures Decimal(s[start..end + 1]) == 10 * Decimal(s[start..end]) + DigitValue(s[end])
  {
    assert s[start..end + 1][..end - start] == s[start..end];
  }

  lemma RunFound(s: string, start: nat, end: nat)
    requires start <= end <= |s| && (end < |s| ==> !IsDigit(s[end]))
    requires forall k :: start <= k < end ==> IsDigit(s[k])
    ensures Run(s[start..]) == end - start
  {
    RunUnique(s[start..], end - start);
  }

  method ReadRun(s: string, start: nat) returns (end: nat, value: U32)
    requires start <= |s|
    ensures start <= end <= |s| && end - start == Run(s[start..])
    ensures value == Stamp(Decimal(s[start..end]))
  {
    value := 0;
    end := start;
    while end < |s| && IsDigit(s[end])
      invariant start <= end <= |s|
      invariant forall k :: start <= k < end ==> IsDigit(s[k])
      invariant value == Stamp(Decimal(s[start..end]))
    {
      DecimalExtends(s, start, end);
      AccumulatedStamp(Decimal(s[start..end]), DigitValue(s[end]));
      value := Accumulated(value, DigitValue(s[end]));
      end := end + 1;
    }
    RunFound(s, start, end);
  }

  /** Skips to the next digit run from `from` and reads it. */
  method ReadNumber(s: string, from: nat) returns (end: nat, value: U32)
    requires from <= |s|
    ensures from <= end <= |s| && (from < |s| ==> from < end)
    ensures s[end..] == Later(s[from..])
    ensures value == Stamp(Head(Fields(s[from..])))
  {
    var start := SkipToDigit(s, from);
    end, value := ReadRun(s, start);
    NumberFound(s, from, start, end);
  }

  /** The fields from `from` on, told by the cursors. */
  lemma NumberFound(s: string, from: nat, start: nat, end: nat)
    requires from <= start <= end <= |s|
    requires start - from == Gap(s[from..]) && end - start == Run(s[start..])
    ensures s[end..] == Later(s[from..]) && Head(Fields(s[from..])) == Decimal(s[start..end])
    ensures from < |s| ==> from < end
  {
    Slices(s, from, start, end);
    FieldsAt(s[from..], start - from, s[start..], end - start);
    CursorMoves(s[from..], start - from, s[start..], end - start);
  }

  lemma CursorMoves(s: string, gap: nat, t: string, run: nat)
    requires gap == Gap(s) && t == s[gap..] && run == Run(t)
    ensures s != "" ==> gap + run > 0
  {
    GapStops(s);
  }

  lemma Slices(s: string, from: nat, start: nat, end: nat)
    requires from <= start <= end <= |s|
    ensures s[from..][start - from..] == s[start..]
    ensures s[start..][..end - start] == s[start..end]
    ensures s[start..][end - start..] == s[end..]
  {
  }

  lemma FieldsAt(s: string, gap: nat, t: string, run: nat)
    requires gap == Gap(s) && t == s[gap..] && run == Run(t)
    ensures Later(s) == t[run..] && Head(Fields(s)) == Decimal(t[..run])
  {
    FieldsStep(s);
  }

  lemma {:induction false} WrappedStep(v: seq<nat>)
    ensures Head(Wrapped(v)) == Stamp(Head(v)) && Tail(Wrapped(v)) == Wrapped(Tail(v))
  {
  }

  /** The scan is the order on the wrapped numbers of the two strings. */
  method CompareVersion(a: string, b: string) returns (r: int)
    ensures r == Compare(Wrapped(Fields(a)), Wrapped(Fields(b)))
  {
    var ia, ib := 0, 0;
    assert a[0..] == a && b[0..] == b;
    while ia < |a| || ib < |b|
      invariant ia <= |a| && ib <= |b|
      invariant Compare(Wrapped(Fields(a)), Wrapped(Fields(b)))
             == Compare(Wrapped(Fields(a[ia..])), Wrapped(Fields(b[ib..])))
      decreases |a| - ia + |b| - ib
    {
      ghost var v, w := Fields(a[ia..]), Fields(b[ib..]);
      FieldsStep(a[ia..]);
      FieldsStep(b[ib..]);
      WrappedStep(v);
      WrappedStep(w);
      HeadTail(Wrapped(v), Wrapped(w));
      var va, vb;
      ia, va := ReadNumber(a, ia);
      ib, vb := ReadNumber(b, ib);
      if va < vb {
        return -1;
      }
      if va > vb {
        return 1;
      }
      if ia >= |a| && ib >= |b| {
        assert Fields(a[ia..]) == [] && Fields(b[ib..]) == [];
        return 0;
      }
    }
    assert Fields(a[ia..]) == [] && Fields(b[ib..]) == [];
    return 0;
  }

  /** The comparison as the firmware makes it. */
  function Order(a: string, b: string): int {
    Compare(Wrapped(Fields(a)), Wrapped(Fields(b)))
  }

  // ---- Where 32 bits are enough ----------------------------------------------

  function Digits(n: nat): (s: string)
    ensures s != "" && forall k :: 0 <= k < |s| ==> IsDigit(s[k])
  {
    var last := [('0' as int + n % 10) as char];
    if n < 10 then last else Digits(n / 10) + last
  }

  /** A version string with the given numbers. */
  function Rendered(v: seq<nat>): string {
    if v == [] then "" else Digits(v[0]) + ("." + Rendered(v[1..]))
  }

  lemma {:induction false} DecimalOfDigits(n: nat)
    ensures Decimal(Digits(n)) == n
  {
    var s := Digits(n);
    if n < 10 {
      assert s[..0] == "";
    } else {
      DecimalOfDigits(n / 10);
      assert s[..|s| - 1] == Digits(n / 10);
    }
  }

  /** Reading a rendered version gives its numbers back. */
  lemma {:induction false} FieldsOfRendered(v: seq<nat>)
    ensures Fields(Rendered(v)) == v
  {
    if v != [] {
      var d, rest := Digits(v[0]), "." + Rendered(v[1..]);
      var s := d + rest;
      FieldsOfRendered(v[1..]);
      FieldsAfterDot(Rendered(v[1..]));
      GapUnique(s, 0);
      assert s[0..] == s;
      RunUnique(s, |d|);
      DecimalOfDigits(v[0]);
      assert s[..|d|] == d && s[|d|..] == rest;
    }
  }

  lemma FieldsAfterDot(s: string)
    ensures Fields("." + s) == Fields(s)
  {
    var t := "." + s;
    assert t[1..] == s;
    assert Gap(t) == 1 + Gap(s);
    assert t[Gap(t)..] == s[Gap(s)..];
  }

  lemma {:induction false} WrappedFits(v: seq<nat>)
    ensures Fits(Wrapped(v))
    ensures Fits(v) ==> Wrapped(v) == v
    ensures Compare(v, Wrapped(v)) == if Fits(v) then 0 else 1
  {
    if v != [] {
      WrappedFits(v[1..]);
      WrappedStep(v);
      assert v == [v[0]] + v[1..];
      assert Fits(v) <==> v[0] < TWO32 && Fits(v[1..]) by {
        assert forall k :: 0 < k < |v| ==> v[k] == v[1..][k - 1];
        assert forall k :: 0 <= k < |v| - 1 ==> v[1..][k] == v[k + 1];
      }
    }
  }

  /** Against every version whose numbers fit 32 bits the firmware's answer is the
      numeric one, exactly when the numbers of `a` fit as well. */
  lemma NumericExactly(a: string)
    ensures (forall b: string :: Fits(Fields(b)) ==> Order(a, b) == Compare(Fields(a), Fields(b)))
            <==> Fits(Fields(a))
  {
    var v := Fields(a);
    WrappedFits(v);
    if Fits(v) {
      forall b: string | Fits(Fields(b))
        ensures Order(a, b) == Compare(v, Fields(b))
      {
        WrappedFits(Fields(b));
      }
    } else {
      var b := Rendered(Wrapped(v));
      FieldsOfRendered(Wrapped(v));
      WrappedFits(Wrapped(v));
      CompareAntisymmetric(Wrapped(v), Wrapped(v));
      assert Order(a, b) == 0 && Compare(v, Fields(b)) == 1;
    }
  }

  // ---- Policy gates ----------------------------------------------------------

  datatype Policy = Policy(
    minimum: string, maximum: string, hardware: string,
    capabilityMatches: bool, cohortMatches: bool)

  datatype Decision =
    | Allowed | BelowMinimum | AboveMaximum | HardwareMismatch | CapabilityMismatch | CohortMismatch

  method IsPolicyAllowed(firmware: string, target: string, p: Policy) returns (d: Decision)
    ensures d.BelowMinimum? <==> p.minimum != "" && Order(firmware, p.minimum) < 0
    ensures d.AboveMaximum? <==> !d.BelowMinimum? && p.maximum != "" && Order(firmware, p.maximum) > 0
    ensures d in {Allowed, HardwareMismatch, CapabilityMismatch, CohortMismatch}
            <==> WithinGates(firmware, p.minimum, p.maximum)
    ensures WithinGates(firmware, p.minimum, p.maximum) ==>
              var fits := p.hardware in {"", "all", "*", target};
              && (d.HardwareMismatch? <==> !fits)
              && (d.CapabilityMismatch? <==> fits && !p.capabilityMatches)
              && (d.CohortMismatch? <==> fits && p.capabilityMatches && !p.cohortMatches)
              && (d.Allowed? <==> fits && p.capabilityMatches && p.cohortMatches)
  {
    if p.minimum != "" {
      var below := CompareVersion(firmware, p.minimum);
      if below < 0 {
        return BelowMinimum;
      }
    }
    if p.maximum != "" {
      var above := CompareVersion(firmware, p.maximum);
      if above > 0 {
        return AboveMaximum;
      }
    }
    if p.hardware != "" && p.hardware != "all" && p.hardware != "*" && p.hardware != target {
      return HardwareMismatch;
    }
    if !p.capabilityMatches {
      return CapabilityMismatch;
    }
    if !p.cohortMatches {
      return CohortMismatch;
    }
    return Allowed;
  }

  predicate WithinGates(version: string, minimum: string, maximum: string) {
    (minimum == "" || Order(version, minimum) >= 0) && (maximum == "" || Order(version, maximum) <= 0)
  }

  /** The two gates admit an interval: a version between two admitted ones is admitted. */
  lemma GatesAreAnInterval(low: string, version: string, high: string, minimum: string, maximum: string)
    requires WithinGates(low, minimum, maximum) && WithinGates(high, minimum, maximum)
    requires Order(low, version) <= 0 && Order(version, high) <= 0
    ensures WithinGates(version, minimum, maximum)
  {
    if minimum != "" {
      OrderTransitive(minimum, low, version);
    }
    if maximum != "" {
      OrderTransitive(version, high, maximum);
    }
  }

  /** The firmware's comparison is a total preorder on all strings. */
  lemma OrderTransitive(a: string, b: string, c: string)
    ensures Order(a, b) == -Order(b, a)
    ensures Order(b, c) == -Order(c, b)
    ensures Order(a, c) == -Order(c, a)
    ensures Order(a, b) <= 0 && Order(b, c) <= 0 ==> Order(a, c) <= 0
    ensures Order(a, a) == 0
  {
    var u, v, w := Wrapped(Fields(a)), Wrapped(Fields(b)), Wrapped(Fields(c));
    CompareAntisymmetric(u, v);
    CompareAntisymmetric(v, w);
    CompareAntisymmetric(u, w);
    CompareAntisymmetric(u, u);
    if Compare(u, v) <= 0 && Compare(v, w) <= 0 {
      CompareTransitive(u, v, w);
    }
  }
}
