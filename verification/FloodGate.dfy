/** The upload flood gate of internal/client/upload_flood.go: a token bucket for each total
    upload size. Seconds are real numbers; rounding is not part of the model. */
module FloodGate {
  import opened Bytes
  import opened Decimal

  const THRESHOLD := 100000
  const FACTOR: real := 0.0000001
  const MIN_DELAY: real := 0.2
  const MAX_DELAY: real := 0.9
  const MAX_BUCKET: real := 1.0
  const BACKLOG: real := 5.0

  datatype Outcome = Proceed | Delay(seconds: real) | Limited

  function MinDelay(total: int): (d: real)
    ensures MIN_DELAY <= d <= MAX_DELAY
  {
    var d := total as real * FACTOR;
    if d < MIN_DELAY then MIN_DELAY else if d > MAX_DELAY then MAX_DELAY else d
  }

  function Max(a: real, b: real): real { if a >= b then a else b }

  /** computeFlood: the outcome and the new bucket value. */
  function ComputeFlood(total: int, last: real, now: real): (Outcome, real) {
    if last > now + BACKLOG then (Limited, last)
    else
      var level := Max(last + MinDelay(total), now - MAX_BUCKET);
      (if level > now then Delay(level - now) else Proceed, level)
  }

  // ---------- the gate ----------

  function Bucket(buckets: map<int, real>, total: int): real { if total in buckets then buckets[total] else 0.0 }

  /** A request past the gate's conditions: its size and when it came. */
  datatype Request = Request(total: int, now: real)

  function Step(buckets: map<int, real>, r: Request): (map<int, real>, Outcome) {
    var (outcome, level) := ComputeFlood(r.total, Bucket(buckets, r.total), r.now);
    (if outcome.Limited? then buckets else buckets[r.total := level], outcome)
  }

  function Sum(sizes: seq<int>): int { if sizes == [] then 0 else Sum(sizes[..|sizes| - 1]) + sizes[|sizes| - 1] }

  class Gate {
    const localMode: bool
    var buckets: map<int, real>

    constructor (localMode: bool)
      ensures this.localMode == localMode && buckets == map[]
    {
      this.localMode, buckets := localMode, map[];
    }

    /** Requests without files, small ones and those of a local server pass untouched. */
    method ApplyUploadFloodLimit(sizes: seq<int>, now: real) returns (outcome: Outcome)
      modifies this
      ensures if localMode || sizes == [] || Sum(sizes) <= 100_000 then outcome == Proceed && buckets == old(buckets)
              else (buckets, outcome) == Step(old(buckets), Request(Sum(sizes), now))
    {
      if localMode || |sizes| == 0 { return Proceed; }
      var total := 0;
      for i := 0 to |sizes|
        invariant total == Sum(sizes[..i])
      {
        assert sizes[..i + 1][..i] == sizes[..i];
        total := total + sizes[i];
      }
      assert sizes[..|sizes|] == sizes;
      if total <= THRESHOLD { return Proceed; }
      var last := Bucket(buckets, total);
      var (decision, level) := ComputeFlood(total, last, now);
      outcome := decision;
      if !outcome.Limited? { buckets := buckets[total := level]; }
    }
  }

  // ---------- one request ----------

  /** When a request is served: on arrival, or after its delay. */
  function Start(now: real, outcome: Outcome): real
    requires !outcome.Limited?
  {
    match outcome case Proceed => now case Delay(s) => now + s
  }

  /** The delay is a ten-millionth of a second a byte between 2 and 9 million bytes, and
      no less or more outside. */
  lemma DelayBySize(total: int)
    ensures 2_000_000 <= total <= 9_000_000 ==> MinDelay(total) * 10_000_000.0 == total as real
    ensures total <= 2_000_000 ==> MinDelay(total) == 0.2
    ensures total >= 9_000_000 ==> MinDelay(total) == 0.9
  {
  }

  /** A request is turned away exactly when the bucket is more than five seconds ahead, and
      then nothing changes. Otherwise it starts at once exactly if the bucket and its own
      delay are not ahead of now, and the bucket is then no more than a second behind; else it
      starts exactly where the bucket and its delay say, which is where the bucket then
      stands. The buckets of other sizes stay as they are. */
  lemma OneRequest(buckets: map<int, real>, r: Request)
    ensures var (after, outcome) := Step(buckets, r);
            var next := Bucket(buckets, r.total) + MinDelay(r.total);
            && (outcome.Limited? <==> Bucket(buckets, r.total) > r.now + 5.0)
            && (outcome.Limited? ==> after == buckets)
            && (outcome.Proceed? <==> next <= r.now)
            && (outcome.Proceed? ==> Bucket(after, r.total) == if next >= r.now - 1.0 then next else r.now - 1.0)
            && (outcome.Delay? ==> Bucket(after, r.total) == next == r.now + outcome.seconds)
            && (outcome.Delay? ==> 0.0 < outcome.seconds <= 5.0 + MinDelay(r.total) <= 5.9)
            && (forall t :: t != r.total ==> Bucket(after, t) == Bucket(buckets, t))
  {
  }

  // ---------- whole runs ----------

  /** A request that was served: the bucket's new level, when it started, and whether it had
      to wait. */
  datatype Served = Served(level: real, start: real, waited: bool)

  /** The requests of one size that a run serves, in order. */
  function ServedOf(buckets: map<int, real>, run: seq<Request>, total: int): seq<Served>
    decreases |run|
  {
    if run == [] then []
    else
      var r := run[0];
      var (after, outcome) := Step(buckets, r);
      (if r.total == total && !outcome.Limited?
       then [Served(after[total], Start(r.now, outcome), outcome.Delay?)] else [])
      + ServedOf(after, run[1..], total)
  }

  function Times(n: nat, d: real): real { n as real * d }

  lemma TimesStep(n: nat, d: real)
    ensures Times(n + 1, d) == d + Times(n, d)
  {
    assert (n + 1) as real == n as real + 1.0;
  }

  lemma StepLevel(buckets: map<int, real>, r: Request, total: int)
    ensures var (after, outcome) := Step(buckets, r);
            if r.total == total && !outcome.Limited? then
              && total in after && Bucket(after, total) == after[total] >= Bucket(buckets, total) + MinDelay(total)
              && after[total] <= Start(r.now, outcome) <= after[total] + MAX_BUCKET
            else Bucket(after, total) == Bucket(buckets, total)
  {
  }

  /** Every service raises the level by at least the size's delay, and starts within a
      second above it. */
  lemma {:induction false} LevelsRise(buckets: map<int, real>, run: seq<Request>, total: int, k: nat)
    requires k < |ServedOf(buckets, run, total)|
    ensures var s := ServedOf(buckets, run, total)[k];
            s.level >= Bucket(buckets, total) + Times(k + 1, MinDelay(total))
            && s.level <= s.start <= s.level + MAX_BUCKET
    decreases |run|
  {
    TimesStep(k, MinDelay(total));
    TimesNothing(MinDelay(total));
    hide Step, Bucket, Start, MinDelay, Times;
    var r := run[0];
    var (after, outcome) := Step(buckets, r);
    StepLevel(buckets, r, total);
    if r.total == total && !outcome.Limited? {
      if k > 0 { LevelsRise(after, run[1..], total, k - 1); }
    } else {
      LevelsRise(after, run[1..], total, k);
    }
  }

  lemma TimesNothing(d: real)
    ensures Times(0, d) == 0.0
  {
  }

  lemma {:induction false} LevelsApart(buckets: map<int, real>, run: seq<Request>, total: int, i: nat, j: nat)
    requires i < j < |ServedOf(buckets, run, total)|
    ensures var s := ServedOf(buckets, run, total); s[j].level >= s[i].level + Times(j - i, MinDelay(total))
    decreases |run|
  {
    hide Step, Bucket, Start, MinDelay, Times;
    var r := run[0];
    var (after, outcome) := Step(buckets, r);
    StepLevel(buckets, r, total);
    if r.total == total && !outcome.Limited? {
      if i == 0 {
        LevelsRise(after, run[1..], total, j - 1);
      } else {
        LevelsApart(after, run[1..], total, i - 1, j - 1);
      }
    } else {
      LevelsApart(after, run[1..], total, i, j);
    }
  }

  /** The rate: over any run of requests of any sizes, from any state of the buckets and
      with any clock, the i-th and the j-th service of one size start at least j - i delays
      apart, less the one second the bucket holds. */
  lemma Rate(buckets: map<int, real>, run: seq<Request>, total: int, i: nat, j: nat)
    requires i < j < |ServedOf(buckets, run, total)|
    ensures var s := ServedOf(buckets, run, total);
            s[j].start - s[i].start >= Times(j - i, MinDelay(total)) - 1.0
  {
    LevelsApart(buckets, run, total, i, j);
    LevelsRise(buckets, run, total, i);
    LevelsRise(buckets, run, total, j);
  }

  /** The first service of a size that has to wait starts one delay after where its bucket
      stood. */
  lemma {:induction false} FirstNoLater(buckets: map<int, real>, run: seq<Request>, total: int)
    requires ServedOf(buckets, run, total) != []
    ensures var s := ServedOf(buckets, run, total)[0];
            s.waited ==> s.start == s.level == Bucket(buckets, total) + MinDelay(total)
    decreases |run|
  {
    hide MinDelay;
    var r := run[0];
    var (after, outcome) := Step(buckets, r);
    OneRequest(buckets, r);
    if r.total != total || outcome.Limited? { FirstNoLater(after, run[1..], total); }
  }

  /** And nothing waits longer than it must: over any run, a service that has to wait starts
      exactly one delay after the level the one before it left, so at most one delay after
      that one started. */
  lemma {:induction false} NoLater(buckets: map<int, real>, run: seq<Request>, total: int, i: nat)
    requires i + 1 < |ServedOf(buckets, run, total)|
    ensures var s := ServedOf(buckets, run, total);
            s[i + 1].waited ==> s[i + 1].start == s[i].level + MinDelay(total) <= s[i].start + MinDelay(total)
    decreases |run|
  {
    hide Start, MinDelay;
    var r := run[0];
    var (after, outcome) := Step(buckets, r);
    StepLevel(buckets, r, total);
    OneRequest(buckets, r);
    if r.total == total && !outcome.Limited? {
      if i == 0 {
        FirstNoLater(after, run[1..], total);
        LevelsRise(buckets, run, total, 0);
      } else {
        NoLater(after, run[1..], total, i - 1);
      }
    } else {
      NoLater(after, run[1..], total, i);
    }
  }

  /** So a window of length w holds n + 1 starts of one size only if n delays fit into w and
      one second. */
  lemma Window(buckets: map<int, real>, run: seq<Request>, total: int, i: nat, n: nat, w: real)
    requires n > 0 && i + n < |ServedOf(buckets, run, total)|
    requires var s := ServedOf(buckets, run, total); s[i + n].start - s[i].start <= w
    ensures Times(n, MinDelay(total)) <= w + 1.0
  {
    Rate(buckets, run, total, i, i + n);
  }

  /** The second of slack is really there: after a pause two requests can start together. */
  lemma Burst(total: int)
    requires total <= 5_000_000
    ensures var s := ServedOf(map[], [Request(total, 10.0), Request(total, 10.0)], total);
            |s| == 2 && s[0].start == s[1].start
  {
    var run := [Request(total, 10.0), Request(total, 10.0)];
    var (after, outcome) := Step(map[], run[0]);
    assert outcome == Proceed && Bucket(after, total) == 9.0;
    var (last, second) := Step(after, run[1]);
    assert second == Proceed;
    assert run[1..] == [Request(total, 10.0)] && run[1..][1..] == [];
    assert ServedOf(last, [], total) == [];
    assert ServedOf(after, run[1..], total) == [Served(last[total], 10.0, false)];
  }

  // ---------- itoa ----------

  lemma Pow10Of19()
    ensures Pow10(19) == 10_000_000_000_000_000_000
  {
    assert Pow10(4) == 10_000;
    assert Pow10(8) == 100_000_000;
    assert Pow10(12) == 1_000_000_000_000;
    assert Pow10(16) == 10_000_000_000_000_000;
  }

  /** The digits of a positive number; none are left of zero. */
  function Digits(n: nat): string { if n > 0 then FormatNat(n) else "" }

  lemma LastDigit(n: nat, rest: string)
    requires n > 0
    ensures Digits(n) + rest == Digits(n / 10) + ([DigitChar(n % 10)] + rest)
  {
    assert Digits(n) == Digits(n / 10) + [DigitChar(n % 10)];
    Assoc(Digits(n / 10), [DigitChar(n % 10)], rest);
  }

  lemma RoomLeft(n: nat, i: nat)
    requires 0 < n < Pow10(i)
    ensures i > 0 && n / 10 < Pow10(i - 1)
  {
  }

  method PutBefore(b: array<char>, i: nat, c: char, ghost rest: string)
    requires 0 < i <= b.Length && b[i..] == rest
    modifies b
    ensures b[i - 1..] == [c] + rest
  {
    b[i - 1] := c;
    assert b[i - 1..] == [c] + b[i..];
  }

  /** The loop of itoa, from the end of the buffer. */
  method FillDigits(b: array<char>, n0: int) returns (i: nat)
    requires b.Length == 20 && IsInt64(n0)
    modifies b
    ensures 1 <= i <= b.Length && b[i..] == if n0 > 0 then Digits(n0) else ""
  {
    i := b.Length;
    if n0 <= 0 { return; }
    Pow10Of19();
    hide Digits, Pow10, DigitChar;
    var n: nat := n0;
    assert Digits(n0) + b[i..] == Digits(n0);
    while n > 0
      invariant 1 <= i <= b.Length && n < Pow10(i - 1)
      invariant Digits(n) + b[i..] == Digits(n0)
      decreases n
    {
      LastDigit(n, b[i..]);
      RoomLeft(n, i - 1);
      PutBefore(b, i, DigitChar(n % 10), b[i..]);
      i := i - 1;
      n := n / 10;
    }
    NoDigitsLeft();
    assert b[i..] == Digits(0) + b[i..];
  }

  lemma NoDigitsLeft()
    ensures Digits(0) == ""
  {
  }

  /** Negation of a 64-bit integer, which leaves the least one as it is. */
  function Negate(n: int): int
    requires IsInt64(n)
    ensures IsInt64(Negate(n))
  {
    if n == -TWO_63 then n else -n
  }

  /** itoa: the decimal numeral, except that the least 64-bit integer is its own negation
      and comes out as a bare sign. */
  method Itoa(n0: int) returns (s: string)
    requires IsInt64(n0)
    ensures s == if n0 == -TWO_63 then "-" else FormatInt(n0)
  {
    if n0 == 0 { return "0"; }
    var n := if n0 < 0 then Negate(n0) else n0;
    var b := new char[20](_ => '0');
    var i := FillDigits(b, n);
    if n0 < 0 {
      i := i - 1;
      b[i] := '-';
      assert b[i..] == "-" + b[i + 1..];
    }
    s := b[i..];
  }
}
