/** Retrying with jittered doubling of the sleep time (util/retry.go). */
module Retry {

  /** What one execution of the function returns: success, a stop error or an ordinary error. */
  datatype Outcome = Done | Stop(err: string) | Fails(err: string)

  /** `Panics` is the panic of the random generator on a bound that is not positive. */
  datatype Result = Nil | Error(err: string) | Panics

  /** What a call of Retry does: its result, how often the function ran, the errors handed to
      onError, and the times slept. */
  datatype Trace = Trace(result: Result, execs: nat, errors: seq<string>, waits: seq<int>)

  /** The outcome of each execution and the random numbers drawn, before reduction to their bound. */
  datatype World = World(outcome: nat -> Outcome, random: nat -> nat)

  const TWO63 := 0x8000_0000_0000_0000

  /** 64-bit two's complement. */
  function Wrap(x: int): int {
    (x + TWO63) % (2 * TWO63) - TWO63
  }

  /** The sleep time plus half of a jitter below it. */
  function Wait(sleep: int, random: nat): int
    requires sleep > 0
  {
    Wrap(sleep + random % sleep / 2)
  }

  /** Retry, with `i` executions behind it. */
  function RetryFrom(i: nat, attempts: int, sleep: int, w: World): Trace
    decreases if attempts > 0 then attempts else 0
  {
    match w.outcome(i)
    case Done => Trace(Nil, 1, [], [])
    case Stop(err) => Trace(Error(err), 1, [], [])
    case Fails(err) =>
      if attempts - 1 <= 0 then Trace(Error(err), 1, [], [])
      else if sleep <= 0 then Trace(Panics, 1, [], [])
      else
        var wait := Wait(sleep, w.random(i));
        var rest := RetryFrom(i + 1, attempts - 1, Wrap(2 * wait), w);
        Trace(rest.result, 1 + rest.execs, [err] + rest.errors, [wait] + rest.waits)
  }

  function Retry(attempts: int, sleep: int, w: World): Trace {
    RetryFrom(0, attempts, sleep, w)
  }

  // ---------- Counts and result ----------

  function Limit(attempts: int): nat {
    if attempts > 1 then attempts else 1
  }

  /** The function runs at most max(1, n) times; onError and the sleeps happen once less. */
  lemma {:induction false} Counts(i: nat, attempts: int, sleep: int, w: World)
    ensures var t := RetryFrom(i, attempts, sleep, w);
            1 <= t.execs <= Limit(attempts) && |t.errors| == t.execs - 1 && |t.waits| == t.execs - 1
    decreases if attempts > 0 then attempts else 0
  {
    if w.outcome(i).Fails? && attempts - 1 > 0 && sleep > 0 {
      Counts(i + 1, attempts - 1, Wrap(2 * Wait(sleep, w.random(i))), w);
    }
  }

  predicate Answers(r: Result, o: Outcome) {
    match o
    case Done => r == Nil
    case Stop(err) => r == Error(err)
    case Fails(err) => r == Error(err)
  }

  /** Every execution but the last failed and its error went to onError; the last one gave the
      result, and if it failed too, the attempts are used up. */
  ghost predicate Explained(i: nat, attempts: int, t: Trace, w: World) {
    && t.execs >= 1 && |t.errors| == t.execs - 1
    && (forall j :: 0 <= j < t.execs - 1 ==> w.outcome(i + j) == Fails(t.errors[j]))
    && Answers(t.result, w.outcome(i + t.execs - 1))
    && (w.outcome(i + t.execs - 1).Fails? ==> t.execs == Limit(attempts))
  }

  lemma ExplainedStep(i: nat, attempts: int, rest: Trace, w: World, wait: int)
    requires attempts > 1 && w.outcome(i).Fails? && Explained(i + 1, attempts - 1, rest, w)
    ensures Explained(i, attempts,
                      Trace(rest.result, 1 + rest.execs, [w.outcome(i).err] + rest.errors, [wait] + rest.waits), w)
  {
    var errors := [w.outcome(i).err] + rest.errors;
    forall j | 0 <= j < rest.execs ensures w.outcome(i + j) == Fails(errors[j]) {
      if j > 0 {
        assert w.outcome(i + 1 + (j - 1)) == Fails(rest.errors[j - 1]);
      }
    }
  }

  /** So it is with every run that does not panic. */
  lemma {:induction false} ResultIsLastOutcome(i: nat, attempts: int, sleep: int, w: World)
    requires RetryFrom(i, attempts, sleep, w).result != Panics
    ensures Explained(i, attempts, RetryFrom(i, attempts, sleep, w), w)
    decreases if attempts > 0 then attempts else 0
  {
    if w.outcome(i).Fails? && attempts - 1 > 0 {
      var wait := Wait(sleep, w.random(i));
      ResultIsLastOutcome(i + 1, attempts - 1, Wrap(2 * wait), w);
      ExplainedStep(i, attempts, RetryFrom(i + 1, attempts - 1, Wrap(2 * wait), w), w, wait);
    }
  }

  // ---------- Waiting times ----------

  function Pow(b: nat, n: nat): nat {
    if n == 0 then 1 else b * Pow(b, n - 1)
  }

  function Sum(s: seq<int>): int {
    if s == [] then 0 else s[0] + Sum(s[1..])
  }

  lemma WaitBounds(sleep: int, random: nat)
    requires 0 < sleep && 3 * sleep <= 2 * TWO63
    ensures var wait := Wait(sleep, random); sleep <= wait && 2 * wait < 3 * sleep
    ensures 3 * sleep <= TWO63 ==> Wrap(2 * Wait(sleep, random)) == 2 * Wait(sleep, random)
  {
    var jitter := random % sleep;
    assert 0 <= jitter < sleep;
  }

  lemma {:induction false} PowPositive(n: nat)
    ensures Pow(3, n) >= 1
  {
    if n > 0 {
      PowPositive(n - 1);
    }
  }

  lemma MulLess(a: int, b: int, c: int)
    requires a >= 1 && b < c
    ensures a * b < a * c
  {
    assert a * (c - b) >= c - b;
  }

  lemma MulAtMost(a: int, b: int, c: int)
    requires a >= 0 && b <= c
    ensures a * b <= a * c
  {
    assert a * (c - b) >= 0;
  }

  /** The first `k` waits stay inside 64 bits. */
  predicate Room(k: nat, sleep: int) {
    sleep > 0 && Pow(3, k) * sleep <= 2 * TWO63
  }

  /** Room for `k` waits is room for the first one, and for the others after it. */
  lemma RoomNext(k: nat, sleep: int, random: nat)
    requires k >= 1 && Room(k, sleep)
    ensures 3 * sleep <= 2 * TWO63
    ensures k >= 2 ==> 3 * sleep <= TWO63 && Room(k - 1, 2 * Wait(sleep, random))
  {
    var p := Pow(3, k - 1);
    PowPositive(k - 1);
    assert Pow(3, k) * sleep == p * (3 * sleep);
    MulAtMost(3 * sleep, 1, p);
    if k >= 2 {
      PowPositive(k - 2);
      MulAtMost(3 * sleep, 3, p);
      WaitBounds(sleep, random);
      MulLess(p, 2 * Wait(sleep, random), 3 * sleep);
    }
  }

  /** The j-th wait is at least 2^j times the sleep time and less than 3^(j+1)/2 times it, however
      many attempts there are. */
  lemma {:induction false} EachWait(i: nat, attempts: int, sleep: int, w: World, j: nat)
    requires Room(j + 1, sleep) && j < |RetryFrom(i, attempts, sleep, w).waits|
    ensures var wait := RetryFrom(i, attempts, sleep, w).waits[j];
            Pow(2, j) * sleep <= wait && 2 * wait < Pow(3, j + 1) * sleep
    decreases j
  {
    var first := Wait(sleep, w.random(i));
    RoomNext(j + 1, sleep, w.random(i));
    WaitBounds(sleep, w.random(i));
    if j > 0 {
      EachWait(i + 1, attempts - 1, 2 * first, w, j - 1);
      LaterWait(j, first, sleep, RetryFrom(i, attempts, sleep, w).waits[j]);
    }
  }

  /** The sleep time before the j-th wait, as the earlier waits left it. */
  function SleepBefore(sleep: int, waits: seq<int>, j: nat): int
    requires j <= |waits|
  {
    if j == 0 then sleep else 2 * waits[j - 1]
  }

  /** Each wait is the sleep time plus half a jitter drawn below it, and then the sleep time doubles. */
  lemma {:induction false} WaitsExactly(i: nat, attempts: int, sleep: int, w: World, j: nat)
    requires Room(j + 1, sleep) && j < |RetryFrom(i, attempts, sleep, w).waits|
    ensures var waits := RetryFrom(i, attempts, sleep, w).waits;
            var before := SleepBefore(sleep, waits, j);
            before > 0 && waits[j] == before + w.random(i + j) % before / 2
    decreases j
  {
    var first := Wait(sleep, w.random(i));
    RoomNext(j + 1, sleep, w.random(i));
    FirstWait(sleep, w.random(i));
    if j > 0 {
      WaitBounds(sleep, w.random(i));
      var waits, rest := RetryFrom(i, attempts, sleep, w).waits, RetryFrom(i + 1, attempts - 1, 2 * first, w).waits;
      assert waits == [first] + rest;
      WaitsExactly(i + 1, attempts - 1, 2 * first, w, j - 1);
      assert SleepBefore(sleep, waits, j) == SleepBefore(2 * first, rest, j - 1);
      assert i + 1 + (j - 1) == i + j;
    }
  }

  lemma FirstWait(sleep: int, random: nat)
    requires 0 < sleep && 3 * sleep <= 2 * TWO63
    ensures Wait(sleep, random) == sleep + random % sleep / 2
  {
    var jitter := random % sleep;
    assert 0 <= jitter < sleep;
  }

  /** The bounds relative to the doubled first wait imply those relative to the sleep time. */
  lemma LaterWait(j: nat, first: int, sleep: int, wait: int)
    requires j > 0 && 0 < sleep <= first && 2 * first < 3 * sleep
    requires Pow(2, j - 1) * (2 * first) <= wait && 2 * wait < Pow(3, j) * (2 * first)
    ensures Pow(2, j) * sleep <= wait && 2 * wait < Pow(3, j + 1) * sleep
  {
    assert Pow(2, j) * sleep == Pow(2, j - 1) * (2 * sleep);
    MulAtMost(Pow(2, j - 1), 2 * sleep, 2 * first);
    PowPositive(j);
    MulLess(Pow(3, j), 2 * first, 3 * sleep);
    assert Pow(3, j + 1) * sleep == Pow(3, j) * (3 * sleep);
  }

  /** A run that waits k times, k >= 1, waits at least 2^k - 1 times the sleep time in all and less
      than (3^(k+1) - 3)/4 times it. */
  lemma {:induction false} TotalWait(i: nat, attempts: int, sleep: int, w: World)
    requires var k := |RetryFrom(i, attempts, sleep, w).waits|; k >= 1 && Room(k, sleep)
    ensures var waits := RetryFrom(i, attempts, sleep, w).waits;
            && (Pow(2, |waits|) - 1) * sleep <= Sum(waits)
            && 4 * Sum(waits) < (Pow(3, |waits| + 1) - 3) * sleep
    decreases if attempts > 0 then attempts else 0
  {
    var t := RetryFrom(i, attempts, sleep, w);
    var k := |t.waits|;
    var wait := Wait(sleep, w.random(i));
    RoomNext(k, sleep, w.random(i));
    WaitBounds(sleep, w.random(i));
    var rest := RetryFrom(i + 1, attempts - 1, Wrap(2 * wait), w);
    assert t.waits == [wait] + rest.waits && t.waits[1..] == rest.waits;
    if k >= 2 {
      TotalWait(i + 1, attempts - 1, 2 * wait, w);
    } else {
      assert rest.waits == [];
      assert Pow(2, 0) == 1 && Pow(3, 1) == 3;
    }
    TotalStep(k, wait, sleep, Sum(rest.waits));
  }

  /** One more wait in front. */
  lemma TotalStep(k: nat, wait: int, sleep: int, rest: int)
    requires k >= 1 && 0 < sleep <= wait && 2 * wait < 3 * sleep
    requires (Pow(2, k - 1) - 1) * (2 * wait) <= rest && 4 * rest <= (Pow(3, k) - 3) * (2 * wait)
    ensures (Pow(2, k) - 1) * sleep <= wait + rest && 4 * (wait + rest) < (Pow(3, k + 1) - 3) * sleep
  {
    PowPositive(k - 1);
    TwoPowPositive(k - 1);
    TotalAbove(Pow(3, k), wait, sleep);
    TotalBelow(Pow(2, k - 1), wait, sleep);
  }

  lemma {:induction false} TwoPowPositive(n: nat)
    ensures Pow(2, n) >= 1
  {
    if n > 0 {
      TwoPowPositive(n - 1);
    }
  }

  lemma TotalAbove(p: int, wait: int, sleep: int)
    requires p >= 3 && 0 < sleep <= wait && 2 * wait < 3 * sleep
    ensures 4 * wait + (p - 3) * (2 * wait) < (3 * p - 3) * sleep
  {
    assert 4 * wait + (p - 3) * (2 * wait) == (p - 1) * (2 * wait);
    MulLess(p - 1, 2 * wait, 3 * sleep);
    assert (p - 1) * (3 * sleep) == (3 * p - 3) * sleep;
  }

  lemma TotalBelow(p: int, wait: int, sleep: int)
    requires p >= 1 && sleep <= wait
    ensures (2 * p - 1) * sleep <= wait + (p - 1) * (2 * wait)
  {
    assert wait + (p - 1) * (2 * wait) == (2 * p - 1) * wait;
    MulAtMost(2 * p - 1, sleep, wait);
  }

  // ---------- Panics ----------

  /** The largest sleep time after `k` waits. */
  function MaxSleep(sleep: int, k: nat): int
    decreases k
  {
    if k == 0 then sleep else MaxSleep(2 * (sleep + (sleep - 1) / 2), k - 1)
  }

  lemma {:induction false} MaxSleepMonotone(a: int, b: int, k: nat)
    requires a <= b
    ensures MaxSleep(a, k) <= MaxSleep(b, k)
    decreases k
  {
    if k > 0 {
      MaxSleepMonotone(2 * (a + (a - 1) / 2), 2 * (b + (b - 1) / 2), k - 1);
    }
  }

  lemma {:induction false} MaxSleepGrows(sleep: int, k: nat)
    requires sleep > 0
    ensures sleep <= MaxSleep(sleep, k) && (k > 0 ==> MaxSleep(sleep, k) < Pow(3, k) * sleep)
    decreases k
  {
    if k > 0 {
      var next := 2 * (sleep + (sleep - 1) / 2);
      MaxSleepGrows(next, k - 1);
      PowPositive(k - 1);
      MulLess(Pow(3, k - 1), next, 3 * sleep);
      assert Pow(3, k) * sleep == Pow(3, k - 1) * (3 * sleep);
    }
  }

  /** Without overflow the next sleep time stays positive and below the largest. */
  lemma LargestJitter(sleep: int, random: nat)
    requires 0 < sleep && 2 * (sleep + (sleep - 1) / 2) < TWO63
    ensures 0 < Wrap(2 * Wait(sleep, random)) <= 2 * (sleep + (sleep - 1) / 2)
  {
    var half := random % sleep / 2;
    HalfJitter(sleep, random);
    WrapFits(sleep + half);
    WrapFits(2 * (sleep + half));
  }

  lemma HalfJitter(sleep: int, random: nat)
    requires sleep > 0
    ensures 0 <= random % sleep / 2 <= (sleep - 1) / 2
  {
    var jitter := random % sleep;
    assert 0 <= jitter <= sleep - 1;
  }

  lemma WrapFits(x: int)
    requires 0 <= x < TWO63
    ensures Wrap(x) == x
  {
  }

  lemma SmallRemainder(a: int, b: int)
    requires 0 <= a < b
    ensures a % b == a
  {
  }

  /** What Retry does depends only on the random numbers still to be drawn. */
  lemma {:induction false} RandomFrame(i: nat, attempts: int, sleep: int, v: World, w: World)
    requires forall k: nat :: k >= i ==> v.outcome(k) == w.outcome(k) && v.random(k) == w.random(k)
    ensures RetryFrom(i, attempts, sleep, v) == RetryFrom(i, attempts, sleep, w)
    decreases if attempts > 0 then attempts else 0
  {
    if v.outcome(i).Fails? && attempts - 1 > 0 && sleep > 0 {
      RandomFrame(i + 1, attempts - 1, Wrap(2 * Wait(sleep, v.random(i))), v, w);
    }
  }

  /** While the sleep time can never leave 64 bits before the last execution, Retry panics exactly
      when the given sleep time is not positive, there are two attempts, and the first fails. */
  lemma {:induction false} PanicsExactly(i: nat, attempts: int, sleep: int, w: World)
    requires sleep > 0 && attempts >= 3 ==> MaxSleep(sleep, attempts - 2) < TWO63
    ensures RetryFrom(i, attempts, sleep, w).result == Panics <==>
            sleep <= 0 && attempts >= 2 && w.outcome(i).Fails?
    decreases if attempts > 0 then attempts else 0
  {
    if w.outcome(i).Fails? && attempts >= 2 && sleep > 0 {
      var next := Wrap(2 * Wait(sleep, w.random(i)));
      if attempts >= 3 {
        var most := 2 * (sleep + (sleep - 1) / 2);
        MaxSleepGrows(most, attempts - 3);
        LargestJitter(sleep, w.random(i));
        assert 0 < next <= most;
        MaxSleepMonotone(next, most, attempts - 3);
      }
      PanicsExactly(i + 1, attempts - 1, next, w);
    }
  }

  /** With n attempts a positive sleep time whose 3^(n-2)-fold fits never panics, and with fewer than
      two attempts no sleep time does. */
  lemma NeverPanics(i: nat, attempts: int, sleep: int, w: World)
    requires attempts >= 2 ==> sleep > 0 && Pow(3, attempts - 2) * sleep <= TWO63
    ensures RetryFrom(i, attempts, sleep, w).result != Panics
  {
    if attempts >= 2 {
      MaxSleepGrows(sleep, attempts - 2);
    }
    PanicsExactly(i, attempts, sleep, w);
  }

  /** Failures forever, with one random number drawn first. */
  function Failing(i: nat, first: nat, random: nat -> nat): World {
    World(_ => Fails(""), k => if k == i then first else random(k))
  }

  /** The first jitter to draw so that, in the end, the sleep time leaves 64 bits. */
  function BadJitter(sleep: int): nat {
    if 2 * sleep >= TWO63 || sleep <= 0 then 0 else sleep - 1
  }

  lemma BadJitterEffect(sleep: int)
    requires 0 < sleep < TWO63
    ensures var most := 2 * (sleep + (sleep - 1) / 2);
            var next := Wrap(2 * Wait(sleep, BadJitter(sleep)));
            next <= 0 || next == most
  {
    if 2 * sleep < TWO63 {
      SmallRemainder(sleep - 1, sleep);
    } else {
      SmallRemainder(0, sleep);
    }
  }

  /** Otherwise some jitters make it panic. */
  lemma {:induction false} SomeJitterPanics(i: nat, attempts: int, sleep: int) returns (w: World)
    requires attempts >= 2 && sleep < TWO63 && (sleep <= 0 || MaxSleep(sleep, attempts - 2) >= TWO63)
    ensures RetryFrom(i, attempts, sleep, w).result == Panics && forall k: nat :: w.outcome(k) == Fails("")
    decreases attempts
  {
    if sleep <= 0 {
      w := Failing(i, 0, _ => 0);
    } else {
      var next := Wrap(2 * Wait(sleep, BadJitter(sleep)));
      BadJitterEffect(sleep);
      var w' := SomeJitterPanics(i + 1, attempts - 1, next);
      w := Failing(i, BadJitter(sleep), w'.random);
      RandomFrame(i + 1, attempts - 1, next, w, w');
    }
  }

  /** For every 64-bit sleep time: Retry can panic exactly when there are at least two attempts and
      the sleep time is not positive or can outgrow 64 bits before the last execution. */
  lemma CanPanicExactly(attempts: int, sleep: int)
    requires -TWO63 <= sleep < TWO63
    ensures (exists w :: Retry(attempts, sleep, w).result == Panics) <==>
            attempts >= 2 && (sleep <= 0 || MaxSleep(sleep, attempts - 2) >= TWO63)
  {
    if attempts >= 2 && (sleep <= 0 || MaxSleep(sleep, attempts - 2) >= TWO63) {
      var w := SomeJitterPanics(0, attempts, sleep);
      assert Retry(attempts, sleep, w).result == Panics;
    } else {
      forall w ensures Retry(attempts, sleep, w).result != Panics {
        PanicsExactly(0, attempts, sleep, w);
      }
    }
  }
}
