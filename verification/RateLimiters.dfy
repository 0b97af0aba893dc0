/** The first-order rate limiter of the command interface, over exact real arithmetic.
    The exponential function is a parameter. */
module RateLimiters {

  /** What is used of the exponential function: positive, and below, at or above one where
      its argument is below, at or above zero. */
  ghost predicate IsExponential(exp: real -> real) {
    forall x :: exp(x) > 0.0 && (exp(x) < 1.0 <==> x < 0.0) && (exp(x) > 1.0 <==> x > 0.0)
  }

  ghost predicate TurnsSumsIntoProducts(exp: real -> real) {
    forall x, y :: exp(x + y) == exp(x) * exp(y)
  }

  const MIN_TAU: real := 0.000000001

  /** The time constant of one component. */
  function Tau(up: real, down: real, previous: real, input: real): (tau: real)
    ensures tau > 0.0
  {
    var chosen := if input > previous then up else down;
    if chosen < MIN_TAU then MIN_TAU else chosen
  }

  function Alpha(exp: real -> real, up: real, down: real, previous: real, input: real, dt: real): real {
    exp(-dt / Tau(up, down, previous, input))
  }

  function Step(exp: real -> real, up: real, down: real, previous: real, input: real, dt: real): real {
    var alpha := Alpha(exp, up, down, previous, input, dt);
    alpha * previous + (1.0 - alpha) * input
  }

  /** One update of a vector, component by component. */
  function Update(exp: real -> real, up: real, down: real, previous: seq<real>, input: seq<real>, dt: real)
      : (next: seq<real>)
    requires |input| == |previous|
    ensures |next| == |previous|
  {
    seq(|input|, i requires 0 <= i < |input| => Step(exp, up, down, previous[i], input[i], dt))
  }

  class FirstOrderFilter {
    const timeConstantUp: real
    const timeConstantDown: real
    const initialState: seq<real>
    var previousState: seq<real>

    constructor (timeConstantUp: real, timeConstantDown: real, initial: seq<real>)
      ensures this.timeConstantUp == timeConstantUp && this.timeConstantDown == timeConstantDown
      ensures previousState == initialState == initial
    {
      this.timeConstantUp, this.timeConstantDown := timeConstantUp, timeConstantDown;
      previousState, initialState := initial, initial;
    }

    method Reset()
      modifies this
      ensures previousState == initialState
    {
      previousState := initialState;
    }

    method UpdateFilter(exp: real -> real, input: seq<real>, dt: real) returns (filtered: seq<real>)
      requires |input| == |previousState|
      modifies this
      ensures filtered == previousState == Update(exp, timeConstantUp, timeConstantDown, old(previousState), input, dt)
    {
      var n := |input|;
      var previous := previousState;
      var isUp := seq(n, i requires 0 <= i < n => if input[i] > previous[i] then 1.0 else 0.0);
      var isDown := seq(n, i requires 0 <= i < n => if input[i] <= previous[i] then 1.0 else 0.0);
      var tau := seq(n, i requires 0 <= i < n => isUp[i] * timeConstantUp + isDown[i] * timeConstantDown);
      tau := seq(n, i requires 0 <= i < n => if tau[i] < MIN_TAU then MIN_TAU else tau[i]);
      assert forall i | 0 <= i < n :: tau[i] == Tau(timeConstantUp, timeConstantDown, previous[i], input[i]);
      var alpha := seq(n, i requires 0 <= i < n => exp(-dt / tau[i]));
      previousState := seq(n, i requires 0 <= i < n => alpha[i] * previous[i] + (1.0 - alpha[i]) * input[i]);
      filtered := previousState;
      assert forall i | 0 <= i < n ::
        filtered[i] == Step(exp, timeConstantUp, timeConstantDown, previous[i], input[i], dt);
    }
  }

  // ---- which time constant, and how fast ----

  /** A rising component follows the first time constant and no other, a falling one or one
      at its input the second: what is left of its error is the exponential of the time in
      units of that constant. A constant below 1e-9 counts as 1e-9. */
  lemma ComponentFollowsItsConstant(exp: real -> real, up: real, down: real, previous: seq<real>, input: seq<real>,
                                    dt: real, c: nat)
    requires |input| == |previous| && c < |previous|
    ensures var next := Update(exp, up, down, previous, input, dt);
      var constant := if previous[c] < input[c] then up else down;
      next[c] - input[c]
      == exp(-dt / if constant >= 0.000000001 then constant else 0.000000001) * (previous[c] - input[c])
  {
    StepError(exp, up, down, previous[c], input[c], dt);
  }

  /** The other time constant has no influence. */
  lemma OtherConstantIrrelevant(exp: real -> real, up: real, down: real, other: real, previous: seq<real>,
                                input: seq<real>, dt: real, c: nat)
    requires |input| == |previous| && c < |previous|
    ensures previous[c] < input[c] ==>
      Update(exp, up, down, previous, input, dt)[c] == Update(exp, up, other, previous, input, dt)[c]
    ensures previous[c] >= input[c] ==>
      Update(exp, up, down, previous, input, dt)[c] == Update(exp, other, down, previous, input, dt)[c]
  {
  }

  /** After one time constant the error is 1/e of what it was. */
  lemma OneTimeConstant(exp: real -> real, up: real, down: real, previous: seq<real>, input: seq<real>, c: nat)
    requires |input| == |previous| && c < |previous|
    ensures previous[c] < input[c] && up >= 0.000000001 ==>
      Update(exp, up, down, previous, input, up)[c] - input[c] == exp(-1.0) * (previous[c] - input[c])
    ensures previous[c] > input[c] && down >= 0.000000001 ==>
      Update(exp, up, down, previous, input, down)[c] - input[c] == exp(-1.0) * (previous[c] - input[c])
  {
    if previous[c] < input[c] && up >= 0.000000001 {
      ComponentFollowsItsConstant(exp, up, down, previous, input, up, c);
      Unit(up);
    }
    if previous[c] > input[c] && down >= 0.000000001 {
      ComponentFollowsItsConstant(exp, up, down, previous, input, down, c);
      Unit(down);
    }
  }

  lemma Unit(x: real)
    requires x > 0.0
    ensures -x / x == -1.0
  {
  }

  // ---- runs ----

  datatype Event = Command(input: seq<real>, dt: real) | Reset

  ghost predicate Fits(events: seq<Event>, n: nat) {
    forall i | 0 <= i < |events| && events[i].Command? :: |events[i].input| == n && events[i].dt >= 0.0
  }

  function Run(exp: real -> real, up: real, down: real, initial: seq<real>, events: seq<Event>): (s: seq<real>)
    requires Fits(events, |initial|)
    ensures |s| == |initial|
  {
    if events == [] then initial
    else
      var before := Run(exp, up, down, initial, events[..|events| - 1]);
      var e := events[|events| - 1];
      if e.Reset? then initial else Update(exp, up, down, before, e.input, e.dt)
  }

  /** The move is a fraction of the way to the input. */
  lemma StepError(exp: real -> real, up: real, down: real, previous: real, input: real, dt: real)
    ensures Step(exp, up, down, previous, input, dt) - input
         == Alpha(exp, up, down, previous, input, dt) * (previous - input)
  {
  }

  lemma StepBetween(exp: real -> real, up: real, down: real, previous: real, input: real, dt: real)
    requires IsExponential(exp) && dt >= 0.0
    ensures var next := Step(exp, up, down, previous, input, dt);
      previous <= next <= input || input <= next <= previous
  {
    hide Step;
    var next := Step(exp, up, down, previous, input, dt);
    var alpha := Alpha(exp, up, down, previous, input, dt);
    assert 0.0 < alpha <= 1.0 by {
      assert -dt / Tau(up, down, previous, input) <= 0.0;
    }
    StepError(exp, up, down, previous, input, dt);
    Scaling(alpha, previous - input, next - input);
  }

  /** What a positive factor does to an error. */
  lemma Scaling(alpha: real, error: real, scaled: real)
    requires alpha > 0.0 && scaled == alpha * error
    ensures alpha <= 1.0 ==> 0.0 <= scaled <= error || error <= scaled <= 0.0
    ensures alpha > 1.0 && error > 0.0 ==> scaled > error
    ensures alpha > 1.0 && error < 0.0 ==> scaled < error
    ensures (scaled > 0.0 <==> error > 0.0) && (scaled < 0.0 <==> error < 0.0)
  {
    var more := (alpha - 1.0) * error;
    assert scaled == error + more;
  }

  /** Over every run of commands and resets each component stays in every interval that
      holds its initial value and its inputs. */
  lemma {:induction false} StaysInRange(exp: real -> real, up: real, down: real, initial: seq<real>,
                                        events: seq<Event>, c: nat, lo: real, hi: real)
    requires IsExponential(exp) && c < |initial| && Fits(events, |initial|) && lo <= initial[c] <= hi
    requires forall i | 0 <= i < |events| && events[i].Command? :: lo <= events[i].input[c] <= hi
    ensures lo <= Run(exp, up, down, initial, events)[c] <= hi
    decreases |events|
  {
    if events != [] {
      hide Step, IsExponential;
      var prefix, e := events[..|events| - 1], events[|events| - 1];
      StaysInRange(exp, up, down, initial, prefix, c, lo, hi);
      if e.Command? {
        StepBetween(exp, up, down, Run(exp, up, down, initial, prefix)[c], e.input[c], e.dt);
      }
    }
  }

  /** With a negative sampling time a component that is off its input leaves the interval
      between them. */
  lemma NegativeTimeOvershoots(exp: real -> real, up: real, down: real, previous: real, input: real, dt: real)
    requires IsExponential(exp)
    ensures dt < 0.0 && previous != input <==>
      var next := Step(exp, up, down, previous, input, dt);
      !(previous <= next <= input || input <= next <= previous)
  {
    hide Step;
    var next := Step(exp, up, down, previous, input, dt);
    if dt < 0.0 {
      var alpha := Alpha(exp, up, down, previous, input, dt);
      assert alpha > 1.0 by {
        assert -dt / Tau(up, down, previous, input) > 0.0;
      }
      StepError(exp, up, down, previous, input, dt);
      Scaling(alpha, previous - input, next - input);
    } else {
      StepBetween(exp, up, down, previous, input, dt);
    }
  }

  // ---- a constant command ----

  /** One component after k updates with the same command. */
  function Hold(exp: real -> real, up: real, down: real, start: real, input: real, dt: real, k: nat): real {
    if k == 0 then start
    else Step(exp, up, down, Hold(exp, up, down, start, input, dt, k - 1), input, dt)
  }

  function Power(x: real, k: nat): real {
    if k == 0 then 1.0 else Power(x, k - 1) * x
  }

  lemma {:induction false} PowerPositive(x: real, k: nat)
    requires x > 0.0
    ensures Power(x, k) > 0.0
  {
    if k > 0 {
      PowerPositive(x, k - 1);
    }
  }

  /** Under a constant command the error never changes sign, the same time constant is
      picked in every step and the error shrinks by the same factor each time. */
  lemma {:induction false} ConstantCommandDecays(exp: real -> real, up: real, down: real, start: real,
                                                 input: real, dt: real, k: nat)
    requires IsExponential(exp)
    ensures var s := Hold(exp, up, down, start, input, dt, k); var alpha := Alpha(exp, up, down, start, input, dt);
      && s - input == Power(alpha, k) * (start - input)
      && (s > input <==> start > input) && (s < input <==> start < input)
      && Tau(up, down, s, input) == Tau(up, down, start, input)
  {
    hide IsExponential, Step;
    var alpha := Alpha(exp, up, down, start, input, dt);
    var s := Hold(exp, up, down, start, input, dt, k);
    Positive(exp, -dt / Tau(up, down, start, input));
    PowerPositive(alpha, k);
    if k > 0 {
      ConstantCommandDecays(exp, up, down, start, input, dt, k - 1);
      var before := Hold(exp, up, down, start, input, dt, k - 1);
      StepError(exp, up, down, before, input, dt);
      OneMoreFactor(alpha, Power(alpha, k - 1), start - input, before - input, s - input);
    }
    Scaling(Power(alpha, k), start - input, s - input);
  }

  lemma Positive(exp: real -> real, x: real)
    requires IsExponential(exp)
    ensures exp(x) > 0.0
  {
  }

  lemma OneMoreFactor(alpha: real, power: real, start: real, before: real, after: real)
    requires before == power * start && after == alpha * before
    ensures after == (power * alpha) * start
  {
  }

  function Times(k: nat, x: real): real {
    k as real * x
  }

  lemma {:induction false} PowerOfExponential(exp: real -> real, x: real, k: nat)
    requires IsExponential(exp) && TurnsSumsIntoProducts(exp)
    ensures Power(exp(x), k) == exp(Times(k, x))
  {
    hide IsExponential, TurnsSumsIntoProducts, Times;
    if k == 0 {
      AtZero(exp, x);
    } else {
      PowerOfExponential(exp, x, k - 1);
      OneMore(x, k);
      Product(exp, Times(k - 1, x), x);
    }
  }

  lemma AtZero(exp: real -> real, x: real)
    requires IsExponential(exp)
    ensures exp(Times(0, x)) == 1.0
  {
    assert Times(0, x) == 0.0;
  }

  lemma OneMore(x: real, k: nat)
    requires k > 0
    ensures Times(k, x) == Times(k - 1, x) + x
  {
    assert k as real == (k - 1) as real + 1.0;
  }

  lemma Product(exp: real -> real, x: real, y: real)
    requires TurnsSumsIntoProducts(exp)
    ensures exp(x + y) == exp(x) * exp(y)
  {
  }

  /** The result does not depend on the sampling rate: k steps of dt reach the state that
      one step of k * dt reaches. */
  lemma SamplingRateIrrelevant(exp: real -> real, up: real, down: real, start: real, input: real, dt: real, k: nat)
    requires IsExponential(exp) && TurnsSumsIntoProducts(exp)
    ensures Hold(exp, up, down, start, input, dt, k) == Step(exp, up, down, start, input, Times(k, dt))
  {
    hide IsExponential, TurnsSumsIntoProducts, Step, Times;
    var tau := Tau(up, down, start, input);
    ConstantCommandDecays(exp, up, down, start, input, dt, k);
    PowerOfExponential(exp, -dt / tau, k);
    StepError(exp, up, down, start, input, Times(k, dt));
    Scaled(dt, tau, k);
  }

  lemma Scaled(dt: real, tau: real, k: nat)
    requires tau > 0.0
    ensures Times(k, -dt / tau) == -Times(k, dt) / tau
  {
    var q := -dt / tau;
    assert q * tau == -dt;
    assert (k as real * q) * tau == k as real * (q * tau);
    assert ((k as real * q) * tau) / tau == k as real * q;
  }
}
