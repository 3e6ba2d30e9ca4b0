/** The linear ramp that brings a motor to its commanded speed, over real arithmetic. */
module MotorRamp {
  const MAX_PWM := 7781
  const STEP: real := 0.08
  const CALIBRATION := 100

  datatype Level = Low | High

  /** A float argument: a number or NaN. */
  datatype Float = NaN | Number(x: real)

  /** The contents of MotorControlParams. */
  datatype Params = Params(speed: int, dir: Level, ms: nat, fSpeed: real)

  function Abs(x: real): real {
    if x < 0.0 then -x else x
  }

  function Pwm(x: real): int {
    (Abs(x) * MAX_PWM as real).Floor
  }

  function Clamped(x: real): real {
    if x < -1.0 then -1.0 else if x > 1.0 then 1.0 else x
  }

  function Heading(x: real, before: Level): Level {
    if x > 0.0 then Low else if x < 0.0 then High else before
  }

  function Updated(p: Params, speed: Float, time: nat): Params {
    match speed
    case NaN => p
    case Number(x) =>
      var c := Clamped(x);
      Params(Pwm(c), Heading(c, p.dir), time, c)
  }

  /** The PWM value and the direction are those of the float speed; at speed zero either
      direction may have been kept. */
  predicate Consistent(p: Params) {
    -1.0 <= p.fSpeed <= 1.0 && p.speed == Pwm(p.fSpeed) && p.dir == Heading(p.fSpeed, p.dir)
  }

  predicate Matches(p: Params, target: Params) {
    p.speed == target.speed && p.dir == target.dir
  }

  /** The signed power given to the motor. */
  function Drive(p: Params): int {
    if p.dir == Low then p.speed else -p.speed
  }

  function Toward(x: real, goal: real): real {
    if x < goal then (if x + STEP > goal then goal else x + STEP)
    else (if x - STEP < goal then goal else x - STEP)
  }

  /** One output of the ramp. */
  function Output(p: Params, target: Params, time: nat): Params {
    if Matches(p, target) then p
    else if p.fSpeed == target.fSpeed then target
    else Updated(p, Number(Toward(p.fSpeed, target.fSpeed)), time)
  }

  function Outputs(p: Params, target: Params, times: seq<nat>): Params {
    if times == [] then p else Output(Outputs(p, target, times[..|times| - 1]), target, times[|times| - 1])
  }

  predicate Between(a: real, x: real, b: real) {
    a <= x <= b || b <= x <= a
  }

  lemma PwmInRange(x: real)
    requires -1.0 <= x <= 1.0
    ensures 0 <= Pwm(x) <= MAX_PWM
  {
  }

  lemma UpdatedConsistent(p: Params, speed: Float, time: nat)
    requires Consistent(p)
    ensures Consistent(Updated(p, speed, time))
  {
  }

  /** Full power is 95 percent of 8191, and a step is what 2 ms are of 25. */
  lemma FullPower()
    ensures Pwm(1.0) == Pwm(-1.0) == MAX_PWM == (0.95 * 8191.0).Floor && STEP == 2.0 / 25.0
  {
  }

  /** What a request asks for: the nearest speed in range, forward with the direction pin low. */
  lemma UpdatedIs(p: Params, speed: Float, time: nat)
    ensures speed.NaN? ==> Updated(p, speed, time) == p
    ensures speed.Number? ==>
      var x, q := speed.x, Updated(p, speed, time);
      && q.ms == time && -1.0 <= q.fSpeed <= 1.0
      && (-1.0 <= x <= 1.0 ==> q.fSpeed == x) && (x > 1.0 ==> q.fSpeed == 1.0) && (x < -1.0 ==> q.fSpeed == -1.0)
      && q.dir == (if x > 0.0 then Low else if x < 0.0 then High else p.dir)
      && q.speed as real <= 7781.0 * (if q.fSpeed < 0.0 then -q.fSpeed else q.fSpeed) < q.speed as real + 1.0
  {
  }

  /** An output changes nothing if and only if the target is matched; otherwise it is the
      target or a step made now. */
  lemma FixedIff(p: Params, target: Params, time: nat)
    requires Consistent(p) && Consistent(target)
    ensures Output(p, target, time) == p <==> p.speed == target.speed && p.dir == target.dir
    ensures Output(p, target, time) != p ==>
      if p.fSpeed == target.fSpeed then Output(p, target, time) == target else Output(p, target, time).ms == time
  {
    if !Matches(p, target) && p.fSpeed != target.fSpeed {
      assert Toward(p.fSpeed, target.fSpeed) != p.fSpeed;
    }
  }

  /** More float speed never means less power, and the power of two speeds differs by no
      more than their distance in PWM units, rounded up. */
  lemma DriveGrows(p: Params, q: Params)
    requires Consistent(p) && Consistent(q) && p.fSpeed <= q.fSpeed
    ensures Drive(p) <= Drive(q)
    ensures (Drive(q) - Drive(p)) as real < (q.fSpeed - p.fSpeed) * MAX_PWM as real + 1.0
  {
  }

  /** One output stays consistent, moves the float speed by at most one step and the power
      by at most 623 of 7781, and neither passes the target. */
  lemma OutputIsBounded(p: Params, target: Params, time: nat)
    requires Consistent(p) && Consistent(target)
    ensures var q := Output(p, target, time);
      && Consistent(q) && 0 <= q.speed <= MAX_PWM
      && Abs(q.fSpeed - p.fSpeed) <= STEP && Between(p.fSpeed, q.fSpeed, target.fSpeed)
      && -623 <= Drive(q) - Drive(p) <= 623
      && (Drive(p) <= Drive(q) <= Drive(target) || Drive(p) >= Drive(q) >= Drive(target))
  {
    var q := Output(p, target, time);
    PwmInRange(q.fSpeed);
    if p.fSpeed <= q.fSpeed {
      DriveGrows(p, q);
    } else {
      DriveGrows(q, p);
    }
    if q.fSpeed <= target.fSpeed {
      DriveGrows(q, target);
    }
    if target.fSpeed <= q.fSpeed {
      DriveGrows(target, q);
    }
  }

  function Distance(p: Params, target: Params): real {
    Abs(target.fSpeed - p.fSpeed)
  }

  lemma OutputGains(p: Params, target: Params, time: nat)
    requires Consistent(p) && Consistent(target)
    ensures var q := Output(p, target, time);
      Matches(q, target) || q.fSpeed == target.fSpeed || Distance(q, target) <= Distance(p, target) - STEP
  {
  }

  lemma {:induction false} OutputsGain(p: Params, target: Params, times: seq<nat>)
    requires Consistent(p) && Consistent(target)
    ensures var q := Outputs(p, target, times);
      && Consistent(q) && Between(p.fSpeed, q.fSpeed, target.fSpeed)
      && Abs(q.fSpeed - p.fSpeed) <= |times| as real * STEP
      && (Matches(q, target) || q.fSpeed == target.fSpeed
          || Distance(q, target) <= Distance(p, target) - |times| as real * STEP)
  {
    if times != [] {
      var before := Outputs(p, target, times[..|times| - 1]);
      OutputsGain(p, target, times[..|times| - 1]);
      OutputIsBounded(before, target, times[|times| - 1]);
      OutputGains(before, target, times[|times| - 1]);
    }
  }

  /** From any consistent state 25 outputs match speed and direction of any target. Only at
      speed zero can the direction lag behind: it takes one output more, and fewer steps. */
  lemma MatchedWithin25(p: Params, target: Params, times: seq<nat>)
    requires Consistent(p) && Consistent(target) && |times| >= 25
    ensures Matches(Outputs(p, target, times), target)
  {
    if target.fSpeed == 0.0 {
      OutputsGain(p, target, times[..|times| - 1]);
    } else {
      OutputsGain(p, target, times);
    }
  }

  /** A full reversal takes all 25. */
  lemma FullReversalTakes25(p: Params, target: Params, times: seq<nat>)
    requires Consistent(p) && Consistent(target) && p.fSpeed == -1.0 && target.fSpeed == 1.0
    ensures Matches(Outputs(p, target, times), target) <==> |times| >= 25
  {
    if |times| >= 25 {
      MatchedWithin25(p, target, times);
    } else {
      OutputsGain(p, target, times);
      assert Outputs(p, target, times).fSpeed <= 0.92;
    }
  }

  // ---------- the objects ----------

  class MotorControlParams {
    var speed: int
    var dir: Level
    var ms: nat
    var fSpeed: real

    ghost function Value(): Params
      reads this
    {
      Params(speed, dir, ms, fSpeed)
    }

    constructor ()
      ensures Value() == Params(0, Low, 0, 0.0)
    {
      speed, dir, ms, fSpeed := 0, Low, 0, 0.0;
    }

    method McUpdate(mSpeed: Float, time: nat)
      modifies this
      ensures Value() == Updated(old(Value()), mSpeed, time)
      ensures old(Consistent(Value())) ==> Consistent(Value()) && 0 <= speed <= MAX_PWM
    {
      if Consistent(Value()) {
        UpdatedConsistent(Value(), mSpeed, time);
        PwmInRange(Updated(Value(), mSpeed, time).fSpeed);
      }
      if mSpeed.NaN? {
        return;
      }
      var x := mSpeed.x;
      if x < -1.0 {
        x := -1.0;
      }
      if x > 1.0 {
        x := 1.0;
      }
      ms := time;
      var speedCopy, dirCopy := 0, dir;
      if x > 0.0 {
        dirCopy := Low;
        speedCopy := (x * MAX_PWM as real).Floor;
      } else if x < 0.0 {
        dirCopy := High;
        speedCopy := -(-x * MAX_PWM as real).Floor;
        speedCopy := -speedCopy;
      }
      if speedCopy > MAX_PWM {
        speedCopy := MAX_PWM;
      }
      if speedCopy < 0 {
        speedCopy := 0;
      }
      speed, dir, fSpeed := speedCopy, dirCopy, x;
    }

    method Copy(from: MotorControlParams)
      modifies this
      ensures Value() == old(from.Value())
    {
      speed, dir, ms, fSpeed := from.speed, from.dir, from.ms, from.fSpeed;
    }
  }

  datatype MState = Calibrate | Work

  class Motor {
    const mcp: MotorControlParams
    const mcpPrev: MotorControlParams
    const invDir: bool
    var mState: MState
    var processCounter: nat
    var canRotate: bool
    var pwmPin: int
    var dirPin: Level
    ghost var neverDisabled: bool

    function Wire(dir: Level): Level {
      if invDir then (if dir == Low then High else Low) else dir
    }

    /** The pins drive the motor as `mcpPrev` says. */
    ghost predicate PinsShow()
      reads this, mcpPrev
    {
      pwmPin == mcpPrev.speed && (pwmPin == 0 || dirPin == Wire(mcpPrev.dir))
    }

    ghost predicate Valid()
      reads this, mcp, mcpPrev
    {
      && mcp != mcpPrev && Consistent(mcp.Value()) && Consistent(mcpPrev.Value())
      && 0 <= pwmPin <= MAX_PWM && (neverDisabled ==> canRotate && PinsShow())
      && (mState.Calibrate? ==> processCounter < CALIBRATION)
    }

    constructor (id: nat)
      ensures Valid() && fresh(mcp) && fresh(mcpPrev) && neverDisabled && mState.Calibrate?
      ensures mcpPrev.Value() == mcp.Value() == Params(0, Low, 0, 0.0) && invDir == (id % 2 == 0)
      ensures processCounter == pwmPin == 0
    {
      mcp := new MotorControlParams();
      mcpPrev := new MotorControlParams();
      invDir := id % 2 == 0;
      mState, processCounter, canRotate, pwmPin, dirPin, neverDisabled := Calibrate, 0, true, 0, Low, true;
    }

    /** The new parameters of one output; `moved` tells that the target was not matched. */
    method Ramp(now: nat) returns (moved: bool)
      requires mcp != mcpPrev
      modifies mcpPrev
      ensures mcpPrev.Value() == Output(old(mcpPrev.Value()), mcp.Value(), now)
      ensures moved <==> !old(Matches(mcpPrev.Value(), mcp.Value()))
    {
      if mcpPrev.speed == mcp.speed && mcpPrev.dir == mcp.dir {
        return false;
      }
      if mcpPrev.fSpeed == mcp.fSpeed {
        mcpPrev.Copy(mcp);
      } else {
        var x;
        if mcpPrev.fSpeed < mcp.fSpeed {
          x := mcpPrev.fSpeed + STEP;
          if x > mcp.fSpeed {
            x := mcp.fSpeed;
          }
        } else {
          x := mcpPrev.fSpeed - STEP;
          if x < mcp.fSpeed {
            x := mcp.fSpeed;
          }
        }
        mcpPrev.McUpdate(Number(x), now);
      }
      return true;
    }

    /** One output: the ramp moves by one step; a matched target leaves even the pins alone,
        so disabling the motors has no effect until the target changes. */
    method ProcessOutput(now: nat)
      requires Valid()
      modifies mcpPrev, this`pwmPin, this`dirPin
      ensures Valid() && mcpPrev.Value() == Output(old(mcpPrev.Value()), mcp.Value(), now)
      ensures old(Matches(mcpPrev.Value(), mcp.Value())) ==> pwmPin == old(pwmPin) && dirPin == old(dirPin)
      ensures !old(Matches(mcpPrev.Value(), mcp.Value())) && canRotate ==> PinsShow()
      ensures !canRotate ==> (pwmPin == 0 <==> !old(Matches(mcpPrev.Value(), mcp.Value())) || old(pwmPin) == 0)
    {
      OutputIsBounded(mcpPrev.Value(), mcp.Value(), now);
      var moved := Ramp(now);
      if !moved {
        return;
      }
      if canRotate {
        pwmPin := mcpPrev.speed;
        var d := mcpPrev.dir;
        if invDir {
          d := if d == Low then High else Low;
        }
        dirPin := d;
      } else {
        pwmPin := 0;
      }
    }

    /** The 1 ms interrupt: an output on every second call once calibration is over, that
        is from the 100th call on. */
    method Process(now: nat)
      requires Valid()
      modifies mcpPrev, this`pwmPin, this`dirPin, this`mState, this`processCounter
      ensures Valid() && processCounter == old(processCounter) + 1
      ensures mState.Work? <==> old(mState.Work?) || processCounter == 100
      ensures mcpPrev.Value() == if mState.Work? && processCounter % 2 == 0
        then Output(old(mcpPrev.Value()), mcp.Value(), now) else old(mcpPrev.Value())
      ensures if mState.Work? && processCounter % 2 == 0 && !old(Matches(mcpPrev.Value(), mcp.Value()))
        then (if canRotate then PinsShow() else pwmPin == 0)
        else pwmPin == old(pwmPin) && dirPin == old(dirPin)
    {
      processCounter := processCounter + 1;
      if mState.Calibrate? && processCounter >= CALIBRATION {
        mState := Work;
      }
      if processCounter % 2 == 0 && mState.Work? {
        ProcessOutput(now);
      }
    }

    /** With motors never disabled and the target left alone, 50 calls bring the motor to it:
        the pins show speed and direction asked for. */
    method Settle(nows: seq<nat>)
      requires Valid() && mState.Work? && neverDisabled && |nows| >= 50
      modifies mcpPrev, this`pwmPin, this`dirPin, this`mState, this`processCounter
      ensures Valid() && mState.Work? && Matches(mcpPrev.Value(), mcp.Value())
      ensures processCounter == old(processCounter) + |nows|
      ensures pwmPin == mcp.speed && (pwmPin == 0 || dirPin == Wire(mcp.dir))
      ensures pwmPin != 0 ==> (dirPin == Low <==> (mcp.fSpeed > 0.0) != invDir)
    {
      ghost var times: seq<nat> := [];
      for i := 0 to |nows|
        invariant Valid() && mState.Work? && processCounter == old(processCounter) + i
        invariant mcpPrev.Value() == Outputs(old(mcpPrev.Value()), mcp.Value(), times)
        invariant |times| == processCounter / 2 - old(processCounter) / 2
      {
        Process(nows[i]);
        if processCounter % 2 == 0 {
          assert (times + [nows[i]])[..|times|] == times;
          times := times + [nows[i]];
        }
      }
      MatchedWithin25(old(mcpPrev.Value()), mcp.Value(), times);
    }

    method SetSpeed(mSpeed: Float, time: nat)
      requires Valid()
      modifies mcp
      ensures Valid() && mcp.Value() == Updated(old(mcp.Value()), mSpeed, time)
    {
      mcp.McUpdate(mSpeed, time);
    }

    /** Stopping asks for speed zero in the direction held, so the ramp is used here too. */
    method MStop(time: nat)
      requires Valid()
      modifies mcp
      ensures Valid() && mcp.Value() == Params(0, old(mcp.dir), time, 0.0)
    {
      mcp.McUpdate(Number(0.0), time);
    }

    method CanUseMotors(use: bool)
      requires Valid()
      modifies this`canRotate, this`neverDisabled
      ensures Valid() && canRotate == use && neverDisabled == (old(neverDisabled) && use)
    {
      canRotate := use;
      neverDisabled := neverDisabled && use;
    }
  }

  /** A motor out of calibration, at rest. */
  method Calibrated() returns (m: Motor)
    ensures fresh(m) && fresh(m.mcp) && fresh(m.mcpPrev) && m.Valid() && m.mState.Work? && m.canRotate
    ensures m.processCounter == CALIBRATION && m.mcpPrev.Value() == m.mcp.Value() == Params(0, Low, 0, 0.0)
  {
    m := new Motor(0);
    while m.processCounter < CALIBRATION
      invariant m.Valid() && m.processCounter <= CALIBRATION && m.canRotate
      invariant m.mState.Work? <==> m.processCounter == CALIBRATION
      invariant m.mcpPrev.Value() == m.mcp.Value() == Params(0, Low, 0, 0.0)
      decreases CALIBRATION - m.processCounter
    {
      m.Process(0);
    }
  }

  /** A motor that has reached its target before the motors are disabled goes on running,
      for as many interrupts as there may be. */
  method RunsOnDisabled(nows: seq<nat>) returns (m: Motor)
    ensures fresh(m) && m.Valid() && !m.canRotate && m.pwmPin == 622 && m.processCounter == 102 + |nows|
  {
    m := Calibrated();
    m.SetSpeed(Number(STEP), 0);
    m.Process(0);
    m.Process(0);
    assert m.mcpPrev.Value() == m.mcp.Value() == Params(622, Low, 0, STEP);
    m.CanUseMotors(false);
    for i := 0 to |nows|
      invariant m.processCounter == 102 + i
      invariant m.Valid() && !m.canRotate && m.pwmPin == 622 && m.mcpPrev.Value() == m.mcp.Value()
    {
      m.Process(nows[i]);
    }
  }
}
