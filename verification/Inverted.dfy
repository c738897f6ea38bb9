/** Rate-limited motion of an inverted joint. The limiter compares a command in the frame of the joint
    with a record in the frame of the motor; this module says exactly what comes of it. */
module Inverted {
  import opened Numeric
  import opened Joints
  import opened Cycle
  import opened Runs
  import opened Motion

  // ---- one send ----

  /** The limiter on finite values. */
  function Stepped(x: real, l: real, h: real): real {
    if x > l + h then l + h else if x < l - h then l - h else x
  }

  lemma StepIs(x: real, l: real, h: real)
    requires h >= 0.0
    ensures StepTowards(Fin(x), l, h) == Fin(Stepped(x, l, h))
  {
  }

  /** A rate-limited, inverted POSITION joint with finite command and record whose command passes. */
  predicate Sending(j: Joint, dt: real, r: real) {
    && j.cfg.invert && j.level == POSITION && dt > 0.0 && r >= 0.0
    && j.cfg.limits.posRate == Some(Fin(r))
    && j.cmd.pos.Fin? && j.core.lastCmd.pos.Fin?
    && !JointShape(j, dt).rejected
  }

  lemma InvertedSend(j: Joint, dt: real, r: real)
    requires Sending(j, dt, r)
    ensures SentCommand(j, dt).pos == Fin(-Stepped(j.cmd.pos.r, j.core.lastCmd.pos.r, r * dt))
  {
    hide RateLimited, StepTowards, Stepped;
    LimitedPosition(j, dt);
    RateLimitedMeaning(j.cmd.pos, j.core.lastCmd.pos, r, dt);
    StepIs(j.cmd.pos.r, j.core.lastCmd.pos.r, r * dt);
  }

  /** Exactly when one send keeps the slew bound: what the motor is sent lies within one step of what
      it was sent last. */
  lemma InvertedSlew(j: Joint, dt: real, r: real)
    requires Sending(j, dt, r)
    ensures var x, l, h := j.cmd.pos.r, j.core.lastCmd.pos.r, r * dt;
            Within(j.core.lastCmd.pos, SentCommand(j, dt).pos, h) <==>
              if x > l + h then -h <= l <= 0.0 else if x < l - h then 0.0 <= l <= h else -h <= x + l <= h
  {
    hide SentCommand;
    InvertedSend(j, dt, r);
  }

  /** A joint that has arrived is sent the same again exactly if twice its target is within one step. */
  lemma InvertedHold(j: Joint, dt: real, r: real)
    requires Sending(j, dt, r) && j.core.lastCmd.pos == Neg(j.cmd.pos)
    ensures SentCommand(j, dt).pos == j.core.lastCmd.pos <==> -(r * dt) <= 2.0 * j.cmd.pos.r <= r * dt
  {
    hide SentCommand;
    InvertedSend(j, dt, r);
  }

  // ---- many sends ----

  /** The record after k sends towards t. */
  function Bounce(l: real, t: real, h: real, k: nat): real {
    if k == 0 then l else -Stepped(t, Bounce(l, t, h, k - 1), h)
  }

  /** The records from which the joint never arrives at -t. */
  predicate Stuck(l: real, t: real, h: real) {
    if t >= 0.0 then -t < l < t - h else t + h < l < -t
  }

  /** From such a record every second send returns to it. */
  lemma {:induction false} BounceStuck(l: real, t: real, h: real, k: nat)
    requires h > 0.0 && Stuck(l, t, h)
    ensures Bounce(l, t, h, k) == if k % 2 == 0 then l else if t >= 0.0 then -(l + h) else -(l - h)
    ensures Bounce(l, t, h, k) != -t
  {
    if k > 0 {
      BounceStuck(l, t, h, k - 1);
    }
  }

  lemma {:induction false} BounceShift(l: real, t: real, h: real, n: nat, k: nat)
    ensures Bounce(Bounce(l, t, h, n), t, h, k) == Bounce(l, t, h, n + k)
    decreases k
  {
    if k > 0 {
      BounceShift(l, t, h, n, k - 1);
    }
  }

  lemma BounceNext(l: real, t: real, h: real, k: nat)
    ensures Bounce(l, t, h, 0) == l
    ensures Bounce(l, t, h, k + 1) == -Stepped(t, Bounce(l, t, h, k), h)
  {
  }

  function Gap(l: real, t: real): real { if l >= t then l - t else t - l }

  /** Two sends from a record that is neither stuck nor about to arrive bring it two steps nearer, or
      within one step. */
  lemma TwoSends(l: real, t: real, h: real)
    requires h > 0.0 && !Stuck(l, t, h)
    ensures var m, l' := Bounce(l, t, h, 1), Bounce(l, t, h, 2);
            || m == -t || l' == -t || Gap(l', t) <= h
            || (!Stuck(l', t, h) && Gap(l', t) == Gap(l, t) - 2.0 * h)
  {
    var m := -Stepped(t, l, h);
    assert Bounce(l, t, h, 1) == m;
    assert Bounce(l, t, h, 2) == -Stepped(t, m, h);
  }

  /** Every other record leads there, within n sends if n steps cover the gap. */
  lemma {:induction false} BounceArrives(l: real, t: real, h: real, n: nat) returns (k: nat)
    requires h > 0.0 && !Stuck(l, t, h) && Gap(l, t) <= n as real * h
    ensures Bounce(l, t, h, k) == -t
    ensures k <= n + 3
    decreases n
  {
    hide Stuck;
    TwoSends(l, t, h);
    if Bounce(l, t, h, 1) == -t {
      k := 1;
    } else if Bounce(l, t, h, 2) == -t {
      k := 2;
    } else {
      hide Bounce;
      var l' := Bounce(l, t, h, 2);
      if Gap(l', t) <= h {
        BounceNext(l, t, h, 2);
        k := 3;
      } else {
        Covered(n, h);
        var m := BounceArrives(l', t, h, n - 2);
        BounceShift(l, t, h, 2, m);
        k := 2 + m;
      }
    }
  }

  lemma Covered(n: nat, h: real)
    requires h > 0.0
    ensures n as real * h >= 2.0 * h ==> n >= 2
    ensures n >= 2 ==> (n - 2) as real * h == n as real * h - 2.0 * h
  {
    if n < 2 {
      assert n == 0 || n == 1;
    } else {
      assert (n - 2) as real == n as real - 2.0;
    }
  }

  lemma EnoughSteps(d: real, h: real) returns (n: nat)
    requires d >= 0.0 && h > 0.0
    ensures d <= n as real * h
  {
    n := (d / h).Floor + 1;
    assert d / h * h == d;
    Scaled(d / h, n as real, h);
  }

  /** Exactly which records ever lead to -t when t is commanded again and again. */
  lemma ArrivalExact(l: real, t: real, h: real)
    requires h > 0.0
    ensures (exists k: nat :: Bounce(l, t, h, k) == -t) <==> !Stuck(l, t, h)
  {
    hide Bounce;
    if Stuck(l, t, h) {
      forall k: nat ensures Bounce(l, t, h, k) != -t {
        BounceStuck(l, t, h, k);
      }
    } else {
      var n := EnoughSteps(Gap(l, t), h);
      var k := BounceArrives(l, t, h, n);
    }
  }

  /** Having arrived, the record stays exactly if twice the target is within one step. */
  lemma {:induction false} BounceStays(t: real, h: real, k: nat)
    requires h > 0.0
    ensures -h <= 2.0 * t <= h ==> Bounce(-t, t, h, k) == -t
    ensures !(-h <= 2.0 * t <= h) ==> Bounce(-t, t, h, 1) != -t
  {
    if k > 0 {
      BounceStays(t, h, k - 1);
    }
    assert Bounce(-t, t, h, 1) == -Stepped(t, Bounce(-t, t, h, 0), h);
  }

  /** At the target from send k on. */
  ghost predicate SettledFrom(l: real, t: real, h: real, k: nat) {
    forall m: nat | m >= k :: Bounce(l, t, h, m) == -t
  }

  /** Exactly when a joint reaches its target and keeps it: if twice the target is within one step, from
      any record; otherwise never. */
  lemma SettlesExact(l: real, t: real, h: real)
    requires h > 0.0
    ensures (exists k: nat :: SettledFrom(l, t, h, k)) <==> -h <= 2.0 * t <= h
  {
    hide Bounce;
    if -h <= 2.0 * t <= h {
      ArrivalExact(l, t, h);
      var k: nat :| Bounce(l, t, h, k) == -t;
      forall m: nat | m >= k ensures Bounce(l, t, h, m) == -t {
        BounceShift(l, t, h, k, m - k);
        BounceStays(t, h, m - k);
      }
      assert SettledFrom(l, t, h, k);
    } else {
      forall k: nat ensures !SettledFrom(l, t, h, k) {
        BounceShift(l, t, h, k, 1);
        BounceStays(t, h, 0);
        assert Bounce(l, t, h, k) != -t || Bounce(l, t, h, k + 1) != -t;
      }
    }
  }

  // ---- runs ----

  /** After k complete sends towards a target the record of an inverted joint is the k-th bounce,
      whatever else happens in the run, if no command was rejected. */
  lemma {:induction false} InvertedRun(c: Context, s: Hw, calls: seq<Api>, i: nat, target: Triple, r: real, dt: real)
    requires i < |s.joints| && r > 0.0 && dt > 0.0
    requires s.joints[i].cfg.invert && s.joints[i].cfg.limits.posRate == Some(Fin(r))
    requires target.pos.Fin? && s.joints[i].core.lastCmd.pos.Fin?
    requires Recommanded(c, s, calls, i, target, dt) && PositionThroughout(c, s, calls, i)
    ensures |Run(c, s, calls).joints| == |s.joints|
    ensures Run(c, s, calls).joints[i].core.lastCmd.pos ==
            Fin(Bounce(s.joints[i].core.lastCmd.pos.r, target.pos.r, r * dt, Sends(c, s, calls, i)))
  {
    hide Stepped, Step, Sent, JointShape, SentCommand, Bounce;
    var l, t, h := s.joints[i].core.lastCmd.pos.r, target.pos.r, r * dt;
    BounceNext(l, t, h, 0);
    if calls != [] {
      var m := |calls| - 1;
      var u := Run(c, s, calls[..m]);
      RecommandedPrefix(c, s, calls, i, target, dt);
      PositionPrefix(c, s, calls, i);
      InvertedRun(c, s, calls[..m], i, target, r, dt);
      RunConfig(c, s, calls[..m]);
      StepLastCmd(c, u, calls[m], i);
      if Sent(c, u, calls[m], i) {
        assert calls[m].WriteCall? by { SentIsWrite(c, u, calls[m], i); }
        InvertedSend(u.joints[i], dt, r);
        BounceNext(l, t, h, Sends(c, s, calls[..m], i));
      }
    }
  }

  /** A run that starts stuck never sends the target; any other is at the target after some number of
      complete sends, which depends on the record, the target and the step alone. */
  lemma InvertedArrival(c: Context, s: Hw, calls: seq<Api>, i: nat, target: Triple, r: real, dt: real)
    returns (k: nat)
    requires i < |s.joints| && r > 0.0 && dt > 0.0
    requires s.joints[i].cfg.invert && s.joints[i].cfg.limits.posRate == Some(Fin(r))
    requires target.pos.Fin? && s.joints[i].core.lastCmd.pos.Fin?
    requires Recommanded(c, s, calls, i, target, dt) && PositionThroughout(c, s, calls, i)
    ensures |Run(c, s, calls).joints| == |s.joints|
    ensures var l, t, h := s.joints[i].core.lastCmd.pos.r, target.pos.r, r * dt;
            && (Stuck(l, t, h) ==> Run(c, s, calls).joints[i].core.lastCmd.pos != Neg(target.pos))
            && (!Stuck(l, t, h) ==>
                  && Bounce(l, t, h, k) == -t
                  && (Sends(c, s, calls, i) == k ==> Run(c, s, calls).joints[i].core.lastCmd.pos == Neg(target.pos)))
  {
    hide Run, Bounce, Sends;
    InvertedRun(c, s, calls, i, target, r, dt);
    var l, t, h := s.joints[i].core.lastCmd.pos.r, target.pos.r, r * dt;
    assert h > 0.0;
    k := 0;
    if Stuck(l, t, h) {
      BounceStuck(l, t, h, Sends(c, s, calls, i));
    } else {
      ArrivalExact(l, t, h);
      k :| Bounce(l, t, h, k) == -t;
    }
  }

  // ---- when no command is rejected ----

  predicate Symmetric(range: Range) {
    (range.min.None? && range.max.None?) || (range.min.Some? && range.max == Some(Neg(range.min.value)))
  }

  lemma MirroredComponent(x: Num, range: Range)
    requires Symmetric(range) && ValidComponent(x, range)
    ensures ValidComponent(Neg(x), range)
  {
  }

  /** With ranges symmetric around zero, valid commands stay valid through inversion, so an inverted
      joint with a valid record and a valid command is not rejected, and its new record is valid. */
  lemma InvertedNeverRejected(j: Joint, dt: real)
    requires j.cfg.invert && j.level == POSITION && dt > 0.0
    requires Symmetric(j.cfg.limits.pos) && Symmetric(j.cfg.limits.vel) && Symmetric(j.cfg.limits.eff)
    requires ValidTriple(j.cfg.limits, j.cmd) && ValidTriple(j.cfg.limits, j.core.lastCmd)
    requires RateOk(j.cfg.limits.posRate) && RateOk(j.cfg.limits.velRate) && RateOk(j.cfg.limits.effRate)
    ensures !JointShape(j, dt).rejected
    ensures ValidTriple(j.cfg.limits, SentCommand(j, dt))
  {
    hide JointShape, ValidComponent, Symmetric;
    NeverRejected(j, dt);
    var t, limits := JointShape(j, dt).cmd, j.cfg.limits;
    MirroredComponent(t.pos, limits.pos);
    MirroredComponent(t.vel, limits.vel);
    MirroredComponent(t.eff, limits.eff);
  }
}
