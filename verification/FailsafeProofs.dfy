/** Fail-safe: when it strikes, and what it restores. */
module FailsafeProofs {
  import opened Common
  import opened Ports
  import MergeProofs

  /** The fail-safe of the port strikes at this moment. */
  predicate Strikes(p: Port, m: Moment) { m.action.Timers? && LosesData(p, m.now) }

  predicate NoDmx(ms: seq<Moment>) { forall m <- ms :: !m.action.Dmx? }

  lemma TriggeredStep(p: Port, m: Moment)
    requires p.failsafeTriggered && !m.action.Dmx?
    ensures PortStep(p, m).failsafeTriggered
  {
  }

  lemma {:induction false} StaysTriggered(p: Port, ms: seq<Moment>)
    requires p.failsafeTriggered && NoDmx(ms)
    ensures PortRun(p, ms).failsafeTriggered
    decreases |ms|
  {
    if ms == [] {
    } else {
      StaysTriggered(p, ms[..|ms| - 1]);
      assert ms[|ms| - 1] in ms;
      TriggeredStep(PortRun(p, ms[..|ms| - 1]), ms[|ms| - 1]);
    }
  }

  lemma {:induction false} PortRunConcat(p: Port, xs: seq<Moment>, ys: seq<Moment>)
    ensures PortRun(p, xs + ys) == PortRun(PortRun(p, xs), ys)
    decreases |ys|
  {
    if ys == [] {
      assert xs + ys == xs;
    } else {
      PortRunConcat(p, xs, ys[..|ys| - 1]);
      assert (xs + ys)[..|xs + ys| - 1] == xs + ys[..|ys| - 1];
    }
  }

  /** Between two strikes on a port an ArtDmx reached it. ArtNzs is not enough, although it
      restarts the clock that the strike waits for. */
  lemma DmxBetweenStrikes(p: Port, ms: seq<Moment>, i: nat, j: nat)
    requires i < j < |ms|
    requires Strikes(PortRun(p, ms[..i]), ms[i]) && Strikes(PortRun(p, ms[..j]), ms[j])
    ensures exists k | i < k < j :: ms[k].action.Dmx?
  {
    var struck := PortStep(PortRun(p, ms[..i]), ms[i]);
    assert ms[..i + 1][..i] == ms[..i];
    assert PortRun(p, ms[..i + 1]) == struck;
    assert ms[..j] == ms[..i + 1] + ms[i + 1..j];
    PortRunConcat(p, ms[..i + 1], ms[i + 1..j]);
    if forall k | i < k < j :: !ms[k].action.Dmx? {
      StaysTriggered(struck, ms[i + 1..j]);
    }
  }

  /** After a strike, and while the node is not in sync mode, further checks change nothing. */
  lemma {:induction false} ChecksAfterStrike(p: Port, m: Moment, checks: seq<Moment>)
    requires Strikes(p, m)
    requires forall c <- checks :: c.action.Timers? && !c.action.syncExpired
    ensures PortRun(PortStep(p, m), checks) == PortStep(p, m)
    decreases |checks|
  {
    if checks == [] {
    } else {
      ChecksAfterStrike(p, m, checks[..|checks| - 1]);
      assert checks[|checks| - 1] in checks;
    }
  }

  // ----- when it strikes -----

  predicate Hears(m: Moment) { m.action.Dmx? || m.action.Nzs? }

  ghost predicate Bound(ms: seq<Moment>) { exists k | 0 <= k < |ms| :: ms[k].action.Bind? }

  /** The run's last moment that the port heard something. */
  ghost predicate LastHeard(ms: seq<Moment>, k: int) {
    0 <= k < |ms| && Hears(ms[k]) && forall j | k < j < |ms| :: !Hears(ms[j])
  }

  /** The fail-safe struck at `i`, and no ArtDmx has come since. */
  ghost predicate Struck(ms: seq<Moment>, i: int) {
    0 <= i < |ms| && Strikes(PortRun(NEW_PORT, ms[..i]), ms[i]) && forall j | i < j < |ms| :: !ms[j].action.Dmx?
  }

  lemma AcceptKeepsEnabled(p: Port, c: Case, sync: bool, from: Address, physical: Byte, frame: Payload, now: int)
    ensures Accept(p, c, sync, from, physical, frame, now).enabled == p.enabled
  {
  }

  lemma EnabledKept(p: Port, sync: bool, from: Address, physical: Byte, frame: Payload, now: int)
    ensures Receive(p, sync, from, physical, frame, now).enabled == p.enabled
  {
    AcceptKeepsEnabled(p.(sources := Expire(p.sources, now)), CaseOf(p.sources.a, p.sources.b, from, physical),
                       sync, from, physical, frame, now);
  }

  lemma WatchStep(p: Port, m: Moment)
    ensures var p' := PortStep(p, m);
      && p'.enabled == (p.enabled || m.action.Bind?)
      && p'.lastDmxTime == (if Hears(m) then m.now else p.lastDmxTime)
      && p'.failsafeTriggered == if m.action.Dmx? then false else p.failsafeTriggered || Strikes(p, m)
  {
    if m.action.Dmx? {
      EnabledKept(p, m.sync, m.action.from, m.action.physical, m.action.frame, m.now);
    }
  }

  lemma {:induction false} EnabledOfRun(ms: seq<Moment>)
    ensures PortRun(NEW_PORT, ms).enabled <==> Bound(ms)
    decreases |ms|
  {
    if ms == [] {
    } else {
      var before, n := ms[..|ms| - 1], |ms| - 1;
      EnabledOfRun(before);
      WatchStep(PortRun(NEW_PORT, before), ms[n]);
      BoundNext(ms);
    }
  }

  lemma BoundNext(ms: seq<Moment>)
    requires ms != []
    ensures Bound(ms) <==> Bound(ms[..|ms| - 1]) || ms[|ms| - 1].action.Bind?
  {
    var before := ms[..|ms| - 1];
    if k :| 0 <= k < |before| && before[k].action.Bind? {
      assert ms[k].action.Bind?;
    }
    if k :| 0 <= k < |ms| && ms[k].action.Bind? {
      assert k < |before| ==> before[k].action.Bind?;
    }
  }

  lemma HeardNext(ms: seq<Moment>, k: int)
    requires ms != []
    ensures LastHeard(ms, k) <==> if Hears(ms[|ms| - 1]) then k == |ms| - 1 else LastHeard(ms[..|ms| - 1], k)
  {
    var before := ms[..|ms| - 1];
    if LastHeard(before, k) && !Hears(ms[|ms| - 1]) {
      assert forall j | k < j < |ms| :: j == |ms| - 1 || ms[j] == before[j];
    }
  }

  /** The port's clock: when it last heard something, 0 when it never did. */
  lemma {:induction false} ClockOfRun(ms: seq<Moment>)
    ensures var t := PortRun(NEW_PORT, ms).lastDmxTime;
      && (forall k | LastHeard(ms, k) :: ms[k].now == t)
      && (t != 0 ==> exists k :: LastHeard(ms, k))
    decreases |ms|
  {
    if ms == [] {
    } else {
      var before, n := ms[..|ms| - 1], |ms| - 1;
      ClockOfRun(before);
      WatchStep(PortRun(NEW_PORT, before), ms[n]);
      forall k ensures LastHeard(ms, k) <==> if Hears(ms[n]) then k == n else LastHeard(before, k) { HeardNext(ms, k); }
      if Hears(ms[n]) {
        assert LastHeard(ms, n);
      } else if k :| LastHeard(before, k) {
        assert LastHeard(ms, k);
      }
    }
  }

  lemma StruckNext(ms: seq<Moment>, i: int)
    requires ms != []
    ensures var before, n := ms[..|ms| - 1], |ms| - 1;
      Struck(ms, i) <==> !ms[n].action.Dmx? && (if i == n then Strikes(PortRun(NEW_PORT, before), ms[n]) else Struck(before, i))
  {
    var before, n := ms[..|ms| - 1], |ms| - 1;
    if 0 <= i < n {
      assert ms[..i] == before[..i] && ms[i] == before[i];
      assert forall j | i < j < n :: ms[j] == before[j];
    }
  }

  /** The port remembers exactly that it was struck and got no ArtDmx since. */
  lemma {:induction false} TriggeredOfRun(ms: seq<Moment>)
    ensures PortRun(NEW_PORT, ms).failsafeTriggered <==> exists i :: Struck(ms, i)
    decreases |ms|
  {
    if ms == [] {
    } else {
      var before, n := ms[..|ms| - 1], |ms| - 1;
      TriggeredOfRun(before);
      WatchStep(PortRun(NEW_PORT, before), ms[n]);
      forall i
        ensures Struck(ms, i) <==> !ms[n].action.Dmx? && (if i == n then Strikes(PortRun(NEW_PORT, before), ms[n]) else Struck(before, i))
      {
        StruckNext(ms, i);
      }
      if i :| Struck(before, i) {
        assert !ms[n].action.Dmx? ==> Struck(ms, i);
      }
      assert Strikes(PortRun(NEW_PORT, before), ms[n]) ==> Struck(ms, n);
    }
  }

  /** Nothing was heard for the timeout, on a port that heard something before. */
  ghost predicate Lost(ms: seq<Moment>, m: Moment) {
    && Bound(ms)
    && exists k :: LastHeard(ms, k) && ms[k].now != 0 && m.now - ms[k].now >= 800
  }

  /** Over all runs: the fail-safe strikes exactly when data is lost and it has not struck since
      the last ArtDmx. */
  lemma StrikesExactly(ms: seq<Moment>, m: Moment)
    ensures Strikes(PortRun(NEW_PORT, ms), m) <==> m.action.Timers? && Lost(ms, m) && !exists i :: Struck(ms, i)
  {
    EnabledOfRun(ms);
    ClockOfRun(ms);
    TriggeredOfRun(ms);
    if LosesData(PortRun(NEW_PORT, ms), m.now) {
      var k :| LastHeard(ms, k);
      assert ms[k].now == PortRun(NEW_PORT, ms).lastDmxTime;
    }
  }

  /** One would expect every loss to be answered: by a strike now, or by one since the port last
      heard something. It is, exactly unless the last thing heard was ArtNzs after a strike: that
      restarts the clock and does not re-arm the fail-safe. */
  lemma LossAnswered(ms: seq<Moment>, m: Moment, k: int)
    requires m.action.Timers? && Lost(ms, m) && LastHeard(ms, k)
    ensures Strikes(PortRun(NEW_PORT, ms), m) || (exists i :: k < i && Struck(ms, i)) <==> !exists i :: i < k && Struck(ms, i)
  {
    StrikesExactly(ms, m);
    if i, j :| i < j && Struck(ms, i) && Struck(ms, j) {
      DmxBetweenStrikes(NEW_PORT, ms, i, j);
    }
  }

  /** A check that finds nothing to do leaves the port as it is. */
  lemma QuietCheck(p: Port, m: Moment)
    requires m.action.Timers? && !m.action.syncExpired && !Strikes(p, m)
    ensures PortStep(p, m) == p
  {
  }

  /** What a strike puts out: all 512 channels at 0 or at 255, the scene, or what was there. */
  lemma StrikePutsOut(p: Port, m: Moment, c: nat)
    requires Strikes(p, m) && !m.action.syncExpired && c < 512
    ensures PortStep(p, m) == p.(live := PortStep(p, m).live, failsafeTriggered := true)
    ensures var live := PortStep(p, m).live;
      && (m.action.failsafe == Zero ==> live.length == 512 && live.data[c] == 0)
      && (m.action.failsafe == Full ==> live.length == 512 && live.data[c] == 255)
      && (m.action.failsafe == Hold ==> live == p.live)
      && (m.action.failsafe == Scene ==> live == if p.scene.length > 0 then p.scene else p.live)
  {
  }

  /** The start code that the port shows: that of the last ArtNzs, 0 after ArtDmx. */
  function StartCodeOf(ms: seq<Moment>): Byte
    decreases |ms|
  {
    if ms == [] || ms[|ms| - 1].action.Dmx? then 0
    else if ms[|ms| - 1].action.Nzs? then ms[|ms| - 1].action.startCode
    else StartCodeOf(ms[..|ms| - 1])
  }

  lemma StartCodeStep(p: Port, m: Moment)
    requires !m.action.Dmx? && !m.action.Nzs?
    ensures PortStep(p, m).nzsStartCode == p.nzsStartCode
  {
  }

  lemma {:induction false} StartCodeOfRun(ms: seq<Moment>)
    ensures PortRun(NEW_PORT, ms).nzsStartCode == StartCodeOf(ms)
    decreases |ms|
  {
    if ms == [] {
    } else {
      var before, m := ms[..|ms| - 1], ms[|ms| - 1];
      StartCodeOfRun(before);
      if !m.action.Dmx? && !m.action.Nzs? {
        StartCodeStep(PortRun(NEW_PORT, before), m);
      }
    }
  }

  // ----- the recorded scene -----

  lemma SceneStep(p: Port, m: Moment)
    requires !m.action.Record?
    ensures PortStep(p, m).scene == p.scene
  {
    if m.action.Dmx? {
      var (from, physical, frame) := (m.action.from, m.action.physical, m.action.frame);
      MergeProofs.AbsorbEffect(p, m.sync, from, physical, frame, m.now);
      MergeProofs.EndMergeOutput(Absorb(p, m.sync, from, physical, frame, m.now), from, physical, frame, m.now);
    }
  }

  lemma {:induction false} SceneKept(p: Port, ms: seq<Moment>)
    requires forall m <- ms :: !m.action.Record?
    ensures PortRun(p, ms).scene == p.scene
    decreases |ms|
  {
    if ms == [] {
    } else {
      SceneKept(p, ms[..|ms| - 1]);
      assert ms[|ms| - 1] in ms;
      SceneStep(PortRun(p, ms[..|ms| - 1]), ms[|ms| - 1]);
    }
  }

  /** Record a scene; then any traffic without another recording; then loss of data in scene mode.
      The port puts out exactly what was recorded, data and length, unless nothing was recorded:
      then it holds what it had. */
  lemma SceneRestored(p: Port, now: int, traffic: seq<Moment>, loss: Moment)
    requires forall m <- traffic :: !m.action.Record?
    requires loss.action == Timers(Scene, false)
    requires var q := PortRun(PortStep(p, Moment(Record, loss.sync, now)), traffic); Strikes(q, loss)
    ensures var q := PortRun(PortStep(p, Moment(Record, loss.sync, now)), traffic);
      PortStep(q, loss).live == if p.live.length > 0 then p.live else q.live
  {
    SceneKept(PortStep(p, Moment(Record, loss.sync, now)), traffic);
  }
}
