/** What the application at the sending end is told, over every run of the protocol, from the
    replies that came and the packets that were sent. */
module SenderOutcome {
  import opened Common
  import opened Firmware
  import opened FirmwareProtocol

  /** The system after the first `n` actions. */
  function At(u: Upload, rx: Rx, sendOk: bool, actions: seq<Action>, n: nat): System
    requires u.Valid() && rx.Valid() && rx.peer != u.self && n <= |actions|
  {
    Run(Start(u, rx, sendOk), actions[..n], u.self)
  }

  /** A reply of failure. */
  predicate SaysFail(actions: seq<Action>, n: int) {
    0 <= n < |actions| && actions[n].Reply? && actions[n].code == Fail
  }

  /** A reply of success, when the packets sent cover the whole image. */
  predicate SaysDone(u: Upload, rx: Rx, sendOk: bool, actions: seq<Action>, n: int)
    requires u.Valid() && rx.Valid() && rx.peer != u.self
  {
    && 0 <= n < |actions| && actions[n].Reply? && actions[n].code == AllGood
    && |At(u, rx, sendOk, actions, n).sent| * 1024 >= |u.bytes|
  }

  ghost predicate Says(u: Upload, rx: Rx, sendOk: bool, actions: seq<Action>, n: int)
    requires u.Valid() && rx.Valid() && rx.peer != u.self
  {
    SaysFail(actions, n) || SaysDone(u, rx, sendOk, actions, n)
  }

  ghost predicate SaidFirst(u: Upload, rx: Rx, sendOk: bool, actions: seq<Action>, n: int)
    requires u.Valid() && rx.Valid() && rx.peer != u.self
  {
    Says(u, rx, sendOk, actions, n) && forall m | m < n :: !Says(u, rx, sendOk, actions, m)
  }

  lemma SaysBefore(u: Upload, rx: Rx, sendOk: bool, actions: seq<Action>, m: int)
    requires u.Valid() && rx.Valid() && rx.peer != u.self && actions != [] && m < |actions| - 1
    ensures Says(u, rx, sendOk, actions, m) <==> Says(u, rx, sendOk, actions[..|actions| - 1], m)
  {
    if 0 <= m {
      assert actions[..|actions| - 1][..m] == actions[..m];
    }
  }

  /** One action: the transfer goes on until failure, or success with everything sent, is said. */
  lemma OneAction(s: System, a: Action, u: Upload)
    requires u.Valid() && Invariant(s, u)
    ensures var s', ends := Step(s, a, u.self), a.Reply? && (a.code == Fail || (a.code == AllGood && |s.sent| * 1024 >= |u.bytes|));
      && (s.tx != NO_TRANSFER ==>
            && s'.done == (if ends then s.done + [a.code] else s.done)
            && (s'.tx == NO_TRANSFER <==> ends))
      && (s.tx == NO_TRANSFER ==> s'.done == s.done && s'.tx == NO_TRANSFER && s'.sent == s.sent)
  {
  }

  lemma Started(u: Upload, rx: Rx, sendOk: bool)
    requires u.Valid() && rx.Valid() && rx.peer != u.self
    ensures Start(u, rx, sendOk).done == [] && Start(u, rx, sendOk).tx != NO_TRANSFER
  {
  }

  /** How the transfer stands after a run: over, with the code that was said first, or under way. */
  ghost predicate Told(u: Upload, rx: Rx, sendOk: bool, actions: seq<Action>, over: bool, done: seq<Code>)
    requires u.Valid() && rx.Valid() && rx.peer != u.self
  {
    if over then exists n :: SaidFirst(u, rx, sendOk, actions, n) && done == [actions[n].code]
    else done == [] && forall n :: !Says(u, rx, sendOk, actions, n)
  }

  lemma ToldNext(u: Upload, rx: Rx, sendOk: bool, actions: seq<Action>, over: bool, done: seq<Code>)
    requires u.Valid() && rx.Valid() && rx.peer != u.self && actions != []
    requires Told(u, rx, sendOk, actions[..|actions| - 1], over, done)
    ensures var n := |actions| - 1;
      if over || !Says(u, rx, sendOk, actions, n) then Told(u, rx, sendOk, actions, over, done)
      else Told(u, rx, sendOk, actions, true, [actions[n].code])
  {
    var before, n := actions[..|actions| - 1], |actions| - 1;
    forall m | m < n ensures Says(u, rx, sendOk, actions, m) <==> Says(u, rx, sendOk, before, m) {
      SaysBefore(u, rx, sendOk, actions, m);
    }
    if over {
      var k :| SaidFirst(u, rx, sendOk, before, k) && done == [before[k].code];
      assert SaidFirst(u, rx, sendOk, actions, k) && actions[k] == before[k];
    } else if Says(u, rx, sendOk, actions, n) {
      assert SaidFirst(u, rx, sendOk, actions, n);
    } else {
      assert forall m :: m >= |actions| ==> !Says(u, rx, sendOk, actions, m);
    }
  }

  lemma {:induction false} OutcomeOfRun(u: Upload, rx: Rx, sendOk: bool, actions: seq<Action>)
    requires u.Valid() && rx.Valid() && rx.peer != u.self
    ensures var s := Run(Start(u, rx, sendOk), actions, u.self); Told(u, rx, sendOk, actions, s.tx == NO_TRANSFER, s.done)
    decreases |actions|
  {
    if actions == [] {
      Started(u, rx, sendOk);
    } else {
      var before, n := actions[..|actions| - 1], |actions| - 1;
      OutcomeOfRun(u, rx, sendOk, before);
      InvariantRun(u, rx, sendOk, before);
      var s := Run(Start(u, rx, sendOk), before, u.self);
      OneAction(s, actions[n], u);
      ToldNext(u, rx, sendOk, actions, s.tx == NO_TRANSFER, s.done);
      assert At(u, rx, sendOk, actions, n) == s;
    }
  }

  /** The application is told at most once. It is told of success exactly when success is said
      after everything was sent, and no failure was said before; of failure exactly when failure is
      said, and no such success before. */
  lemma ToldOnce(u: Upload, rx: Rx, sendOk: bool, actions: seq<Action>)
    requires u.Valid() && rx.Valid() && rx.peer != u.self
    ensures var done := Run(Start(u, rx, sendOk), actions, u.self).done;
      && |done| <= 1
      && (AllGood in done <==> exists n :: SaysDone(u, rx, sendOk, actions, n) && forall m | m < n :: !SaysFail(actions, m))
      && (Fail in done <==> exists n :: SaysFail(actions, n) && forall m | m < n :: !SaysDone(u, rx, sendOk, actions, m))
      && BlockGood !in done
  {
    OutcomeOfRun(u, rx, sendOk, actions);
    var s := Run(Start(u, rx, sendOk), actions, u.self);
    if s.tx == NO_TRANSFER {
      var k :| SaidFirst(u, rx, sendOk, actions, k) && s.done == [actions[k].code];
      assert s.done[0] == actions[k].code;
      SaidOnce(u, rx, sendOk, actions, k);
    } else {
      assert forall n :: !Says(u, rx, sendOk, actions, n);
      forall n ensures !SaysDone(u, rx, sendOk, actions, n) && !SaysFail(actions, n) {
        assert !Says(u, rx, sendOk, actions, n);
      }
    }
  }

  lemma SaidOnce(u: Upload, rx: Rx, sendOk: bool, actions: seq<Action>, k: int)
    requires u.Valid() && rx.Valid() && rx.peer != u.self && SaidFirst(u, rx, sendOk, actions, k)
    ensures 0 <= k < |actions| && actions[k].Reply?
    ensures (exists n :: SaysDone(u, rx, sendOk, actions, n) && forall m | m < n :: !SaysFail(actions, m)) <==> actions[k].code == AllGood
    ensures (exists n :: SaysFail(actions, n) && forall m | m < n :: !SaysDone(u, rx, sendOk, actions, m)) <==> actions[k].code == Fail
  {
    forall m | m < k ensures !SaysFail(actions, m) && !SaysDone(u, rx, sendOk, actions, m) {
      assert !Says(u, rx, sendOk, actions, m);
    }
    if SaysDone(u, rx, sendOk, actions, k) {
      assert forall m | m < k :: !SaysFail(actions, m);
    } else {
      assert SaysFail(actions, k) && forall m | m < k :: !SaysDone(u, rx, sendOk, actions, m);
    }
    forall n ensures (SaysDone(u, rx, sendOk, actions, n) || SaysFail(actions, n)) ==> n >= k {
      assert n < k ==> !Says(u, rx, sendOk, actions, n);
    }
  }
}
