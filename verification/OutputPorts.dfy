/** A port object with its five buffers, updated in place by the packet handlers. */
module OutputPorts {
  import opened Common
  import opened Ports

  class OutputPort {
    ghost const Repr: set<object>
    const data: array<Byte>
    const dataA: array<Byte>
    const dataB: array<Byte>
    const syncData: array<Byte>
    const failsafeData: array<Byte>
    var enabled: bool
    var addr: nat
    var merging: bool
    var mode: MergeMode
    var length: Length
    var a: Slot
    var b: Slot
    var cancelPending: bool
    var syncLength: Length
    var syncPending: bool
    var lastDmxSource: Address
    var lastDmxTime: int
    var nzsStartCode: Byte
    var failsafeTriggered: bool
    var failsafeLength: Length

    /** Five different buffers of 512 bytes. The buffers of a port are never replaced. */
    ghost predicate Valid() {
      && Repr == {this, data, dataA, dataB, syncData, failsafeData}
      && data.Length == dataA.Length == dataB.Length == syncData.Length == failsafeData.Length == DMX_LENGTH
      && data != dataA && data != dataB && data != syncData && data != failsafeData
      && dataA != dataB && dataA != syncData && dataA != failsafeData
      && dataB != syncData && dataB != failsafeData && syncData != failsafeData
    }

    ghost function View(): Port
      requires Valid()
      reads Repr
    {
      Port(enabled, addr, mode, Sources(a, b, merging, cancelPending), dataA[..], dataB[..],
           Buffer(data[..], length), Buffer(syncData[..], syncLength), syncPending,
           Buffer(failsafeData[..], failsafeLength),
           lastDmxSource, lastDmxTime, nzsStartCode, failsafeTriggered)
    }

    constructor ()
      ensures Valid() && fresh(Repr) && View() == NEW_PORT
    {
      data := new Byte[DMX_LENGTH](_ => 0);
      dataA := new Byte[DMX_LENGTH](_ => 0);
      dataB := new Byte[DMX_LENGTH](_ => 0);
      syncData := new Byte[DMX_LENGTH](_ => 0);
      failsafeData := new Byte[DMX_LENGTH](_ => 0);
      enabled, addr, merging, mode, length := false, 0, false, Htp, 0;
      a, b := EMPTY, EMPTY;
      cancelPending, syncLength, syncPending := false, 0, false;
      lastDmxSource, lastDmxTime, nzsStartCode := 0, 0, 0;
      failsafeTriggered, failsafeLength := false, 0;
      Repr := {this, data, dataA, dataB, syncData, failsafeData};
      new;
      assert data[..] == Level(0) && dataA[..] == Level(0) && dataB[..] == Level(0);
      assert syncData[..] == Level(0) && failsafeData[..] == Level(0);
    }

    method CommitOutputData(frame: Payload)
      requires Valid()
      modifies this`length, data
      ensures View() == Commit(old(View()), frame)
    {
      forall i | 0 <= i < |frame| { data[i] := frame[i]; }
      length := |frame|;
      assert data[..] == Blit(old(data[..]), frame);
    }

    method StageOutputData(sync: bool, frame: Payload)
      requires Valid()
      modifies this`length, this`syncLength, this`syncPending, data, syncData
      ensures View() == Stage(old(View()), sync, frame)
    {
      if sync {
        forall i | 0 <= i < |frame| { syncData[i] := frame[i]; }
        syncLength := |frame|;
        syncPending := true;
        assert syncData[..] == Blit(old(syncData[..]), frame);
        return;
      }
      CommitOutputData(frame);
    }

    method FlushSyncOutput()
      requires Valid()
      modifies this`length, this`syncPending, data
      ensures View() == Flush(old(View()))
    {
      if !syncPending {
        return;
      }
      CommitOutputData(syncData[..syncLength]);
      syncPending := false;
    }

    method HighestTakesPrecedence(n: Length)
      requires Valid()
      modifies syncData
      ensures syncData[..] == Blit(old(syncData[..]), Highest(dataA[..], dataB[..], n))
    {
      var i := 0;
      while i < n
        invariant 0 <= i <= n
        invariant forall k | 0 <= k < i :: syncData[k] == Highest(dataA[..], dataB[..], n)[k]
        invariant forall k | i <= k < DMX_LENGTH :: syncData[k] == old(syncData[k])
      {
        syncData[i] := if dataA[i] > dataB[i] then dataA[i] else dataB[i];
        i := i + 1;
      }
    }

    method MergeSources(sync: bool, n: Length, latest: array<Byte>)
      requires Valid() && (latest == dataA || latest == dataB)
      modifies this`length, this`syncLength, this`syncPending, data, syncData
      ensures View() == Merge(old(View()), sync, n, old(latest[..]))
    {
      if mode == Htp {
        HighestTakesPrecedence(n);
      } else {
        forall i | 0 <= i < n { syncData[i] := latest[i]; }
        assert syncData[..] == Blit(old(syncData[..]), latest[..n]);
      }
      syncLength := n;
      syncPending := true;
      if !sync {
        FlushSyncOutput();
      }
    }

    method CheckMergeTimeouts(now: int)
      requires Valid()
      modifies this`a, this`b, this`merging
      ensures View() == old(View()).(sources := Expire(old(View()).sources, now))
    {
      var wasMerging := merging && a.ip != 0 && b.ip != 0;
      if now - a.time > MERGE_TIMEOUT_MS {
        a := a.(ip := 0);
      }
      if now - b.time > MERGE_TIMEOUT_MS {
        b := b.(ip := 0);
      }
      if wasMerging && !(a.ip != 0 && b.ip != 0) {
        merging := false;
      }
    }

    method StoreA(source: Slot, frame: Payload)
      requires Valid()
      modifies this`a, dataA
      ensures View() == PutA(old(View()), source, frame)
    {
      a := source;
      forall i | 0 <= i < |frame| { dataA[i] := frame[i]; }
      assert dataA[..] == Blit(old(dataA[..]), frame);
    }

    method StoreB(source: Slot, frame: Payload)
      requires Valid()
      modifies this`b, dataB
      ensures View() == PutB(old(View()), source, frame)
    {
      b := source;
      forall i | 0 <= i < |frame| { dataB[i] := frame[i]; }
      assert dataB[..] == Blit(old(dataB[..]), frame);
    }

    method OnlyA(source: Slot, sync: bool, frame: Payload)
      requires Valid()
      modifies this`a, this`length, this`syncLength, this`syncPending, data, syncData, dataA
      ensures View() == Stage(PutA(old(View()), source, frame), sync, frame)
    {
      StoreA(source, frame);
      StageOutputData(sync, frame);
    }

    method OnlyB(source: Slot, sync: bool, frame: Payload)
      requires Valid()
      modifies this`b, this`length, this`syncLength, this`syncPending, data, syncData, dataB
      ensures View() == Stage(PutB(old(View()), source, frame), sync, frame)
    {
      StoreB(source, frame);
      StageOutputData(sync, frame);
    }

    method StartA(source: Slot, sync: bool, frame: Payload)
      requires Valid()
      modifies this`a, this`merging, this`length, this`syncLength, this`syncPending, data, syncData, dataA
      ensures View() == MergeIntoA(old(View()), source, sync, frame, true)
    {
      merging := true;
      MergeA(source, sync, frame);
    }

    method MergeA(source: Slot, sync: bool, frame: Payload)
      requires Valid()
      modifies this`a, this`length, this`syncLength, this`syncPending, data, syncData, dataA
      ensures View() == MergeIntoA(old(View()), source, sync, frame, merging)
    {
      StoreA(source, frame);
      MergeSources(sync, |frame|, dataA);
    }

    method StartB(source: Slot, sync: bool, frame: Payload)
      requires Valid()
      modifies this`b, this`merging, this`length, this`syncLength, this`syncPending, data, syncData, dataB
      ensures View() == MergeIntoB(old(View()), source, sync, frame, true)
    {
      merging := true;
      MergeB(source, sync, frame);
    }

    method MergeB(source: Slot, sync: bool, frame: Payload)
      requires Valid()
      modifies this`b, this`length, this`syncLength, this`syncPending, data, syncData, dataB
      ensures View() == MergeIntoB(old(View()), source, sync, frame, merging)
    {
      StoreB(source, frame);
      MergeSources(sync, |frame|, dataB);
    }

    /** The branches of handle_dmx; `heldA` and `heldB` are the addresses read before expiry. */
    method AcceptFrame(heldA: Address, heldB: Address, sync: bool, from: Address, physical: Byte, frame: Payload, now: int)
      requires Valid()
      modifies this`a, this`b, this`merging, this`length, this`syncLength, this`syncPending, data, syncData, dataA, dataB
      ensures View() == Accept(old(View()), CaseOf(old(a).(ip := heldA), old(b).(ip := heldB), from, physical),
                               sync, from, physical, frame, now)
    {
      ghost var branch := CaseOf(a.(ip := heldA), b.(ip := heldB), from, physical);
      if heldA == 0 && heldB == 0 {
        assert branch == FirstPacket;
        OnlyA(Slot(from, physical, now), sync, frame);
      } else if heldA == from && a.physical == physical && heldB == 0 {
        assert branch == ContinueA;
        OnlyA(a.(time := now), sync, frame);
      } else if heldA == 0 && heldB == from && b.physical == physical {
        assert branch == ContinueB;
        OnlyB(b.(time := now), sync, frame);
      } else if (heldA != from || a.physical != physical) && heldB == 0 {
        assert branch == Case.StartB;
        StartB(Slot(from, physical, now), sync, frame);
      } else if heldA == 0 && (heldB != from || b.physical != physical) {
        assert branch == Case.StartA;
        StartA(Slot(from, physical, now), sync, frame);
      } else if heldA == from && a.physical == physical && (heldB != from || b.physical != physical) {
        assert branch == Case.MergeA;
        MergeA(a.(time := now), sync, frame);
      } else if (heldA != from || a.physical != physical) && heldB == from && b.physical == physical {
        assert branch == Case.MergeB;
        MergeB(b.(time := now), sync, frame);
      }
    }

    method AbsorbFrame(sync: bool, from: Address, physical: Byte, frame: Payload, now: int)
      requires Valid()
      modifies this`a, this`b, this`merging, this`length, this`syncLength, this`syncPending, data, syncData, dataA, dataB
      ensures View() == Absorb(old(View()), sync, from, physical, frame, now)
    {
      var heldA, heldB := a.ip, b.ip;
      CheckMergeTimeouts(now);
      AcceptFrame(heldA, heldB, sync, from, physical, frame, now);
    }

    method EndMergeIfCancelled(from: Address, physical: Byte, frame: Payload, now: int)
      requires Valid()
      modifies this`a, this`b, this`cancelPending, this`merging, dataA, dataB
      ensures View() == EndMerge(old(View()), from, physical, frame, now)
    {
      if cancelPending {
        cancelPending, merging := false, false;
        StoreA(Slot(from, physical, now), frame);
        b := EMPTY;
        forall i | 0 <= i < DMX_LENGTH { dataB[i] := 0; }
        assert dataB[..] == Level(0);
      }
    }

    method HandleDmx(sync: bool, from: Address, physical: Byte, frame: Payload, now: int)
      requires Valid()
      modifies Repr
      ensures View() == Receive(old(View()), sync, from, physical, frame, now)
    {
      AbsorbFrame(sync, from, physical, frame, now);
      EndMergeIfCancelled(from, physical, frame, now);
      MarkReceived(from, now);
    }

    method MarkReceived(from: Address, now: int)
      requires Valid()
      modifies this`nzsStartCode, this`lastDmxSource, this`lastDmxTime, this`failsafeTriggered
      ensures View() == old(View()).(nzsStartCode := 0, lastDmxSource := from, lastDmxTime := now, failsafeTriggered := false)
    {
      nzsStartCode, lastDmxSource, lastDmxTime, failsafeTriggered := 0, from, now, false;
    }

    method HandleNzs(startCode: Byte, frame: Payload, now: int)
      requires Valid()
      modifies Repr
      ensures View() == ReceiveNzs(old(View()), startCode, frame, now)
    {
      CommitOutputData(frame);
      nzsStartCode := startCode;
      lastDmxTime := now;
    }

    method HandleSync(from: Address) returns (accepted: bool)
      requires Valid()
      modifies Repr
      ensures accepted == AcceptsSync(old(View()), from)
      ensures View() == PortStep(old(View()), Moment(Sync(from), true, 0))
    {
      if !enabled {
        return false;
      }
      if merging && a.ip != 0 && b.ip != 0 && a.ip != b.ip {
        return false;
      }
      if lastDmxSource != 0 && lastDmxSource != from {
        return false;
      }
      FlushSyncOutput();
      return true;
    }

    method ForgetSources()
      requires Valid()
      modifies Repr
      ensures View() == Forget(old(View()))
    {
      a, b := EMPTY, EMPTY;
      cancelPending, merging := false, false;
    }

    method ClearOutput()
      requires Valid()
      modifies Repr
      ensures View() == old(View()).(live := CLEARED)
    {
      forall i | 0 <= i < DMX_LENGTH { data[i] := 0; }
      length := 0;
      assert data[..] == Level(0);
    }

    method RecordScene()
      requires Valid()
      modifies Repr
      ensures View() == Ports.RecordScene(old(View()))
    {
      forall i | 0 <= i < DMX_LENGTH { failsafeData[i] := data[i]; }
      failsafeLength := length;
      assert failsafeData[..] == data[..];
    }

    method CheckFailsafe(failsafe: Failsafe, now: int)
      requires Valid()
      modifies Repr
      ensures View() == Tick(old(View()), failsafe, false, now)
    {
      if !enabled || lastDmxTime == 0 {
        return;
      }
      if !failsafeTriggered && now - lastDmxTime >= DMX_FAILSAFE_TIMEOUT_MS {
        match failsafe {
          case Zero =>
            forall i | 0 <= i < DMX_LENGTH { data[i] := 0; }
            length := DMX_LENGTH;
            assert data[..] == Level(0);
          case Full =>
            forall i | 0 <= i < DMX_LENGTH { data[i] := 255; }
            length := DMX_LENGTH;
            assert data[..] == Level(255);
          case Scene =>
            if failsafeLength > 0 {
              forall i | 0 <= i < DMX_LENGTH { data[i] := failsafeData[i]; }
              length := failsafeLength;
              assert data[..] == failsafeData[..];
            }
          case Hold =>
        }
        failsafeTriggered := true;
      }
    }

    method ReleasePending()
      requires Valid()
      modifies Repr
      ensures View() == Flush(old(View()))
    {
      FlushSyncOutput();
    }

    method CancelNext()
      requires Valid()
      modifies Repr
      ensures View() == Ports.CancelNext(old(View()))
    {
      cancelPending := true;
    }

    method Rebind(address: nat)
      requires Valid()
      modifies Repr
      ensures View() == old(View()).(enabled := true, addr := address)
    {
      enabled, addr := true, address;
    }

    method SetMode(m: MergeMode)
      requires Valid()
      modifies Repr
      ensures View() == old(View()).(mode := m)
    {
      mode := m;
    }
  }
}
