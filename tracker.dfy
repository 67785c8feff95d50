/**
 * The race tracker: it keeps one snapshot of the cars per round, notices
 * when the race repeats itself, and records the finish order and the cars
 * that crashed.
 *
 * The game looks snapshots up through a hash table keyed by the round's
 * parity and its car list; this model searches the earlier snapshots
 * directly, which answers the same question.
 */
module Tracking {
  import opened Simulation

  /** Two snapshots match when they were taken at rounds of the same parity
      and hold equal car lists. */
  ghost predicate Repeats(data: seq<seq<CarData>>, item: seq<CarData>) {
    exists n :: 0 <= n < |data| && n % 2 == |data| % 2 && data[n] == item
  }

  /** The ids of the Finished events of `evs`, in order. */
  function FinishedIds(evs: seq<SimEvent>): seq<nat> {
    if |evs| == 0 then []
    else
      var last := evs[|evs| - 1];
      FinishedIds(evs[..|evs| - 1]) + (if last.FinishedEvent? then [last.car] else [])
  }

  /** The crash flags `crashed` with the flag of every Crashed event of `evs` set. */
  function Crashes(crashed: seq<bool>, evs: seq<SimEvent>): (r: seq<bool>)
    ensures |r| == |crashed|
  {
    if |evs| == 0 then crashed
    else
      var last := evs[|evs| - 1];
      var c := Crashes(crashed, evs[..|evs| - 1]);
      if last.CrashedEvent? && last.car < |c| then c[last.car := true] else c
  }

  /** The finish list of a batch of events names exactly its finished cars. */
  lemma {:induction false} FinishedIdsMembers(evs: seq<SimEvent>, car: nat)
    ensures car in FinishedIds(evs) <==> FinishedEvent(car) in evs
  {
    if |evs| > 0 {
      var init := evs[..|evs| - 1];
      FinishedIdsMembers(init, car);
      assert evs == init + [evs[|evs| - 1]];
    }
  }

  /** After a batch of events, a car's crash flag is set exactly when it was
      set before or the batch reports the car crashed. */
  lemma {:induction false} CrashesMembers(crashed: seq<bool>, evs: seq<SimEvent>, car: nat)
    requires car < |crashed|
    ensures Crashes(crashed, evs)[car] <==> crashed[car] || CrashedEvent(car) in evs
  {
    if |evs| > 0 {
      var init := evs[..|evs| - 1];
      CrashesMembers(crashed, init, car);
      assert evs == init + [evs[|evs| - 1]];
    }
  }

  /** The snapshot history. */
  class CarDataLookup {
    var data: seq<seq<CarData>>

    constructor()
      ensures data == []
    {
      data := [];
    }

    /** Appends `item` and reports whether an earlier snapshot at a round of
        the same parity held the same cars. */
    method Add(item: seq<CarData>) returns (found: bool)
      modifies this
      ensures data == old(data) + [item]
      ensures found <==> Repeats(old(data), item)
    {
      var last := |data|;
      found := false;
      var n := 0;
      while n < last && !found
        invariant 0 <= n <= last
        invariant found ==> Repeats(data, item)
        invariant !found ==> forall m :: 0 <= m < n && m % 2 == last % 2 ==> data[m] != item
        decreases last - n
      {
        if n % 2 == last % 2 && data[n] == item {
          found := true;
        }
        n := n + 1;
      }
      data := data + [item];
    }
  }

  /** `r[i]` holds exactly when car `i` is not in `finished`. */
  method ComputeNotFinishing(numCars: nat, finished: seq<nat>) returns (r: seq<bool>)
    requires forall k :: 0 <= k < |finished| ==> finished[k] < numCars
    ensures |r| == numCars
    ensures forall i :: 0 <= i < numCars ==> (r[i] <==> i !in finished)
  {
    r := seq(numCars, _ => true);
    for k := 0 to |finished|
      invariant |r| == numCars
      invariant forall i :: 0 <= i < numCars ==> (r[i] <==> i !in finished[..k])
    {
      assert finished[..k + 1] == finished[..k] + [finished[k]];
      r := r[finished[k] := false];
    }
    assert finished[..|finished|] == finished;
  }

  class Tracker {
    const roundData: CarDataLookup
    var finished: seq<nat>
    var crashed: seq<bool>
    var loopDetected: bool

    /** Starts with the empty snapshot of round 0, no finishes and no crashes. */
    constructor(numCars: nat)
      ensures roundData.data == [[]] && fresh(roundData)
      ensures finished == [] && crashed == seq(numCars, _ => false) && !loopDetected
      ensures RoundsAvailable() == 1
    {
      var lookup := new CarDataLookup();
      var _ := lookup.Add([]);
      roundData := lookup;
      finished := [];
      crashed := seq(numCars, _ => false);
      loopDetected := false;
    }

    function RoundsAvailable(): nat
      reads this, roundData
    {
      |roundData.data|
    }

    /** Records the snapshot of a round; a repeat sets the loop flag for good. */
    method AddRound(round: seq<CarData>)
      modifies this, roundData
      ensures roundData.data == old(roundData.data) + [round]
      ensures finished == old(finished) && crashed == old(crashed)
      ensures loopDetected == (old(loopDetected) || Repeats(old(roundData.data), round))
      ensures RoundsAvailable() == old(RoundsAvailable()) + 1
    {
      var found := roundData.Add(round);
      loopDetected := loopDetected || found;
    }

    /** Only round events add snapshots; finishes are listed in arrival
        order and a crash sets only that car's flag. */
    method ProcessEvent(ev: SimEvent)
      requires ev.CrashedEvent? ==> ev.car < |crashed|
      modifies this, roundData
      ensures RoundsAvailable() == old(RoundsAvailable()) + (if ev.RoundEvent? then 1 else 0)
      ensures old(loopDetected) ==> loopDetected
      ensures ev.RoundEvent? ==>
        && roundData.data == old(roundData.data) + [ev.cars]
        && loopDetected == (old(loopDetected) || Repeats(old(roundData.data), ev.cars))
      ensures !ev.RoundEvent? ==> roundData.data == old(roundData.data) && loopDetected == old(loopDetected)
      ensures finished == old(finished) + (if ev.FinishedEvent? then [ev.car] else [])
      ensures crashed == (if ev.CrashedEvent? then old(crashed)[ev.car := true] else old(crashed))
    {
      match ev
      case RoundEvent(cars) =>
        AddRound(cars);
      case FinishedEvent(car) =>
        finished := finished + [car];
      case CrashedEvent(car) =>
        crashed := crashed[car := true];
    }

    /** At the end of a race every car that did not finish counts as crashed. */
    method ComputeFinalCrashes(numCars: nat)
      requires forall k :: 0 <= k < |finished| ==> finished[k] < numCars
      modifies this
      ensures |crashed| == numCars
      ensures forall i :: 0 <= i < numCars ==> (crashed[i] <==> i !in finished)
      ensures finished == old(finished) && loopDetected == old(loopDetected)
    {
      crashed := ComputeNotFinishing(numCars, finished);
    }
  }
}
