/**
 The table of live reply-rate handles and the stream ids it is keyed by, under any
 interleaving of relay tasks that succeed or fail.
 */
module RelayRates {
  import opened Options

  /** `AtomicU64::fetch_add` wraps. */
  const U64 := 0x1_0000_0000_0000_0000

  /** The id returned by the allocation number `k`, counting from 0: the counter starts at 1. */
  function IdOf(k: nat): nat {
    (1 + k) % U64
  }

  /** An `Arc<AtomicU64>`, by identity. */
  type Cell = nat

  datatype Task =
    | Dialing(initial: Option<nat>)
    | Allocated(initial: Option<nat>, serial: nat, id: nat)
    | Copying(cell: Option<Cell>, serial: nat, id: nat)
    | Ending(cell: Option<Cell>, serial: nat, id: nat)
    | Gone

  /** `allocations` counts the ids handed out so far. */
  datatype State = State(next: nat, allocations: nat, table: map<nat, Cell>, cells: map<Cell, nat>, tasks: map<nat, Task>)

  const Initial := State(1, 0, map[], map[], map[])

  datatype Step =
    | Spawn(t: nat, initial: Option<nat>)
    | DialFails(t: nat)
    | Allocate(t: nat)
    | Establish(t: nat, cell: Cell)
    | CopyReturns(t: nat)
    | Unregister(t: nat)
    | Update(id: nat, bps: nat)

  predicate Can(s: State, step: Step) {
    match step
    case Spawn(t, _) => t !in s.tasks
    case DialFails(t) => t in s.tasks && s.tasks[t].Dialing?
    case Allocate(t) => t in s.tasks && s.tasks[t].Dialing?
    case Establish(t, cell) => t in s.tasks && s.tasks[t].Allocated? && cell !in s.cells
    case CopyReturns(t) => t in s.tasks && s.tasks[t].Copying?
    case Unregister(t) => t in s.tasks && s.tasks[t].Ending?
    case Update(_, _) => true
  }

  /** `CopyReturns` covers both arms of the match in `run_relay`: each unregisters next. */
  function Do(s: State, step: Step): State
    requires Can(s, step)
  {
    match step
    case Spawn(t, initial) => s.(tasks := s.tasks[t := Dialing(initial)])
    case DialFails(t) => s.(tasks := s.tasks[t := Gone])
    case Allocate(t) =>
      s.(next := (s.next + 1) % U64, allocations := s.allocations + 1,
         tasks := s.tasks[t := Allocated(s.tasks[t].initial, s.allocations, s.next)])
    case Establish(t, cell) =>
      var a := s.tasks[t];
      if a.initial.Some? then
        s.(cells := s.cells[cell := a.initial.value], table := s.table[a.id := cell],
           tasks := s.tasks[t := Copying(Some(cell), a.serial, a.id)])
      else
        s.(tasks := s.tasks[t := Copying(None, a.serial, a.id)])
    case CopyReturns(t) =>
      var c := s.tasks[t];
      s.(tasks := s.tasks[t := Ending(c.cell, c.serial, c.id)])
    case Unregister(t) => s.(table := s.table - {s.tasks[t].id}, tasks := s.tasks[t := Gone])
    case Update(id, bps) =>
      if id in s.table then s.(cells := s.cells[s.table[id] := bps]) else s
  }

  predicate HasId(k: Task) {
    k.Allocated? || k.Copying? || k.Ending?
  }

  /** A tunnel that has been established under the limiter and has not cleaned up yet. */
  predicate LiveThrottled(s: State, t: nat) {
    t in s.tasks && (s.tasks[t].Copying? || s.tasks[t].Ending?) && s.tasks[t].cell.Some?
  }

  predicate LiveId(s: State, t: nat, id: nat) {
    LiveThrottled(s, t) && s.tasks[t].id == id
  }

  ghost predicate Used(s: State, id: nat) {
    exists t :: LiveId(s, t, id)
  }

  /** The keys of the table are the ids of the live throttled tunnels. */
  ghost predicate KeysMatch(s: State) {
    forall id :: id in s.table <==> Used(s, id)
  }

  /** Tunnel `t` is found in the table under its id, with the handle it reads. */
  predicate Listed(s: State, t: nat)
    requires LiveThrottled(s, t)
  {
    && s.tasks[t].id in s.table && s.table[s.tasks[t].id] == s.tasks[t].cell.value
    && s.tasks[t].cell.value in s.cells
  }

  ghost predicate HandlesMatch(s: State) {
    forall t :: LiveThrottled(s, t) ==> Listed(s, t)
  }

  ghost predicate OwnCells(s: State) {
    forall t, u :: LiveThrottled(s, t) && LiveThrottled(s, u) && t != u ==>
      s.tasks[t].cell != s.tasks[u].cell
  }

  /** Task `t`, if it has an id, has that of one of the allocations so far. */
  predicate Numbered(s: State, t: nat) {
    t in s.tasks && HasId(s.tasks[t]) ==>
      s.tasks[t].serial < s.allocations && s.tasks[t].id == IdOf(s.tasks[t].serial)
  }

  ghost predicate AllNumbered(s: State) {
    s.next == IdOf(s.allocations) && forall t: nat :: Numbered(s, t)
  }

  ghost predicate DistinctSerials(s: State) {
    forall t, u :: t in s.tasks && u in s.tasks && t != u && HasId(s.tasks[t]) && HasId(s.tasks[u]) ==>
      s.tasks[t].serial != s.tasks[u].serial
  }

  ghost predicate Serials(s: State) {
    AllNumbered(s) && DistinctSerials(s)
  }

  ghost predicate DistinctIds(s: State) {
    forall t, u :: t in s.tasks && u in s.tasks && t != u && HasId(s.tasks[t]) && HasId(s.tasks[u]) ==>
      s.tasks[t].id != s.tasks[u].id
  }

  ghost predicate Inv(s: State) {
    Serials(s) && KeysMatch(s) && HandlesMatch(s) && OwnCells(s)
  }

  lemma IdsInjective(j: nat, k: nat)
    requires j < U64 && k < U64 && j != k
    ensures IdOf(j) != IdOf(k)
  {
  }

  /** Ids are pairwise distinct for exactly 2^64 allocations. */
  lemma IdsDistinctExactly(n: nat)
    ensures (forall j, k :: 0 <= j < k < n ==> IdOf(j) != IdOf(k)) <==> n <= U64
  {
    if n > U64 {
      assert IdOf(0) == IdOf(U64);
    }
  }

  lemma SerialsGiveDistinctIds(s: State)
    requires Serials(s) && s.allocations <= U64
    ensures DistinctIds(s)
  {
    forall t, u | t in s.tasks && u in s.tasks && t != u && HasId(s.tasks[t]) && HasId(s.tasks[u])
      ensures s.tasks[t].id != s.tasks[u].id
    {
      assert Numbered(s, t) && Numbered(s, u);
      IdsInjective(s.tasks[t].serial, s.tasks[u].serial);
    }
  }

  lemma IdOfNext(n: nat)
    ensures IdOf(n + 1) == (IdOf(n) + 1) % U64
  {
  }

  lemma StepKeepsNumbered(s: State, step: Step)
    requires AllNumbered(s) && Can(s, step)
    ensures AllNumbered(Do(s, step))
  {
    IdOfNext(s.allocations);
    forall t: nat ensures Numbered(Do(s, step), t) {
      assert Numbered(s, t);
    }
  }

  lemma StepKeepsSerials(s: State, step: Step)
    requires Serials(s) && Can(s, step)
    ensures Serials(Do(s, step))
  {
    StepKeepsNumbered(s, step);
    var s' := Do(s, step);
    forall t, u | t in s'.tasks && u in s'.tasks && t != u && HasId(s'.tasks[t]) && HasId(s'.tasks[u])
      ensures s'.tasks[t].serial != s'.tasks[u].serial
    {
      assert Numbered(s, t) && Numbered(s, u);
    }
  }

  lemma StepKeepsHandles(s: State, step: Step)
    requires HandlesMatch(s) && Can(s, step) && DistinctIds(s)
    ensures HandlesMatch(Do(s, step))
  {
    var s' := Do(s, step);
    forall t | LiveThrottled(s', t) ensures Listed(s', t) {
      if !(step.Establish? && step.t == t) {
        assert LiveThrottled(s, t) && Listed(s, t);
      }
    }
  }

  /** A new handle is a new allocation, so no live tunnel has it. */
  lemma StepKeepsOwnCells(s: State, step: Step)
    requires HandlesMatch(s) && OwnCells(s) && Can(s, step)
    ensures OwnCells(Do(s, step))
  {
    var s' := Do(s, step);
    forall t, u | LiveThrottled(s', t) && LiveThrottled(s', u) && t != u
      ensures s'.tasks[t].cell != s'.tasks[u].cell
    {
      assert !(step.Establish? && step.t == t) ==> LiveThrottled(s, t) && Listed(s, t);
      assert !(step.Establish? && step.t == u) ==> LiveThrottled(s, u) && Listed(s, u);
    }
  }

  /** How a step changes which tunnels are live. */
  lemma LiveAfter(s: State, step: Step, t: nat, id: nat)
    requires Can(s, step)
    ensures LiveId(Do(s, step), t, id) <==>
      if step.Establish? && step.t == t then s.tasks[t].initial.Some? && s.tasks[t].id == id
      else LiveId(s, t, id) && !(step.Unregister? && step.t == t)
  {
  }

  lemma StepKeepsKeys(s: State, step: Step)
    requires KeysMatch(s) && Can(s, step) && DistinctIds(s)
    ensures KeysMatch(Do(s, step))
  {
    var s' := Do(s, step);
    forall id ensures id in s'.table <==> Used(s', id) {
      if id in s'.table {
        if id in s.table {
          var t :| LiveId(s, t, id);
          LiveAfter(s, step, t, id);
          assert LiveId(s', t, id);
        } else {
          LiveAfter(s, step, step.t, id);
          assert LiveId(s', step.t, id);
        }
      }
      if Used(s', id) {
        var t :| LiveId(s', t, id);
        LiveAfter(s, step, t, id);
        assert LiveId(s, t, id) ==> Used(s, id);
      }
    }
  }

  predicate IsRun(steps: seq<Step>)
    decreases |steps|, 0
  {
    steps != [] ==>
      var before := steps[..|steps| - 1];
      && IsRun(before)
      && Can(Run(before), steps[|steps| - 1])
  }

  function Run(steps: seq<Step>): State
    requires IsRun(steps)
    decreases |steps|, 1
  {
    if steps == [] then Initial else Do(Run(steps[..|steps| - 1]), steps[|steps| - 1])
  }

  /**
   Over every interleaving, as long as the counter has not wrapped: ids of tasks
   are pairwise distinct and the table's keys are exactly the live throttled tunnels.
   */
  lemma {:induction false} TableIsExact(steps: seq<Step>)
    requires IsRun(steps) && Run(steps).allocations <= U64
    ensures Inv(Run(steps)) && DistinctIds(Run(steps))
    decreases |steps|
  {
    if steps != [] {
      var before := steps[..|steps| - 1];
      TableIsExact(before);
      StepKeepsSerials(Run(before), steps[|steps| - 1]);
      StepKeepsHandles(Run(before), steps[|steps| - 1]);
      StepKeepsOwnCells(Run(before), steps[|steps| - 1]);
      StepKeepsKeys(Run(before), steps[|steps| - 1]);
    }
    SerialsGiveDistinctIds(Run(steps));
  }

  /** The rate the copy loop of `t` reads at its next refill. */
  function RateSeen(s: State, t: nat): nat
    requires LiveThrottled(s, t) && s.tasks[t].cell.value in s.cells
  {
    s.cells[s.tasks[t].cell.value]
  }

  /** An update of a known id is seen by exactly one tunnel, and by no other; an unknown id changes nothing. */
  lemma UpdateReachesExactlyOne(steps: seq<Step>, id: nat, bps: nat)
    requires IsRun(steps) && Run(steps).allocations <= U64
    ensures
      var s := Run(steps);
      var s' := Do(s, Update(id, bps));
      && (id !in s.table ==> s' == s)
      && (id in s.table <==> Used(s, id))
      && (forall t :: LiveThrottled(s, t) ==>
            && s.tasks[t].cell.value in s.cells && s.tasks[t].cell.value in s'.cells && LiveThrottled(s', t)
            && RateSeen(s', t) == if s.tasks[t].id == id then bps else RateSeen(s, t))
      && (forall t, u :: LiveId(s, t, id) && LiveId(s, u, id) ==> t == u)
  {
    TableIsExact(steps);
  }

  /** The rate that task `t` was spawned with, read off the steps. */
  function SpawnedWith(steps: seq<Step>, t: nat): Option<nat> {
    if steps == [] then None
    else
      var last := steps[|steps| - 1];
      if last.Spawn? && last.t == t then last.initial else SpawnedWith(steps[..|steps| - 1], t)
  }

  /** The last `Update` of `id` since `t` was established, or the rate `t` was spawned with if there was none. */
  function RateOwed(steps: seq<Step>, t: nat, id: nat): Option<nat> {
    if steps == [] then None
    else
      var before, last := steps[..|steps| - 1], steps[|steps| - 1];
      if last.Update? && last.id == id then Some(last.bps)
      else if last.Establish? && last.t == t then SpawnedWith(before, t)
      else RateOwed(before, t, id)
  }

  /** Until it is established, a task carries the rate it was spawned with. */
  lemma {:induction false} CarriesSpawnedRate(steps: seq<Step>, t: nat)
    requires IsRun(steps)
    ensures
      var s := Run(steps);
      t in s.tasks && (s.tasks[t].Dialing? || s.tasks[t].Allocated?) ==> s.tasks[t].initial == SpawnedWith(steps, t)
    decreases |steps|
  {
    if steps != [] {
      CarriesSpawnedRate(steps[..|steps| - 1], t);
    }
  }

  /**
   Over every interleaving below the wrap, the copy loop of a live throttled tunnel
   reads the rate of the last update of its id since it was established, and the
   rate it was spawned with if there was none.
   */
  lemma {:induction false} TunnelSeesOwedRate(steps: seq<Step>, t: nat)
    requires IsRun(steps) && Run(steps).allocations <= U64 && LiveThrottled(Run(steps), t)
    ensures Run(steps).tasks[t].cell.value in Run(steps).cells
    ensures Some(RateSeen(Run(steps), t)) == RateOwed(steps, t, Run(steps).tasks[t].id)
    decreases |steps|
  {
    TableIsExact(steps);
    assert Listed(Run(steps), t);
    var before, last := steps[..|steps| - 1], steps[|steps| - 1];
    var s := Run(before);
    if last.Establish? && last.t == t {
      CarriesSpawnedRate(before, t);
    } else {
      TunnelSeesOwedRate(before, t);
      if last.Update? {
        UpdateReachesExactlyOne(before, last.id, last.bps);
      } else if last.Establish? {
        assert last.cell !in s.cells;
      }
    }
  }

  /** A tunnel is throttled exactly when it was spawned with a rate. */
  lemma {:induction false} ThrottledIfSpawnedSo(steps: seq<Step>, t: nat)
    requires IsRun(steps) && t in Run(steps).tasks && (Run(steps).tasks[t].Copying? || Run(steps).tasks[t].Ending?)
    ensures LiveThrottled(Run(steps), t) <==> SpawnedWith(steps, t).Some?
    decreases |steps|
  {
    var before, last := steps[..|steps| - 1], steps[|steps| - 1];
    if last.Establish? && last.t == t {
      CarriesSpawnedRate(before, t);
    } else {
      ThrottledIfSpawnedSo(before, t);
    }
  }

  // ---------------------------------------------------------------------
  // The objects
  // ---------------------------------------------------------------------

  class Handle {
    var bps: nat

    constructor (bps: nat)
      ensures this.bps == bps
    {
      this.bps := bps;
    }
  }

  class RateTable {
    var nextStreamId: nat
    var rates: map<nat, Handle>

    constructor ()
      ensures nextStreamId == 1 && rates == map[] && Valid()
    {
      nextStreamId := 1;
      rates := map[];
    }

    /** No two ids share a handle. */
    ghost predicate Valid()
      reads this
    {
      && nextStreamId < U64
      && forall a, b :: a in rates && b in rates && rates[a] == rates[b] ==> a == b
    }

    method AllocStreamId() returns (id: nat)
      requires Valid()
      modifies this`nextStreamId
      ensures Valid() && id == old(nextStreamId)
      ensures nextStreamId == if id + 1 == U64 then 0 else id + 1
    {
      id := nextStreamId;
      nextStreamId := (nextStreamId + 1) % U64;
    }

    method RegisterRelayRate(id: nat, handle: Handle)
      requires Valid() && handle !in rates.Values
      modifies this`rates
      ensures Valid() && rates == old(rates)[id := handle]
    {
      rates := rates[id := handle];
    }

    method UnregisterRelayRate(id: nat)
      requires Valid()
      modifies this`rates
      ensures Valid() && rates == old(rates) - {id}
    {
      rates := rates - {id};
    }

    method UpdateRelayRate(id: nat, bytesPerSec: nat) returns (found: bool)
      requires Valid()
      modifies rates.Values
      ensures found <==> id in rates
      ensures forall k :: k in rates ==> rates[k].bps == if k == id then bytesPerSec else old(rates[k].bps)
    {
      if id !in rates {
        return false;
      }
      rates[id].bps := bytesPerSec;
      return true;
    }

    /**
     `run_relay` up to the copy: a tunnel that cannot be opened allocates nothing;
     one that is opened under the limiter is found under its id, with a handle that
     holds its initial rate.
     */
    method OpenTunnel(dialOk: bool, initial: Option<nat>) returns (tunnel: Option<nat>, handle: Option<Handle>)
      requires Valid()
      modifies this
      ensures Valid()
      ensures !dialOk ==> tunnel == None && handle == None && nextStreamId == old(nextStreamId) && rates == old(rates)
      ensures dialOk ==> tunnel == Some(old(nextStreamId)) && (handle.Some? <==> initial.Some?)
      ensures dialOk ==> nextStreamId == (old(nextStreamId) + 1) % U64
      ensures handle.Some? ==>
        && fresh(handle.value) && handle.value.bps == initial.value
        && rates == old(rates)[old(nextStreamId) := handle.value]
      ensures handle.None? ==> rates == old(rates)
    {
      if !dialOk {
        return None, None;
      }
      var id := AllocStreamId();
      if initial.None? {
        return Some(id), None;
      }
      var h := new Handle(initial.value);
      RegisterRelayRate(id, h);
      return Some(id), Some(h);
    }

    /**
     The whole of `run_relay`: whether the copy succeeds or not, the id of an opened
     tunnel is gone afterwards.
     */
    method RunRelay(dialOk: bool, initial: Option<nat>, copyOk: bool) returns (ok: bool, tunnel: Option<nat>)
      requires Valid()
      modifies this
      ensures Valid() && (ok <==> dialOk && copyOk)
      ensures !dialOk ==> tunnel == None && nextStreamId == old(nextStreamId) && rates == old(rates)
      ensures dialOk ==> tunnel == Some(old(nextStreamId)) && rates == old(rates) - {old(nextStreamId)}
    {
      var handle;
      tunnel, handle := OpenTunnel(dialOk, initial);
      if tunnel.None? {
        return false, None;
      }
      if !copyOk {
        UnregisterRelayRate(tunnel.value);
        return false, tunnel;
      }
      UnregisterRelayRate(tunnel.value);
      return true, tunnel;
    }
  }
}
