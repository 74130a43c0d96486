/**
 * The tiered-cache slot: a fixed array of cells created once from a translator, pinned in
 * batches. A pin request range-checks every cell id, pins each cell, and loads the cells
 * that need it in one batch: reserve resources, fetch from the translator, populate.
 *
 * The slot is a value; every operation returns the next slot. The translator's I/O and the
 * eviction list's reservation outcome are parameters (`LoadEnv`), and every call into the
 * eviction list or the translator is recorded in an event trace.
 */
module CacheSlot {
  import opened Common
  import opened SeqUtil

  /** Memory bytes and file bytes, tracked independently. */
  datatype ResourceUsage = ResourceUsage(memoryBytes: int, fileBytes: int) {
    function Plus(other: ResourceUsage): ResourceUsage {
      ResourceUsage(memoryBytes + other.memoryBytes, fileBytes + other.fileBytes)
    }

    function Minus(other: ResourceUsage): ResourceUsage {
      ResourceUsage(memoryBytes - other.memoryBytes, fileBytes - other.fileBytes)
    }
  }

  const NoResource := ResourceUsage(0, 0)

  datatype CellState = Unloaded | Loading | Loaded | Failed(cause: ErrorCode)

  /** A cache cell: load state, pin count, estimated size, and the payload when loaded. */
  datatype Cell<C> = Cell(state: CellState, pins: nat, size: ResourceUsage, payload: Option<C>) {
    predicate Valid() {
      && (payload.Some? <==> state.Loaded?)
      && (pins > 0 ==> state.Loaded?)
    }

    /** A pin request on this cell makes the requester its loader. */
    predicate NeedsLoad() {
      state.Unloaded? || state.Failed?
    }

    predicate Evictable() {
      state.Loaded? && pins == 0
    }
  }

  datatype PinOutcome<C> = PinOutcome(needLoad: bool, cell: Cell<C>)

  /**
   * `pin()` of a cell: an unloaded or failed cell moves to Loading and the caller must load it;
   * a loaded cell needs nothing. The pin count itself is taken when the request succeeds as a whole.
   */
  function PinCell<C>(c: Cell<C>): (r: PinOutcome<C>)
    ensures r.needLoad <==> c.NeedsLoad()
    ensures r.needLoad ==> r.cell == c.(state := Loading)
    ensures !r.needLoad ==> r.cell == c
  {
    match c.state
    case Unloaded => PinOutcome(true, c.(state := Loading))
    case Failed(_) => PinOutcome(true, c.(state := Loading))
    case _ => PinOutcome(false, c)
  }

  /** `set_cell`: the loader installs the payload. */
  function SetCell<C>(c: Cell<C>, payload: C): Cell<C> {
    c.(state := Loaded, payload := Some(payload))
  }

  /** `set_error`: the load failed; waiters see the cause. */
  function SetError<C>(c: Cell<C>, cause: ErrorCode): Cell<C> {
    c.(state := Failed(cause), payload := None)
  }

  datatype EvictOutcome<C> = EvictOutcome(evicted: bool, cell: Cell<C>)

  /** `manual_evict`: unloads a loaded, unpinned cell; otherwise a no-op that returns false. */
  function ManualEvictCell<C>(c: Cell<C>): (r: EvictOutcome<C>)
    ensures r.evicted <==> c.Evictable()
    ensures r.evicted ==> r.cell.state == Unloaded && r.cell.payload.None? && r.cell.pins == 0 && r.cell.size == c.size
    ensures !r.evicted ==> r.cell == c
    ensures c.Valid() ==> r.cell.Valid()
  {
    if c.Evictable() then EvictOutcome(true, c.(state := Unloaded, payload := None))
    else EvictOutcome(false, c)
  }

  datatype MappingMode = Identical | AlwaysZero | Custom

  datatype WarmupPolicy = WarmupDisable | WarmupSync

  /** What the slot needs from its translator at construction time. */
  datatype Translator = Translator(
    numCells: nat,
    estimatedSize: nat -> ResourceUsage,
    mode: MappingMode,
    warmup: WarmupPolicy,
    customCellIdOf: int -> int)

  /**
   * A cache slot. `dlist` is the eviction list: `None` when the slot has none, otherwise
   * the net resources this slot's cells hold in it: added by a granted reservation, given
   * back by a failed fetch and by evicting a loaded cell.
   */
  datatype Slot<C> = Slot(
    cells: seq<Cell<C>>,
    mode: MappingMode,
    warmup: WarmupPolicy,
    customCellIdOf: int -> int,
    dlist: Option<ResourceUsage>)

  predicate SlotValid<C>(slot: Slot<C>) {
    forall j :: 0 <= j < |slot.cells| ==> slot.cells[j].Valid()
  }

  /** No cell is mid-load: in this sequential model every load finishes inside the call that began it. */
  predicate Quiescent<C>(slot: Slot<C>) {
    forall j :: 0 <= j < |slot.cells| ==> !slot.cells[j].state.Loading?
  }

  /** The constructor: one unloaded, unpinned cell per translator cell, never resized afterwards. */
  function NewSlot<C>(t: Translator, hasEvictionList: bool): (slot: Slot<C>)
    ensures |slot.cells| == t.numCells
    ensures forall j :: 0 <= j < t.numCells ==>
      slot.cells[j].state == Unloaded && slot.cells[j].pins == 0 && slot.cells[j].size == t.estimatedSize(j)
    ensures slot.mode == t.mode && slot.warmup == t.warmup
    ensures hasEvictionList <==> slot.dlist == Some(NoResource)
    ensures !hasEvictionList <==> slot.dlist.None?
    ensures SlotValid(slot) && Quiescent(slot)
  {
    var cells := seq(t.numCells, j requires 0 <= j < t.numCells => Cell(Unloaded, 0, t.estimatedSize(j), None));
    Slot(cells, t.mode, t.warmup, t.customCellIdOf, if hasEvictionList then Some(NoResource) else None)
  }

  /** `cell_id_of`: how an external id names a cell under each mapping mode. */
  function CellIdOf<C>(slot: Slot<C>, uid: int): int {
    match slot.mode
    case Identical => uid
    case AlwaysZero => 0
    case Custom => slot.customCellIdOf(uid)
  }

  /**
   * C++ compares the signed cell id with the unsigned cell count, so a negative id converts
   * to a huge unsigned value and is out of range too.
   */
  predicate InRange<C>(slot: Slot<C>, cid: int) {
    0 <= cid < |slot.cells|
  }

  predicate AllInRange<C>(slot: Slot<C>, cids: seq<int>) {
    forall k :: 0 <= k < |cids| ==> InRange(slot, cids[k])
  }

  /**
   * The involved cell ids of `PinCells`, one per distinct cell, as the hash set would hold them.
   * ALWAYS_ZERO does not look at the ids at all; only an empty request involves no cell.
   */
  function InvolvedCells<C>(slot: Slot<C>, uids: seq<int>): (cids: seq<int>)
    ensures NoDup(cids)
    ensures forall i :: 0 <= i < |uids| ==> CellIdOf(slot, uids[i]) in cids
    ensures forall k :: 0 <= k < |cids| ==> exists i :: 0 <= i < |uids| && cids[k] == CellIdOf(slot, uids[i])
  {
    match slot.mode
    case Identical => FirstOccurrences(uids)
    case AlwaysZero => if |uids| > 0 then [0] else []
    case Custom =>
      var mapped := seq(|uids|, i requires 0 <= i < |uids| => slot.customCellIdOf(uids[i]));
      assert forall i :: 0 <= i < |uids| ==> mapped[i] == CellIdOf(slot, uids[i]);
      FirstOccurrences(mapped)
  }

  /** In IDENTICAL mode the involved cells are exactly the requested ids, duplicates collapsed. */
  lemma IdenticalInvolvesRequested<C>(slot: Slot<C>, uids: seq<int>)
    requires slot.mode == Identical
    ensures NoDup(InvolvedCells(slot, uids)) && SameElements(InvolvedCells(slot, uids), uids)
  {
    var cids := InvolvedCells(slot, uids);
    forall k | 0 <= k < |cids| ensures cids[k] in uids {
      var i :| 0 <= i < |uids| && cids[k] == CellIdOf(slot, uids[i]);
    }
  }

  /** In ALWAYS_ZERO mode a non-empty request involves cell 0 alone and an empty one involves none. */
  lemma AlwaysZeroInvolvesCellZero<C>(slot: Slot<C>, uids: seq<int>)
    requires slot.mode == AlwaysZero
    ensures |uids| > 0 ==> InvolvedCells(slot, uids) == [0]
    ensures |uids| == 0 ==> InvolvedCells(slot, uids) == []
  {
  }

  /** The cells among `cids` that a pin request must load, in request order. */
  function NeedLoad<C>(cells: seq<Cell<C>>, cids: seq<int>): (need: seq<int>)
    requires forall k :: 0 <= k < |cids| ==> 0 <= cids[k] < |cells|
    ensures forall k :: 0 <= k < |need| ==> 0 <= need[k] < |cells|
    ensures forall k :: 0 <= k < |need| ==> need[k] in cids && cells[need[k]].NeedsLoad()
    ensures forall k :: 0 <= k < |cids| && cells[cids[k]].NeedsLoad() ==> cids[k] in need
  {
    if |cids| == 0 then []
    else
      var init := cids[..|cids| - 1];
      var last := cids[|cids| - 1];
      var p := NeedLoad(cells, init);
      assert cids == init + [last];
      if cells[last].NeedsLoad() then p + [last] else p
  }

  /** Distinct requested cells give distinct need-load cells. */
  lemma {:induction false} NeedLoadNoDup<C>(cells: seq<Cell<C>>, cids: seq<int>)
    requires forall k :: 0 <= k < |cids| ==> 0 <= cids[k] < |cells|
    requires NoDup(cids)
    ensures NoDup(NeedLoad(cells, cids))
  {
    if |cids| > 0 {
      var init := cids[..|cids| - 1];
      var last := cids[|cids| - 1];
      assert cids == init + [last];
      assert last !in init;
      NeedLoadNoDup(cells, init);
    }
  }

  /** The summed estimated size of the given cells (ids outside the slot contribute nothing). */
  function TotalSize<C>(cells: seq<Cell<C>>, ids: seq<int>): ResourceUsage {
    if |ids| == 0 then NoResource
    else
      var last := ids[|ids| - 1];
      TotalSize(cells, ids[..|ids| - 1]).Plus(if 0 <= last < |cells| then cells[last].size else NoResource)
  }

  /** A call the slot makes into the eviction list or the translator. */
  datatype Event =
    | Reserve(amount: ResourceUsage, granted: bool)
    | GetCells(cids: seq<int>)
    | Release(amount: ResourceUsage)

  /** The translator's batch fetch: the payload of every requested cell, or an exception. */
  datatype Fetch<C> = Fetched(payloadOf: int -> C) | FetchThrew(reason: string)

  /** What the outside world does during one load: whether the reservation is granted, and the fetch. */
  datatype LoadEnv<C> = LoadEnv(reserveGranted: bool, fetch: Fetch<C>)

  function MarkFailed<C>(cells: seq<Cell<C>>, ids: seq<int>, cause: ErrorCode): (r: seq<Cell<C>>)
    ensures |r| == |cells|
    ensures forall j :: 0 <= j < |cells| ==> r[j] == if j in ids then SetError(cells[j], cause) else cells[j]
  {
    seq(|cells|, j requires 0 <= j < |cells| => if j in ids then SetError(cells[j], cause) else cells[j])
  }

  function Populate<C>(cells: seq<Cell<C>>, ids: seq<int>, payloadOf: int -> C): (r: seq<Cell<C>>)
    ensures |r| == |cells|
    ensures forall j :: 0 <= j < |cells| ==> r[j] == if j in ids then SetCell(cells[j], payloadOf(j)) else cells[j]
  {
    seq(|cells|, j requires 0 <= j < |cells| => if j in ids then SetCell(cells[j], payloadOf(j)) else cells[j])
  }

  datatype LoadOutcome<C> = LoadOutcome(
    cells: seq<Cell<C>>,
    dlist: Option<ResourceUsage>,
    trace: seq<Event>,
    error: Option<ErrorCode>)

  /**
   * `RunLoad`: reserve, fetch, populate. A refused reservation fails every cell with
   * InsufficientResource and releases nothing; a throwing fetch fails every cell with the
   * captured cause and releases exactly what was reserved. Without an eviction list nothing
   * is reserved or released.
   */
  function RunLoad<C>(cells: seq<Cell<C>>, dlist: Option<ResourceUsage>, need: seq<int>,
                      needed: ResourceUsage, env: LoadEnv<C>): (r: LoadOutcome<C>)
    ensures |r.cells| == |cells|
    ensures forall j :: 0 <= j < |cells| && j !in need ==> r.cells[j] == cells[j]
    // a refused reservation: nothing fetched, nothing released, every cell failed
    ensures dlist.Some? && !env.reserveGranted ==>
      && r.trace == [Reserve(needed, false)]
      && r.error == Some(InsufficientResource)
      && r.dlist == dlist
      && forall j :: 0 <= j < |cells| && j in need ==> r.cells[j] == SetError(cells[j], InsufficientResource)
    // a granted reservation, or none needed: the translator is asked for exactly the need-load cells
    ensures (dlist.None? || env.reserveGranted) ==>
      var reserved := if dlist.Some? then [Reserve(needed, true)] else [];
      match env.fetch
      case Fetched(payloadOf) =>
        && r.trace == reserved + [GetCells(need)]
        && r.error.None?
        && r.dlist == (if dlist.Some? then Some(dlist.value.Plus(needed)) else None)
        && forall j :: 0 <= j < |cells| && j in need ==> r.cells[j] == SetCell(cells[j], payloadOf(j))
      case FetchThrew(reason) =>
        && r.trace == reserved + [GetCells(need)] + (if dlist.Some? then [Release(needed)] else [])
        && r.error == Some(LoadFailed(reason))
        && r.dlist == dlist
        && forall j :: 0 <= j < |cells| && j in need ==> r.cells[j] == SetError(cells[j], LoadFailed(reason))
  {
    if dlist.Some? && !env.reserveGranted then
      LoadOutcome(MarkFailed(cells, need, InsufficientResource), dlist, [Reserve(needed, false)], Some(InsufficientResource))
    else
      var reserveEvents := if dlist.Some? then [Reserve(needed, true)] else [];
      var reserved := if dlist.Some? then Some(dlist.value.Plus(needed)) else None;
      match env.fetch
      case Fetched(payloadOf) =>
        LoadOutcome(Populate(cells, need, payloadOf), reserved, reserveEvents + [GetCells(need)], None)
      case FetchThrew(reason) =>
        var cause := LoadFailed(reason);
        var releaseEvents := if dlist.Some? then [Release(needed)] else [];
        var released := if reserved.Some? then Some(reserved.value.Minus(needed)) else None;
        assert released == dlist;
        LoadOutcome(MarkFailed(cells, need, cause), released, reserveEvents + [GetCells(need)] + releaseEvents, Some(cause))
  }

  /** A capability holding one pin on each of its cells (`CellAccessor`). */
  datatype Accessor = Accessor(cids: seq<int>)

  function AddPins<C>(cells: seq<Cell<C>>, ids: seq<int>): (r: seq<Cell<C>>)
    ensures |r| == |cells|
    ensures forall j :: 0 <= j < |cells| ==> r[j] == if j in ids then cells[j].(pins := cells[j].pins + 1) else cells[j]
  {
    seq(|cells|, j requires 0 <= j < |cells| => if j in ids then cells[j].(pins := cells[j].pins + 1) else cells[j])
  }

  /** Returns the pins an accessor held: each of its cells loses one pin. */
  function ReleasePins<C>(cells: seq<Cell<C>>, ids: seq<int>): (r: seq<Cell<C>>)
    requires forall j :: 0 <= j < |cells| && j in ids ==> cells[j].pins > 0
    ensures |r| == |cells|
    ensures forall j :: 0 <= j < |cells| ==> r[j] == if j in ids then cells[j].(pins := cells[j].pins - 1) else cells[j]
  {
    seq(|cells|, j requires 0 <= j < |cells| => if j in ids then cells[j].(pins := cells[j].pins - 1) else cells[j])
  }

  /** Dropping an accessor undoes exactly the pins that granting it took. */
  lemma ReleaseUndoesPins<C>(cells: seq<Cell<C>>, ids: seq<int>)
    ensures ReleasePins(AddPins(cells, ids), ids) == cells
  {
    var r := ReleasePins(AddPins(cells, ids), ids);
    assert forall j :: 0 <= j < |cells| ==> r[j] == cells[j];
  }

  /** The cells after the pin loop: every need-load cell among `cids` is Loading. */
  function Pinned<C>(cells: seq<Cell<C>>, cids: seq<int>): (r: seq<Cell<C>>)
    ensures |r| == |cells|
    ensures forall j :: 0 <= j < |cells| ==> r[j] == if j in cids then PinCell(cells[j]).cell else cells[j]
  {
    seq(|cells|, j requires 0 <= j < |cells| => if j in cids then PinCell(cells[j]).cell else cells[j])
  }

  function Iota(n: nat): (r: seq<int>)
    ensures |r| == n && NoDup(r)
    ensures forall k :: 0 <= k < n ==> r[k] == k
  {
    seq(n, k requires 0 <= k < n => k)
  }

  /** The range check of `PinInternal`, over every id before any cell is touched. */
  method CheckRange<C>(slot: Slot<C>, cids: seq<int>) returns (ok: bool)
    ensures ok <==> AllInRange(slot, cids)
  {
    var i := 0;
    while i < |cids|
      invariant 0 <= i <= |cids|
      invariant forall k :: 0 <= k < i ==> InRange(slot, cids[k])
    {
      if !InRange(slot, cids[i]) {
        return false;
      }
      i := i + 1;
    }
    return true;
  }

  lemma NeedLoadStep<C>(cells: seq<Cell<C>>, cids: seq<int>, i: nat)
    requires i < |cids|
    requires forall k :: 0 <= k < |cids| ==> 0 <= cids[k] < |cells|
    ensures NeedLoad(cells, cids[..i + 1]) ==
      NeedLoad(cells, cids[..i]) + (if cells[cids[i]].NeedsLoad() then [cids[i]] else [])
  {
    assert cids[..i + 1][..i] == cids[..i];
  }

  lemma TotalSizeStep<C>(cells: seq<Cell<C>>, ids: seq<int>, cid: int)
    requires 0 <= cid < |cells|
    ensures TotalSize(cells, ids + [cid]) == TotalSize(cells, ids).Plus(cells[cid].size)
  {
    assert (ids + [cid])[..|ids|] == ids;
  }

  lemma TotalSizeOfOne<C>(cells: seq<Cell<C>>, cid: int)
    requires 0 <= cid < |cells|
    ensures TotalSize(cells, [cid]) == cells[cid].size
  {
    TotalSizeStep(cells, [], cid);
    assert [] + [cid] == [cid];
  }

  /** One more step of the pin loop pins one more cell, which no earlier step touched. */
  lemma PinnedStep<C>(cells: seq<Cell<C>>, cids: seq<int>, i: nat)
    requires NoDup(cids) && i < |cids|
    requires forall k :: 0 <= k < |cids| ==> 0 <= cids[k] < |cells|
    ensures Pinned(cells, cids[..i])[cids[i]] == cells[cids[i]]
    ensures Pinned(cells, cids[..i + 1]) == Pinned(cells, cids[..i])[cids[i] := PinCell(cells[cids[i]]).cell]
  {
    var before := cids[..i];
    assert cids[..i + 1] == before + [cids[i]];
    assert cids[i] !in before;
  }

  /** The pin loop of `PinInternal`: pins every cell and collects the cells that need loading. */
  method PinEach<C>(cells0: seq<Cell<C>>, cids: seq<int>) returns (cells: seq<Cell<C>>, need: seq<int>)
    requires NoDup(cids)
    requires forall k :: 0 <= k < |cids| ==> 0 <= cids[k] < |cells0|
    ensures cells == Pinned(cells0, cids)
    ensures need == NeedLoad(cells0, cids)
  {
    cells := cells0;
    need := [];
    var i := 0;
    while i < |cids|
      invariant 0 <= i <= |cids|
      invariant cells == Pinned(cells0, cids[..i])
      invariant need == NeedLoad(cells0, cids[..i])
    {
      var cid := cids[i];
      NeedLoadStep(cells0, cids, i);
      PinnedStep(cells0, cids, i);
      var outcome := PinCell(cells[cid]);
      cells := cells[cid := outcome.cell];
      if outcome.needLoad {
        need := need + [cid];
      }
      i := i + 1;
    }
    assert cids[..i] == cids;
  }

  /** `resource_needed`: the sizes of the need-load cells, added up as they are collected. */
  method SumSizes<C>(cells: seq<Cell<C>>, ids: seq<int>) returns (needed: ResourceUsage)
    requires forall k :: 0 <= k < |ids| ==> 0 <= ids[k] < |cells|
    ensures needed == TotalSize(cells, ids)
  {
    needed := NoResource;
    var i := 0;
    while i < |ids|
      invariant 0 <= i <= |ids|
      invariant needed == TotalSize(cells, ids[..i])
    {
      TotalSizeStep(cells, ids[..i], ids[i]);
      assert ids[..i + 1] == ids[..i] + [ids[i]];
      needed := needed.Plus(cells[ids[i]].size);
      i := i + 1;
    }
    assert ids[..i] == ids;
  }

  /** The result of a pin request, the next slot, and the calls it made. */
  datatype PinResult<C> = PinResult(result: Result<Accessor>, slot: Slot<C>, trace: seq<Event>)

  /**
   * What `PinInternal` does, step by step: range-check every cell id before touching any
   * cell; pin each cell, collecting the need-load cells and their summed size; call `RunLoad`
   * only when some cell needs loading; then succeed with one pin per requested cell, or fail
   * with the load's cause and take no pin.
   *
   * The slot is quiescent: a cell another caller is loading makes the source wait for that
   * load, and this sequential model has no other caller.
   */
  function PinSteps<C>(slot: Slot<C>, cids: seq<int>, env: LoadEnv<C>): PinResult<C>
    requires NoDup(cids) && Quiescent(slot)
  {
    if !AllInRange(slot, cids) then PinResult(Err(OutOfRange), slot, [])
    else
      var need := NeedLoad(slot.cells, cids);
      if |need| == 0 then PinResult(Ok(Accessor(cids)), slot.(cells := AddPins(slot.cells, cids)), [])
      else
        var out := RunLoad(Pinned(slot.cells, cids), slot.dlist, need, TotalSize(slot.cells, need), env);
        if out.error.Some? then PinResult(Err(out.error.value), slot.(cells := out.cells, dlist := out.dlist), out.trace)
        else PinResult(Ok(Accessor(cids)), slot.(cells := AddPins(out.cells, cids), dlist := out.dlist), out.trace)
  }

  /** `PinInternal`, loop by loop as the source runs it. */
  method PinInternal<C>(slot: Slot<C>, cids: seq<int>, env: LoadEnv<C>)
    returns (r: Result<Accessor>, next: Slot<C>, trace: seq<Event>)
    requires NoDup(cids) && Quiescent(slot)
    ensures PinResult(r, next, trace) == PinSteps(slot, cids, env)
  {
    var ok := CheckRange(slot, cids);
    if !ok {
      return Err(OutOfRange), slot, [];
    }
    var cells, need := PinEach(slot.cells, cids);
    var needed := SumSizes(slot.cells, need);
    if |need| == 0 {
      return Ok(Accessor(cids)), slot.(cells := AddPins(slot.cells, cids)), [];
    }
    var out := RunLoad(cells, slot.dlist, need, needed, env);
    trace := out.trace;
    if out.error.Some? {
      r := Err(out.error.value);
      next := slot.(cells := out.cells, dlist := out.dlist);
    } else {
      r := Ok(Accessor(cids));
      next := slot.(cells := AddPins(out.cells, cids), dlist := out.dlist);
    }
  }

  /** An out-of-range id fails the request before any cell is pinned, any resource reserved or the translator called. */
  lemma OutOfRangeHasNoEffect<C>(slot: Slot<C>, cids: seq<int>, env: LoadEnv<C>)
    requires NoDup(cids) && Quiescent(slot)
    requires exists k :: 0 <= k < |cids| && (cids[k] < 0 || cids[k] >= |slot.cells|)
    ensures PinSteps(slot, cids, env) == PinResult(Err(OutOfRange), slot, [])
  {
  }

  /** RunLoad runs exactly when some requested cell needs loading, for the summed size of exactly those cells. */
  lemma LoadRunsIffNeeded<C>(slot: Slot<C>, cids: seq<int>, env: LoadEnv<C>)
    requires NoDup(cids) && AllInRange(slot, cids) && Quiescent(slot)
    ensures var need := NeedLoad(slot.cells, cids);
      && (PinSteps(slot, cids, env).trace == [] <==> |need| == 0)
      && (|need| > 0 && slot.dlist.Some? ==>
            PinSteps(slot, cids, env).trace[0] == Reserve(TotalSize(slot.cells, need), env.reserveGranted))
      && (|need| > 0 && (slot.dlist.None? || env.reserveGranted) ==> GetCells(need) in PinSteps(slot, cids, env).trace)
  {
  }

  /** On success every requested cell is loaded and holds one more pin; other cells are untouched. */
  lemma SuccessPinsEveryCell<C>(slot: Slot<C>, cids: seq<int>, env: LoadEnv<C>)
    requires NoDup(cids) && Quiescent(slot)
    requires PinSteps(slot, cids, env).result.Ok?
    ensures var next := PinSteps(slot, cids, env).slot;
      && |next.cells| == |slot.cells|
      && (forall k :: 0 <= k < |cids| ==>
            next.cells[cids[k]].state == Loaded && next.cells[cids[k]].pins == slot.cells[cids[k]].pins + 1)
      && (forall j :: 0 <= j < |slot.cells| && j !in cids ==> next.cells[j] == slot.cells[j])
  {
    var need := NeedLoad(slot.cells, cids);
    var next := PinSteps(slot, cids, env).slot;
    forall k | 0 <= k < |cids|
      ensures next.cells[cids[k]].state == Loaded && next.cells[cids[k]].pins == slot.cells[cids[k]].pins + 1
    {
      var c := cids[k];
      if c !in need {
        assert !slot.cells[c].NeedsLoad();
      }
    }
  }

  /**
   * A failed request fails for one of three causes: an id out of range, a refused
   * reservation, or the fetch's own error. It takes no pin and leaves no cell mid-load.
   */
  lemma FailureTakesNoPin<C>(slot: Slot<C>, cids: seq<int>, env: LoadEnv<C>)
    requires NoDup(cids) && Quiescent(slot)
    requires PinSteps(slot, cids, env).result.Err?
    ensures !AllInRange(slot, cids) ==> PinSteps(slot, cids, env).result == Err(OutOfRange)
    ensures AllInRange(slot, cids) ==> |NeedLoad(slot.cells, cids)| > 0
    ensures AllInRange(slot, cids) && slot.dlist.Some? && !env.reserveGranted ==>
      PinSteps(slot, cids, env).result == Err(InsufficientResource)
    ensures AllInRange(slot, cids) && (slot.dlist.None? || env.reserveGranted) ==>
      env.fetch.FetchThrew? && PinSteps(slot, cids, env).result == Err(LoadFailed(env.fetch.reason))
    ensures var next := PinSteps(slot, cids, env).slot;
      && |next.cells| == |slot.cells|
      && (forall j :: 0 <= j < |slot.cells| ==> next.cells[j].pins == slot.cells[j].pins)
      && Quiescent(next)
  {
  }

  /** Pinning keeps the slot quiescent and its cells well formed. */
  lemma PinKeepsSlotValid<C>(slot: Slot<C>, cids: seq<int>, env: LoadEnv<C>)
    requires NoDup(cids) && Quiescent(slot) && SlotValid(slot)
    ensures Quiescent(PinSteps(slot, cids, env).slot) && SlotValid(PinSteps(slot, cids, env).slot)
  {
    var next := PinSteps(slot, cids, env).slot;
    forall j | 0 <= j < |next.cells| ensures next.cells[j].Valid() && !next.cells[j].state.Loading? {
      PinKeepsCellValid(slot, cids, env, j);
    }
  }

  /** One cell after a pin request: well formed and not mid-load. */
  lemma PinKeepsCellValid<C>(slot: Slot<C>, cids: seq<int>, env: LoadEnv<C>, j: int)
    requires NoDup(cids) && Quiescent(slot) && SlotValid(slot) && 0 <= j < |slot.cells|
    ensures |PinSteps(slot, cids, env).slot.cells| == |slot.cells|
    ensures PinSteps(slot, cids, env).slot.cells[j].Valid() && !PinSteps(slot, cids, env).slot.cells[j].state.Loading?
  {
    var c := slot.cells[j];
    assert c.Valid() && !c.state.Loading?;
    if AllInRange(slot, cids) {
      var need := NeedLoad(slot.cells, cids);
      if j in cids && j !in need {
        var k := FirstIndex(cids, j);
        assert !c.NeedsLoad();
      }
      if |need| > 0 {
        var pinned := Pinned(slot.cells, cids);
        RunLoadCell(pinned, slot.dlist, need, TotalSize(slot.cells, need), env, j);
        if j in need {
          assert c.NeedsLoad();
        }
      }
    }
  }

  /** What one load does to one cell: a need-load cell ends loaded or failed, well formed when unpinned, with its pins kept; others are untouched. */
  lemma RunLoadCell<C>(cells: seq<Cell<C>>, dlist: Option<ResourceUsage>, need: seq<int>,
                       needed: ResourceUsage, env: LoadEnv<C>, j: int)
    requires 0 <= j < |cells|
    ensures var r := RunLoad(cells, dlist, need, needed, env);
      && |r.cells| == |cells|
      && (j !in need ==> r.cells[j] == cells[j])
      && (j in need ==> r.cells[j].pins == cells[j].pins && !r.cells[j].state.Loading?)
      && (j in need && cells[j].pins == 0 ==> r.cells[j].Valid())
      && (j in need && r.error.None? ==> r.cells[j].state.Loaded?)
  {
  }

  /**
   * `PinCells`: map the external ids to their involved cells, then pin those. An empty request
   * pins, loads and calls nothing; on success the accessor covers the cell of every requested id.
   */
  function PinCells<C>(slot: Slot<C>, uids: seq<int>, env: LoadEnv<C>): (r: PinResult<C>)
    requires Quiescent(slot)
    ensures |uids| == 0 ==> r == PinResult(Ok(Accessor([])), slot, [])
    ensures r.result.Ok? ==> forall i :: 0 <= i < |uids| ==> CellIdOf(slot, uids[i]) in r.result.value.cids
    ensures r.result.Ok? ==> forall i :: 0 <= i < |uids| ==> InRange(slot, CellIdOf(slot, uids[i]))
  {
    var cids := InvolvedCells(slot, uids);
    assert |uids| == 0 ==> AddPins(slot.cells, cids) == slot.cells;
    PinSteps(slot, cids, env)
  }

  /** `PinAllCells`: pin every cell of the slot, in id order; the range check cannot fail. */
  function PinAllCells<C>(slot: Slot<C>, env: LoadEnv<C>): (r: PinResult<C>)
    requires Quiescent(slot)
    ensures r.result != Err(OutOfRange)
    ensures r.result.Ok? ==> r.result.value.cids == Iota(|slot.cells|)
  {
    PinSteps(slot, Iota(|slot.cells|), env)
  }

  /** A successful `PinAllCells` leaves every cell loaded with one more pin. */
  lemma PinAllCellsLoadsEveryCell<C>(slot: Slot<C>, env: LoadEnv<C>)
    requires Quiescent(slot)
    requires PinAllCells(slot, env).result.Ok?
    ensures var next := PinAllCells(slot, env).slot;
      && |next.cells| == |slot.cells|
      && forall j :: 0 <= j < |slot.cells| ==> next.cells[j].state == Loaded && next.cells[j].pins == slot.cells[j].pins + 1
  {
    var cids := Iota(|slot.cells|);
    SuccessPinsEveryCell(slot, cids, env);
    var next := PinAllCells(slot, env).slot;
    forall j | 0 <= j < |slot.cells| ensures next.cells[j].state == Loaded && next.cells[j].pins == slot.cells[j].pins + 1 {
      assert cids[j] == j;
    }
  }

  /** The cell payload an accessor hands out for cell `cid` (`get_ith_cell`). */
  function GetIthCell<C>(slot: Slot<C>, cid: int): Option<C>
    requires InRange(slot, cid)
  {
    slot.cells[cid].payload
  }

  /** The cell payload an accessor hands out for external id `uid` (`get_cell_of`). */
  function GetCellOf<C>(slot: Slot<C>, uid: int): Option<C>
    requires InRange(slot, CellIdOf(slot, uid))
  {
    GetIthCell(slot, CellIdOf(slot, uid))
  }

  /** After a successful `PinCells`, the accessor finds a loaded payload for every requested id. */
  lemma AccessorSeesLoadedCells<C>(slot: Slot<C>, uids: seq<int>, env: LoadEnv<C>)
    requires Quiescent(slot) && SlotValid(slot)
    requires PinCells(slot, uids, env).result.Ok?
    ensures var next := PinCells(slot, uids, env).slot;
      forall i :: 0 <= i < |uids| ==> InRange(next, CellIdOf(next, uids[i])) && GetCellOf(next, uids[i]).Some?
  {
    var cids := InvolvedCells(slot, uids);
    var next := PinCells(slot, uids, env).slot;
    SuccessPinsEveryCell(slot, cids, env);
    PinKeepsSlotValid(slot, cids, env);
    forall i | 0 <= i < |uids|
      ensures InRange(next, CellIdOf(next, uids[i])) && GetCellOf(next, uids[i]).Some?
    {
      var c := CellIdOf(slot, uids[i]);
      var k := FirstIndex(cids, c);
      assert next.cells[cids[k]].state == Loaded;
    }
  }

  /** Dropping an accessor: each of its cells gives back the pin it held. */
  function ReleaseAccessor<C>(slot: Slot<C>, acc: Accessor): (next: Slot<C>)
    requires forall j :: 0 <= j < |slot.cells| && j in acc.cids ==> slot.cells[j].pins > 0
    ensures |next.cells| == |slot.cells|
    ensures forall j :: 0 <= j < |slot.cells| ==> next.cells[j].state == slot.cells[j].state
    ensures forall j :: 0 <= j < |slot.cells| ==>
      next.cells[j].pins == if j in acc.cids then slot.cells[j].pins - 1 else slot.cells[j].pins
    ensures forall j :: 0 <= j < |slot.cells| ==> next.cells[j].size == slot.cells[j].size
    ensures forall j :: 0 <= j < |slot.cells| ==> next.cells[j] == slot.cells[j].(pins := next.cells[j].pins)
    ensures next.dlist == slot.dlist
    ensures next == slot.(cells := next.cells)
  {
    slot.(cells := ReleasePins(slot.cells, acc.cids))
  }

  /** Granting an accessor and dropping it gives every cell back its pin count, with no cell left mid-load. */
  lemma {:induction false} PinThenReleaseRestoresPins<C>(slot: Slot<C>, cids: seq<int>, env: LoadEnv<C>)
    requires NoDup(cids) && Quiescent(slot)
    requires PinSteps(slot, cids, env).result.Ok?
    ensures var r := PinSteps(slot, cids, env);
      && (forall j :: 0 <= j < |r.slot.cells| && j in r.result.value.cids ==> r.slot.cells[j].pins > 0)
      && |ReleaseAccessor(r.slot, r.result.value).cells| == |slot.cells|
      && (forall j :: 0 <= j < |slot.cells| ==> ReleaseAccessor(r.slot, r.result.value).cells[j].pins == slot.cells[j].pins)
      && Quiescent(ReleaseAccessor(r.slot, r.result.value))
  {
    var r := PinSteps(slot, cids, env);
    SuccessPinsEveryCell(slot, cids, env);
    assert r.result.value.cids == cids;
    forall j | 0 <= j < |r.slot.cells| && j in cids ensures r.slot.cells[j].pins == slot.cells[j].pins + 1 {
      var k := FirstIndex(cids, j);
    }
  }

  /** What an eviction gives back to the eviction list: the evicted cell's size. */
  function GiveBack(dlist: Option<ResourceUsage>, freed: ResourceUsage): Option<ResourceUsage> {
    if dlist.Some? then Some(dlist.value.Minus(freed)) else None
  }

  /**
   * `ManualEvict`: evicts one cell if it is loaded and unpinned, and gives its bytes back to
   * the eviction list; the caller names a valid cell.
   */
  method ManualEvict<C>(slot: Slot<C>, cid: int) returns (evicted: bool, next: Slot<C>)
    requires InRange(slot, cid)
    ensures evicted <==> slot.cells[cid].Evictable()
    ensures evicted ==> next.cells == slot.cells[cid := slot.cells[cid].(state := Unloaded, payload := None)]
    ensures evicted ==> next.dlist == GiveBack(slot.dlist, slot.cells[cid].size)
    ensures !evicted ==> next == slot
    ensures next.mode == slot.mode && next.warmup == slot.warmup
  {
    var outcome := ManualEvictCell(slot.cells[cid]);
    evicted := outcome.evicted;
    if evicted {
      next := slot.(cells := slot.cells[cid := outcome.cell], dlist := GiveBack(slot.dlist, slot.cells[cid].size));
    } else {
      next := slot;
    }
  }

  /** The summed size of the evictable cells among the first `n`. */
  function EvictableSize<C>(cells: seq<Cell<C>>, n: nat): ResourceUsage
    requires n <= |cells|
  {
    if n == 0 then NoResource
    else if cells[n - 1].Evictable() then EvictableSize(cells, n - 1).Plus(cells[n - 1].size)
    else EvictableSize(cells, n - 1)
  }

  /**
   * A successful pin request charges the eviction list with exactly the summed size of the
   * cells it loaded, and changes no cell's size.
   */
  lemma SuccessChargesNeeded<C>(slot: Slot<C>, cids: seq<int>, env: LoadEnv<C>)
    requires NoDup(cids) && Quiescent(slot)
    requires PinSteps(slot, cids, env).result.Ok?
    ensures var next := PinSteps(slot, cids, env).slot;
      && |next.cells| == |slot.cells|
      && (forall j :: 0 <= j < |slot.cells| ==> next.cells[j].size == slot.cells[j].size)
      && next.dlist.Some? == slot.dlist.Some?
      && (slot.dlist.Some? ==> next.dlist.value == slot.dlist.value.Plus(TotalSize(slot.cells, NeedLoad(slot.cells, cids))))
  {
  }

  /**
   * `ManualEvictAll`: visits every cell, with no short-circuit, and reports whether any was
   * evicted. Afterwards no cell is evictable, pinned or unloaded cells are untouched, and the
   * eviction list has got back the summed size of the evicted cells.
   */
  method ManualEvictAll<C>(slot: Slot<C>) returns (evicted: bool, next: Slot<C>)
    ensures evicted <==> exists j :: 0 <= j < |slot.cells| && slot.cells[j].Evictable()
    ensures |next.cells| == |slot.cells|
    ensures forall j :: 0 <= j < |slot.cells| ==> next.cells[j] == ManualEvictCell(slot.cells[j]).cell
    ensures forall j :: 0 <= j < |next.cells| ==> !next.cells[j].Evictable()
    ensures next.dlist == GiveBack(slot.dlist, EvictableSize(slot.cells, |slot.cells|))
    ensures next.mode == slot.mode && next.warmup == slot.warmup
    ensures SlotValid(slot) ==> SlotValid(next)
  {
    evicted := false;
    var cells := slot.cells;
    var freed := NoResource;
    var cid := 0;
    while cid < |cells|
      invariant 0 <= cid <= |cells| && |cells| == |slot.cells|
      invariant forall j :: 0 <= j < cid ==> cells[j] == ManualEvictCell(slot.cells[j]).cell
      invariant forall j :: cid <= j < |cells| ==> cells[j] == slot.cells[j]
      invariant evicted <==> exists j :: 0 <= j < cid && slot.cells[j].Evictable()
      invariant freed == EvictableSize(slot.cells, cid)
    {
      var outcome := ManualEvictCell(cells[cid]);
      if outcome.evicted {
        freed := freed.Plus(cells[cid].size);
        evicted := true;
      }
      cells := cells[cid := outcome.cell];
      cid := cid + 1;
    }
    next := slot.(cells := cells, dlist := GiveBack(slot.dlist, freed));
  }

  /**
   * Loading one cell and evicting it again, once its accessor is dropped, gives the eviction
   * list back exactly what the load reserved and leaves the cell unloaded and unpinned.
   */
  lemma LoadThenEvictRestoresLedger<C>(slot: Slot<C>, cid: int, env: LoadEnv<C>)
    requires Quiescent(slot) && SlotValid(slot) && InRange(slot, cid) && slot.cells[cid].NeedsLoad()
    requires PinSteps(slot, [cid], env).result.Ok?
    ensures var p := PinSteps(slot, [cid], env);
      && p.slot.cells[cid].pins == 1
      && var released := ReleaseAccessor(p.slot, p.result.value);
      && released.cells[cid].Evictable()
      && GiveBack(released.dlist, released.cells[cid].size) == slot.dlist
  {
    var c := slot.cells[cid];
    var p := PinSteps(slot, [cid], env);
    PinOneCell(slot, cid, env);
    PinOneCellCharges(slot, cid, env);
    var released := ReleaseAccessor(p.slot, p.result.value);
    assert released.cells[cid].size == c.size && released.dlist == p.slot.dlist;
    if slot.dlist.Some? {
      PlusMinus(slot.dlist.value, c.size);
    }
  }

  lemma PlusMinus(d: ResourceUsage, a: ResourceUsage)
    ensures d.Plus(a).Minus(a) == d
  {
  }

  /** A request for one cell that needs a load loads that cell alone, for its size. */
  lemma ChargeOfOne<C>(cells: seq<Cell<C>>, cid: int)
    requires 0 <= cid < |cells| && cells[cid].NeedsLoad()
    ensures NeedLoad(cells, [cid]) == [cid]
    ensures TotalSize(cells, NeedLoad(cells, [cid])) == cells[cid].size
  {
    assert [cid][0] == cid;
    assert NeedLoad(cells, [cid]) == [cid];
    TotalSizeOfOne(cells, cid);
  }

  /** Pinning one cell that needs a load: it ends loaded with one pin and keeps its size. */
  lemma PinOneCell<C>(slot: Slot<C>, cid: int, env: LoadEnv<C>)
    requires Quiescent(slot) && SlotValid(slot) && InRange(slot, cid) && slot.cells[cid].NeedsLoad()
    requires PinSteps(slot, [cid], env).result.Ok?
    ensures var p := PinSteps(slot, [cid], env);
      && p.result.value.cids == [cid]
      && |p.slot.cells| == |slot.cells|
      && p.slot.cells[cid].pins == 1 && p.slot.cells[cid].state == Loaded && p.slot.cells[cid].size == slot.cells[cid].size
  {
    var c := slot.cells[cid];
    assert c.pins == 0 by {
      assert c.Valid() && !c.state.Loaded?;
    }
    var cids := [cid];
    assert cids[0] == cid;
    var p := PinSteps(slot, cids, env);
    assert p.result.value.cids == cids;
    SuccessPinsEveryCell(slot, cids, env);
    assert p.slot.cells[cids[0]].pins == c.pins + 1 && p.slot.cells[cids[0]].state == Loaded;
    SuccessChargesNeeded(slot, cids, env);
  }

  /** Pinning one cell that needs a load charges the eviction list with that cell's size. */
  lemma PinOneCellCharges<C>(slot: Slot<C>, cid: int, env: LoadEnv<C>)
    requires Quiescent(slot) && InRange(slot, cid) && slot.cells[cid].NeedsLoad()
    requires PinSteps(slot, [cid], env).result.Ok?
    ensures var p := PinSteps(slot, [cid], env);
      p.slot.dlist == (if slot.dlist.Some? then Some(slot.dlist.value.Plus(slot.cells[cid].size)) else None)
  {
    ChargeOfOne(slot.cells, cid);
    SuccessChargesNeeded(slot, [cid], env);
  }

  datatype WarmupResult<C> = WarmupResult(error: Option<ErrorCode>, slot: Slot<C>, trace: seq<Event>)

  /**
   * `Warmup`: unless the policy disables it, pin every cell id through the mapping mode and
   * drop the accessor at once, so that the cells end up loaded and the pin counts are as before.
   * A failed pin request surfaces its error.
   */
  function Warmup<C>(slot: Slot<C>, env: LoadEnv<C>): (r: WarmupResult<C>)
    requires Quiescent(slot)
    ensures slot.warmup == WarmupDisable ==> r == WarmupResult(None, slot, [])
    ensures |r.slot.cells| == |slot.cells|
    ensures forall j :: 0 <= j < |slot.cells| ==> r.slot.cells[j].pins == slot.cells[j].pins
    ensures Quiescent(r.slot)
    ensures r.slot.mode == slot.mode && r.slot.warmup == slot.warmup
  {
    if slot.warmup == WarmupDisable then WarmupResult(None, slot, [])
    else
      var uids := Iota(|slot.cells|);
      var cids := InvolvedCells(slot, uids);
      var p := PinSteps(slot, cids, env);
      if p.result.Err? then
        FailureTakesNoPin(slot, cids, env);
        WarmupResult(Some(p.result.error), p.slot, p.trace)
      else
        PinThenReleaseRestoresPins(slot, cids, env);
        WarmupResult(None, ReleaseAccessor(p.slot, p.result.value), p.trace)
  }

  /** A successful warmup in IDENTICAL mode leaves every cell loaded. */
  lemma WarmupLoadsEveryCell<C>(slot: Slot<C>, env: LoadEnv<C>)
    requires Quiescent(slot) && slot.mode == Identical && slot.warmup == WarmupSync
    requires Warmup(slot, env).error.None?
    ensures forall j :: 0 <= j < |slot.cells| ==> Warmup(slot, env).slot.cells[j].state == Loaded
  {
    var uids := Iota(|slot.cells|);
    FirstOccurrencesOfNoDup(uids);
    assert InvolvedCells(slot, uids) == uids;
    var p := PinSteps(slot, uids, env);
    assert p.result.Ok?;
    SuccessPinsEveryCell(slot, uids, env);
    PinThenReleaseRestoresPins(slot, uids, env);
    var released := ReleaseAccessor(p.slot, p.result.value);
    assert Warmup(slot, env).slot == released;
    forall j | 0 <= j < |slot.cells| ensures released.cells[j].state == Loaded {
      assert uids[j] == j;
      assert p.slot.cells[uids[j]].state == Loaded;
    }
  }

  /** Pinning cells that are all loaded already loads nothing and calls nothing. */
  lemma PinOfLoadedCellsLoadsNothing<C>(slot: Slot<C>, cids: seq<int>, env: LoadEnv<C>)
    requires NoDup(cids) && AllInRange(slot, cids)
    requires forall j :: 0 <= j < |slot.cells| ==> slot.cells[j].state == Loaded
    ensures PinSteps(slot, cids, env) == PinResult(Ok(Accessor(cids)), slot.(cells := AddPins(slot.cells, cids)), [])
  {
  }

  /** Warming up a slot whose cells are all loaded calls nothing and changes nothing. */
  lemma WarmupOfLoadedSlotIsNoOp<C>(slot: Slot<C>, env: LoadEnv<C>)
    requires Quiescent(slot)
    requires forall j :: 0 <= j < |slot.cells| ==> slot.cells[j].state == Loaded
    ensures Warmup(slot, env).slot == slot && Warmup(slot, env).trace == []
  {
    if slot.warmup == WarmupSync {
      var cids := InvolvedCells(slot, Iota(|slot.cells|));
      if AllInRange(slot, cids) {
        PinOfLoadedCellsLoadsNothing(slot, cids, env);
        ReleaseUndoesPins(slot.cells, cids);
      }
    }
  }

  /**
   * `PinWrapper`: a value carried together with whatever keeps its cells pinned (`guard`;
   * `None` for values that need no pin, such as copies).
   */
  datatype PinWrapper<G, T> = PinWrapper(guard: Option<G>, content: T)

  /** A value that needs no pin. */
  function Unpinned<G, T>(content: T): (w: PinWrapper<G, T>)
    ensures w.guard.None? && w.content == content
  {
    PinWrapper(None, content)
  }

  /** `transform`: a new value derived from the content, moved under the same guard, so the pins live on. */
  function Transform<G, T, T2>(w: PinWrapper<G, T>, f: T -> T2): (r: PinWrapper<G, T2>)
    ensures r.guard == w.guard
    ensures r.content == f(w.content)
  {
    PinWrapper(w.guard, f(w.content))
  }

  /** Transforming by the identity changes nothing. */
  lemma TransformIdentity<G, T>(w: PinWrapper<G, T>)
    ensures Transform(w, (x: T) => x) == w
  {
  }

  /** Two transforms in a row are one transform by the composed function, under the same guard. */
  lemma TransformComposes<G, T, T2, T3>(w: PinWrapper<G, T>, f: T -> T2, g: T2 -> T3)
    ensures Transform(Transform(w, f), g) == Transform(w, (x: T) => g(f(x)))
  {
  }
}
