/**
 * Admission in the query coordinator's task executor: a set of the task indexes being executed
 * and a counter of them, bounded by the execution cap; a capacity-one "executed" signal; and
 * the choice of what an admitted action step runs. The cap is a parameter (the source derives
 * it from the node's CPU count and configuration); the steps themselves run asynchronously
 * and are named, not modelled.
 */
module TaskExecutor {
  import opened Common
  import opened Semver

  /** The executor's admission state. `signalled` is the one slot of the executed-flag channel. */
  datatype Executor = Executor(executing: set<string>, count: int, signalled: bool)

  /** The counter counts exactly the executing tasks. */
  predicate Consistent(ex: Executor) {
    ex.count == |ex.executing|
  }

  datatype ActionKind = SegmentAction | ChannelAction | LeaderAction

  datatype ActionType = Grow | Reduce | Update | StatsUpdate

  /** The operations an action step can start. */
  datatype Operation =
    | LoadSegment | ReleaseSegment
    | SubscribeChannel | UnsubscribeChannel
    | SetDistribution | RemoveDistribution | UpdatePartStatsVersions

  /**
   * The dispatch in `Execute`'s goroutine: segment actions load on Grow, Update and
   * StatsUpdate and release on Reduce; channel actions subscribe on Grow and unsubscribe on
   * Reduce; leader actions set the distribution on Grow, remove it on Reduce and update the
   * partition-stats versions on Update and StatsUpdate.
   */
  function Dispatch(kind: ActionKind, t: ActionType): (op: Option<Operation>)
    ensures op.None? <==> kind == ChannelAction && (t == Update || t == StatsUpdate)
    ensures op == Some(LoadSegment) <==> kind == SegmentAction && t != Reduce
    ensures op == Some(ReleaseSegment) <==> kind == SegmentAction && t == Reduce
    ensures op == Some(SubscribeChannel) <==> kind == ChannelAction && t == Grow
    ensures op == Some(UnsubscribeChannel) <==> kind == ChannelAction && t == Reduce
    ensures op == Some(SetDistribution) <==> kind == LeaderAction && t == Grow
    ensures op == Some(RemoveDistribution) <==> kind == LeaderAction && t == Reduce
    ensures op == Some(UpdatePartStatsVersions) <==> kind == LeaderAction && (t == Update || t == StatsUpdate)
  {
    match kind
    case SegmentAction => if t == Reduce then Some(ReleaseSegment) else Some(LoadSegment)
    case ChannelAction =>
      (match t
       case Grow => Some(SubscribeChannel)
       case Reduce => Some(UnsubscribeChannel)
       case _ => None)
    case LeaderAction =>
      (match t
       case Grow => Some(SetDistribution)
       case Reduce => Some(RemoveDistribution)
       case _ => Some(UpdatePartStatsVersions))
  }

  /** The outcome of `Execute`: whether the step was admitted, the next state, and what it starts. */
  datatype Admission = Admission(admitted: bool, next: Executor, started: Option<Operation>)

  /**
   * `Execute`: a task index already executing is refused; otherwise the index is inserted and
   * the counter incremented, and if the counter then exceeds the cap both are undone and the
   * step is refused. An admitted step starts the operation its action dispatches to.
   */
  method Execute(ex: Executor, index: string, cap: int, kind: ActionKind, t: ActionType) returns (r: Admission)
    ensures index in ex.executing ==> r == Admission(false, ex, None)
    ensures index !in ex.executing && ex.count + 1 > cap ==> r == Admission(false, ex, None)
    ensures index !in ex.executing && ex.count + 1 <= cap ==>
      r == Admission(true, ex.(executing := ex.executing + {index}, count := ex.count + 1), Dispatch(kind, t))
    ensures Consistent(ex) ==> Consistent(r.next)
    ensures Consistent(ex) && ex.count <= cap ==> r.next.count <= cap
    ensures r.admitted ==> index in r.next.executing && r.next.count <= cap
  {
    var exist := index in ex.executing;
    if exist {
      return Admission(false, ex, None);
    }
    var inserted := ex.(executing := ex.executing + {index}, count := ex.count + 1);
    if inserted.count > cap {
      var undone := inserted.(executing := inserted.executing - {index}, count := inserted.count - 1);
      assert undone == ex;
      return Admission(false, undone, None);
    }
    r := Admission(true, inserted, Dispatch(kind, t));
  }

  /**
   * `removeTask`: the index leaves the set and the counter is decremented. A task that ended
   * without error offers the executed signal; the channel holds one signal and the offer
   * never blocks, so a pending signal stays as it is.
   */
  function RemoveTask(ex: Executor, index: string, failed: bool): (next: Executor)
    ensures index !in next.executing && next.executing + {index} == ex.executing + {index}
    ensures next.count == ex.count - 1
    ensures next.signalled <==> ex.signalled || !failed
    ensures index in ex.executing && Consistent(ex) ==> Consistent(next)
  {
    Executor(ex.executing - {index}, ex.count - 1, ex.signalled || !failed)
  }

  /** Receiving from the executed-flag channel: reports whether a signal was pending and empties the slot. */
  function TakeSignal(ex: Executor): (r: (bool, Executor))
    ensures r.0 == ex.signalled && !r.1.signalled
    ensures r.1.executing == ex.executing && r.1.count == ex.count
  {
    (ex.signalled, ex.(signalled := false))
  }

  /** Admitting a step and then removing it leaves the set and the counter as they were. */
  lemma ExecuteThenRemoveRestores(ex: Executor, index: string, failed: bool)
    requires index !in ex.executing
    ensures var inserted := ex.(executing := ex.executing + {index}, count := ex.count + 1);
      RemoveTask(inserted, index, failed).executing == ex.executing
      && RemoveTask(inserted, index, failed).count == ex.count
  {
    var inserted := ex.(executing := ex.executing + {index}, count := ex.count + 1);
    assert inserted.executing - {index} == ex.executing;
  }

  /** The node version from which flushed segments are no longer sent in the watch request. */
  const SegmentsVersion := Version(2, 3, 4, [])

  /**
   * `shouldIncludeFlushedSegmentInfo`: false for a node the node manager does not know;
   * otherwise true exactly when the node's version precedes 2.3.4, pre-releases of 2.3.4
   * included.
   */
  function ShouldIncludeFlushedSegmentInfo(nodeVersion: Option<Version>): (r: bool)
    ensures nodeVersion.None? ==> !r
    ensures nodeVersion.Some? ==> var v := nodeVersion.value;
      r <==>
        || v.major < 2
        || (v.major == 2 && v.minor < 3)
        || (v.major == 2 && v.minor == 3 && v.patch < 4)
        || (v.major == 2 && v.minor == 3 && v.patch == 4 && |v.pre| > 0)
  {
    match nodeVersion
    case None => false
    case Some(v) => Less(v, SegmentsVersion)
  }
}
