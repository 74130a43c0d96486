/**
 * Data-coord upgrade fix-up of a virtual-channel record written by version 2.0.2:
 * segment-info lists are folded into the segment-id lists, which are then deduplicated.
 */
module MetaUtil {
  import opened Common
  import opened SeqUtil

  /** Only the id of a legacy segment-info entry takes part in the fix-up. */
  datatype SegmentInfo = SegmentInfo(id: int, numRows: int)

  datatype VChannelInfo = VChannelInfo(
    collectionId: int,
    channelName: string,
    seekPosition: Option<int>,
    unflushedSegmentIds: seq<int>,
    flushedSegmentIds: seq<int>,
    droppedSegmentIds: seq<int>,
    unflushedSegments: seq<SegmentInfo>,
    flushedSegments: seq<SegmentInfo>,
    droppedSegments: seq<SegmentInfo>)

  function SegmentIds(segments: seq<SegmentInfo>): (ids: seq<int>)
    ensures |ids| == |segments|
    ensures forall k :: 0 <= k < |segments| ==> ids[k] == segments[k].id
  {
    if |segments| == 0 then [] else [segments[0].id] + SegmentIds(segments[1..])
  }

  datatype SegmentList = SegmentList(ids: seq<int>, segments: seq<SegmentInfo>)

  /**
   * One of the three fix-ups: when legacy infos are present their ids are appended and
   * the infos cleared; in every case the id list is then deduplicated keeping first occurrences.
   */
  function ReviseList(list: SegmentList): (r: SegmentList)
    ensures NoDup(r.ids)
    ensures |list.segments| > 0 ==> r.segments == [] && SameElements(r.ids, list.ids + SegmentIds(list.segments))
    ensures |list.segments| > 0 ==> r.ids == FirstOccurrences(list.ids + SegmentIds(list.segments))
    ensures |list.segments| == 0 ==> r.segments == list.segments && r.ids == FirstOccurrences(list.ids)
    ensures |list.segments| == 0 ==> SameElements(r.ids, list.ids)
  {
    if |list.segments| > 0 then
      SegmentList(FirstOccurrences(list.ids + SegmentIds(list.segments)), [])
    else
      SegmentList(FirstOccurrences(list.ids), list.segments)
  }

  function Flushed(v: VChannelInfo): SegmentList { SegmentList(v.flushedSegmentIds, v.flushedSegments) }
  function Unflushed(v: VChannelInfo): SegmentList { SegmentList(v.unflushedSegmentIds, v.unflushedSegments) }
  function Dropped(v: VChannelInfo): SegmentList { SegmentList(v.droppedSegmentIds, v.droppedSegments) }

  /** reviseVChannelInfo; `None` stands for a nil record, which is left alone. */
  function ReviseVChannelInfo(v: Option<VChannelInfo>): (r: Option<VChannelInfo>)
    ensures v.None? <==> r.None?
    ensures v.Some? ==> Flushed(r.value) == ReviseList(Flushed(v.value))
    ensures v.Some? ==> Unflushed(r.value) == ReviseList(Unflushed(v.value))
    ensures v.Some? ==> Dropped(r.value) == ReviseList(Dropped(v.value))
    ensures v.Some? ==> (&& r.value.collectionId == v.value.collectionId
                         && r.value.channelName == v.value.channelName
                         && r.value.seekPosition == v.value.seekPosition)
  {
    match v
    case None => None
    case Some(c) =>
      var f := ReviseList(Flushed(c));
      var u := ReviseList(Unflushed(c));
      var d := ReviseList(Dropped(c));
      Some(c.(flushedSegmentIds := f.ids, flushedSegments := f.segments,
              unflushedSegmentIds := u.ids, unflushedSegments := u.segments,
              droppedSegmentIds := d.ids, droppedSegments := d.segments))
  }

  lemma ReviseListIdempotent(list: SegmentList)
    ensures ReviseList(ReviseList(list)) == ReviseList(list)
  {
    var once := ReviseList(list);
    FirstOccurrencesOfNoDup(once.ids);
  }

  /** Revising an already revised record changes nothing. */
  lemma ReviseIdempotent(v: Option<VChannelInfo>)
    ensures ReviseVChannelInfo(ReviseVChannelInfo(v)) == ReviseVChannelInfo(v)
  {
    if v.Some? {
      var c := v.value;
      ReviseListIdempotent(Flushed(c));
      ReviseListIdempotent(Unflushed(c));
      ReviseListIdempotent(Dropped(c));
    }
  }
}
