/**
 The video page's incremental list: it shows the first few videos of the
 fetched list and, each time the list's end is reached, schedules a load that
 appends the next few. The fetched list is a parameter; the delayed timer
 callback is the separate `LoadCompleted` event.
 */
module VideoPagination {

  const InitialLoad: nat := 10
  const LoadMoreCount: nat := 5

  /** `displayed` is what the list renders; `loadingMore` is true between a
      scheduled load and its completion. */
  datatype Pager<V> = Pager(displayed: seq<V>, loadingMore: bool)

  function Min(a: int, b: int): int {
    if a <= b then a else b
  }

  /** `Array.prototype.slice(start, end)` for non-negative arguments: both
      bounds are cut down to the length, and an empty result when they cross. */
  function Slice<V>(s: seq<V>, start: nat, end: nat): (r: seq<V>)
    ensures |r| == if Min(start, |s|) <= Min(end, |s|) then Min(end, |s|) - Min(start, |s|) else 0
    ensures start <= end <= |s| ==> r == s[start..end]
    ensures end >= |s| && start <= |s| ==> r == s[start..]
  {
    var lo := Min(start, |s|);
    var hi := Min(end, |s|);
    if lo <= hi then s[lo..hi] else []
  }

  ghost predicate IsPrefix<V>(p: seq<V>, s: seq<V>) {
    |p| <= |s| && p == s[..|p|]
  }

  /** The pager on mount: the first `InitialLoad` videos, or all of them if
      there are fewer. */
  function Initial<V>(videos: seq<V>): (p: Pager<V>)
    ensures p.displayed == videos[..Min(InitialLoad, |videos|)]
    ensures !p.loadingMore
  {
    Pager(Slice(videos, 0, InitialLoad), false)
  }

  /** `loadMoreVideos` on reaching the end of the list: ignored when everything
      is shown or a load is already pending; otherwise a load is scheduled. */
  function LoadMore<V>(p: Pager<V>, videos: seq<V>): (r: Pager<V>)
    ensures |p.displayed| >= |videos| || p.loadingMore ==> r == p
    ensures |p.displayed| < |videos| && !p.loadingMore ==> r == p.(loadingMore := true)
  {
    if |p.displayed| >= |videos| || p.loadingMore then p else p.(loadingMore := true)
  }

  /** The scheduled timer fires: the next `LoadMoreCount` videos after the
      displayed ones are appended and the pending flag is cleared. Without a
      pending load there is no timer, so nothing happens. */
  function LoadCompleted<V>(p: Pager<V>, videos: seq<V>): (r: Pager<V>)
    ensures !p.loadingMore ==> r == p
    ensures p.loadingMore ==> !r.loadingMore
  {
    if !p.loadingMore then p
    else
      var n := |p.displayed|;
      Pager(p.displayed + Slice(videos, n, n + LoadMoreCount), false)
  }

  /** A completed load appends exactly the next block of the source list, of
      at most `LoadMoreCount` and at least one video. */
  lemma LoadCompletedAppendsNextBlock<V>(p: Pager<V>, videos: seq<V>)
    requires Valid(p, videos) && p.loadingMore
    ensures var n := |p.displayed|;
      var m := Min(n + LoadMoreCount, |videos|);
      && n < m
      && LoadCompleted(p, videos).displayed == p.displayed + videos[n..m]
      && 1 <= |LoadCompleted(p, videos).displayed| - n <= LoadMoreCount
  {
  }

  /** The pager invariant: the rendered list is always a prefix of the source
      list, and a pending load only exists while something is left to show. */
  ghost predicate Valid<V>(p: Pager<V>, videos: seq<V>) {
    && IsPrefix(p.displayed, videos)
    && (p.loadingMore ==> |p.displayed| < |videos|)
  }

  lemma InitialValid<V>(videos: seq<V>)
    ensures Valid(Initial(videos), videos)
  {
  }

  lemma LoadMoreKeepsValid<V>(p: Pager<V>, videos: seq<V>)
    requires Valid(p, videos)
    ensures Valid(LoadMore(p, videos), videos)
  {
  }

  lemma LoadCompletedKeepsValid<V>(p: Pager<V>, videos: seq<V>)
    requires Valid(p, videos)
    ensures Valid(LoadCompleted(p, videos), videos)
  {
    if p.loadingMore {
      var n := |p.displayed|;
      var m := Min(n + LoadMoreCount, |videos|);
      assert videos[..n] + videos[n..m] == videos[..m];
    }
  }

  datatype Event = EndReached | TimerFired

  function Step<V>(p: Pager<V>, videos: seq<V>, e: Event): Pager<V> {
    match e
    case EndReached => LoadMore(p, videos)
    case TimerFired => LoadCompleted(p, videos)
  }

  function Run<V>(p: Pager<V>, videos: seq<V>, es: seq<Event>): Pager<V>
    decreases |es|
  {
    if es == [] then p else Run(Step(p, videos, es[0]), videos, es[1..])
  }

  /** Whatever order the scroll and timer events arrive in, the rendered list
      stays a prefix of the source list and so never outgrows it; and it only
      ever grows. */
  lemma {:induction false} RunKeepsPrefix<V>(p: Pager<V>, videos: seq<V>, es: seq<Event>)
    requires Valid(p, videos)
    ensures Valid(Run(p, videos, es), videos)
    ensures IsPrefix(p.displayed, Run(p, videos, es).displayed)
    decreases |es|
  {
    if es != [] {
      var q := Step(p, videos, es[0]);
      if es[0] == EndReached {
        LoadMoreKeepsValid(p, videos);
      } else {
        LoadCompletedKeepsValid(p, videos);
      }
      assert IsPrefix(p.displayed, q.displayed);
      RunKeepsPrefix(q, videos, es[1..]);
      var r := Run(q, videos, es[1..]).displayed;
      assert r[..|p.displayed|] == r[..|q.displayed|][..|p.displayed|];
    }
  }

  /** One scroll to the end followed by its timer. */
  function LoadRound<V>(p: Pager<V>, videos: seq<V>): Pager<V> {
    LoadCompleted(LoadMore(p, videos), videos)
  }

  function LoadRounds<V>(p: Pager<V>, videos: seq<V>, k: nat): Pager<V>
    decreases k
  {
    if k == 0 then p else LoadRounds(LoadRound(p, videos), videos, k - 1)
  }

  /** After `k` completed rounds from mount the list shows exactly the first
      `10 + 5k` videos, or all of them. */
  lemma {:induction false} RoundsShowPrefix<V>(videos: seq<V>, k: nat)
    ensures LoadRounds(Initial(videos), videos, k).displayed
      == videos[..Min(InitialLoad + LoadMoreCount * k, |videos|)]
    ensures !LoadRounds(Initial(videos), videos, k).loadingMore
  {
    RoundsFrom(videos, InitialLoad, k);
  }

  lemma {:induction false} RoundsFrom<V>(videos: seq<V>, start: nat, k: nat)
    ensures LoadRounds(Pager(videos[..Min(start, |videos|)], false), videos, k).displayed
      == videos[..Min(start + LoadMoreCount * k, |videos|)]
    ensures !LoadRounds(Pager(videos[..Min(start, |videos|)], false), videos, k).loadingMore
    decreases k
  {
    if k > 0 {
      var p := Pager(videos[..Min(start, |videos|)], false);
      var q := LoadRound(p, videos);
      var n := Min(start, |videos|);
      if n < |videos| {
        var m := Min(n + LoadMoreCount, |videos|);
        assert videos[..n] + videos[n..m] == videos[..m];
      }
      assert q == Pager(videos[..Min(start + LoadMoreCount, |videos|)], false);
      RoundsFrom(videos, start + LoadMoreCount, k - 1);
      assert start + LoadMoreCount + LoadMoreCount * (k - 1) == start + LoadMoreCount * k;
    }
  }

  /** The list is mounted once; if the videos were still being fetched then,
      it starts empty and stays a prefix of the list that arrives later. */
  lemma MountedBeforeFetch<V>(videos: seq<V>)
    ensures Initial<V>([]).displayed == []
    ensures Valid(Initial<V>([]), videos)
  {
  }
}
