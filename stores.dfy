/**
 * The application state store of the video playlist UI: the list of videos,
 * the active video and the per-index watch timers, with the derived queries
 * and the actions that replace the fields.
 */
module Stores {
  import opened Wrappers

  /** A video record. Videos are told apart by identity, not by value. */
  class Video {
    const videoTime: nat

    constructor (videoTime: nat)
      ensures this.videoTime == videoTime
    {
      this.videoTime := videoTime;
    }
  }

  /**
   * The timer map: the aggregate `total` plus one entry per numeric key
   * (the index of a video in the list).
   */
  datatype Timers = Timers(total: int, slots: map<nat, int>)

  // ---------------------------------------------------------------------
  // Specification functions over the list
  // ---------------------------------------------------------------------

  /** Position of the first occurrence of `x` in `s`, or -1 (Array.prototype.indexOf). */
  function IndexOf<T(==)>(s: seq<T>, x: T): (r: int)
    ensures -1 <= r < |s|
    ensures r == -1 <==> x !in s
    ensures r != -1 ==> s[r] == x && x !in s[..r]
  {
    if |s| == 0 then -1
    else if s[0] == x then 0
    else
      var k := IndexOf(s[1..], x);
      if k == -1 then -1
      else
        assert s[..k + 1] == [s[0]] + s[1..][..k];
        k + 1
  }

  /** The sum of the durations of the videos in `s`. */
  function TotalTime(s: seq<Video>): nat
  {
    if s == [] then 0 else TotalTime(s[..|s| - 1]) + s[|s| - 1].videoTime
  }

  /** The zero timer for each of the indices `0 .. n-1`, one key per element as the spread of `data.map(t => 0)` gives. */
  function ZeroSlots(n: nat): map<nat, int>
  {
    if n == 0 then map[] else ZeroSlots(n - 1)[n - 1 := 0]
  }

  /** No element appears twice in `s`. */
  predicate Distinct<T(==)>(s: seq<T>)
  {
    forall i, j | 0 <= i < j < |s| :: s[i] != s[j]
  }

  // ---------------------------------------------------------------------
  // Lemmas about the specification functions
  // ---------------------------------------------------------------------

  /** The first index of the element at position `i` is at most `i`, and exactly `i` in a list without repeats. */
  lemma IndexOfAt<T>(s: seq<T>, i: nat)
    requires i < |s|
    ensures 0 <= IndexOf(s, s[i]) <= i
    ensures Distinct(s) ==> IndexOf(s, s[i]) == i
  {
  }

  /** Durations add up over concatenation. */
  lemma {:induction false} TotalTimeAppend(a: seq<Video>, b: seq<Video>)
    ensures TotalTime(a + b) == TotalTime(a) + TotalTime(b)
    decreases |b|
  {
    if b != [] {
      var b' := b[..|b| - 1];
      assert (a + b)[..|a + b| - 1] == a + b';
      TotalTimeAppend(a, b');
    } else {
      assert a + b == a;
    }
  }

  /** Each step along the list raises the sum of the prefix by the duration of the video stepped over. */
  lemma PrefixTimeStep(s: seq<Video>, i: nat)
    requires i < |s|
    ensures TotalTime(s[..i + 1]) == TotalTime(s[..i]) + s[i].videoTime
  {
    assert s[..i + 1][..i] == s[..i];
  }

  /** The unlock threshold never decreases along the list. */
  lemma PrefixTimeMonotone(s: seq<Video>, i: nat, j: nat)
    requires i <= j <= |s|
    ensures TotalTime(s[..i]) <= TotalTime(s[..j])
  {
    assert s[..j] == s[..i] + s[i..j];
    TotalTimeAppend(s[..i], s[i..j]);
  }

  /** The fresh timer map has exactly the keys `0 .. n-1`, each mapped to zero, and so `n` entries. */
  lemma {:induction false} ZeroSlotsShape(n: nat)
    ensures forall k: nat :: k in ZeroSlots(n) <==> k < n
    ensures forall k | k in ZeroSlots(n) :: ZeroSlots(n)[k] == 0
    ensures |ZeroSlots(n)| == n
  {
    if n > 0 {
      ZeroSlotsShape(n - 1);
    }
  }

  // ---------------------------------------------------------------------
  // The store
  // ---------------------------------------------------------------------

  class AppStore {
    var videoList: seq<Video>
    var active: Video?
    var timers: Timers

    /**
     * The intended (unenforced) consistency of the store: the active video
     * belongs to the list and there is exactly one timer per list index.
     */
    ghost predicate Consistent()
      reads this
    {
      && (active != null ==> active in videoList)
      && (forall k: nat :: k in timers.slots <==> k < |videoList|)
    }

    /** The initial state: no videos, nothing active, `total` at zero. */
    constructor ()
      ensures videoList == [] && active == null
      ensures timers == Timers(0, map[])
      ensures Consistent()
    {
      videoList := [];
      active := null;
      timers := Timers(0, map[]);
    }

    /** 1-based position of the active video, or None when there is none or it is not listed. */
    function GetEpisode(): (r: Option<nat>)
      reads this
      ensures r.None? <==> active == null || active !in videoList
      ensures r.Some? ==> 1 <= r.value <= |videoList|
      ensures r.Some? ==> videoList[r.value - 1] == active && active !in videoList[..r.value - 1]
    {
      if active != null then
        var idx := IndexOf(videoList, active);
        if idx != -1 then Some(idx + 1) else None
      else
        None
    }

    /** The video at position `idx`; out-of-range reads are the caller's fault. */
    function GetItemByIndex(idx: int): (v: Video)
      reads this
      requires 0 <= idx < |videoList|
      ensures v == videoList[idx]
      ensures 0 <= GetItemIndex(v) <= idx
      ensures Distinct(videoList) ==> GetItemIndex(v) == idx
    {
      IndexOfAt(videoList, idx);
      videoList[idx]
    }

    /** Position of the first occurrence of `item`, or -1 when it is null or not listed. */
    function GetItemIndex(item: Video?): (r: int)
      reads this
      ensures -1 <= r < |videoList|
      ensures r == -1 <==> item == null || item !in videoList
      ensures r != -1 ==> videoList[r] == item && item !in videoList[..r]
    {
      if item != null then IndexOf(videoList, item) else -1
    }

    /**
     * The unlock threshold of `item`: the total duration of the videos
     * before its first position, or None when it is not listed.
     */
    method IsUnlock(item: Video?) returns (r: Option<nat>)
      ensures r.None? <==> GetItemIndex(item) == -1
      ensures r.Some? ==> r.value == TotalTime(videoList[..GetItemIndex(item)])
      ensures GetItemIndex(item) == 0 ==> r == Some(0)
    {
      var idx := GetItemIndex(item);
      if idx != -1 {
        var total := 0;
        for i := 0 to idx
          invariant total == TotalTime(videoList[..i])
        {
          PrefixTimeStep(videoList, i);
          total := total + videoList[i].videoTime;
        }
        return Some(total);
      } else {
        return None;
      }
    }

    /** Replaces the list wholesale. */
    method SetVideo(data: seq<Video>)
      modifies this`videoList
      ensures videoList == data
      ensures active == old(active) && timers == old(timers)
    {
      videoList := data;
    }

    /** Replaces the active video; membership in the list is not checked. */
    method SetActive(video: Video)
      modifies this`active
      ensures active == video
      ensures videoList == old(videoList) && timers == old(timers)
    {
      active := video;
    }

    /** Replaces the timer map wholesale. */
    method SetTimer(data: Timers)
      modifies this`timers
      ensures timers == data
      ensures videoList == old(videoList) && active == old(active)
    {
      timers := data;
    }

    /**
     * The effect of a resolved load: a non-empty list is installed, its first
     * video made active and the timers rebuilt with one zero per index and the
     * old `total`; an empty list changes nothing.
     */
    method ApplyLoaded(data: seq<Video>)
      modifies this
      ensures |data| == 0 ==> videoList == old(videoList) && active == old(active) && timers == old(timers)
      ensures |data| > 0 ==> videoList == data && active == data[0]
      ensures |data| > 0 ==> timers.total == old(timers.total)
      ensures |data| > 0 ==> forall k: nat :: k in timers.slots <==> k < |data|
      ensures |data| > 0 ==> forall k | k in timers.slots :: timers.slots[k] == 0
      ensures |data| > 0 ==> |timers.slots| == |data|
      ensures |data| > 0 ==> Consistent() && GetEpisode() == Some(1)
    {
      if |data| != 0 {
        SetVideo(data);
        var timer := Timers(timers.total, ZeroSlots(|data|));
        SetTimer(timer);
        SetActive(data[0]);
        ZeroSlotsShape(|data|);
      }
    }
  }
}
