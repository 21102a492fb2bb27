/**
 * The content script's module state and the handlers that change it: the
 * fetch with its cache, the `timeupdate` watcher, the skip and jump
 * commands, setting up for a video, the navigation reset and the reaction
 * to storage changes. The video element is reduced to its playback
 * position; every page effect is appended to an event log.
 */
module Content {
  import opened Wrappers
  import opened JsonValue
  import opened Segments
  import opened Provider
  import opened CacheKeys
  import opened Fetcher
  import opened Playback

  /** One key of a storage change record: absent, or present with its new value. */
  datatype Change<T> = Unchanged | Changed(newValue: T)

  /** `Boolean(v)` of a stored value, `false` when there is none. */
  predicate Flag(v: Option<Json>)
  {
    v.Some? && Truthy(v.value)
  }

  class ContentScript {
    var currentVideoId: Option<string>
    var sponsorSegments: seq<Segment>
    var lastInSegment: bool
    var autoSkipEnabled: bool
    var segmentCache: Cache
    /** `video.currentTime`. */
    var position: real
    /** Whether a `timeupdate` handler is attached to the video. */
    var listening: bool
    /** Every page effect so far, oldest first. */
    var events: seq<Event>

    /** The active list and every cached list are in ascending order of `start`. */
    predicate Valid()
      reads this
    {
      SortedByStart(sponsorSegments) && CacheSorted(segmentCache)
    }

    /** The floating skip button is only on the page while the flag says "inside". */
    predicate ButtonHonest()
      reads this
    {
      ButtonShown(false, events) ==> lastInSegment
    }

    /** The script as loaded: nothing fetched, nothing on the page, the video at `start`. */
    constructor (start: real)
      ensures Valid() && ButtonHonest()
      ensures currentVideoId == None && sponsorSegments == [] && !lastInSegment && !autoSkipEnabled
      ensures segmentCache == map[] && position == start && !listening && events == []
    {
      currentVideoId := None;
      sponsorSegments := [];
      lastInSegment := false;
      autoSkipEnabled := false;
      segmentCache := map[];
      position := start;
      listening := false;
      events := [];
    }

    /** `fetchSponsorSegments(videoId, categories)`, with the provider's reply given. */
    method FetchSponsorSegments(videoId: Option<string>, categories: Categories, response: Response)
      returns (list: seq<Segment>)
      modifies this`segmentCache
      ensures list == Fetch(old(segmentCache), videoId, categories, response).segments &&
        segmentCache == Fetch(old(segmentCache), videoId, categories, response).cache
      ensures CacheSorted(old(segmentCache)) ==> CacheSorted(segmentCache) && SortedByStart(list)
    {
      if !HasId(videoId) {
        return [];
      }
      var key := CacheKey(videoId.value, categories);
      if key in segmentCache {
        return segmentCache[key];
      }
      if !Usable(response) {
        return [];
      }
      list := Normalize(response.body.value);
      segmentCache := segmentCache[key := list];
    }

    /** Appends `more` to the page's event log. */
    method Emit(more: seq<Event>)
      modifies this`events
      ensures events == old(events) + more
      ensures (forall i :: 0 <= i < |more| ==> !more[i].ShowFloatingSkip? && !more[i].HideFloatingSkip?) ==>
        ButtonShown(false, events) == ButtonShown(false, old(events))
    {
      if forall i :: 0 <= i < |more| ==> !more[i].ShowFloatingSkip? && !more[i].HideFloatingSkip? {
        AppendUntouched(false, events, more);
      }
      events := events + more;
    }

    /**
     * The video reports position `now`. With a handler attached, one tick
     * of the watcher runs there.
     */
    method TimeUpdate(now: real)
      modifies this`position, this`lastInSegment, this`events
      ensures listening ==>
        var t := Tick(sponsorSegments, old(lastInSegment), autoSkipEnabled, now);
        position == t.position && lastInSegment == t.inSegment && events == old(events) + t.effects
      ensures !listening ==>
        position == now && lastInSegment == old(lastInSegment) && events == old(events)
      ensures listening ==> (lastInSegment <==> InSomeSegment(sponsorSegments, now))
      ensures old(ButtonHonest()) ==> ButtonHonest()
    {
      position := now;
      if listening {
        var t := Tick(sponsorSegments, lastInSegment, autoSkipEnabled, now);
        var shown := ButtonShown(false, events);
        if shown ==> lastInSegment {
          TickKeepsButtonHonest(shown, sponsorSegments, lastInSegment, autoSkipEnabled, now);
        }
        ButtonShownAppend(false, events, t.effects);
        position := t.position;
        lastInSegment := t.inSegment;
        events := events + t.effects;
      }
    }

    /**
     * `skipCurrentSegment()`: out of the segment under the playhead to its
     * end, which lies strictly ahead.
     */
    method SkipCurrentSegment(videoPresent: bool)
      modifies this`position, this`events
      ensures !videoPresent ==> position == old(position) && events == old(events)
      ensures videoPresent && SegmentAt(sponsorSegments, old(position)).Some? ==>
        position == SegmentAt(sponsorSegments, old(position)).value.end && position > old(position) &&
        events == old(events) + [HideFloatingSkip, Toast(SkippedToast)]
      ensures videoPresent && SegmentAt(sponsorSegments, old(position)).None? ==>
        position == old(position) && events == old(events) + [Toast(NothingToSkipToast)]
      ensures old(ButtonHonest()) ==> ButtonHonest()
    {
      if !videoPresent {
        return;
      }
      var current := SegmentAt(sponsorSegments, position);
      if current.Some? {
        position := current.value.end;
        ButtonShownAppend(false, events, [HideFloatingSkip, Toast(SkippedToast)]);
        ButtonUntouched(false, [Toast(SkippedToast)]);
        events := events + [HideFloatingSkip, Toast(SkippedToast)];
      } else {
        Emit([Toast(NothingToSkipToast)]);
      }
    }

    /**
     * `jumpToNextSegment()`: forward to the first segment in list order that
     * starts after the playhead. On a sorted list, the positions further
     * presses visit are those that would have followed from the old position.
     */
    method JumpToNextSegment(videoPresent: bool)
      modifies this`position, this`events
      ensures !videoPresent ==> position == old(position) && events == old(events)
      ensures videoPresent && NextSegment(sponsorSegments, old(position)).Some? ==>
        position == NextSegment(sponsorSegments, old(position)).value.start && position > old(position) &&
        events == old(events) + [Toast(NextToast)]
      ensures videoPresent && NextSegment(sponsorSegments, old(position)).Some? ==>
        [position] + NextJumps(sponsorSegments, position) == NextJumps(sponsorSegments, old(position))
      ensures videoPresent && NextSegment(sponsorSegments, old(position)).None? ==>
        position == old(position) && events == old(events) + [Toast(NoNextToast)]
      ensures videoPresent && SortedByStart(sponsorSegments) ==>
        forall j :: 0 <= j < |sponsorSegments| && sponsorSegments[j].start > old(position) ==>
          position <= sponsorSegments[j].start
      ensures old(ButtonHonest()) ==> ButtonHonest()
    {
      if !videoPresent {
        return;
      }
      var next := NextSegment(sponsorSegments, position);
      if next.Some? {
        if SortedByStart(sponsorSegments) {
          NextSegmentIsLeast(sponsorSegments, position);
        }
        NextJumpsStep(sponsorSegments, position);
        position := next.value.start;
        Emit([Toast(NextToast)]);
      } else {
        Emit([Toast(NoNextToast)]);
      }
    }

    /**
     * `jumpToPrevSegment()`: back to the last segment in list order that
     * starts before the playhead.
     */
    method JumpToPrevSegment(videoPresent: bool)
      modifies this`position, this`events
      ensures !videoPresent ==> position == old(position) && events == old(events)
      ensures videoPresent && PrevSegment(sponsorSegments, old(position)).Some? ==>
        position == PrevSegment(sponsorSegments, old(position)).value.start && position < old(position) &&
        events == old(events) + [Toast(PrevToast)]
      ensures videoPresent && PrevSegment(sponsorSegments, old(position)).None? ==>
        position == old(position) && events == old(events) + [Toast(NoPrevToast)]
      ensures videoPresent && SortedByStart(sponsorSegments) ==>
        forall j :: 0 <= j < |sponsorSegments| && sponsorSegments[j].start < old(position) ==>
          position >= sponsorSegments[j].start
      ensures old(ButtonHonest()) ==> ButtonHonest()
    {
      if !videoPresent {
        return;
      }
      var prev := PrevSegment(sponsorSegments, position);
      if prev.Some? {
        if SortedByStart(sponsorSegments) {
          PrevSegmentIsGreatest(sponsorSegments, position);
        }
        position := prev.value.start;
        Emit([Toast(PrevToast)]);
      } else {
        Emit([Toast(NoPrevToast)]);
      }
    }

    /**
     * `setupForVideo()`, given what `getVideoId()` answers for the page
     * (`VideoId` of its player id and address), the stored settings and the
     * provider's reply. Without an id nothing happens;
     * for the video already set up with a non-empty list only the markers
     * and the menu item are mounted again; otherwise the video is loaded.
     */
    method SetupForVideo(videoPresent: bool, videoId: Option<string>,
                         storedCategories: CategorySetting, storedAutoSkip: Option<Json>, response: Response)
      requires Valid()
      modifies this`currentVideoId, this`autoSkipEnabled, this`sponsorSegments, this`segmentCache,
               this`events, this`lastInSegment, this`listening
      ensures Valid()
      ensures !HasId(videoId) ==> unchanged(this)
      ensures HasId(videoId) && old(currentVideoId) == videoId && |old(sponsorSegments)| > 0 ==>
        unchanged(this`currentVideoId, this`autoSkipEnabled, this`sponsorSegments, this`segmentCache,
                  this`lastInSegment, this`listening) &&
        events == old(events) + [MountTimeline(sponsorSegments), MountSettingsItem]
      ensures HasId(videoId) && !(old(currentVideoId) == videoId && |old(sponsorSegments)| > 0) ==>
        Loaded(videoPresent, videoId.value, ResolveCategories(storedCategories), storedAutoSkip, response)
      ensures ButtonShown(false, events) == old(ButtonShown(false, events))
      ensures old(!ButtonShown(false, events)) ==> ButtonHonest()
      ensures old(ButtonHonest()) && lastInSegment == old(lastInSegment) ==> ButtonHonest()
    {
      if !HasId(videoId) {
        return;
      }
      if currentVideoId == videoId && |sponsorSegments| > 0 {
        Emit([MountTimeline(sponsorSegments), MountSettingsItem]);
        return;
      }
      LoadVideo(videoPresent, videoId.value, ResolveCategories(storedCategories), storedAutoSkip, response);
    }

    /**
     * The state after loading video `id`: the id and the flag replaced, the
     * list and the cache as the fetch leaves them, the markers, the menu
     * item and the shortcuts mounted and, with a video element on the page,
     * the watcher attached with the flag cleared.
     */
    twostate predicate Loaded(videoPresent: bool, id: string, categories: Categories,
                              storedAutoSkip: Option<Json>, response: Response)
      reads this
    {
      && currentVideoId == Some(id)
      && autoSkipEnabled == Flag(storedAutoSkip)
      && sponsorSegments == Fetch(old(segmentCache), Some(id), categories, response).segments
      && segmentCache == Fetch(old(segmentCache), Some(id), categories, response).cache
      && events == old(events) + [MountTimeline(sponsorSegments), MountSettingsItem, MountShortcuts]
      && (videoPresent ==> !lastInSegment && listening)
      && (!videoPresent ==> lastInSegment == old(lastInSegment) && listening == old(listening))
    }

    /**
     * The rest of `setupForVideo()` once the video `id` is new or has no
     * segments, with the stored categories resolved.
     */
    method LoadVideo(videoPresent: bool, id: string, categories: Categories,
                     storedAutoSkip: Option<Json>, response: Response)
      requires Valid()
      modifies this`currentVideoId, this`autoSkipEnabled, this`sponsorSegments, this`segmentCache,
               this`events, this`lastInSegment, this`listening
      ensures Valid()
      ensures Loaded(videoPresent, id, categories, storedAutoSkip, response)
      ensures ButtonShown(false, events) == old(ButtonShown(false, events))
      ensures old(!ButtonShown(false, events)) ==> ButtonHonest()
      ensures old(ButtonHonest()) && lastInSegment == old(lastInSegment) ==> ButtonHonest()
    {
      currentVideoId := Some(id);
      autoSkipEnabled := Flag(storedAutoSkip);
      var list := FetchSponsorSegments(Some(id), categories, response);
      sponsorSegments := list;
      Emit([MountTimeline(list), MountSettingsItem, MountShortcuts]);
      AttachWatcher(videoPresent);
    }

    /**
     * The end of `setupForVideo()`: with a video element on the page the
     * flag is cleared and a fresh `timeupdate` handler replaces any earlier
     * one; without one nothing changes.
     */
    method AttachWatcher(videoPresent: bool)
      modifies this`lastInSegment, this`listening
      ensures videoPresent ==> !lastInSegment && listening
      ensures !videoPresent ==> lastInSegment == old(lastInSegment) && listening == old(listening)
    {
      if !videoPresent {
        return;
      }
      lastInSegment := false;
      listening := true;
    }

    /**
     * The `yt-navigate-finish` handler: the page's markers, button and menu
     * item go, the list is emptied, the flag cleared and the watcher
     * detached. Setting up for the new page is a separate, later call.
     */
    method OnNavigateFinish()
      modifies this`events, this`sponsorSegments, this`lastInSegment, this`listening
      ensures events == old(events) + [RemoveTimeline, HideFloatingSkip, RemoveSettingsItem]
      ensures sponsorSegments == [] && !lastInSegment && !listening
      ensures !ButtonShown(false, events)
      ensures old(Valid()) ==> Valid()
    {
      ButtonShownAppend(false, events, [RemoveTimeline, HideFloatingSkip, RemoveSettingsItem]);
      ButtonUntouched(false, [RemoveSettingsItem]);
      events := events + [RemoveTimeline, HideFloatingSkip, RemoveSettingsItem];
      sponsorSegments := [];
      lastInSegment := false;
      listening := false;
    }

    /**
     * A navigation followed by the `setTimeout(setupForVideo, 300)` it
     * schedules. The handler is detached in between, so no tick runs.
     * Setup therefore starts with the button hidden, and the button stays
     * honest whatever the new page holds.
     */
    method NavigateToVideo(videoPresent: bool, videoId: Option<string>,
                           storedCategories: CategorySetting, storedAutoSkip: Option<Json>, response: Response)
      requires Valid()
      modifies this`currentVideoId, this`autoSkipEnabled, this`sponsorSegments, this`segmentCache,
               this`events, this`lastInSegment, this`listening
      ensures Valid() && !ButtonShown(false, events) && ButtonHonest()
      ensures HasId(videoId) ==> currentVideoId == videoId
      ensures HasId(videoId) ==>
        sponsorSegments == Fetch(old(segmentCache), videoId, ResolveCategories(storedCategories), response).segments
    {
      OnNavigateFinish();
      if HasId(videoId) {
        label beforeSetup:
        SetupForVideo(videoPresent, videoId, storedCategories, storedAutoSkip, response);
        assert Loaded@beforeSetup(videoPresent, videoId.value, ResolveCategories(storedCategories), storedAutoSkip, response);
      } else {
        SetupForVideo(videoPresent, videoId, storedCategories, storedAutoSkip, response);
      }
    }

    /**
     * The `storage.onChanged` listener. Only the `sync` area counts. A
     * change of `autoSkipEnabled` sets the flag to its new value's
     * truthiness; a change of `categories` re-fetches for the current id
     * and swaps the list in. The flag `lastInSegment` and the current id
     * are left alone.
     */
    method OnStorageChanged(area: string, autoSkip: Change<Option<Json>>, categories: Change<CategorySetting>,
                            response: Response)
      requires Valid()
      modifies this`autoSkipEnabled, this`sponsorSegments, this`segmentCache, this`events
      ensures Valid()
      ensures area != "sync" ==>
        autoSkipEnabled == old(autoSkipEnabled) && sponsorSegments == old(sponsorSegments) &&
        segmentCache == old(segmentCache) && events == old(events)
      ensures area == "sync" ==>
        autoSkipEnabled == (if autoSkip.Changed? then Flag(autoSkip.newValue) else old(autoSkipEnabled))
      ensures area == "sync" && categories.Unchanged? ==>
        sponsorSegments == old(sponsorSegments) && segmentCache == old(segmentCache)
      ensures area == "sync" && categories.Changed? ==>
        sponsorSegments == Fetch(old(segmentCache), currentVideoId, ResolveCategories(categories.newValue), response).segments &&
        segmentCache == Fetch(old(segmentCache), currentVideoId, ResolveCategories(categories.newValue), response).cache
      ensures area == "sync" ==>
        events == old(events) +
          (if autoSkip.Changed? then [RefreshSettingsItem(autoSkipEnabled)] else []) +
          (if categories.Changed? then [MountTimeline(sponsorSegments)] else [])
      ensures ButtonShown(false, events) == old(ButtonShown(false, events))
    {
      if area != "sync" {
        return;
      }
      if autoSkip.Changed? {
        OnAutoSkipChanged(autoSkip.newValue);
      }
      if categories.Changed? {
        OnCategoriesChanged(categories.newValue, response);
      }
    }

    /** A change of `autoSkipEnabled`: the flag follows the new value, and the menu item's text with it. */
    method OnAutoSkipChanged(newValue: Option<Json>)
      modifies this`autoSkipEnabled, this`events
      ensures autoSkipEnabled == Flag(newValue)
      ensures events == old(events) + [RefreshSettingsItem(autoSkipEnabled)]
      ensures ButtonShown(false, events) == old(ButtonShown(false, events))
    {
      autoSkipEnabled := Flag(newValue);
      Emit([RefreshSettingsItem(autoSkipEnabled)]);
    }

    /**
     * A change of `categories`: the list is re-fetched for the current id
     * with the new value (or the defaults when it is falsy or gone) and
     * swapped in, and the markers are drawn again.
     */
    method OnCategoriesChanged(newValue: CategorySetting, response: Response)
      requires Valid()
      modifies this`sponsorSegments, this`segmentCache, this`events
      ensures Valid()
      ensures sponsorSegments == Fetch(old(segmentCache), currentVideoId, ResolveCategories(newValue), response).segments
      ensures segmentCache == Fetch(old(segmentCache), currentVideoId, ResolveCategories(newValue), response).cache
      ensures events == old(events) + [MountTimeline(sponsorSegments)]
      ensures ButtonShown(false, events) == old(ButtonShown(false, events))
    {
      var list := FetchSponsorSegments(currentVideoId, ResolveCategories(newValue), response);
      sponsorSegments := list;
      Emit([MountTimeline(list)]);
    }
  }
}
