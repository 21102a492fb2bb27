/**
 * The playback watcher: the `timeupdate` handler that compares each sampled
 * position with the active segment list and with the remembered
 * "was inside a segment" flag, and the page effects it and the skip/jump
 * commands produce.
 */
module Playback {
  import opened Wrappers
  import opened JsonValue
  import opened Segments

  /** What the script does to the page, in order; drawing it is up to the page. */
  datatype Event =
    | ShowFloatingSkip                      // `showFloatingSkip()`
    | HideFloatingSkip                      // `hideFloatingSkip()`
    | Toast(message: string)                // `showToast(message)`
    | MountTimeline(markers: seq<Segment>)  // `mountTimelineMarkers()` over the list active at that moment
    | RemoveTimeline                        // the timeline overlay removed
    | MountSettingsItem                     // `mountAutoSkipInSettings()`
    | RemoveSettingsItem                    // the settings menu item removed
    | RefreshSettingsItem(on: bool)         // the menu item's text set to On / Off
    | MountShortcuts                        // `mountKeyboardShortcuts()`

  const SkippedToast := "Skipped sponsor"
  const NothingToSkipToast := "No sponsor segment at current time"
  const NextToast := "Jumped to next segment"
  const NoNextToast := "No next segment"
  const PrevToast := "Jumped to previous segment"
  const NoPrevToast := "No previous segment"
  const AutoSkippedToast := "Auto-skipped sponsor"

  /** Some segment of the list covers `now`. */
  predicate InSomeSegment(segs: seq<Segment>, now: real)
  {
    exists j :: 0 <= j < |segs| && Covers(segs[j], now)
  }

  /** What one tick leaves behind: the playback position, the new flag, the effects in order. */
  datatype TickResult = TickResult(position: real, inSegment: bool, effects: seq<Event>)

  /**
   * One run of the `timeupdate` handler at position `now`, with `lastIn` the
   * flag left by the previous tick. Entering a segment auto-skips to its end
   * or offers the manual skip button; leaving one hides the button; a tick
   * that does not cross a boundary does nothing. The flag always becomes
   * this tick's membership.
   */
  function Tick(segs: seq<Segment>, lastIn: bool, autoSkip: bool, now: real): (t: TickResult)
    ensures t.inSegment <==> InSomeSegment(segs, now)
    ensures t.inSegment && !lastIn && autoSkip ==>
      t.position == SegmentAt(segs, now).value.end && t.position > now &&
      t.effects == [HideFloatingSkip, Toast(AutoSkippedToast)]
    ensures !(t.inSegment && !lastIn && autoSkip) ==> t.position == now
    ensures t.inSegment && !lastIn && !autoSkip ==> t.effects == [ShowFloatingSkip]
    ensures !t.inSegment && lastIn ==> t.effects == [HideFloatingSkip]
    ensures t.inSegment == lastIn ==> t.effects == []
  {
    var current := SegmentAt(segs, now);
    var inSeg := current.Some?;
    if inSeg && !lastIn then
      if autoSkip then TickResult(current.value.end, true, [HideFloatingSkip, Toast(AutoSkippedToast)])
      else TickResult(now, true, [ShowFloatingSkip])
    else if !inSeg && lastIn then TickResult(now, false, [HideFloatingSkip])
    else TickResult(now, inSeg, [])
  }

  // ---------------------------------------------------------------------
  // The floating skip button.

  /**
   * Whether the floating skip button is on the page after `effects`, starting
   * from `shown`: showing an already shown button and hiding an absent one
   * change nothing.
   */
  function ButtonShown(shown: bool, effects: seq<Event>): bool
    decreases |effects|
  {
    if |effects| == 0 then shown
    else
      var next := match effects[0]
        case ShowFloatingSkip => true
        case HideFloatingSkip => false
        case _ => shown;
      ButtonShown(next, effects[1..])
  }

  lemma {:induction false} ButtonShownAppend(shown: bool, a: seq<Event>, b: seq<Event>)
    ensures ButtonShown(shown, a + b) == ButtonShown(ButtonShown(shown, a), b)
    decreases |a|
  {
    if |a| > 0 {
      var next := match a[0]
        case ShowFloatingSkip => true
        case HideFloatingSkip => false
        case _ => shown;
      assert (a + b)[1..] == a[1..] + b;
      ButtonShownAppend(next, a[1..], b);
    } else {
      assert a + b == b;
    }
  }

  /** Effects other than showing and hiding leave the button as it was. */
  lemma {:induction false} ButtonUntouched(shown: bool, effects: seq<Event>)
    requires forall i :: 0 <= i < |effects| ==> !effects[i].ShowFloatingSkip? && !effects[i].HideFloatingSkip?
    ensures ButtonShown(shown, effects) == shown
    decreases |effects|
  {
    if |effects| > 0 {
      ButtonUntouched(shown, effects[1..]);
    }
  }

  /** Appending effects other than showing and hiding leaves the button as it was. */
  lemma AppendUntouched(shown: bool, effects: seq<Event>, more: seq<Event>)
    requires forall i :: 0 <= i < |more| ==> !more[i].ShowFloatingSkip? && !more[i].HideFloatingSkip?
    ensures ButtonShown(shown, effects + more) == ButtonShown(shown, effects)
  {
    ButtonShownAppend(shown, effects, more);
    ButtonUntouched(ButtonShown(shown, effects), more);
  }

  /**
   * A tick never leaves the button showing outside a segment; with auto-skip
   * off it shows the button exactly while the playhead is inside one.
   */
  lemma TickKeepsButtonHonest(shown: bool, segs: seq<Segment>, lastIn: bool, autoSkip: bool, now: real)
    requires shown ==> lastIn
    ensures ButtonShown(shown, Tick(segs, lastIn, autoSkip, now).effects) ==> Tick(segs, lastIn, autoSkip, now).inSegment
    ensures !autoSkip && shown == lastIn ==>
      ButtonShown(shown, Tick(segs, lastIn, autoSkip, now).effects) == Tick(segs, lastIn, autoSkip, now).inSegment
  {
    var t := Tick(segs, lastIn, autoSkip, now);
    if t.inSegment && !lastIn && autoSkip {
      assert t.effects[1..] == [Toast(AutoSkippedToast)];
      assert ButtonShown(shown, t.effects) == ButtonShown(false, [Toast(AutoSkippedToast)]);
      assert [Toast(AutoSkippedToast)][1..] == [];
    } else if t.inSegment && !lastIn {
      assert t.effects[1..] == [];
    } else if !t.inSegment && lastIn {
      assert t.effects[1..] == [];
    }
  }

  // ---------------------------------------------------------------------
  // A run of ticks.

  /** The flag and the effects after a run of ticks. */
  datatype Watch = Watch(lastIn: bool, effects: seq<Event>)

  /** The handler run once per sampled position, in order, with a fixed list and auto-skip setting. */
  function RunTicks(segs: seq<Segment>, lastIn: bool, autoSkip: bool, samples: seq<real>): (w: Watch)
    decreases |samples|
  {
    if |samples| == 0 then Watch(lastIn, [])
    else
      var t := Tick(segs, lastIn, autoSkip, samples[0]);
      var rest := RunTicks(segs, t.inSegment, autoSkip, samples[1..]);
      Watch(rest.lastIn, t.effects + rest.effects)
  }

  /** Running two batches of samples one after the other is running them as one. */
  lemma {:induction false} RunTicksAppend(segs: seq<Segment>, lastIn: bool, autoSkip: bool, s1: seq<real>, s2: seq<real>)
    ensures RunTicks(segs, lastIn, autoSkip, s1 + s2).lastIn ==
      RunTicks(segs, RunTicks(segs, lastIn, autoSkip, s1).lastIn, autoSkip, s2).lastIn
    ensures RunTicks(segs, lastIn, autoSkip, s1 + s2).effects ==
      RunTicks(segs, lastIn, autoSkip, s1).effects +
      RunTicks(segs, RunTicks(segs, lastIn, autoSkip, s1).lastIn, autoSkip, s2).effects
    decreases |s1|
  {
    if |s1| == 0 {
      assert s1 + s2 == s2;
    } else {
      var t := Tick(segs, lastIn, autoSkip, s1[0]);
      var s := s1 + s2;
      assert s[0] == s1[0];
      assert s[1..] == s1[1..] + s2;
      RunTicksAppend(segs, t.inSegment, autoSkip, s1[1..], s2);
      var w1 := RunTicks(segs, t.inSegment, autoSkip, s1[1..]);
      var w2 := RunTicks(segs, w1.lastIn, autoSkip, s2);
      assert t.effects + (w1.effects + w2.effects) == (t.effects + w1.effects) + w2.effects;
    }
  }

  /** After a non-empty run the flag is the membership of the last sample. */
  lemma {:induction false} RunEndsAtLastSample(segs: seq<Segment>, lastIn: bool, autoSkip: bool, samples: seq<real>)
    requires |samples| > 0
    ensures RunTicks(segs, lastIn, autoSkip, samples).lastIn <==> InSomeSegment(segs, samples[|samples| - 1])
    decreases |samples|
  {
    var t := Tick(segs, lastIn, autoSkip, samples[0]);
    if |samples| > 1 {
      RunEndsAtLastSample(segs, t.inSegment, autoSkip, samples[1..]);
    }
  }

  /**
   * Over any run the button is only ever left showing while the flag says
   * "inside"; with auto-skip off, the button is showing exactly when the flag
   * is set.
   */
  lemma {:induction false} RunKeepsButtonHonest(shown: bool, segs: seq<Segment>, lastIn: bool, autoSkip: bool, samples: seq<real>)
    requires shown ==> lastIn
    ensures ButtonShown(shown, RunTicks(segs, lastIn, autoSkip, samples).effects) ==> RunTicks(segs, lastIn, autoSkip, samples).lastIn
    ensures !autoSkip && shown == lastIn ==>
      ButtonShown(shown, RunTicks(segs, lastIn, autoSkip, samples).effects) == RunTicks(segs, lastIn, autoSkip, samples).lastIn
    decreases |samples|
  {
    if |samples| > 0 {
      var t := Tick(segs, lastIn, autoSkip, samples[0]);
      var rest := RunTicks(segs, t.inSegment, autoSkip, samples[1..]);
      TickKeepsButtonHonest(shown, segs, lastIn, autoSkip, samples[0]);
      ButtonShownAppend(shown, t.effects, rest.effects);
      RunKeepsButtonHonest(ButtonShown(shown, t.effects), segs, t.inSegment, autoSkip, samples[1..]);
    }
  }

  // ---------------------------------------------------------------------
  // Worked examples: a sponsor segment [0, 10) and an intro [20, 25).

  function ExampleSegments(): seq<Segment>
  {
    [Segment(0.0, 10.0, Some(JStr("sponsor"))), Segment(20.0, 25.0, Some(JStr("intro")))]
  }

  /** Where the example list puts the sampled positions. */
  lemma ExampleMembership()
    ensures InSomeSegment(ExampleSegments(), 0.0) && InSomeSegment(ExampleSegments(), 5.0)
    ensures InSomeSegment(ExampleSegments(), 20.0) && InSomeSegment(ExampleSegments(), 22.5)
    ensures !InSomeSegment(ExampleSegments(), 10.0) && !InSomeSegment(ExampleSegments(), 15.0)
    ensures !InSomeSegment(ExampleSegments(), 25.0) && !InSomeSegment(ExampleSegments(), 30.0)
  {
    var segs := ExampleSegments();
    assert Covers(segs[0], 0.0) && Covers(segs[0], 5.0) && Covers(segs[1], 20.0) && Covers(segs[1], 22.5);
  }

  /** A run of ticks at the sampled positions `[now] + rest`, expanded once. */
  lemma RunTicksStep(segs: seq<Segment>, lastIn: bool, autoSkip: bool, now: real, rest: seq<real>)
    ensures RunTicks(segs, lastIn, autoSkip, [now] + rest).lastIn ==
      RunTicks(segs, Tick(segs, lastIn, autoSkip, now).inSegment, autoSkip, rest).lastIn
    ensures RunTicks(segs, lastIn, autoSkip, [now] + rest).effects ==
      Tick(segs, lastIn, autoSkip, now).effects + RunTicks(segs, Tick(segs, lastIn, autoSkip, now).inSegment, autoSkip, rest).effects
  {
    assert ([now] + rest)[0] == now && ([now] + rest)[1..] == rest;
  }

  /**
   * Four ticks with auto-skip off, starting outside, at samples that are
   * inside, inside, outside, outside: the button appears once and goes once,
   * and the run ends outside.
   */
  lemma InAndOut(segs: seq<Segment>, samples: seq<real>)
    requires |samples| == 4
    requires InSomeSegment(segs, samples[0]) && InSomeSegment(segs, samples[1])
    requires !InSomeSegment(segs, samples[2]) && !InSomeSegment(segs, samples[3])
    ensures !RunTicks(segs, false, false, samples).lastIn
    ensures RunTicks(segs, false, false, samples).effects == [ShowFloatingSkip, HideFloatingSkip]
  {
    var s := samples;
    RunTicksStep(segs, false, false, s[0], s[1..]);
    RunTicksStep(segs, true, false, s[1], s[2..]);
    RunTicksStep(segs, true, false, s[2], s[3..]);
    RunTicksStep(segs, false, false, s[3], s[4..]);
    assert s == [s[0]] + s[1..];
    assert s[1..] == [s[1]] + s[2..];
    assert s[2..] == [s[2]] + s[3..];
    assert s[3..] == [s[3]] + s[4..];
    assert s[4..] == [];
  }

  /**
   * A sweep with auto-skip off over any list that puts the samples inside,
   * inside, outside, outside, inside, inside, outside, outside: the button
   * appears at the first and fifth sample, goes at the third and seventh,
   * and nothing else happens.
   */
  lemma ManualSweep(segs: seq<Segment>, samples: seq<real>)
    requires |samples| == 8
    requires InSomeSegment(segs, samples[0]) && InSomeSegment(segs, samples[1])
    requires !InSomeSegment(segs, samples[2]) && !InSomeSegment(segs, samples[3])
    requires InSomeSegment(segs, samples[4]) && InSomeSegment(segs, samples[5])
    requires !InSomeSegment(segs, samples[6]) && !InSomeSegment(segs, samples[7])
    ensures RunTicks(segs, false, false, samples).effects ==
      [ShowFloatingSkip, HideFloatingSkip, ShowFloatingSkip, HideFloatingSkip]
  {
    var s1, s2 := samples[..4], samples[4..];
    assert s1 + s2 == samples;
    InAndOut(segs, s1);
    InAndOut(segs, s2);
    RunTicksAppend(segs, false, false, s1, s2);
  }

  /** The sweep from 0 to 30 over the example list. */
  lemma ExampleSweep()
    ensures RunTicks(ExampleSegments(), false, false, [0.0, 5.0, 10.0, 15.0, 20.0, 22.5, 25.0, 30.0]).effects ==
      [ShowFloatingSkip, HideFloatingSkip, ShowFloatingSkip, HideFloatingSkip]
  {
    ExampleMembership();
    ManualSweep(ExampleSegments(), [0.0, 5.0, 10.0, 15.0, 20.0, 22.5, 25.0, 30.0]);
  }

  /** With auto-skip on, entering at 0 jumps straight to 10 and never offers the button. */
  lemma AutoSkipAtStart()
    ensures Tick(ExampleSegments(), false, true, 0.0).position == 10.0
    ensures Tick(ExampleSegments(), false, true, 0.0).effects == [HideFloatingSkip, Toast(AutoSkippedToast)]
  {
    assert Covers(ExampleSegments()[0], 0.0);
  }

  /**
   * The list is swapped while the playhead sits inside the sponsor segment
   * and the flag stays set: the very next tick, at the same position, checks
   * the new list, finds nothing and hides the button.
   */
  lemma ListSwappedInside()
    ensures Tick(ExampleSegments(), false, false, 5.0).inSegment
    ensures Tick(ExampleSegments()[1..], true, false, 5.0).effects == [HideFloatingSkip]
  {
    assert Covers(ExampleSegments()[0], 5.0);
    assert !Covers(ExampleSegments()[1..][0], 5.0);
  }
}
