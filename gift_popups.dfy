/** components/GiftPopups.tsx: a corner popup that cycles through the popup
    gifts. The effect (re-run whenever the gift list or the index changes) arms
    a 2 s timeout that shows the popup; that callback arms a 5 s timeout that
    hides it, which arms a 3 s timeout that advances the index, whose change
    re-runs the effect. The effect's cleanup cancels only the first of these:
    the closures the later callbacks return are discarded by `setTimeout`. */
module GiftPopups {
  import opened Wrappers
  import opened GiftService
  import opened Cycling

  const ShowDelay: nat := 2000
  const HideDelay: nat := 5000
  const AdvanceDelay: nat := 3000

  /** A pending timeout. Hide and advance carry the list length captured by the
      effect that created their chain. */
  datatype PopupTimer = ShowTimer | HideTimer(count: nat) | AdvanceTimer(count: nat)

  function DelayOf(t: PopupTimer): nat {
    match t
    case ShowTimer => ShowDelay
    case HideTimer(_) => HideDelay
    case AdvanceTimer(_) => AdvanceDelay
  }

  class GiftPopupsState {
    var visibleGifts: seq<GiftItem>
    var currentGiftIndex: nat
    var isVisible: bool
    /** The gift list is fetched once per mount. */
    var loaded: bool
    var mounted: bool
    /** The pending timeout. The list is loaded once and every later effect run
        happens when the previous chain has finished, so at most one is pending. */
    var timer: Option<PopupTimer>
    /** Completed advances since loading. */
    ghost var cycles: nat

    ghost predicate Valid()
      reads this
    {
      && (!loaded ==> visibleGifts == [] && timer.None? && currentGiftIndex == 0 && !isVisible && cycles == 0)
      && (|visibleGifts| == 0 ==> timer.None? && currentGiftIndex == 0 && !isVisible)
      && (|visibleGifts| > 0 ==> currentGiftIndex == cycles % |visibleGifts|)
      && (timer == Some(ShowTimer) ==> mounted && !isVisible)
      && (timer.Some? && timer.value.HideTimer? ==>
            timer.value.count == |visibleGifts| > 0 && (mounted ==> isVisible))
      && (timer.Some? && timer.value.AdvanceTimer? ==>
            timer.value.count == |visibleGifts| > 0 && (mounted ==> !isVisible))
      // With two or more gifts the cycle never stops while mounted.
      && (mounted && |visibleGifts| > 1 ==> timer.Some?)
      // With one gift it stops after the first cycle.
      && (|visibleGifts| == 1 ==> cycles <= 1)
      && (|visibleGifts| == 1 && timer.Some? ==> cycles == 0)
      && (mounted && |visibleGifts| == 1 && timer.None? ==> cycles == 1 && !isVisible)
    }

    constructor()
      ensures Valid()
      ensures visibleGifts == [] && currentGiftIndex == 0 && !isVisible
      ensures !loaded && mounted && timer == None
    {
      visibleGifts := [];
      currentGiftIndex := 0;
      isVisible := false;
      loaded := false;
      mounted := true;
      timer := None;
      cycles := 0;
    }

    /** The fetch completes: store the list (ignored after unmount) and re-run the
        effect, which arms the first show when there are gifts. */
    method Load(items: seq<GiftItem>) returns (armed: Option<nat>)
      requires Valid() && !loaded
      modifies this
      ensures Valid() && loaded
      ensures visibleGifts == if old(mounted) then items else []
      ensures currentGiftIndex == 0 && !isVisible && mounted == old(mounted)
      ensures timer == if |visibleGifts| > 0 then Some(ShowTimer) else None
      ensures armed == if |visibleGifts| > 0 then Some(ShowDelay) else None
    {
      loaded := true;
      armed := None;
      if mounted {
        visibleGifts := items;
        if |items| > 0 {
          timer := Some(ShowTimer);
          armed := Some(ShowDelay);
        }
      }
    }

    /** Unmounting runs the effect cleanup: only a pending show timeout is
        cancelled; a pending hide or advance timeout survives. */
    method Unmount()
      requires Valid()
      modifies this
      ensures Valid() && !mounted
      ensures timer == if old(timer) == Some(ShowTimer) then None else old(timer)
      ensures visibleGifts == old(visibleGifts) && currentGiftIndex == old(currentGiftIndex)
      ensures isVisible == old(isVisible) && loaded == old(loaded)
    {
      if timer == Some(ShowTimer) {
        timer := None;
      }
      mounted := false;
    }

    /** The pending timeout fires. Show sets `isVisible` and arms hide; hide clears it
        and arms advance; advance moves the index one step round the list and, when
        that changes it, the effect re-runs and arms the next show. After unmount
        the state updates are ignored but the callbacks still arm their successors.
        Returns the delay just armed. */
    method Fire() returns (armed: Option<nat>)
      requires Valid()
      modifies this
      ensures Valid()
      ensures visibleGifts == old(visibleGifts) && mounted == old(mounted) && loaded == old(loaded)
      ensures armed == if timer.Some? then Some(DelayOf(timer.value)) else None
      ensures old(timer).None? ==>
        timer == None && isVisible == old(isVisible) && currentGiftIndex == old(currentGiftIndex)
      ensures old(timer) == Some(ShowTimer) ==>
        isVisible && timer == Some(HideTimer(|visibleGifts|)) && currentGiftIndex == old(currentGiftIndex)
      ensures old(timer).Some? && old(timer.value).HideTimer? ==>
        timer == Some(AdvanceTimer(old(timer.value).count)) && currentGiftIndex == old(currentGiftIndex)
        && isVisible == (old(isVisible) && !mounted)
      ensures old(timer).Some? && old(timer.value).AdvanceTimer? && mounted ==>
        && currentGiftIndex == NextIndex(old(currentGiftIndex), |visibleGifts|)
        && timer == (if currentGiftIndex != old(currentGiftIndex) then Some(ShowTimer) else None)
        && isVisible == old(isVisible)
      ensures old(timer).Some? && old(timer.value).AdvanceTimer? && !mounted ==>
        timer == None && currentGiftIndex == old(currentGiftIndex) && isVisible == old(isVisible)
    {
      if timer.None? {
        return None;
      }
      match timer.value {
        case ShowTimer =>
          isVisible := true;
          timer := Some(HideTimer(|visibleGifts|));
        case HideTimer(count) =>
          if mounted {
            isVisible := false;
          }
          timer := Some(AdvanceTimer(count));
        case AdvanceTimer(count) =>
          timer := None;
          if mounted {
            var next := NextIndex(currentGiftIndex, count);
            ModSucc(cycles, count);
            cycles := cycles + 1;
            if next != currentGiftIndex {
              currentGiftIndex := next;
              timer := Some(ShowTimer);
            }
          }
      }
      armed := if timer.Some? then Some(DelayOf(timer.value)) else None;
    }

    /** The gift on screen, if any: nothing without gifts. */
    function CurrentGift(): (gift: Option<GiftItem>)
      reads this
      requires Valid()
      ensures gift.None? <==> |visibleGifts| == 0
      ensures gift.Some? ==> gift.value == visibleGifts[cycles % |visibleGifts|]
    {
      if |visibleGifts| == 0 then None else Some(visibleGifts[currentGiftIndex])
    }
  }

  /** With exactly one gift the index cannot change, so the effect is not re-run:
      the popup is shown once, hidden, and never scheduled again. */
  method SingleGiftShowsOnce(popups: GiftPopupsState, gift: GiftItem)
    requires popups.Valid() && !popups.loaded && popups.mounted
    modifies popups
    ensures popups.Valid()
    ensures popups.timer == None && popups.currentGiftIndex == 0 && !popups.isVisible
  {
    var delay := popups.Load([gift]);
    assert delay == Some(ShowDelay);
    delay := popups.Fire();
    assert delay == Some(HideDelay) && popups.isVisible;
    delay := popups.Fire();
    assert delay == Some(AdvanceDelay) && !popups.isVisible;
    delay := popups.Fire();
    assert delay == None;
  }
}
