/** components/AutoScratchCard.tsx: a full-screen scratch card that, every
    cycle, shows the next gift, scratches it open, keeps it revealed and hides
    it again. Each step is a timeout that arms the next one through a single
    timer slot (`timerRef`); here each timeout is a `Fire()` event. */
module ScratchCard {
  import opened Wrappers
  import opened GiftService

  /** Delay before the first cycle after the gifts arrive. */
  const FirstDelay: nat := 5000
  /** `setTimeout(..., 500)`: showing, then scratching. */
  const ShowDelay: nat := 500
  /** `SCRATCH_DURATION`. */
  const ScratchDuration: nat := 2000
  /** `REVEAL_DURATION`. */
  const RevealDuration: nat := 4000
  /** `POPUP_INTERVAL`: hidden until the next cycle. */
  const PopupInterval: nat := 15000

  datatype Phase = Hidden | Showing | Scratching | Revealed

  /** What a pending timeout does when it fires. */
  datatype Step = RunCycle | StartScratch | Reveal | Hide

  /** A pending timeout: its delay, its callback, and the gift list the callback captured. */
  datatype Timer = Timer(delay: nat, step: Step, giftList: seq<GiftItem>)

  /** The phase a step enters. `RunCycle` enters `Showing`; only the hide step
      hides the card. */
  function PhaseEntered(step: Step): (phase: Phase)
    ensures phase == Hidden <==> step == Hide
  {
    match step
    case RunCycle => Showing
    case StartScratch => Scratching
    case Reveal => Revealed
    case Hide => Hidden
  }

  /** The step a callback schedules next: always a different one, and a new
      cycle only after the hide step. */
  function StepAfter(step: Step): (next: Step)
    ensures next != step && PhaseEntered(next) != PhaseEntered(step)
    ensures next == RunCycle <==> step == Hide
  {
    match step
    case RunCycle => StartScratch
    case StartScratch => Reveal
    case Reveal => Hide
    case Hide => RunCycle
  }

  /** The delay a callback schedules its successor with: positive, and longest
      for the wait between cycles. */
  function DelayAfter(step: Step): (delay: nat)
    ensures 0 < delay <= PopupInterval
    ensures delay == PopupInterval <==> step == Hide
  {
    match step
    case RunCycle => ShowDelay
    case StartScratch => ScratchDuration
    case Reveal => RevealDuration
    case Hide => PopupInterval
  }

  /** One cycle enters showing, scratching, revealed and hidden in that order, then
      schedules the next cycle; the steady-state period is 21.5 seconds. */
  lemma CycleOrder()
    ensures PhaseEntered(RunCycle) == Showing
    ensures PhaseEntered(StepAfter(RunCycle)) == Scratching
    ensures PhaseEntered(StepAfter(StepAfter(RunCycle))) == Revealed
    ensures PhaseEntered(StepAfter(StepAfter(StepAfter(RunCycle)))) == Hidden
    ensures StepAfter(StepAfter(StepAfter(StepAfter(RunCycle)))) == RunCycle
    ensures DelayAfter(RunCycle) + DelayAfter(StartScratch) + DelayAfter(Reveal) + DelayAfter(Hide) == 21500
  {
  }

  class AutoScratchCard {
    var gifts: seq<GiftItem>
    var currentGift: Option<GiftItem>
    var phase: Phase
    /** `indexRef.current`: the number of cycles started so far. */
    var index: nat
    /** The one pending timeout, if any (`timerRef`). */
    var timer: Option<Timer>
    /** Whether the component is still mounted; React drops state updates after unmount. */
    var mounted: bool

    /** The timer slot agrees with the state: no timeout while there are no gifts
        or after unmounting, a pending callback captured the current list, and
        each step is pending with its own delay from the phase that precedes it. */
    ghost predicate Valid()
      reads this
    {
      && (|gifts| == 0 || !mounted ==> timer.None?)
      && (timer.Some? ==> |timer.value.giftList| > 0 && timer.value.giftList == gifts)
      && (timer.Some? && timer.value.step != RunCycle ==>
            timer.value.delay == DelayAfter(StepBefore(timer.value.step))
            && phase == PhaseEntered(StepBefore(timer.value.step)))
      && (timer.Some? && timer.value.step == RunCycle ==>
            timer.value.delay == FirstDelay || (timer.value.delay == PopupInterval && phase == Hidden))
      && (phase != Hidden ==> currentGift.Some?)
    }

    constructor()
      ensures Valid()
      ensures gifts == [] && currentGift == None && phase == Hidden && index == 0 && timer == None
      ensures mounted
    {
      gifts := [];
      currentGift := None;
      phase := Hidden;
      index := 0;
      timer := None;
      mounted := true;
    }

    /** `setGifts` and the effect it triggers: the previous effect's cleanup cancels
        the pending timeout; with gifts, the first cycle is armed 5 seconds out.
        After unmounting the update is dropped and nothing changes. */
    method SetGifts(list: seq<GiftItem>)
      requires Valid()
      modifies this
      ensures Valid()
      ensures mounted == old(mounted)
      ensures mounted ==> gifts == list
      ensures mounted ==> timer == if |list| > 0 then Some(Timer(FirstDelay, RunCycle, list)) else None
      ensures !mounted ==> gifts == old(gifts) && timer == None
      ensures currentGift == old(currentGift) && phase == old(phase) && index == old(index)
    {
      if !mounted {
        return;
      }
      timer := None;
      gifts := list;
      if |list| > 0 {
        timer := Some(Timer(FirstDelay, RunCycle, list));
      }
    }

    /** `fetchVisibleGiftItems().then(setGifts)`: the fetched list, or the empty
        list when the query fails or returns nothing. A failed or empty fetch
        leaves no timeout pending, so the card never appears; a fetch that
        resolves after unmounting stores nothing and arms nothing. */
    method GiftsFetched(resp: Response<Option<seq<GiftItem>>>)
      requires Valid()
      modifies this
      ensures Valid()
      ensures mounted == old(mounted)
      ensures mounted ==> gifts == ListOrEmpty(resp)
      ensures mounted && (resp.Err? || resp.data.None? || resp.data.value == []) ==>
        gifts == [] && timer == None
      ensures mounted && resp.Ok? && resp.data.Some? && resp.data.value != [] ==>
        timer == Some(Timer(FirstDelay, RunCycle, resp.data.value))
      ensures !mounted ==> gifts == old(gifts) && timer == None
      ensures currentGift == old(currentGift) && phase == old(phase) && index == old(index)
    {
      SetGifts(ListOrEmpty(resp));
    }

    /** Unmounting: `clearTimer` cancels the pending timeout, and with it the rest of the chain. */
    method Unmount()
      requires Valid()
      modifies this
      ensures Valid() && timer == None && !mounted
      ensures gifts == old(gifts) && currentGift == old(currentGift) && phase == old(phase) && index == old(index)
    {
      timer := None;
      mounted := false;
    }

    /** The pending timeout fires. A cycle picks `giftList[index % length]`, counts
        itself, shows the gift and arms the scratch; each later step enters its
        phase and arms the next with its delay. Returns the delay just armed. */
    method Fire() returns (armed: Option<nat>)
      requires Valid()
      modifies this
      ensures Valid()
      ensures gifts == old(gifts) && mounted == old(mounted)
      ensures old(timer).None? ==>
        timer == None && armed == None && currentGift == old(currentGift)
        && phase == old(phase) && index == old(index)
      ensures old(timer).Some? ==>
        var t := old(timer).value;
        && phase == PhaseEntered(t.step)
        && timer == Some(Timer(DelayAfter(t.step), StepAfter(t.step), t.giftList))
        && armed == Some(DelayAfter(t.step))
        && (t.step == RunCycle ==>
              index == old(index) + 1 && currentGift == Some(t.giftList[old(index) % |t.giftList|]))
        && (t.step != RunCycle ==> index == old(index) && currentGift == old(currentGift))
    {
      if timer.None? {
        return None;
      }
      var t := timer.value;
      match t.step {
        case RunCycle =>
          var gift := t.giftList[index % |t.giftList|];
          index := index + 1;
          currentGift := Some(gift);
          phase := Showing;
          timer := Some(Timer(ShowDelay, StartScratch, t.giftList));
        case StartScratch =>
          phase := Scratching;
          timer := Some(Timer(ScratchDuration, Reveal, t.giftList));
        case Reveal =>
          phase := Revealed;
          timer := Some(Timer(RevealDuration, Hide, t.giftList));
        case Hide =>
          phase := Hidden;
          timer := Some(Timer(PopupInterval, RunCycle, t.giftList));
      }
      armed := Some(timer.value.delay);
    }

    /** `phase === 'hidden' || !currentGift` renders nothing, and an unmounted
        component renders nothing at all. In every state the component reaches, a
        gift is chosen whenever the phase is not hidden, so the mounted card is
        drawn exactly outside the hidden phase. */
    function Rendered(): (drawn: bool)
      reads this
      ensures drawn ==> mounted && currentGift.Some?
      ensures Valid() ==> (drawn <==> mounted && phase != Hidden)
    {
      mounted && phase != Hidden && currentGift.Some?
    }
  }

  /** A gift list that arrives after unmounting arms nothing, so no later firing
      draws the card. */
  method LateFetchDrawsNothing(card: AutoScratchCard, gifts: seq<GiftItem>)
    requires card.Valid()
    modifies card
    ensures card.Valid() && card.timer == None && !card.Rendered()
  {
    card.Unmount();
    card.GiftsFetched(Ok(Some(gifts)));
    var armed := card.Fire();
    assert armed == None;
  }

  /** The step whose callback schedules `step`. */
  function StepBefore(step: Step): (before: Step)
    ensures StepAfter(before) == step
  {
    match step
    case RunCycle => Hide
    case StartScratch => RunCycle
    case Reveal => StartScratch
    case Hide => Reveal
  }
}
