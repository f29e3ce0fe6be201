/** components/UpcomingOfferScreen.tsx: the "coming soon" screen. It reloads the
    page once the offer's start instant has passed, checking once on mount and
    then every second, and shows the first course and the offer title. */
module UpcomingOffer {
  import opened Wrappers
  import opened Types
  import Countdown

  /** `setInterval(checkStart, 1000)`. */
  const CheckPeriod: nat := 1000

  /** `checkStart` at instant `now`: reload once the start instant is reached.
      Without a start time no check runs, so no reload ever happens. */
  function ShouldReload(now: int, startTime: Option<int>): (reload: bool)
    ensures reload <==> startTime.Some? && startTime.value <= now
  {
    match startTime
    case None => false
    case Some(start) => now >= start
  }

  /** The check and the embedded timer use the same `now < start` test: the check
      holds off exactly while the timer shows the offer as upcoming. */
  lemma HoldsOffWhileUpcoming(now: int, start: int, end: int)
    ensures !ShouldReload(now, Some(start)) <==> Countdown.Classify(now, start, end).status == Countdown.Upcoming
  {
  }

  /** The number of one-second periods after the first check (made at
      `firstCheck`) until the check that reloads: no earlier check reloads, and
      the reloading check comes less than a period after the start instant. */
  function ChecksUntilReload(firstCheck: int, start: int): (k: nat)
    ensures ShouldReload(firstCheck + k * CheckPeriod, Some(start))
    ensures forall j: nat :: j < k ==> !ShouldReload(firstCheck + j * CheckPeriod, Some(start))
    ensures k > 0 ==> firstCheck + k * CheckPeriod < start + CheckPeriod
    decreases start - firstCheck
  {
    if firstCheck >= start then 0
    else
      var k := 1 + ChecksUntilReload(firstCheck + CheckPeriod, start);
      assert forall j: nat :: 1 <= j ==>
        firstCheck + j * CheckPeriod == (firstCheck + CheckPeriod) + (j - 1) * CheckPeriod;
      k
  }

  /** `courseName`: the first course's title, or null without courses. */
  function CourseName(offer: Offer): (name: Option<string>)
    ensures name.Some? <==> offer.courses.Some? && |offer.courses.value| > 0
    ensures name.Some? ==> name.value == offer.courses.value[0].title
  {
    if offer.courses.Some? && |offer.courses.value| > 0 then Some(offer.courses.value[0].title) else None
  }

  /** `offerName`: the title with its markup stripped, or null when the title is
      missing or empty. `stripHtml` needs a browser document and is a parameter. */
  function OfferName(offer: Offer, stripHtml: string -> string): (name: Option<string>)
    ensures name.None? <==> offer.title.None? || offer.title.value == ""
    ensures name.Some? ==> name.value == stripHtml(offer.title.value)
  {
    if offer.title.Some? && offer.title.value != "" then Some(stripHtml(offer.title.value)) else None
  }

  /** The language handed to the embedded timer: the prop, 'bn' by default. */
  function TimerLanguage(language: Option<Countdown.Language>): (lang: Countdown.Language)
    ensures language.Some? ==> lang == language.value
    ensures language.None? ==> lang == Countdown.Bn
  {
    language.GetOr(Countdown.Bn)
  }
}
