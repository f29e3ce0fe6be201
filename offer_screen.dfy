/** src/pages/OfferScreen.tsx: the live offer screen's state (loaded offer,
    courses, theme, the rotating course index) and the values it derives
    for display. Each render reads the clock; those reads are parameters. */
module OfferScreen {
  import opened Wrappers
  import opened Types
  import opened Tables
  import opened ThemeService
  import Countdown
  import opened Cycling

  /** `setInterval(..., 6000)` for the course cards. */
  const CourseRotationPeriod: nat := 6000
  /** `7200000`: two hours, the "ending soon" threshold. */
  const EndingSoonWindow: int := 7_200_000

  const FallbackCourse: Course := Course("Full Stack Web Development", 500, 199)
  const FallbackHeader1: string := "Ramadan Special"
  const FallbackHeader2: string := "150 Hours"

  /** The course shown: `courses[currentCourseIndex]`, or the built-in fallback when
      there are no courses (or, as `undefined` is falsy, when the index is out of range). */
  function DisplayedCourse(courses: seq<Course>, index: nat): (c: Course)
    ensures index < |courses| ==> c == courses[index]
    ensures index >= |courses| ==>
      c.title == "Full Stack Web Development" && c.originalPrice == 500 && c.discountedPrice == 199
  {
    if |courses| > 0 && index < |courses| then courses[index] else FallbackCourse
  }

  /** JavaScript `a || b` on strings: "" counts as missing. */
  function OrElse(s: Option<string>, default: string): (r: string)
    ensures s.Some? && s.value != "" ==> r == s.value
    ensures s.None? || s.value == "" ==> r == default
  {
    if s.Some? && s.value != "" then s.value else default
  }

  /** `themeSettings?.header_text_1 || "Ramadan Special"` and the second header. */
  function HeaderTexts(theme: Option<ThemeSettings>): (texts: (string, string))
    ensures texts.0 != "" && texts.1 != ""
    ensures theme.Some? && theme.value.headerText1 != "" ==> texts.0 == theme.value.headerText1
    ensures theme.Some? && theme.value.headerText2 != "" ==> texts.1 == theme.value.headerText2
    ensures theme.None? || theme.value.headerText1 == "" ==> texts.0 == "Ramadan Special"
    ensures theme.None? || theme.value.headerText2 == "" ==> texts.1 == "150 Hours"
  {
    match theme
    case None => (FallbackHeader1, FallbackHeader2)
    case Some(t) => (OrElse(Some(t.headerText1), FallbackHeader1), OrElse(Some(t.headerText2), FallbackHeader2))
  }

  /** `targetDate - new Date().getTime()`: `targetNow` is the clock read for the
      no-offer target (line 52), `now` the later read (line 68). */
  function TimeLeft(offerEnd: Option<int>, targetNow: int, now: int): (left: int)
    ensures offerEnd.Some? ==> left == offerEnd.value - now
    ensures offerEnd.None? && targetNow <= now ==> left <= 0
    ensures offerEnd.None? && targetNow == now ==> left == 0
  {
    var targetDate := if offerEnd.Some? then offerEnd.value else targetNow;
    targetDate - now
  }

  /** The screen's state. */
  class OfferScreenState {
    var offer: Option<Offer>
    var courses: seq<Course>
    var themeSettings: Option<ThemeSettings>
    var currentCourseIndex: nat
    var loading: bool

    constructor()
      ensures offer == None && courses == [] && themeSettings == None
      ensures currentCourseIndex == 0 && loading
    {
      offer := None;
      courses := [];
      themeSettings := None;
      currentCourseIndex := 0;
      loading := true;
    }

    /** Both loads finished: store the offer, its courses when it has them, the
        theme when there is one, and stop loading. Returns the course-rotation
        period when the rotation interval is armed (more than one course). The
        index is not reset. */
    method Loaded(activeOffer: Option<Offer>, theme: Option<Row<ThemeSettings>>)
      returns (rotation: Option<nat>)
      modifies this
      ensures offer == activeOffer && !loading
      ensures courses == if activeOffer.Some? && activeOffer.value.courses.Some?
                         then activeOffer.value.courses.value else old(courses)
      ensures themeSettings == if theme.Some? then Some(theme.value.record) else old(themeSettings)
      ensures currentCourseIndex == old(currentCourseIndex)
      ensures rotation == if |courses| > 1 then Some(CourseRotationPeriod) else None
    {
      offer := activeOffer;
      if activeOffer.Some? && activeOffer.value.courses.Some? {
        courses := activeOffer.value.courses.value;
      }
      if theme.Some? {
        themeSettings := Some(theme.value.record);
      }
      loading := false;
      rotation := if |courses| > 1 then Some(CourseRotationPeriod) else None;
    }

    /** One firing of the rotation interval, which exists only with two or more
        courses; otherwise nothing happens. */
    method RotationTick()
      modifies this`currentCourseIndex
      ensures |courses| > 1 ==> currentCourseIndex == NextIndex(old(currentCourseIndex), |courses|)
      ensures |courses| <= 1 ==> currentCourseIndex == old(currentCourseIndex)
    {
      if |courses| > 1 {
        currentCourseIndex := NextIndex(currentCourseIndex, |courses|);
      }
    }

    /** The course the pricing card shows now. */
    function ShownCourse(): (c: Course)
      reads this
      ensures courses == [] ==> c == FallbackCourse
      ensures currentCourseIndex < |courses| ==> c == courses[currentCourseIndex]
    {
      DisplayedCourse(courses, currentCourseIndex)
    }

    /** The offer's end instant, when there is an offer with one. */
    function OfferEnd(): (end: Option<int>)
      reads this
      ensures end.Some? ==> offer.Some? && offer.value.endTime == end
      ensures offer.Some? ==> end == offer.value.endTime
      ensures offer.None? ==> end.None?
    {
      if offer.Some? then offer.value.endTime else None
    }

    /** `timeLeft > 0`: a render at instant `now` draws the pricing card.
        `targetNow` is the clock read that stands in for a missing offer's
        target, `now` the later one. With an offer it is drawn exactly before the
        offer's end; without one (on a clock that does not run backwards) never. */
    function CardShown(targetNow: int, now: int): (shown: bool)
      reads this
      ensures OfferEnd().Some? ==> (shown <==> now < OfferEnd().value)
      ensures OfferEnd().None? && targetNow <= now ==> !shown
    {
      TimeLeft(OfferEnd(), targetNow, now) > 0
    }

    /** The countdown the screen renders: the offer's start and end, and no
        language, so the timer's Bengali default applies. Its boxes show Bengali
        digits that read back as its fields, and every tick keeps it so. */
    method ScreenCountdown() returns (timer: Countdown.CountdownTimer)
      ensures timer.startTime == (if offer.Some? then offer.value.startTime else None)
      ensures timer.endTime == OfferEnd()
      ensures timer.language == Countdown.Bn
      ensures timer.timerData == Countdown.InitialTimerData && timer.FieldsAreDigits()
      ensures timer.Shown().Some?
      ensures Countdown.AllBengaliDigits(timer.Shown().value.0)
        && Countdown.AllBengaliDigits(timer.Shown().value.1)
        && Countdown.AllBengaliDigits(timer.Shown().value.2)
    {
      timer := new Countdown.CountdownTimer(if offer.Some? then offer.value.startTime else None,
                                            OfferEnd(), None);
    }

    /** `timeLeft > 0 && timeLeft < 7200000`: a render at instant `now` draws the
        "ending soon" banner. It is drawn only together with the pricing card,
        and with an offer exactly in the last two hours before its end. */
    function BannerShown(targetNow: int, now: int): (soon: bool)
      reads this
      ensures soon ==> CardShown(targetNow, now)
      ensures OfferEnd().Some? ==> (soon <==> OfferEnd().value - EndingSoonWindow < now < OfferEnd().value)
      ensures OfferEnd().None? && targetNow <= now ==> !soon
    {
      var left := TimeLeft(OfferEnd(), targetNow, now);
      0 < left < EndingSoonWindow
    }
  }

  /** With the offer's end passed to the countdown, the banner implies the
      countdown's 6-hour "last hours" emphasis on the same instant, but not the
      other way round: three hours before the end the countdown already
      emphasises and the banner is not shown. */
  lemma EndingSoonWithinLastHours(screen: OfferScreenState, prev: Countdown.TimerData,
                                  targetNow: int, now: int, start: int)
    requires screen.OfferEnd().Some? && start <= now
    ensures screen.BannerShown(targetNow, now) ==>
      Countdown.Update(prev, now, start, screen.OfferEnd().value).isLastHours
    ensures now + 3 * 3_600_000 == screen.OfferEnd().value ==>
      Countdown.Update(prev, now, start, screen.OfferEnd().value).isLastHours
      && !screen.BannerShown(targetNow, now)
  {
  }
}
