/**
 * Where the app starts: onboarding, its last step (the filter lists have
 * never been requested, or not for 30 days), or the main screen. The
 * stored flags and the clock are parameters.
 */
module Launcher {
  datatype LauncherDirection = Main | Onboarding | OnboardingLastStep

  /** 30 days in milliseconds. */
  const FilterRequestExpireTimeSpan: int := 2_592_000_000

  /** `isFilterRequestExpired`, with the clock reading `now`. */
  function IsFilterRequestExpired(now: int, lastFilterRequest: int): (r: bool)
    ensures r <==> now > lastFilterRequest + 30 * 24 * 60 * 60 * 1000
  {
    now - lastFilterRequest > FilterRequestExpireTimeSpan
  }

  /** The decision inside `fetchDirection`, from the stored onboarding flag and last filter request. */
  function Direction(onboardingCompleted: bool, lastFilterRequest: int, now: int): (r: LauncherDirection)
    ensures r == Onboarding <==> !onboardingCompleted
    ensures r == OnboardingLastStep <==>
              onboardingCompleted && (lastFilterRequest == 0 || IsFilterRequestExpired(now, lastFilterRequest))
    ensures r == Main <==>
              onboardingCompleted && lastFilterRequest != 0 && !IsFilterRequestExpired(now, lastFilterRequest)
  {
    if !onboardingCompleted then Onboarding
    else if onboardingCompleted && lastFilterRequest == 0 then OnboardingLastStep
    else if onboardingCompleted && IsFilterRequestExpired(now, lastFilterRequest) then OnboardingLastStep
    else Main
  }

  /** Exactly 30 days after the last request is not yet expired; one millisecond more is. */
  lemma ExpiryBoundary(lastFilterRequest: int)
    ensures FilterRequestExpireTimeSpan == 30 * 24 * 60 * 60 * 1000
    ensures !IsFilterRequestExpired(lastFilterRequest + FilterRequestExpireTimeSpan, lastFilterRequest)
    ensures IsFilterRequestExpired(lastFilterRequest + FilterRequestExpireTimeSpan + 1, lastFilterRequest)
  {
  }

  /** Once the last step is due it stays due as the clock advances. */
  lemma LastStepStaysDue(onboardingCompleted: bool, lastFilterRequest: int, now: int, later: int)
    requires now <= later
    requires Direction(onboardingCompleted, lastFilterRequest, now) == OnboardingLastStep
    ensures Direction(onboardingCompleted, lastFilterRequest, later) == OnboardingLastStep
  {
  }

  /** The main screen at some time was also chosen at every earlier time since the request. */
  lemma MainEarlier(onboardingCompleted: bool, lastFilterRequest: int, earlier: int, now: int)
    requires earlier <= now
    requires Direction(onboardingCompleted, lastFilterRequest, now) == Main
    ensures Direction(onboardingCompleted, lastFilterRequest, earlier) == Main
  {
  }
}
