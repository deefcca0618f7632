/** Tax-country rules: the replacement window each country blocks after a loss sale. */
module Compliance {
  import opened Common

  const IRS_WASH_SALE_WINDOW_DAYS := 30
  const DEFAULT_WASH_SALE_SAFETY_BUFFER_DAYS := 1
  const MIN_WASH_SALE_SAFETY_BUFFER_DAYS := DEFAULT_WASH_SALE_SAFETY_BUFFER_DAYS

  datatype TaxCountry = Us | Br | Sg | Gb

  /** The part of a country's profile that the wash-sale guard reads. */
  datatype TaxCountryProfile = TaxCountryProfile(windowDays: int, defaultBufferDays: int,
                                                 minBufferDays: int, blockingEnabled: bool)

  function ProfileOf(country: TaxCountry): TaxCountryProfile {
    match country
    case Us => TaxCountryProfile(IRS_WASH_SALE_WINDOW_DAYS, DEFAULT_WASH_SALE_SAFETY_BUFFER_DAYS,
                                 MIN_WASH_SALE_SAFETY_BUFFER_DAYS, true)
    case Br => TaxCountryProfile(0, 0, 0, false)
    case Sg => TaxCountryProfile(0, 0, 0, false)
    case Gb => TaxCountryProfile(30, 0, 0, true)
  }

  function SafetyBufferDays(country: TaxCountry, configured: Option<int>): int {
    var profile := ProfileOf(country);
    if !profile.blockingEnabled then 0
    else
      Max(if configured.Some? then configured.value else profile.defaultBufferDays, profile.minBufferDays)
  }

  /** No configuration, not even a negative buffer, takes a blocking country below 30 days. */
  function ForwardBlockDays(country: TaxCountry, configured: Option<int>): (days: int)
    ensures ProfileOf(country).blockingEnabled <==> days >= 30
    ensures !ProfileOf(country).blockingEnabled <==> days == 0
    ensures configured.Some? && ProfileOf(country).blockingEnabled ==> days >= 30 + configured.value
  {
    var profile := ProfileOf(country);
    if !profile.blockingEnabled then 0
    else profile.windowDays + SafetyBufferDays(country, configured)
  }

  /** The rule of each country in days: the United States and the United Kingdom block, Brazil and Singapore do not. */
  lemma BlockDaysByCountry(buffer: int)
    ensures ForwardBlockDays(Us, None) == 31
    ensures ForwardBlockDays(Us, Some(buffer)) == 30 + if buffer >= 1 then buffer else 1
    ensures ForwardBlockDays(Gb, None) == 30
    ensures ForwardBlockDays(Gb, Some(buffer)) == 30 + if buffer >= 0 then buffer else 0
    ensures ForwardBlockDays(Br, None) == 0 == ForwardBlockDays(Br, Some(buffer))
    ensures ForwardBlockDays(Sg, None) == 0 == ForwardBlockDays(Sg, Some(buffer))
    ensures ProfileOf(Us).blockingEnabled && ProfileOf(Gb).blockingEnabled
    ensures !ProfileOf(Br).blockingEnabled && !ProfileOf(Sg).blockingEnabled
  {
  }
}
