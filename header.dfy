/** `src/app/_components/Header.tsx`: the fixed header. It derives the location label,
    the home link and the suggest-gig link from its props, and shows the calendar unless
    told not to. Props left out by the caller take the component's defaults. The
    environment's suggest-gig link is a parameter. */
module Header {
  import opened Common
  import opened Text
  import opened Utils

  /** The props: `None` is a prop the caller left out. `onDayClick` is passed through
      untouched and is not modelled. */
  datatype Props = Props(
    country: string,
    city: string,
    showCalendar: Option<bool>,
    showSuggestGig: Option<bool>,
    earliestEventDate: Option<string>,
    availableDates: Option<seq<string>>)

  /** What the header hands to the calendar (`TopForm`). */
  datatype CalendarProps = CalendarProps(visibleEventDate: Option<string>, availableDates: Option<seq<string>>)

  /** `showCalendar = true`. */
  predicate CalendarShown(p: Props) {
    p.showCalendar.GetOr(true)
  }

  /** `showSuggestGig = true`. */
  predicate SuggestShown(p: Props) {
    p.showSuggestGig.GetOr(true)
  }

  /** `suggestGigUrl`: the configured link, or none when the link is hidden. */
  function SuggestGigUrl(p: Props, link: Option<string>): Option<string> {
    if SuggestShown(p) then link else None
  }

  /** `locationLabel`. */
  function LocationLabel(country: string, city: string): string {
    if city != "" then NormalizeLocationTitle(city) else Upper(country)
  }

  /** `homeHref`. */
  function HomeHref(country: string, city: string): string {
    if city != "" then "/feed/" + country + "/" + city else "/feed/" + country
  }

  /** The calendar, when rendered, gets the earliest event date and the available
      dates. */
  function Calendar(p: Props): Option<CalendarProps> {
    if CalendarShown(p) then Some(CalendarProps(p.earliestEventDate, p.availableDates)) else None
  }

  /** Leaving `showSuggestGig` or `showCalendar` out is the same as passing true: the
      suggest link is passed on and the calendar gets the header's dates. Passing false
      drops the link or the calendar. */
  lemma OmittedSwitchesAreOn(p: Props, link: Option<string>)
    ensures SuggestGigUrl(p.(showSuggestGig := None), link) == SuggestGigUrl(p.(showSuggestGig := Some(true)), link)
    ensures SuggestGigUrl(p.(showSuggestGig := None), link) == link
    ensures SuggestGigUrl(p.(showSuggestGig := Some(false)), link).None?
    ensures Calendar(p.(showCalendar := None)) == Calendar(p.(showCalendar := Some(true)))
    ensures Calendar(p.(showCalendar := None)) == Some(CalendarProps(p.earliestEventDate, p.availableDates))
    ensures Calendar(p.(showCalendar := Some(false))).None?
  {
  }

  /** With a city, the label is its title-cased form, as in "barcelona" to "Barcelona";
      without one it is the country in capitals. */
  lemma LabelRules(country: string, city: string)
    ensures city == "" ==> (|LocationLabel(country, city)| == |country| &&
      forall i :: 0 <= i < |country| ==> LocationLabel(country, city)[i] == UpperChar(country[i]))
    ensures PlainWord(city) ==> LocationLabel(country, city) == Capitalize(city)
  {
    if PlainWord(city) {
      NormalizePlainWord(city);
    }
  }

  /** The home link is the feed path of the country, followed by the city when there is
      one: its segments read back as the two props. */
  lemma HomeHrefSegments(country: string, city: string)
    ensures var h := HomeHref(country, city);
      h[..6] == "/feed/" && h[6..6 + |country|] == country &&
      (city != "" ==> h[6 + |country|..] == "/" + city) &&
      (city == "" ==> |h| == 6 + |country|)
  {
  }
}
