/** The check `handleGenerate` runs on the trip form before it asks for a
    packing list. */
module TripForm {
  import opened Wrappers
  import opened IsoDate

  /** The body sent to the generation endpoint. */
  datatype TripRequest = TripRequest(
    destination: string, startDate: string, endDate: string, ageGroup: string, travelStyle: string)

  datatype Rejection = MissingFields | EndBeforeStart

  /** `new Date(endDate) < new Date(startDate)`. An invalid date has time
      value NaN, and every comparison with NaN is false. */
  predicate EndsBeforeStart(startDate: string, endDate: string) {
    var s := ParseIsoDate(startDate);
    var e := ParseIsoDate(endDate);
    s.Some? && e.Some? && e.value < s.value
  }

  predicate AnyFieldEmpty(destination: string, startDate: string, endDate: string,
                          ageGroup: string, travelStyle: string)
  {
    destination == [] || startDate == [] || endDate == [] || ageGroup == [] || travelStyle == []
  }

  /** Generation goes ahead exactly when all five fields are filled in and the
      end date is not before the start date; equal dates are accepted. A
      missing field is reported before a date problem. */
  function ValidateTrip(destination: string, startDate: string, endDate: string,
                        ageGroup: string, travelStyle: string): (r: Result<TripRequest, Rejection>)
    ensures r.Success? <==>
              !AnyFieldEmpty(destination, startDate, endDate, ageGroup, travelStyle)
              && !EndsBeforeStart(startDate, endDate)
    ensures r.Success? ==> r.value == TripRequest(destination, startDate, endDate, ageGroup, travelStyle)
    ensures r == Failure(MissingFields) <==> AnyFieldEmpty(destination, startDate, endDate, ageGroup, travelStyle)
  {
    if AnyFieldEmpty(destination, startDate, endDate, ageGroup, travelStyle) then Failure(MissingFields)
    else if EndsBeforeStart(startDate, endDate) then Failure(EndBeforeStart)
    else Success(TripRequest(destination, startDate, endDate, ageGroup, travelStyle))
  }

  /** A trip that starts and ends on the same day is accepted. */
  lemma SameDayAccepted(destination: string, day: string, ageGroup: string, travelStyle: string)
    requires destination != [] && day != [] && ageGroup != [] && travelStyle != []
    ensures ValidateTrip(destination, day, day, ageGroup, travelStyle).Success?
  {
  }

  /** An accepted request whose dates are both valid has its end on or after
      its start. */
  lemma AcceptedDatesOrdered(destination: string, startDate: string, endDate: string,
                             ageGroup: string, travelStyle: string)
    requires ValidateTrip(destination, startDate, endDate, ageGroup, travelStyle).Success?
    requires ParseIsoDate(startDate).Some? && ParseIsoDate(endDate).Some?
    ensures ParseIsoDate(startDate).value <= ParseIsoDate(endDate).value
  {
  }
}
