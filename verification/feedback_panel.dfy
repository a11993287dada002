/** The feedback panel: the rolling average of recent ratings and the form
    that sends a rating with a message. */
module FeedbackPanel {
  import opened Wrappers
  import opened JsText
  import opened FeedbackAutomationHook

  // ---------------------------------------------------------------------
  // Rolling satisfaction
  // ---------------------------------------------------------------------

  function RatingSum(entries: seq<FeedbackEntry>): int {
    if entries == [] then 0 else RatingSum(entries[..|entries| - 1]) + entries[|entries| - 1].rating
  }

  /** The mean rating of the entries, 0 when there are none. */
  function AverageRating(entries: seq<FeedbackEntry>): (r: real)
    ensures entries == [] ==> r == 0.0
    ensures entries != [] ==> r * |entries| as real == RatingSum(entries) as real
  {
    if |entries| == 0 then 0.0 else RatingSum(entries) as real / |entries| as real
  }

  predicate RatingsWithin(entries: seq<FeedbackEntry>, lo: int, hi: int) {
    forall i :: 0 <= i < |entries| ==> lo <= entries[i].rating <= hi
  }

  lemma {:induction false} RatingSumWithin(entries: seq<FeedbackEntry>, lo: int, hi: int)
    requires RatingsWithin(entries, lo, hi)
    ensures lo * |entries| <= RatingSum(entries) <= hi * |entries|
  {
    if entries != [] {
      var n := |entries| - 1;
      assert RatingsWithin(entries[..n], lo, hi) by {
        forall i | 0 <= i < n ensures lo <= entries[..n][i].rating <= hi {
          assert entries[..n][i] == entries[i];
        }
      }
      RatingSumWithin(entries[..n], lo, hi);
      assert lo * |entries| == lo * n + lo && hi * |entries| == hi * n + hi;
    }
  }

  /** When every rating lies between `lo` and `hi`, so does the average of a
      non-empty list; an empty list averages 0. */
  lemma AverageWithin(entries: seq<FeedbackEntry>, lo: int, hi: int)
    requires RatingsWithin(entries, lo, hi)
    ensures entries == [] ==> AverageRating(entries) == 0.0
    ensures entries != [] ==> lo as real <= AverageRating(entries) <= hi as real
  {
    if entries != [] {
      RatingSumWithin(entries, lo, hi);
      var n := |entries| as real;
      var sum := RatingSum(entries) as real;
      assert lo as real * n <= sum <= hi as real * n;
      assert sum / n * n == sum;
      assert lo as real <= sum / n <= hi as real;
    }
  }

  /** The value of the satisfaction bar: the average as a percentage of the
      top rating, 0 when there is no average. */
  function ProgressBarValue(average: real): (r: real)
    ensures r == 0.0 <==> average == 0.0
    ensures r * 5.0 == average * 100.0
    ensures 0.0 <= average <= 5.0 ==> 0.0 <= r <= 100.0
  {
    if average != 0.0 then average / 5.0 * 100.0 else 0.0
  }

  /** With ratings from 1 to 5 the bar is empty for no entries and otherwise
      lies between 20 and 100, full exactly when every rating is 5. */
  lemma ProgressBarBounds(entries: seq<FeedbackEntry>)
    requires RatingsWithin(entries, 1, 5)
    ensures entries == [] ==> ProgressBarValue(AverageRating(entries)) == 0.0
    ensures entries != [] ==> 20.0 <= ProgressBarValue(AverageRating(entries)) <= 100.0
    ensures entries != [] && RatingsWithin(entries, 5, 5) ==>
              ProgressBarValue(AverageRating(entries)) == 100.0
  {
    AverageWithin(entries, 1, 5);
    if RatingsWithin(entries, 5, 5) {
      AverageWithin(entries, 5, 5);
    }
  }

  // ---------------------------------------------------------------------
  // The form
  // ---------------------------------------------------------------------

  /** A value the rating select offers: one digit from "1" to "5". */
  predicate IsRatingChoice(rating: string) {
    |rating| == 1 && '1' <= rating[0] <= '5'
  }

  const DefaultRating: string := "5"

  /** `Number(rating)` for a value of the select: a number from 1 to 5 that
      prints back as the value. */
  function RatingNumber(rating: string): (n: int)
    requires IsRatingChoice(rating)
    ensures 1 <= n <= 5
    ensures NatToString(n) == rating
  {
    rating[0] as int - '0' as int
  }

  /** The payload built from the form: the number of the rating, the trimmed
      message, and the trimmed contact, absent when it trims to nothing. */
  function Payload(rating: string, message: string, contact: string): (r: FeedbackInsert)
    requires IsRatingChoice(rating)
    ensures 1 <= r.rating <= 5 && NatToString(r.rating) == rating
  {
    FeedbackInsert(RatingNumber(rating), Trim(message), if IsBlank(contact) then None else Some(Trim(contact)))
  }

  /** The payload's rating is the select's number, its message carries no
      surrounding white space, and its contact is present exactly when the
      typed contact is not blank, and then non-empty and trimmed. */
  lemma PayloadNormalised(rating: string, message: string, contact: string)
    requires IsRatingChoice(rating)
    ensures var p := Payload(rating, message, contact);
            && NatToString(p.rating) == rating
            && Trimmed(p.message) && |p.message| <= |message|
            && (p.contact.None? <==> IsBlank(contact))
            && (p.contact.Some? ==> p.contact.value != [] && Trimmed(p.contact.value))
  {
  }

  /** Filling the form again with what a payload carries gives the same
      payload: normalisation is idempotent. */
  lemma PayloadIdempotent(rating: string, message: string, contact: string)
    requires IsRatingChoice(rating)
    ensures var p := Payload(rating, message, contact);
            Payload(NatToString(p.rating), p.message,
                    if p.contact.Some? then p.contact.value else "") == p
  {
    var p := Payload(rating, message, contact);
    TrimIdempotent(message);
    if p.contact.Some? {
      TrimIdempotent(contact);
    } else {
      assert Trim("") == "";
    }
  }

  class FeedbackForm {
    var rating: string
    var message: string
    var contact: string
    var submitting: bool

    /** The rating is always one of the select's values. */
    ghost predicate Valid()
      reads this
    {
      IsRatingChoice(rating)
    }

    constructor ()
      ensures Valid()
      ensures rating == DefaultRating && message == "" && contact == "" && !submitting
    {
      rating := DefaultRating;
      message := "";
      contact := "";
      submitting := false;
    }

    /** `handleSubmit` up to the call: a blank message is refused and
        nothing is sent; otherwise `submitting` goes on and the payload is
        built. */
    method StartSubmit() returns (payload: Option<FeedbackInsert>)
      requires Valid()
      modifies this`submitting
      ensures payload.None? <==> IsBlank(message)
      ensures payload.None? ==> submitting == old(submitting)
      ensures payload.Some? ==> submitting && payload.value == Payload(rating, message, contact)
    {
      if IsBlank(message) {
        return None;
      }
      submitting := true;
      payload := Some(Payload(rating, message, contact));
    }

    /** `handleSubmit` after the call: `submitting` ends; a success clears
        the form back to its defaults, a failure keeps what was typed. */
    method FinishSubmit(success: bool)
      requires Valid()
      modifies this`submitting, this`rating, this`message, this`contact
      ensures Valid() && !submitting
      ensures success ==> rating == DefaultRating && message == "" && contact == ""
      ensures !success ==> rating == old(rating) && message == old(message) && contact == old(contact)
    {
      submitting := false;
      if success {
        message := "";
        contact := "";
        rating := DefaultRating;
      }
    }

    method SetRating(value: string)
      requires IsRatingChoice(value)
      modifies this`rating
      ensures Valid() && rating == value
    {
      rating := value;
    }
  }

  /** The whole of `handleSubmit` against the hook: `insertError` is what
      the insert reported and `now` the clock. A blank message changes
      neither the form nor the hook; otherwise the hook's submit runs on the
      built payload, `submitting` ends off, and a success resets the form and
      closes the prompt. */
  method HandleSubmit(form: FeedbackForm, hook: FeedbackAutomation, insertError: Option<Thrown>, now: int)
    returns (sent: Option<FeedbackInsert>)
    requires form.Valid()
    modifies form`submitting, form`rating, form`message, form`contact, hook`promptOpen, hook`lastPrompt
    ensures form.Valid()
    ensures sent.None? <==> IsBlank(old(form.message))
    ensures sent.None? ==>
              form.rating == old(form.rating) && form.message == old(form.message)
              && form.contact == old(form.contact) && form.submitting == old(form.submitting)
              && hook.promptOpen == old(hook.promptOpen) && hook.lastPrompt == old(hook.lastPrompt)
    ensures sent.Some? ==>
              && sent.value == Payload(old(form.rating), old(form.message), old(form.contact))
              && !form.submitting
              && (insertError.None? ==>
                    form.rating == DefaultRating && form.message == "" && form.contact == ""
                    && !hook.promptOpen && hook.lastPrompt == now)
              && (insertError.Some? ==>
                    form.rating == old(form.rating) && form.message == old(form.message)
                    && form.contact == old(form.contact) && hook.promptOpen == old(hook.promptOpen)
                    && hook.lastPrompt == old(hook.lastPrompt))
  {
    ghost var rating, message, contact := form.rating, form.message, form.contact;
    sent := form.StartSubmit();
    if sent.None? {
      return;
    }
    assert sent.value == Payload(rating, message, contact);
    var success, _ := hook.SubmitFeedback(insertError, now);
    assert form.rating == rating && form.message == message && form.contact == contact;
    form.FinishSubmit(success);
  }
}
