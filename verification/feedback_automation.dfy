/** The feedback hook: the ten most recent feedback entries, kept current by
    refreshes and by realtime inserts, and the prompt that asks a traveller
    for feedback. */
module FeedbackAutomationHook {
  import opened Wrappers
  import opened JsText

  /** What the form sends: a rating, a message and an optional contact. */
  datatype FeedbackInsert = FeedbackInsert(rating: int, message: string, contact: Option<string>)

  /** A stored entry: the insert plus its id and creation time. */
  datatype FeedbackEntry = FeedbackEntry(
    id: string, rating: int, message: string, contact: Option<string>, createdAt: string)

  /** How many entries the list keeps. */
  const MaxEntries: nat := 10

  function MinNat(a: nat, b: nat): nat { if a < b then a else b }

  /** The realtime insert: the new entry first, then the earlier ones in
      their order, cut to the first ten. */
  function PrependCapped(entry: FeedbackEntry, entries: seq<FeedbackEntry>): (r: seq<FeedbackEntry>)
    ensures |r| == MinNat(|entries| + 1, MaxEntries)
    ensures r[0] == entry
    ensures r[1..] == entries[..|r| - 1]
  {
    var all := [entry] + entries;
    assert all[1..] == entries;
    all[..MinNat(|all|, MaxEntries)]
  }

  /** The list after a run of realtime inserts, in arrival order. */
  function InsertAll(entries: seq<FeedbackEntry>, arrivals: seq<FeedbackEntry>): seq<FeedbackEntry>
    decreases |arrivals|
  {
    if arrivals == [] then entries
    else InsertAll(PrependCapped(arrivals[0], entries), arrivals[1..])
  }

  function Reverse<T>(s: seq<T>): (r: seq<T>)
    ensures |r| == |s|
  {
    if s == [] then [] else Reverse(s[1..]) + [s[0]]
  }

  /** Taking `m` elements of `a + b[..k]` takes nothing beyond `b[..k]`
      when `m` does not reach past it. */
  lemma TakeOfTruncated<T>(a: seq<T>, b: seq<T>, k: nat, m: nat)
    requires k <= |b| && m <= |a| + k
    ensures (a + b[..k])[..m] == (a + b)[..m]
  {
    assert forall i :: 0 <= i < m ==> (a + b[..k])[i] == (a + b)[i];
  }

  /** After any run of realtime inserts on a list of at most ten entries,
      the list holds the ten most recent entries, newest first: the arrivals
      in reverse order, then the earlier list. */
  lemma {:induction false} InsertAllKeepsNewest(entries: seq<FeedbackEntry>, arrivals: seq<FeedbackEntry>)
    requires |entries| <= MaxEntries
    ensures InsertAll(entries, arrivals)
            == (Reverse(arrivals) + entries)[..MinNat(|arrivals| + |entries|, MaxEntries)]
    decreases |arrivals|
  {
    if arrivals == [] {
      assert Reverse(arrivals) + entries == entries;
    } else {
      var e, rest := arrivals[0], arrivals[1..];
      var next := PrependCapped(e, entries);
      var k := |next|;
      assert next == ([e] + entries)[..k] by {
        assert ([e] + entries)[1..] == entries;
      }
      InsertAllKeepsNewest(next, rest);
      var m := MinNat(|arrivals| + |entries|, MaxEntries);
      assert MinNat(|rest| + k, MaxEntries) == m;
      calc {
        InsertAll(entries, arrivals);
        InsertAll(next, rest);
        (Reverse(rest) + ([e] + entries)[..k])[..m];
        { TakeOfTruncated(Reverse(rest), [e] + entries, k, m); }
        (Reverse(rest) + ([e] + entries))[..m];
        { assert Reverse(rest) + ([e] + entries) == (Reverse(rest) + [e]) + entries; }
        ((Reverse(rest) + [e]) + entries)[..m];
        (Reverse(arrivals) + entries)[..m];
      }
    }
  }

  /** Two inserts in a row leave the later one first and the earlier one
      second. */
  lemma NewestFirst(first: FeedbackEntry, second: FeedbackEntry, entries: seq<FeedbackEntry>)
    ensures PrependCapped(second, PrependCapped(first, entries))[..2] == [second, first]
  {
    var once := PrependCapped(first, entries);
    var twice := PrependCapped(second, once);
    assert twice[1] == twice[1..][0] == once[0];
  }

  /** What the feedback query gave: its rows (null counts as none) or the
      error it threw. */
  datatype QueryOutcome = Rows(data: Option<seq<FeedbackEntry>>) | QueryFailed(thrown: Thrown)

  const RefreshFailedMessage: string := "Unable to fetch feedback"
  const SubmitFailedMessage: string := "Unknown error"

  class FeedbackAutomation {
    var entries: seq<FeedbackEntry>
    var loading: bool
    var error: Option<string>
    var promptOpen: bool
    /** Milliseconds of the last prompt or submission; 0 for never. */
    var lastPrompt: int

    constructor ()
      ensures entries == [] && !loading && error == None && !promptOpen && lastPrompt == 0
      ensures !AutomationActive()
    {
      entries := [];
      loading := false;
      error := None;
      promptOpen := false;
      lastPrompt := 0;
    }

    /** The automation counts as active while a refresh is running or once
        there is an entry to show. */
    predicate AutomationActive()
      reads this
    {
      loading || |entries| > 0
    }

    /** `refreshFeedback` up to its query: loading, with the error cleared. */
    method StartRefresh()
      modifies this`loading, this`error
      ensures loading && error == None
      ensures AutomationActive()
    {
      loading := true;
      error := None;
    }

    /** `refreshFeedback` after the query. Rows replace the list (no rows
        give an empty list); a failure keeps the list and records the error's
        message. Either way loading ends. */
    method FinishRefresh(outcome: QueryOutcome)
      modifies this`entries, this`loading, this`error
      ensures !loading
      ensures outcome.Rows? ==>
                entries == (if outcome.data.Some? then outcome.data.value else [])
                && error == old(error)
      ensures outcome.QueryFailed? ==>
                entries == old(entries) && error == Some(MessageOr(outcome.thrown, RefreshFailedMessage))
      ensures AutomationActive() <==> |entries| > 0
    {
      if outcome.Rows? {
        entries := if outcome.data.Some? then outcome.data.value else [];
      } else {
        error := Some(MessageOr(outcome.thrown, RefreshFailedMessage));
      }
      loading := false;
    }

    /** The realtime channel's insert handler. */
    method RealtimeInsert(entry: FeedbackEntry)
      modifies this`entries
      ensures entries == PrependCapped(entry, old(entries))
      ensures AutomationActive()
    {
      entries := PrependCapped(entry, entries);
    }

    /** `submitFeedback` after its insert: `insertError` is the error the
        insert reported, if any, and `now` the clock in milliseconds. Success
        closes the prompt and stamps it; failure changes nothing and reports
        the error's message. */
    method SubmitFeedback(insertError: Option<Thrown>, now: int) returns (success: bool, message: Option<string>)
      modifies this`promptOpen, this`lastPrompt
      ensures success <==> insertError.None?
      ensures success ==> !promptOpen && lastPrompt == now && message == None
      ensures !success ==>
                promptOpen == old(promptOpen) && lastPrompt == old(lastPrompt)
                && message == Some(MessageOr(insertError.value, SubmitFailedMessage))
    {
      if insertError.Some? {
        return false, Some(MessageOr(insertError.value, SubmitFailedMessage));
      }
      promptOpen := false;
      lastPrompt := now;
      success, message := true, None;
    }

    /** A generated trip always opens the prompt. */
    method RegisterTripGeneration(now: int)
      modifies this`promptOpen, this`lastPrompt
      ensures promptOpen && lastPrompt == now
    {
      promptOpen := true;
      lastPrompt := now;
    }

    method SetPromptOpen(open: bool)
      modifies this`promptOpen
      ensures promptOpen == open
    {
      promptOpen := open;
    }
  }
}
