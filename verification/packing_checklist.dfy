/** The state of the packing-checklist screen and the handlers that change
    it: generating a list, ticking, deleting, adding and resetting rows,
    exporting, and switching tabs. */
module PackingChecklistComponent {
  import opened Wrappers
  import opened JsText
  import opened ChecklistTypes
  import opened ChecklistItems
  import opened ChecklistExport
  import opened TripForm
  import opened TabSwipe

  /** What the call to the generation endpoint gave back: a packing list, a
      reply whose `data` is falsy (`null`, `false`, `0` or `""`), or an
      error. */
  datatype InvokeOutcome = Generated(data: PackingListData) | GeneratedFalsy | InvokeFailed

  /** A file offered for download: its name and its text. */
  datatype ExportFile = ExportFile(name: string, contents: string)

  class PackingChecklist {
    var activeTab: string
    var destination: string
    var startDate: string
    var endDate: string
    var ageGroup: string
    var travelStyle: string
    var loading: bool
    var checklistData: Option<PackingListData>
    var checklistItems: seq<ChecklistItem>
    var customTask: string

    /** The screen always shows one of the four tabs. */
    ghost predicate Valid()
      reads this
    {
      activeTab in Tabs
    }

    constructor ()
      ensures Valid() && activeTab == "plan"
      ensures destination == "" && startDate == "" && endDate == "" && ageGroup == "" && travelStyle == ""
      ensures !loading && checklistData == None && checklistItems == [] && customTask == ""
    {
      activeTab := "plan";
      destination, startDate, endDate, ageGroup, travelStyle := "", "", "", "", "";
      loading := false;
      checklistData := None;
      checklistItems := [];
      customTask := "";
    }

    /** `handleGenerate` up to its request: a rejected form changes nothing
        and sends nothing; an accepted one turns `loading` on and yields the
        request body. */
    method StartGenerate() returns (request: Result<TripRequest, Rejection>)
      modifies this`loading
      ensures request == ValidateTrip(destination, startDate, endDate, ageGroup, travelStyle)
      ensures loading == (request.Success? || old(loading))
    {
      request := ValidateTrip(destination, startDate, endDate, ageGroup, travelStyle);
      if request.Success? {
        loading := true;
      }
    }

    /** `handleGenerate` after the call returns. A new list replaces the old
        one and its rows are rebuilt from it (the effect on `checklistData`);
        a first generation, unlike a refresh, opens the "pack" tab. A falsy
        reply is stored as no list and still counts as a success, but the
        effect returns early, so the old rows stay. A failure keeps
        everything. Either way `loading` ends off. */
    method FinishGenerate(isRefresh: bool, outcome: InvokeOutcome, uids: seq<seq<string>>)
      requires Valid()
      requires outcome.Generated? ==> IdsFit(outcome.data.categories, uids)
      modifies this`loading, this`checklistData, this`checklistItems, this`activeTab
      ensures Valid() && !loading
      ensures outcome.Generated? ==>
                && checklistData == Some(outcome.data)
                && checklistItems == Flattened(outcome.data.categories, uids)
                && activeTab == (if isRefresh then old(activeTab) else "pack")
      ensures outcome.GeneratedFalsy? ==>
                && checklistData == None
                && checklistItems == old(checklistItems)
                && activeTab == (if isRefresh then old(activeTab) else "pack")
      ensures outcome.InvokeFailed? ==>
                checklistData == old(checklistData) && checklistItems == old(checklistItems)
                && activeTab == old(activeTab)
    {
      if !outcome.InvokeFailed? {
        if outcome.Generated? {
          checklistData := Some(outcome.data);
          checklistItems := FlattenCategories(outcome.data.categories, uids);
        } else {
          checklistData := None;
        }
        if !isRefresh {
          activeTab := "pack";
        }
      }
      loading := false;
    }

    /** The pull-to-refresh callback: regenerates only once a list exists. */
    method OnPullRefresh() returns (request: Option<Result<TripRequest, Rejection>>)
      modifies this`loading
      ensures checklistData.None? ==> request.None? && loading == old(loading)
      ensures checklistData.Some? ==>
                && request == Some(ValidateTrip(destination, startDate, endDate, ageGroup, travelStyle))
                && loading == (request.value.Success? || old(loading))
    {
      if checklistData.Some? {
        var r := StartGenerate();
        request := Some(r);
      } else {
        request := None;
      }
    }

    method ToggleItem(id: string)
      modifies this`checklistItems
      ensures checklistItems == Toggle(old(checklistItems), id)
    {
      checklistItems := Toggle(checklistItems, id);
    }

    method DeleteItem(id: string)
      modifies this`checklistItems
      ensures checklistItems == Delete(old(checklistItems), id)
    {
      checklistItems := Delete(checklistItems, id);
    }

    /** `addCustomTask`: a blank task is refused and nothing changes;
        otherwise one unchecked "Custom" row with the untrimmed text goes at
        the end and the input is cleared. `now` is the clock in milliseconds. */
    method AddCustomTask(now: nat) returns (added: bool)
      modifies this`checklistItems, this`customTask
      ensures added == !IsBlank(old(customTask))
      ensures !added ==> checklistItems == old(checklistItems) && customTask == old(customTask)
      ensures added ==>
                checklistItems == old(checklistItems) + [CustomItem(old(customTask), now)]
                && customTask == ""
    {
      added := !IsBlank(customTask);
      if added {
        var item := CustomItem(customTask, now);
        checklistItems := checklistItems + [item];
        customTask := "";
      }
    }

    method ResetChecklist()
      modifies this`checklistItems
      ensures checklistItems == Reset(old(checklistItems))
    {
      checklistItems := Reset(checklistItems);
    }

    /** The text "copy" puts on the clipboard, once a list exists. */
    method CopyToClipboard() returns (text: Option<string>)
      ensures checklistData.None? ==> text == None
      ensures checklistData.Some? ==>
                text == Some(ExportDocument(destination, startDate, endDate, checklistData.value, checklistItems))
    {
      if checklistData.None? {
        return None;
      }
      var t := ExportHeader(destination, startDate, endDate, checklistData.value);
      t := WriteItemLines(t, checklistItems);
      text := Some(t);
    }

    /** The file "download" saves, once a list exists: the same text as
        "copy", named after the destination. */
    method DownloadChecklist() returns (file: Option<ExportFile>)
      ensures checklistData.None? ==> file == None
      ensures checklistData.Some? ==>
                file == Some(ExportFile(ExportFileName(destination),
                                        ExportDocument(destination, startDate, endDate, checklistData.value, checklistItems)))
    {
      if checklistData.None? {
        return None;
      }
      var t := ExportHeader(destination, startDate, endDate, checklistData.value);
      t := WriteItemLines(t, checklistItems);
      file := Some(ExportFile(ExportFileName(destination), t));
    }

    /** The tab bar's `onChange`. */
    method SelectTab(key: string)
      requires key in Tabs
      modifies this`activeTab
      ensures Valid() && activeTab == key
    {
      activeTab := key;
    }

    /** Touch end on the swipe area: the tab follows the gesture's travel. */
    method EndSwipe(g: SwipeGesture)
      requires Valid()
      modifies this`activeTab
      ensures Valid() && activeTab == SwipeTab(old(activeTab), g.endX - g.startX)
    {
      activeTab := g.OnTouchEnd(activeTab);
    }
  }

  /** Copy and download, run on the same state, carry the same text. */
  method CopyAndDownload(c: PackingChecklist) returns (text: Option<string>, file: Option<ExportFile>)
    ensures text.Some? <==> file.Some?
    ensures text.Some? ==> text.value == file.value.contents
  {
    text := c.CopyToClipboard();
    file := c.DownloadChecklist();
  }
}
