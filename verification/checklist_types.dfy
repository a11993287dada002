/** The records of a generated packing list and of one checklist row
    (src/components/checklist/types.ts). */
module ChecklistTypes {
  import opened Wrappers

  /** One row of the checklist the traveller ticks off. */
  datatype ChecklistItem = ChecklistItem(id: string, text: string, checked: bool, category: string)

  /** A named group of packing items, in the order the generator listed them. */
  datatype ChecklistCategory = ChecklistCategory(name: string, items: seq<string>)

  /** The document the generation endpoint returns. The optional members are
      echoed metadata; `weatherSummary` may be absent, null or a string. */
  datatype PackingListData = PackingListData(
    weatherContext: string,
    culturalTips: string,
    categories: seq<ChecklistCategory>,
    tripCategory: Option<string>,
    gender: Option<string>,
    tripDuration: Option<int>,
    weatherSummary: Option<Option<string>>,
    travelStyle: Option<string>,
    ageGroup: Option<string>)
}
