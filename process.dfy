/**
 * The fixed process master (`PROCESS_MASTER`), the empty form entry
 * (`makeEmptyEntry`) and the work-log form of the log view, whose entry list
 * is edited in place by the form's handlers.
 */
module Process {
  import opened Entities
  import opened Helpers

  /** The two top-level categories: structure and finishing. */
  const Structure: string := "구조"
  const Finishing: string := "마감"

  /** `PROCESS_MASTER`: the processes allowed under each category, in display order. */
  const ProcessMaster: map<string, seq<string>> := map[Structure := StructureProcesses, Finishing := FinishingProcesses]

  const StructureProcesses: seq<string> :=
    ["기초", "기둥", "보", "슬라브", "벽/옹벽", "철골", "접합/도장", "구조검토/샵도"]

  const FinishingProcesses: seq<string> :=
    ["내화(뿜칠/도장)", "단열/방수", "창호", "내부마감(석고/도장/타일 등)", "외부마감",
     "MEP 협업(간섭/수정)", "마감검토/펀치(하자/잔손)"]

  /** The process belongs to the master list of its category. */
  predicate WellClassified(category: string, process: string) {
    category in ProcessMaster && process in ProcessMaster[category]
  }

  /** What the form's controls guarantee of every entry it holds. */
  predicate DraftOk(d: Draft) {
    WellClassified(d.category, d.process) && 0 <= d.ratio <= 100
  }

  /** Every category has at least one process, so the reset to the first one is defined. */
  lemma MasterListsNonEmpty()
    ensures forall c :: c in ProcessMaster ==> |ProcessMaster[c]| > 0
  {
  }

  /**
   * No category or process name contains the character '|', so the breakdown
   * key `category + "||" + process` can be split back unambiguously.
   */
  lemma MasterNamesHaveNoBar()
    ensures forall c :: c in ProcessMaster ==> '|' !in c
    ensures forall c, p :: c in ProcessMaster && p in ProcessMaster[c] ==> '|' !in p
  {
    assert ProcessMaster.Keys == {Structure, Finishing};
    NoBarInStructure();
    NoBarInFinishing();
  }

  lemma NoBarInStructure()
    ensures forall p :: p in StructureProcesses ==> '|' !in p
  {
    assert StructureProcesses[..4] == ["기초", "기둥", "보", "슬라브"];
    assert forall p :: p in StructureProcesses[..4] ==> '|' !in p;
    assert forall p :: p in StructureProcesses[4..] ==> '|' !in p;
    assert StructureProcesses == StructureProcesses[..4] + StructureProcesses[4..];
  }

  lemma NoBarInFinishing()
    ensures forall p :: p in FinishingProcesses ==> '|' !in p
  {
    assert forall p :: p in FinishingProcesses[..4] ==> '|' !in p;
    assert forall p :: p in FinishingProcesses[4..] ==> '|' !in p;
    assert FinishingProcesses == FinishingProcesses[..4] + FinishingProcesses[4..];
  }

  /**
   * `makeEmptyEntry`: the first project (or "" when there is none), the
   * structure category with its first process, ratio 50 and no content.
   */
  function MakeEmptyEntry(projects: seq<Project>): (d: Draft)
    ensures DraftOk(d)
    ensures d.category == Structure && d.process == ProcessMaster[Structure][0]
    ensures d.projectId == (if |projects| > 0 then projects[0].projectId else "")
    ensures d.ratio == 50 && d.content == ""
  {
    Draft(if |projects| > 0 then projects[0].projectId else "", Structure, ProcessMaster[Structure][0], 50, "")
  }

  /**
   * The work-log form (`entries` in the log view). `Valid` is the invariant
   * its handlers keep: at least one entry, and every entry well classified
   * with a ratio in 0..100.
   */
  class DraftForm {
    var entries: seq<Draft>

    ghost predicate Valid()
      reads this
    {
      |entries| >= 1 && forall i :: 0 <= i < |entries| ==> DraftOk(entries[i])
    }

    /** The form opens with one empty entry. */
    constructor (projects: seq<Project>)
      ensures Valid()
      ensures entries == [MakeEmptyEntry(projects)]
    {
      entries := [MakeEmptyEntry(projects)];
    }

    /** "+ add entry": push a fresh empty entry. */
    method AddEntry(projects: seq<Project>)
      requires Valid()
      modifies this
      ensures Valid()
      ensures entries == old(entries) + [MakeEmptyEntry(projects)]
    {
      entries := entries + [MakeEmptyEntry(projects)];
    }

    /** "delete": refused while only one entry is left, otherwise splice it out. */
    method RemoveEntry(idx: nat) returns (removed: bool)
      requires Valid() && idx < |entries|
      modifies this
      ensures Valid()
      ensures removed <==> old(|entries|) > 1
      ensures removed ==> entries == old(entries[..idx] + entries[idx + 1..])
      ensures !removed ==> entries == old(entries)
    {
      if |entries| <= 1 {
        return false;
      }
      entries := entries[..idx] + entries[idx + 1..];
      removed := true;
    }

    /** The project select. */
    method SetProject(idx: nat, projectId: string)
      requires Valid() && idx < |entries|
      modifies this
      ensures Valid()
      ensures entries == old(entries[idx := entries[idx].(projectId := projectId)])
    {
      entries := entries[idx := entries[idx].(projectId := projectId)];
    }

    /** The ratio input clamps what was typed into 0..100. */
    method SetRatio(idx: nat, typed: int)
      requires Valid() && idx < |entries|
      modifies this
      ensures Valid()
      ensures entries == old(entries[idx := entries[idx].(ratio := Clamp(typed, 0, 100))])
    {
      entries := entries[idx := entries[idx].(ratio := Clamp(typed, 0, 100))];
    }

    /**
     * The category select offers only the master's categories; changing it
     * resets the process to the first one of the new category.
     */
    method SetCategory(idx: nat, category: string)
      requires Valid() && idx < |entries|
      requires category in ProcessMaster
      modifies this
      ensures Valid()
      ensures entries == old(entries[idx := entries[idx].(category := category, process := ProcessMaster[category][0])])
    {
      MasterListsNonEmpty();
      entries := entries[idx := entries[idx].(category := category, process := ProcessMaster[category][0])];
    }

    /** The process select offers only the processes of the entry's category. */
    method SetProcess(idx: nat, process: string)
      requires Valid() && idx < |entries|
      requires process in ProcessMaster[entries[idx].category]
      modifies this
      ensures Valid()
      ensures entries == old(entries[idx := entries[idx].(process := process)])
    {
      entries := entries[idx := entries[idx].(process := process)];
    }

    /** The content text area stores what was typed, untrimmed. */
    method SetContent(idx: nat, content: string)
      requires Valid() && idx < |entries|
      modifies this
      ensures Valid()
      ensures entries == old(entries[idx := entries[idx].(content := content)])
    {
      entries := entries[idx := entries[idx].(content := content)];
    }
  }
}
