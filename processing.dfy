/**
 * The processing stages panel: the rule `updateProcessingStageUI` applies to
 * every stage of the panel when the simulation reports stage `stageIndex` as
 * active or completed.
 */
module Processing {

  /** The class a stage element carries after an update. */
  datatype StageClass = Plain | Active | Completed

  /**
   * The class of the stage at `index`: every earlier stage is completed, the
   * reported stage takes the reported status when that status is `active` or
   * `completed`, and every later stage is plain.
   */
  function StageClassOf(index: nat, stageIndex: int, status: string): (r: StageClass)
    ensures r == Completed <==> index < stageIndex || (index == stageIndex && status == "completed")
    ensures r == Active <==> index == stageIndex && status == "active"
  {
    if index < stageIndex then Completed
    else if index == stageIndex then
      if status == "active" then Active
      else if status == "completed" then Completed
      else Plain
    else Plain
  }

  /** The classes of a panel of `count` stages after one update. */
  function StageClasses(count: nat, stageIndex: int, status: string): (r: seq<StageClass>)
    ensures |r| == count
    ensures forall i :: 0 <= i < count ==> r[i] == StageClassOf(i, stageIndex, status)
  {
    seq(count, i requires 0 <= i => StageClassOf(i, stageIndex, status))
  }

  /** A panel of `count + 1` stages is a panel of `count` stages and one more. */
  lemma StageClassesGrow(count: nat, stageIndex: int, status: string)
    ensures StageClasses(count + 1, stageIndex, status)
            == StageClasses(count, stageIndex, status) + [StageClassOf(count, stageIndex, status)]
  {
  }

  /** The number of stages before the reported one that the panel holds. */
  function Before(count: nat, stageIndex: int): nat {
    if stageIndex <= 0 then 0 else if stageIndex < count then stageIndex else count
  }

  /**
   * After an update, the completed stages are all stages before the reported
   * one, plus the reported one when it is reported completed; at most one
   * stage is active, and only when the reported stage is on the panel and
   * reported active.
   */
  lemma {:induction false} StageCounts(count: nat, stageIndex: int, status: string)
    ensures multiset(StageClasses(count, stageIndex, status))[Completed]
            == Before(count, stageIndex) + (if 0 <= stageIndex < count && status == "completed" then 1 else 0)
    ensures multiset(StageClasses(count, stageIndex, status))[Active]
            == if 0 <= stageIndex < count && status == "active" then 1 else 0
  {
    if count > 0 {
      StageCounts(count - 1, stageIndex, status);
      StageClassesGrow(count - 1, stageIndex, status);
    }
  }

  /** The completed stages always form a prefix of the panel. */
  lemma CompletedIsPrefix(count: nat, stageIndex: int, status: string, i: nat, j: nat)
    requires i < j < count
    requires StageClasses(count, stageIndex, status)[j] == Completed
    ensures StageClasses(count, stageIndex, status)[i] == Completed
  {
  }

  /**
   * Along the simulation's sequence of updates, (i, active), (i, completed),
   * (i + 1, active), a stage of the panel once shown completed stays completed.
   */
  lemma CompletedOnlyGrows(count: nat, i: nat, k: nat)
    requires k < count
    ensures StageClasses(count, i, "active")[k] == Completed ==> StageClasses(count, i, "completed")[k] == Completed
    ensures StageClasses(count, i, "completed")[k] == Completed ==> StageClasses(count, i + 1, "active")[k] == Completed
    ensures StageClasses(count, i, "completed")[k] == Completed <==> k <= i
  {
  }
}
