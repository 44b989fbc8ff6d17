/**
 * The application object: the stage bookkeeping, the folder partition, the
 * loaded schema and its categorisation, and the acceptance flags of the review
 * screen, updated in place by the handlers as `MediXtractApp` does.
 */
module App {
  import opened Wrappers
  import opened Text
  import opened Seqs
  import opened Files
  import opened Schema
  import opened Review
  import opened Users

  /** No stage number is listed twice. */
  predicate NoDuplicates(s: seq<int>) {
    forall i, j :: 0 <= i < j < |s| ==> s[i] != s[j]
  }

  /** `completedStages` after `completeStage(n)`. */
  function WithStage(stages: seq<int>, n: int): seq<int> {
    if n in stages then stages else stages + [n]
  }

  /** A list without duplicates holds each of its members exactly once. */
  lemma {:induction false} ListedOnce(stages: seq<int>, n: int)
    requires NoDuplicates(stages)
    ensures multiset(stages)[n] == if n in stages then 1 else 0
    decreases |stages|
  {
    if stages != [] {
      var init, last := stages[..|stages| - 1], stages[|stages| - 1];
      assert stages == init + [last];
      assert NoDuplicates(init);
      assert last !in init;
      ListedOnce(init, n);
    }
  }

  /**
   * `completeStage` treats the list as a set: afterwards the stage is listed
   * exactly once, nothing listed before is removed or reordered, and a second
   * call with the same number changes nothing.
   */
  lemma WithStageSpec(stages: seq<int>, n: int)
    requires NoDuplicates(stages)
    ensures NoDuplicates(WithStage(stages, n))
    ensures multiset(WithStage(stages, n))[n] == 1
    ensures stages <= WithStage(stages, n)
    ensures WithStage(WithStage(stages, n), n) == WithStage(stages, n)
  {
    var after := WithStage(stages, n);
    if n !in stages {
      assert after == stages + [n];
      assert after[|stages|] == n;
    }
    ListedOnce(after, n);
  }

  /** Why a folder selection stops, or the schema file it goes on to load. */
  datatype SelectionOutcome = NoFilesSelected | NoMedicalDocuments | NoJsonSchema | SchemaFound(schemaFile: FileEntry)

  /** The totals `updateFieldCounts` shows. */
  datatype FieldCounts = FieldCounts(highConfidence: nat, doubleCheck: nat, manualInput: nat, total: nat, showSummary: bool)

  /**
   * Whether the accept handler lets a card be saved: a manual-input card whose
   * input holds nothing but whitespace is refused; a card without an input
   * element, or in another section, always may be.
   */
  predicate Acceptable(c: CategorizedFields, name: string, input: Option<string>) {
    !(CardSection(c, name) == ManualInput && input.Some? && IsBlank(input.value))
  }

  /** The value of a card's manual input, when the card has one. */
  function InputOf(inputs: map<string, string>, name: string): Option<string> {
    if name in inputs then Some(inputs[name]) else None
  }

  /** The listed cards the accept handler lets be saved. */
  function SavedCards(c: CategorizedFields, cards: seq<string>, inputs: map<string, string>): set<string> {
    set i | 0 <= i < |cards| && Acceptable(c, cards[i], InputOf(inputs, cards[i])) :: cards[i]
  }

  /** Listing one more card adds it to the saved cards exactly when it may be saved. */
  lemma SavedCardsStep(c: CategorizedFields, cards: seq<string>, inputs: map<string, string>, i: nat)
    requires i < |cards|
    ensures SavedCards(c, cards[..i + 1], inputs)
            == SavedCards(c, cards[..i], inputs)
               + (if Acceptable(c, cards[i], InputOf(inputs, cards[i])) then {cards[i]} else {})
  {
    var prefix := cards[..i + 1];
    assert forall j :: 0 <= j < i ==> prefix[j] == cards[..i][j];
  }

  /**
   * The flags after accepting every listed card in turn: each card that may
   * be saved is flagged accepted, and every other flag is as it was.
   */
  function AcceptAllResult(state: map<string, bool>, c: CategorizedFields, cards: seq<string>,
                           inputs: map<string, string>): map<string, bool>
  {
    var saved := SavedCards(c, cards, inputs);
    map n | n in state.Keys + saved :: if n in saved then true else state[n]
  }

  /** The flags after the accept handler has run on each listed card in turn. */
  function AcceptEach(state: map<string, bool>, c: CategorizedFields, cards: seq<string>,
                      inputs: map<string, string>): map<string, bool>
    decreases |cards|
  {
    if cards == [] then state
    else
      var prev, n := AcceptEach(state, c, cards[..|cards| - 1], inputs), cards[|cards| - 1];
      if Acceptable(c, n, InputOf(inputs, n)) then prev[n := true] else prev
  }

  /** Whether the accept handler saves at least one of the listed cards. */
  predicate AnySaved(c: CategorizedFields, cards: seq<string>, inputs: map<string, string>)
    decreases |cards|
  {
    cards != []
    && (AnySaved(c, cards[..|cards| - 1], inputs)
        || Acceptable(c, cards[|cards| - 1], InputOf(inputs, cards[|cards| - 1])))
  }

  /**
   * Accepting the cards one at a time gives the flags AcceptAllResult
   * describes: the listed cards that may be saved set, every other flag as
   * it was.
   */
  lemma {:induction false} AcceptEachIsAcceptAllResult(state: map<string, bool>, c: CategorizedFields,
                                                       cards: seq<string>, inputs: map<string, string>)
    ensures AcceptEach(state, c, cards, inputs) == AcceptAllResult(state, c, cards, inputs)
    decreases |cards|
  {
    if cards != [] {
      var i := |cards| - 1;
      assert cards[..i + 1] == cards;
      SavedCardsStep(c, cards, inputs, i);
      AcceptEachIsAcceptAllResult(state, c, cards[..i], inputs);
    }
  }

  /** The flags of freshly rendered cards: every one pending. */
  function PendingFlags(cards: set<string>): map<string, bool>
  {
    map n | n in cards :: false
  }

  /** Marking one more card pending extends the pending flags by that card. */
  lemma PendingFlagsStep(state: map<string, bool>, done: set<string>, n: string)
    ensures (state + PendingFlags(done))[n := false] == state + PendingFlags(done + {n})
  {
    var lhs, rhs := (state + PendingFlags(done))[n := false], state + PendingFlags(done + {n});
    assert lhs.Keys == rhs.Keys;
    forall k | k in lhs.Keys ensures lhs[k] == rhs[k] {
    }
  }

  /** Once every card is pending, nothing can be delivered. */
  lemma PendingBlocksDelivery(c: CategorizedFields, state: map<string, bool>)
    ensures forall n :: n in AllCards(c) ==> !IsAccepted(state + PendingFlags(AllCards(c)), n)
    ensures !DeliveryAvailable(c, state + PendingFlags(AllCards(c)))
  {
    var after := state + PendingFlags(AllCards(c));
    if AllCards(c) != {} {
      var n :| n in AllCards(c);
      assert !IsAccepted(after, n);
    }
  }

  /**
   * Accepting all the still pending cards of the high-confidence or
   * double-check section completes that section: none of them is a
   * manual-input card, so none is refused.
   */
  lemma AcceptAllCompletesSection(entries: seq<Entry>, b: Bucket, state: map<string, bool>,
                                  cards: seq<string>, inputs: map<string, string>)
    requires DistinctNames(entries) && b != ManualInput
    requires SectionCards(Categorize(entries), b) != {}
    requires forall n :: n in SectionCards(Categorize(entries), b) ==> n in cards || IsAccepted(state, n)
    ensures SectionCounter(SectionCards(Categorize(entries), b),
                           AcceptAllResult(state, Categorize(entries), cards, inputs)).complete
  {
    var c := Categorize(entries);
    CategorizeIsPartition(entries);
    var after := AcceptAllResult(state, c, cards, inputs);
    forall n | n in SectionCards(c, b) ensures IsAccepted(after, n) {
      if n in cards {
        assert n !in c.manualInput;
        var i :| 0 <= i < |cards| && cards[i] == n;
        assert n in SavedCards(c, cards, inputs);
      }
    }
  }

  class MediXtractApp {
    var currentStage: int
    var completedStages: seq<int>
    var medicalDocuments: seq<FileEntry>
    var jsonFiles: seq<FileEntry>
    var jsonData: Option<JsonDoc>
    var categorizedFields: CategorizedFields
    var fieldAcceptanceState: map<string, bool>
    var deliveryVisible: bool
    var userInfo: UserInfo

    /** The completed stages are a set. */
    ghost predicate StagesValid()
      reads this
    {
      NoDuplicates(completedStages)
    }

    /** The sections hold the categorisation of the loaded schema, or nothing before one is loaded. */
    ghost predicate FieldsValid()
      reads this
    {
      match jsonData
      case None => categorizedFields == NoCategories
      case Some(doc) => WellFormed(doc) && categorizedFields == Categorize(FieldsOf(doc))
    }

    ghost predicate Valid()
      reads this
    {
      StagesValid() && FieldsValid()
    }

    /** The state a new application starts in. */
    constructor ()
      ensures Valid()
      ensures currentStage == 1 && completedStages == []
      ensures medicalDocuments == [] && jsonFiles == []
      ensures jsonData == None && categorizedFields == NoCategories
      ensures fieldAcceptanceState == map[] && !deliveryVisible
      ensures userInfo == DefaultUser
    {
      currentStage := 1;
      completedStages := [];
      medicalDocuments := [];
      jsonFiles := [];
      jsonData := None;
      categorizedFields := NoCategories;
      fieldAcceptanceState := map[];
      deliveryVisible := false;
      userInfo := DefaultUser;
    }

    /** `completeStage`: add the stage unless it is already listed. */
    method CompleteStage(stageNumber: int)
      requires Valid()
      modifies this`completedStages
      ensures Valid()
      ensures completedStages == WithStage(old(completedStages), stageNumber)
      ensures multiset(completedStages)[stageNumber] == 1
      ensures old(completedStages) <= completedStages
    {
      WithStageSpec(completedStages, stageNumber);
      if stageNumber !in completedStages {
        completedStages := completedStages + [stageNumber];
      }
    }

    /** `handleSignOut`: back to the login stage with no stage completed and the default user. */
    method HandleSignOut()
      requires Valid()
      modifies this`currentStage, this`completedStages, this`userInfo
      ensures Valid()
      ensures currentStage == 1 && completedStages == [] && userInfo == DefaultUser
    {
      currentStage := 1;
      completedStages := [];
      userInfo := DefaultUser;
    }

    /**
     * `handleLogin`: with an e-mail address, a password and a role all
     * filled in, the user is stored with the display name built from the
     * address and the role's label, the login stage is completed and the user
     * portal entered; with any of them empty nothing changes.
     */
    method HandleLogin(email: string, password: string, role: string) returns (ok: bool)
      requires Valid()
      modifies this`userInfo, this`completedStages, this`currentStage
      ensures Valid()
      ensures ok <==> email != "" && password != "" && role != ""
      ensures !ok ==> userInfo == old(userInfo) && completedStages == old(completedStages)
                      && currentStage == old(currentStage)
      ensures ok ==> userInfo == UserInfo(ExtractNameFromEmail(email), FormatRole(role), email)
      ensures ok ==> completedStages == WithStage(old(completedStages), 1) && currentStage == 2
    {
      if email == "" || password == "" || role == "" {
        return false;
      }
      userInfo := UserInfo(ExtractNameFromEmail(email), FormatRole(role), email);
      CompleteStage(1);
      currentStage := 2;
      ok := true;
    }

    /**
     * `resetForNewPatient`: no files, no schema and empty sections, with the
     * delivery notification hidden; the acceptance flags are left as they are.
     */
    method ResetForNewPatient()
      requires Valid()
      modifies this`medicalDocuments, this`jsonFiles, this`jsonData, this`categorizedFields, this`deliveryVisible
      ensures Valid()
      ensures medicalDocuments == [] && jsonFiles == [] && jsonData.None? && categorizedFields == NoCategories
      ensures AllCards(categorizedFields) == {} && !deliveryVisible
    {
      medicalDocuments := [];
      jsonFiles := [];
      jsonData := None;
      categorizedFields := NoCategories;
      deliveryVisible := false;
    }

    /**
     * `handleFolderSelection` up to loading the schema file: an empty
     * selection changes nothing; otherwise the JSON files and the medical
     * documents are collected in one pass, and the selection stops when it has
     * no document or no JSON file, or else goes on with its first JSON file.
     */
    method HandleFolderSelection(files: seq<FileEntry>) returns (outcome: SelectionOutcome)
      requires Valid()
      modifies this`medicalDocuments, this`jsonFiles
      ensures Valid()
      ensures files == [] ==>
                outcome == NoFilesSelected
                && medicalDocuments == old(medicalDocuments) && jsonFiles == old(jsonFiles)
      ensures files != [] ==> medicalDocuments == MedicalDocuments(files) && jsonFiles == JsonFiles(files)
      ensures files != [] ==>
                outcome == if MedicalDocuments(files) == [] then NoMedicalDocuments
                           else if JsonFiles(files) == [] then NoJsonSchema
                           else SchemaFound(JsonFiles(files)[0])
      ensures outcome.SchemaFound? ==>
                outcome.schemaFile in files && IsJsonFile(outcome.schemaFile) && medicalDocuments != []
    {
      if |files| == 0 {
        return NoFilesSelected;
      }
      medicalDocuments := [];
      jsonFiles := [];
      var i := 0;
      while i < |files|
        invariant 0 <= i <= |files|
        invariant jsonFiles == JsonFiles(files[..i])
        invariant medicalDocuments == MedicalDocuments(files[..i])
      {
        var file := files[i];
        assert files[..i + 1] == files[..i] + [file];
        if EndsWith(ToLower(file.name), ".json") {
          jsonFiles := jsonFiles + [file];
        } else if IsMedicalDocument(file) {
          medicalDocuments := medicalDocuments + [file];
        }
        i := i + 1;
      }
      assert files[..i] == files;
      if |medicalDocuments| == 0 {
        return NoMedicalDocuments;
      }
      if |jsonFiles| == 0 {
        return NoJsonSchema;
      }
      FilterPasses(files, IsJsonFile);
      FilterCount(files, IsJsonFile);
      assert jsonFiles[0] in multiset(jsonFiles);
      outcome := SchemaFound(jsonFiles[0]);
    }

    /** The success path of `loadJsonFromFile`: keep the parsed schema and categorise it. */
    method LoadSchema(doc: JsonDoc)
      requires Valid() && WellFormed(doc)
      modifies this`jsonData, this`categorizedFields
      ensures Valid()
      ensures jsonData == Some(doc) && categorizedFields == Categorize(FieldsOf(doc))
    {
      jsonData := Some(doc);
      CategorizeFields();
    }

    /**
     * `categorizeFields`: empty the sections, then file every field of the
     * schema under its name in the section its `group_id` selects.
     */
    method CategorizeFields()
      requires jsonData.Some? && WellFormed(jsonData.value)
      modifies this`categorizedFields
      ensures FieldsValid()
      ensures categorizedFields == Categorize(FieldsOf(jsonData.value))
    {
      var fields := FieldsOf(jsonData.value);
      categorizedFields := NoCategories;
      var i := 0;
      while i < |fields|
        invariant 0 <= i <= |fields|
        invariant categorizedFields == Categorize(fields[..i])
      {
        var name, field := fields[i].name, fields[i].field;
        var groupId := field.groupId;
        assert fields[..i + 1][..i] == fields[..i];
        if groupId == Some("group_1") || groupId == Some("group_3") {
          categorizedFields := categorizedFields.(highConfidence := categorizedFields.highConfidence[name := field]);
        } else if groupId == Some("group_2") || groupId == Some("group_5") {
          categorizedFields := categorizedFields.(doubleCheck := categorizedFields.doubleCheck[name := field]);
        } else if groupId == Some("group_4") {
          categorizedFields := categorizedFields.(manualInput := categorizedFields.manualInput[name := field]);
        } else {
          categorizedFields := categorizedFields.(highConfidence := categorizedFields.highConfidence[name := field]);
        }
        i := i + 1;
      }
      assert fields[..i] == fields;
    }

    /**
     * `updateFieldCounts`: the three section sizes and their total, which is
     * the number of fields in the loaded schema; the percentage summary is
     * shown only when the total is positive. The delivery notification is
     * then derived afresh from the flags.
     */
    method UpdateFieldCounts() returns (counts: FieldCounts)
      requires Valid()
      modifies this`deliveryVisible
      ensures Valid()
      ensures deliveryVisible <==> DeliveryAvailable(categorizedFields, fieldAcceptanceState)
      ensures counts.highConfidence == |categorizedFields.highConfidence|
      ensures counts.doubleCheck == |categorizedFields.doubleCheck|
      ensures counts.manualInput == |categorizedFields.manualInput|
      ensures counts.total == counts.highConfidence + counts.doubleCheck + counts.manualInput
      ensures counts.total == if jsonData.Some? then |FieldsOf(jsonData.value)| else 0
      ensures counts.showSummary <==> jsonData.Some? && FieldsOf(jsonData.value) != []
    {
      var high := |categorizedFields.highConfidence|;
      var double := |categorizedFields.doubleCheck|;
      var manual := |categorizedFields.manualInput|;
      var total := high + double + manual;
      if jsonData.Some? {
        TotalIsFieldCount(FieldsOf(jsonData.value));
      }
      counts := FieldCounts(high, double, manual, total, total > 0);
      deliveryVisible := DeliveryAvailable(categorizedFields, fieldAcceptanceState);
    }

    /**
     * `handleFieldAccept` on the card of `fieldId`, whose manual input, if it
     * has one, holds `inputValue`: a manual-input card with an empty or
     * whitespace-only value is refused and nothing changes; otherwise the
     * card's flag is set and the delivery notification is recomputed.
     */
    method HandleFieldAccept(fieldId: string, inputValue: Option<string>) returns (saved: bool)
      requires Valid() && fieldId in AllCards(categorizedFields)
      modifies this`fieldAcceptanceState, this`deliveryVisible
      ensures Valid()
      ensures saved <==> Acceptable(categorizedFields, fieldId, inputValue)
      ensures !saved ==> fieldAcceptanceState == old(fieldAcceptanceState) && deliveryVisible == old(deliveryVisible)
      ensures saved ==> fieldAcceptanceState == old(fieldAcceptanceState)[fieldId := true]
      ensures saved ==> (deliveryVisible <==> DeliveryAvailable(categorizedFields, fieldAcceptanceState))
    {
      if CardSection(categorizedFields, fieldId) == ManualInput && inputValue.Some? {
        var value := inputValue.value;
        TrimEmptyIffBlank(value);
        if value == "" || Trim(value) == "" {
          return false;
        }
      }
      fieldAcceptanceState := fieldAcceptanceState[fieldId := true];
      deliveryVisible := DeliveryAvailable(categorizedFields, fieldAcceptanceState);
      saved := true;
    }

    /**
     * `handleAcceptAll`: run the accept handler on each listed card, the
     * section's cards whose accept button is enabled, in page order; `inputs`
     * holds the values of those with a manual input.
     */
    method HandleAcceptAll(cards: seq<string>, inputs: map<string, string>)
      requires Valid()
      requires forall i :: 0 <= i < |cards| ==> cards[i] in AllCards(categorizedFields)
      modifies this`fieldAcceptanceState, this`deliveryVisible
      ensures Valid()
      ensures fieldAcceptanceState == AcceptEach(old(fieldAcceptanceState), categorizedFields, cards, inputs)
      ensures AnySaved(categorizedFields, cards, inputs) ==>
                (deliveryVisible <==> DeliveryAvailable(categorizedFields, fieldAcceptanceState))
      ensures !AnySaved(categorizedFields, cards, inputs) ==> deliveryVisible == old(deliveryVisible)
    {
      var i := 0;
      while i < |cards|
        invariant 0 <= i <= |cards| && Valid()
        invariant fieldAcceptanceState == AcceptEach(old(fieldAcceptanceState), categorizedFields, cards[..i], inputs)
        invariant AnySaved(categorizedFields, cards[..i], inputs) ==>
                    (deliveryVisible <==> DeliveryAvailable(categorizedFields, fieldAcceptanceState))
        invariant !AnySaved(categorizedFields, cards[..i], inputs) ==> deliveryVisible == old(deliveryVisible)
      {
        var name := cards[i];
        ghost var before, prefix := fieldAcceptanceState, cards[..i + 1];
        assert prefix[..i] == cards[..i] && prefix[i] == name;
        var saved := HandleFieldAccept(name, InputOf(inputs, name));
        assert fieldAcceptanceState == if saved then before[name := true] else before;
        assert AnySaved(categorizedFields, prefix, inputs) <==> AnySaved(categorizedFields, cards[..i], inputs) || saved;
        i := i + 1;
      }
      assert cards[..i] == cards;
    }

    /**
     * `renderFields`: a card is created for every field of the three
     * sections, and `createFieldCard` marks each one pending; flags of names
     * not on the screen are kept. No card is accepted afterwards, so delivery
     * is not available.
     */
    method RenderFields()
      requires Valid()
      modifies this`fieldAcceptanceState
      ensures Valid()
      ensures fieldAcceptanceState == old(fieldAcceptanceState) + PendingFlags(AllCards(categorizedFields))
      ensures forall n :: n in AllCards(categorizedFields) ==> !IsAccepted(fieldAcceptanceState, n)
      ensures !DeliveryAvailable(categorizedFields, fieldAcceptanceState)
    {
      var cards := AllCards(categorizedFields);
      var remaining := cards;
      ghost var done: set<string> := {};
      while remaining != {}
        invariant remaining <= cards && done + remaining == cards
        invariant fieldAcceptanceState == old(fieldAcceptanceState) + PendingFlags(done)
        decreases |remaining|
      {
        var n :| n in remaining;
        PendingFlagsStep(old(fieldAcceptanceState), done, n);
        fieldAcceptanceState := fieldAcceptanceState[n := false];
        remaining, done := remaining - {n}, done + {n};
      }
      assert done == cards;
      PendingBlocksDelivery(categorizedFields, old(fieldAcceptanceState));
    }

    /**
     * `startProcessing` up to loading the fields: the document stage is
     * completed, the results stage entered, the delivery notification reset
     * and every acceptance flag dropped.
     */
    method StartProcessing()
      requires Valid()
      modifies this`completedStages, this`currentStage, this`fieldAcceptanceState, this`deliveryVisible
      ensures Valid()
      ensures completedStages == WithStage(old(completedStages), 4) && currentStage == 5
      ensures fieldAcceptanceState == map[] && !deliveryVisible
      ensures forall n :: !IsAccepted(fieldAcceptanceState, n)
    {
      CompleteStage(4);
      currentStage := 5;
      deliveryVisible := false;
      fieldAcceptanceState := map[];
    }

    /** The end of the processing simulation: the processing stage is completed. */
    method FinishProcessing()
      requires Valid()
      modifies this`completedStages
      ensures Valid()
      ensures completedStages == WithStage(old(completedStages), 5)
    {
      CompleteStage(5);
    }

    /** The close button of the delivery notification hides it. */
    method CloseDeliveryNotification()
      modifies this`deliveryVisible
      ensures !deliveryVisible
    {
      deliveryVisible := false;
    }

    /**
     * `handleDelivery` once the delivery succeeded: the notification is
     * hidden, and the application returns to the user portal with every
     * acceptance flag dropped.
     */
    method FinishDelivery()
      requires Valid()
      modifies this`fieldAcceptanceState, this`deliveryVisible, this`currentStage
      ensures Valid()
      ensures fieldAcceptanceState == map[] && !deliveryVisible && currentStage == 2
      ensures forall n :: !IsAccepted(fieldAcceptanceState, n)
    {
      deliveryVisible := false;
      currentStage := 2;
      fieldAcceptanceState := map[];
    }

    /**
     * `handleFieldEdit` on the card of `fieldId`: its flag is cleared and the
     * delivery notification hidden, which is what the delivery rule gives
     * once a card is pending.
     */
    method HandleFieldEdit(fieldId: string)
      requires Valid() && fieldId in AllCards(categorizedFields)
      modifies this`fieldAcceptanceState, this`deliveryVisible
      ensures Valid()
      ensures fieldAcceptanceState == old(fieldAcceptanceState)[fieldId := false]
      ensures !deliveryVisible && !DeliveryAvailable(categorizedFields, fieldAcceptanceState)
    {
      fieldAcceptanceState := fieldAcceptanceState[fieldId := false];
      EditWithdrawsDelivery(categorizedFields, old(fieldAcceptanceState), fieldId);
      deliveryVisible := false;
    }
  }
}
