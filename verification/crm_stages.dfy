/** Stage handling in components/admin/admin-dashboard.tsx: the stage a
    new or converted lead goes to, converting an inquiry, creating a lead,
    and adding, renaming and deleting stages. */
module CrmStages {
  import opened Optional
  import Text
  import opened Crm

  const NewLeadName: string := "new lead"
  const NoStagesForConvert: string := "No CRM stages found. Add a stage first."
  const NoStagesForCreate: string := "No CRM stages found."
  const StageNotEmpty: string := "Move leads out of this stage before deleting it."

  predicate IsNewLeadStage(s: Stage)
  {
    Text.ToLower(s.name) == NewLeadName
  }

  /** `stages.find(s => s.name.toLowerCase() === 'new lead')`. */
  function FindNewLeadStage(stages: seq<Stage>): (r: Option<nat>)
    ensures r.Some? ==> r.value < |stages| && IsNewLeadStage(stages[r.value])
    ensures r.Some? ==> forall j :: 0 <= j < r.value ==> !IsNewLeadStage(stages[j])
    ensures r.None? ==> forall j :: 0 <= j < |stages| ==> !IsNewLeadStage(stages[j])
  {
    if stages == [] then None
    else if IsNewLeadStage(stages[0]) then Some(0)
    else
      match FindNewLeadStage(stages[1..])
      case None => None
      case Some(k) => Some(k + 1)
  }

  /** The head of a stable sort by ascending position: the first stage of
      least position. */
  function FirstOfLeastPosition(stages: seq<Stage>): (i: nat)
    requires stages != []
    ensures i < |stages|
    ensures forall j :: 0 <= j < |stages| ==> stages[i].position <= stages[j].position
    ensures forall j :: 0 <= j < i ==> stages[j].position > stages[i].position
  {
    if |stages| == 1 then 0
    else
      var k := FirstOfLeastPosition(stages[1..]) + 1;
      if stages[0].position <= stages[k].position then 0 else k
  }

  /** The destination stage of a new or converted lead. */
  function ChooseStage(stages: seq<Stage>): (r: Option<Stage>)
    ensures r.None? <==> stages == []
    ensures r.Some? ==> r.value in stages
    // a stage named "new lead" (in any letter case) wins, the first one
    ensures FindNewLeadStage(stages).Some? ==> r == Some(stages[FindNewLeadStage(stages).value])
    // otherwise one of least position, the first such
    ensures FindNewLeadStage(stages).None? && r.Some? ==>
              forall j :: 0 <= j < |stages| ==> r.value.position <= stages[j].position
    ensures FindNewLeadStage(stages).None? && stages != [] ==> r == Some(stages[FirstOfLeastPosition(stages)])
  {
    match FindNewLeadStage(stages)
    case Some(i) => Some(stages[i])
    case None => if stages == [] then None else Some(stages[FirstOfLeastPosition(stages)])
  }

  lemma ChooseStageExamples()
    ensures ChooseStage([Stage("a", "Qualified", 1), Stage("b", "New Lead", 7)]) == Some(Stage("b", "New Lead", 7))
    ensures ChooseStage([Stage("a", "Won", 3), Stage("b", "Open", 2), Stage("c", "Lost", 2)]) == Some(Stage("b", "Open", 2))
  {
    assert Text.ToLower("Qualified") != NewLeadName;
    assert Text.ToLower("New Lead") == NewLeadName;
    assert Text.ToLower("Won") != NewLeadName;
    assert Text.ToLower("Open") != NewLeadName;
    assert Text.ToLower("Lost") != NewLeadName;
  }

  /** The result of inserting a lead and reading back its id. */
  datatype Inserted = InsertedId(id: Id) | InsertFailed(message: string)

  /** The lead row a conversion creates: the inquiry's contact details,
      its message as the notes, no company. */
  function ConvertedRow(stage: Stage, inquiry: Inquiry): (row: NewLead)
    ensures row.stageId == stage.id && row.inquiryId == Some(inquiry.id)
    ensures row.details == Details(inquiry.firstName, inquiry.lastName, Some(inquiry.email), inquiry.phone, None, Some(inquiry.message))
  {
    NewLead(stage.id, Some(inquiry.id), Details(inquiry.firstName, inquiry.lastName, Some(inquiry.email), inquiry.phone, None, Some(inquiry.message)))
  }

  /** `onConvertInquiry`: insert the lead, link the inquiry to it, reload
      and switch to the pipeline. */
  function Convert(b: Board, inquiry: Inquiry, insert: Inserted, update: Outcome, reload: Reload): (r: Step)
    ensures !b.configured ==> r == Unchanged(b.(error := NotConfigured))
    ensures b.configured && b.stages == [] ==> r == Unchanged(b.(error := NoStagesForConvert))
    ensures b.configured && b.stages != [] ==>
              var row := ConvertedRow(ChooseStage(b.stages).value, inquiry);
              && (insert.InsertFailed? ==> r == Step(b.(error := insert.message), [InsertLead(row)], false))
              && (insert.InsertedId? ==> r.writes == [InsertLead(row), MarkConverted(inquiry.id, insert.id)])
              && (insert.InsertedId? && update.Failed? ==> r.board == b.(error := update.message) && !r.reloaded)
              && (insert.InsertedId? && update.Ok? ==>
                    r.board == Refresh(b.(error := ""), reload).(view := CrmView) && r.reloaded)
  {
    if !b.configured then Unchanged(b.(error := NotConfigured))
    else
      var cleared := b.(error := "");
      match ChooseStage(b.stages)
      case None => Unchanged(cleared.(error := NoStagesForConvert))
      case Some(stage) =>
        var row := ConvertedRow(stage, inquiry);
        match insert
        case InsertFailed(message) => Step(cleared.(error := message), [InsertLead(row)], false)
        case InsertedId(id) =>
          var writes := [InsertLead(row), MarkConverted(inquiry.id, id)];
          match update
          case Failed(message) => Step(cleared.(error := message), writes, false)
          case Ok => Step(Refresh(cleared, reload).(view := CrmView), writes, true)
  }

  /** The new-lead form, as typed. */
  datatype Draft = Draft(firstName: string, lastName: string, email: string, phone: string, company: string, notes: string)

  /** The details a form yields: names trimmed, optional fields trimmed
      with blanks stored as null. */
  function FromDraft(d: Draft): (r: Details)
    ensures r.firstName == Text.Trim(d.firstName) && r.lastName == Text.Trim(d.lastName)
    ensures r.email == Blank(d.email) && r.phone == Blank(d.phone)
    ensures r.company == Blank(d.company) && r.notes == Blank(d.notes)
  {
    Details(Text.Trim(d.firstName), Text.Trim(d.lastName), Blank(d.email), Blank(d.phone), Blank(d.company), Blank(d.notes))
  }

  /** `onCreateLead`. A form without both names is ignored silently. */
  function CreateLead(b: Board, d: Draft, insert: Outcome, reload: Reload): (r: Step)
    ensures !b.configured ==> r == Unchanged(b.(error := NotConfigured))
    ensures b.configured && (Text.AllWhitespace(d.firstName) || Text.AllWhitespace(d.lastName)) ==> r == Unchanged(b)
    ensures b.configured && !Text.AllWhitespace(d.firstName) && !Text.AllWhitespace(d.lastName) ==>
              && (b.stages == [] ==> r == Unchanged(b.(error := NoStagesForCreate)))
              && (b.stages != [] ==>
                    r == AfterWrite(b.(error := ""), [InsertLead(NewLead(ChooseStage(b.stages).value.id, None, FromDraft(d)))], insert, reload))
  {
    if !b.configured then Unchanged(b.(error := NotConfigured))
    else if Text.Trim(d.firstName) == "" || Text.Trim(d.lastName) == "" then Unchanged(b)
    else
      var cleared := b.(error := "");
      match ChooseStage(b.stages)
      case None => Unchanged(cleared.(error := NoStagesForCreate))
      case Some(stage) => AfterWrite(cleared, [InsertLead(NewLead(stage.id, None, FromDraft(d)))], insert, reload)
  }

  /** A lead is only ever inserted with both names present. */
  lemma CreatedLeadHasNames(b: Board, d: Draft, insert: Outcome, reload: Reload)
    ensures var r := CreateLead(b, d, insert, reload);
            forall w :: w in r.writes ==> w.InsertLead? && w.row.details.firstName != "" && w.row.details.lastName != ""
  {
    var r := CreateLead(b, d, insert, reload);
    if r.writes != [] {
      assert !Text.AllWhitespace(d.firstName) && !Text.AllWhitespace(d.lastName);
      assert r.writes == [InsertLead(NewLead(ChooseStage(b.stages).value.id, None, FromDraft(d)))];
    }
  }

  /** `(stages.at(-1)?.position ?? 0) + 1`: one past the LAST stage's
      position, which is not necessarily the largest. */
  function NextPosition(stages: seq<Stage>): (p: int)
    ensures stages == [] ==> p == 1
    ensures stages != [] ==> p == stages[|stages| - 1].position + 1
  {
    (if stages == [] then 0 else stages[|stages| - 1].position) + 1
  }

  predicate SortedByPosition(stages: seq<Stage>)
  {
    forall i, j :: 0 <= i < j < |stages| ==> stages[i].position <= stages[j].position
  }

  /** Stages are loaded ordered by position, and then the next position is
      above every existing one. */
  lemma NextPositionIsFresh(stages: seq<Stage>)
    requires SortedByPosition(stages)
    ensures forall j :: 0 <= j < |stages| ==> stages[j].position < NextPosition(stages)
  {
  }

  /** Out of order, the new position can collide with an existing one. */
  lemma NextPositionUsesLast()
    ensures NextPosition([Stage("a", "Won", 5), Stage("b", "Open", 2)]) == 3
    ensures NextPosition([Stage("a", "Won", 3), Stage("b", "Open", 2)]) == 3
  {
  }

  /** `onAddStage`. A blank name is ignored silently. */
  function AddStage(b: Board, name: string, insert: Outcome, reload: Reload): (r: Step)
    ensures !b.configured ==> r == Unchanged(b.(error := NotConfigured))
    ensures b.configured && Text.AllWhitespace(name) ==> r == Unchanged(b)
    ensures b.configured && !Text.AllWhitespace(name) ==>
              r == AfterWrite(b.(error := ""), [InsertStage(Text.Trim(name), NextPosition(b.stages))], insert, reload)
  {
    if !b.configured then Unchanged(b.(error := NotConfigured))
    else
      var trimmed := Text.Trim(name);
      if trimmed == "" then Unchanged(b)
      else AfterWrite(b.(error := ""), [InsertStage(trimmed, NextPosition(b.stages))], insert, reload)
  }

  /** `onRenameStage`. A blank name is ignored silently. */
  function RenameStage(b: Board, stageId: Id, name: string, update: Outcome, reload: Reload): (r: Step)
    ensures !b.configured ==> r == Unchanged(b.(error := NotConfigured))
    ensures b.configured && Text.AllWhitespace(name) ==> r == Unchanged(b)
    ensures b.configured && !Text.AllWhitespace(name) ==>
              r == AfterWrite(b.(error := ""), [Crm.RenameStage(stageId, Text.Trim(name))], update, reload)
  {
    if !b.configured then Unchanged(b.(error := NotConfigured))
    else
      var trimmed := Text.Trim(name);
      if trimmed == "" then Unchanged(b)
      else AfterWrite(b.(error := ""), [Crm.RenameStage(stageId, trimmed)], update, reload)
  }

  predicate HasLeads(leads: seq<Lead>, stageId: Id)
  {
    exists i :: 0 <= i < |leads| && leads[i].stageId == stageId
  }

  /** `onDeleteStage`: refused while any cached lead is in the stage. */
  function DeleteStage(b: Board, stageId: Id, delete: Outcome, reload: Reload): (r: Step)
    ensures !b.configured ==> r == Unchanged(b.(error := NotConfigured))
    ensures b.configured && HasLeads(b.leads, stageId) ==> r == Unchanged(b.(error := StageNotEmpty))
    ensures b.configured && !HasLeads(b.leads, stageId) ==>
              r == AfterWrite(b.(error := ""), [Crm.DeleteStage(stageId)], delete, reload)
    // a delete is sent only for a stage no cached lead is in
    ensures r.writes != [] ==> forall i :: 0 <= i < |b.leads| ==> b.leads[i].stageId != stageId
  {
    if !b.configured then Unchanged(b.(error := NotConfigured))
    else
      var cleared := b.(error := "");
      if HasLeads(b.leads, stageId) then Unchanged(cleared.(error := StageNotEmpty))
      else AfterWrite(cleared, [Crm.DeleteStage(stageId)], delete, reload)
  }
}
