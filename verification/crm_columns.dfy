/** The pipeline board of components/admin/admin-dashboard.tsx: grouping
    leads into stage columns, and moving a lead by drag and drop. */
module CrmColumns {
  import opened Optional
  import opened Crm

  /** The leads of stage `k`, in list order: the reference for a column. */
  function InStage(leads: seq<Lead>, k: Id): (r: seq<Lead>)
    ensures |r| <= |leads|
    ensures forall i :: 0 <= i < |r| ==> r[i].stageId == k
  {
    if leads == [] then []
    else InStage(leads[..|leads| - 1], k) + (if leads[|leads| - 1].stageId == k then [leads[|leads| - 1]] else [])
  }

  function StageIds(stages: seq<Stage>): set<Id>
  {
    set i | 0 <= i < |stages| :: stages[i].id
  }

  function LeadStageIds(leads: seq<Lead>): set<Id>
  {
    set i | 0 <= i < |leads| :: leads[i].stageId
  }

  /** `leadsByStage`: an empty column for every stage, then every lead
      appended to the column of its own stage (creating a column for a
      stage id that no stage has). */
  method LeadsByStage(stages: seq<Stage>, leads: seq<Lead>) returns (columns: map<Id, seq<Lead>>)
    ensures columns.Keys == StageIds(stages) + LeadStageIds(leads)
    ensures forall k :: k in columns ==> columns[k] == InStage(leads, k)
  {
    columns := EmptyColumns(stages);
    columns := AddLeads(columns, leads);
  }

  method EmptyColumns(stages: seq<Stage>) returns (columns: map<Id, seq<Lead>>)
    ensures columns.Keys == StageIds(stages)
    ensures forall k :: k in columns ==> columns[k] == []
  {
    columns := map[];
    for i := 0 to |stages|
      invariant columns.Keys == StageIds(stages[..i])
      invariant forall k :: k in columns ==> columns[k] == []
    {
      StageIdsSnoc(stages, i);
      columns := columns[stages[i].id := []];
    }
    assert stages[..|stages|] == stages;
  }

  /** The second loop: `map.get(lead.stage_id) ?? []`, push, set. */
  method AddLeads(empty: map<Id, seq<Lead>>, leads: seq<Lead>) returns (columns: map<Id, seq<Lead>>)
    requires forall k :: k in empty ==> empty[k] == []
    ensures columns.Keys == empty.Keys + LeadStageIds(leads)
    ensures forall k :: k in columns ==> columns[k] == InStage(leads, k)
  {
    columns := empty;
    assert LeadStageIds(leads[..0]) == {};
    for i := 0 to |leads|
      invariant columns.Keys == empty.Keys + LeadStageIds(leads[..i])
      invariant forall k :: k in columns ==> columns[k] == InStage(leads[..i], k)
    {
      var lead := leads[i];
      var column := if lead.stageId in columns then columns[lead.stageId] else [];
      if lead.stageId !in columns {
        InStageAbsent(leads[..i], lead.stageId);
      }
      var next := columns[lead.stageId := column + [lead]];
      forall k | k in next ensures next[k] == InStage(leads[..i + 1], k) {
        InStageSnoc(leads, i, k);
      }
      LeadStageIdsSnoc(leads, i);
      columns := next;
    }
    assert leads[..|leads|] == leads;
  }

  /** A stage no lead names has an empty column. */
  lemma {:induction false} InStageAbsent(leads: seq<Lead>, k: Id)
    requires k !in LeadStageIds(leads)
    ensures InStage(leads, k) == []
  {
    if leads != [] {
      var init := leads[..|leads| - 1];
      assert LeadStageIds(init) <= LeadStageIds(leads) by {
        forall j | 0 <= j < |init| ensures init[j].stageId in LeadStageIds(leads) {
          assert init[j] == leads[j];
        }
      }
      assert leads[|leads| - 1].stageId in LeadStageIds(leads);
      InStageAbsent(init, k);
    }
  }

  lemma StageIdsSnoc(stages: seq<Stage>, i: nat)
    requires i < |stages|
    ensures StageIds(stages[..i + 1]) == StageIds(stages[..i]) + {stages[i].id}
  {
    assert forall j :: 0 <= j < i ==> stages[..i + 1][j] == stages[..i][j];
    assert stages[..i + 1][i] == stages[i];
  }

  lemma LeadStageIdsSnoc(leads: seq<Lead>, i: nat)
    requires i < |leads|
    ensures LeadStageIds(leads[..i + 1]) == LeadStageIds(leads[..i]) + {leads[i].stageId}
  {
    assert forall j :: 0 <= j < i ==> leads[..i + 1][j] == leads[..i][j];
    assert leads[..i + 1][i] == leads[i];
  }

  lemma InStageSnoc(leads: seq<Lead>, i: nat, k: Id)
    requires i < |leads|
    ensures InStage(leads[..i + 1], k) == InStage(leads[..i], k) + (if leads[i].stageId == k then [leads[i]] else [])
  {
    assert leads[..i + 1][..i] == leads[..i];
  }

  /** Every lead is in the column of its own stage as often as it is in the
      list, and in no other column. */
  lemma {:induction false} ColumnsPartitionLeads(leads: seq<Lead>, x: Lead, k: Id)
    ensures multiset(InStage(leads, x.stageId))[x] == multiset(leads)[x]
    ensures k != x.stageId ==> multiset(InStage(leads, k))[x] == 0
  {
    if leads != [] {
      var init := leads[..|leads| - 1];
      ColumnsPartitionLeads(init, x, k);
      assert leads == init + [leads[|leads| - 1]];
      assert multiset(leads) == multiset(init) + multiset{leads[|leads| - 1]};
    }
  }

  /** A stage's column and the leads outside it account for every lead
      once. */
  lemma {:induction false} ColumnSize(leads: seq<Lead>, k: Id)
    ensures |InStage(leads, k)| + |Others(leads, k)| == |leads|
  {
    if leads != [] {
      ColumnSize(leads[..|leads| - 1], k);
    }
  }

  function Others(leads: seq<Lead>, k: Id): seq<Lead>
  {
    if leads == [] then []
    else Others(leads[..|leads| - 1], k) + (if leads[|leads| - 1].stageId == k then [] else [leads[|leads| - 1]])
  }

  /** `findStageIdFromOverId`: only a stage id is a drop target. */
  function FindStageIdFromOverId(stages: seq<Stage>, overId: Id): (r: Option<Id>)
    ensures r.Some? <==> exists j :: 0 <= j < |stages| && stages[j].id == overId
    ensures r.Some? ==> r.value == overId
  {
    if exists j :: 0 <= j < |stages| && stages[j].id == overId then Some(overId) else None
  }

  /** The first lead with the given id, as `leads.find` returns it. */
  function FindLead(leads: seq<Lead>, id: Id): (r: Option<Lead>)
    ensures r.Some? ==> r.value in leads && r.value.id == id
    ensures r.None? <==> forall i :: 0 <= i < |leads| ==> leads[i].id != id
    // the first match wins
    ensures r.Some? ==>
              exists k :: 0 <= k < |leads| && leads[k] == r.value
                          && forall j :: 0 <= j < k ==> leads[j].id != id
  {
    if leads == [] then None
    else if leads[0].id == id then Some(leads[0])
    else
      var r := FindLead(leads[1..], id);
      assert forall i :: 1 <= i < |leads| ==> leads[i] == leads[1..][i - 1];
      r
  }

  /** The optimistic rewrite: every lead with the dragged id moves. */
  function Move(leads: seq<Lead>, id: Id, stageId: Id): (r: seq<Lead>)
    ensures |r| == |leads|
    ensures forall i :: 0 <= i < |leads| ==>
              r[i] == (if leads[i].id == id then leads[i].(stageId := stageId) else leads[i])
  {
    seq(|leads|, i requires 0 <= i < |leads| => if leads[i].id == id then leads[i].(stageId := stageId) else leads[i])
  }

  /** Where a drop goes, if anywhere: the dragged lead and the target
      stage, when the drop names a stage other than the lead's own. */
  datatype Drop = Drop(lead: Lead, target: Id)

  function ResolveDrop(b: Board, activeId: Id, overId: Option<Id>): (r: Option<Drop>)
    ensures r.Some? ==> overId.Some? && overId.value != ""
    ensures r.Some? ==> FindLead(b.leads, activeId) == Some(r.value.lead)
    ensures r.Some? ==> r.value.target != "" && r.value.target != r.value.lead.stageId
    ensures r.Some? ==> FindStageIdFromOverId(b.stages, overId.value) == Some(r.value.target)
    ensures r.None? <==>
              || overId.None? || overId.value == ""
              || FindLead(b.leads, activeId).None?
              || FindStageIdFromOverId(b.stages, overId.value).None?
              || overId.value == FindLead(b.leads, activeId).value.stageId
  {
    if overId.None? || overId.value == "" then None
    else
      match FindLead(b.leads, activeId)
      case None => None
      case Some(lead) =>
        match FindStageIdFromOverId(b.stages, overId.value)
        case None => None
        case Some(target) => if target == "" || target == lead.stageId then None else Some(Drop(lead, target))
  }

  /** `onDragEnd` as written: on a failed write the message is set and the
      reload that follows clears it again. */
  function DragEndAsWritten(b: Board, activeId: Id, overId: Option<Id>, write: Outcome, reload: Reload): (r: Step)
    ensures r.board.activeLeadId == None
  {
    var idle := b.(activeLeadId := None);
    if !b.configured then Unchanged(idle.(error := NotConfigured))
    else
      match ResolveDrop(b, activeId, overId)
      case None => Unchanged(idle)
      case Some(Drop(lead, target)) =>
        var moved := idle.(leads := Move(b.leads, lead.id, target));
        match write
        case Ok => Step(moved, [MoveLead(lead.id, target)], false)
        case Failed(message) => Step(Refresh(moved.(error := message), reload), [MoveLead(lead.id, target)], true)
  }

  /** The failure message of the drag write never survives a successful
      reload. */
  lemma DragEndAsWrittenLosesError(b: Board, activeId: Id, overId: Option<Id>, message: string,
                                   inquiries: seq<Inquiry>, stages: seq<Stage>, leads: seq<Lead>)
    requires b.configured && ResolveDrop(b, activeId, overId).Some?
    ensures DragEndAsWritten(b, activeId, overId, Failed(message), Loaded(inquiries, stages, leads)).board.error == ""
  {
  }

  /** `onDragEnd` with the failure message shown after the reload. */
  function DragEnd(b: Board, activeId: Id, overId: Option<Id>, write: Outcome, reload: Reload): (r: Step)
    // the drag state is cleared on every path
    ensures r.board.activeLeadId == None
    ensures !b.configured ==> r == Unchanged(b.(activeLeadId := None, error := NotConfigured))
    // the no-op drops: nothing but the drag state changes
    ensures b.configured && ResolveDrop(b, activeId, overId).None? ==> r == Unchanged(b.(activeLeadId := None))
    ensures b.configured && ResolveDrop(b, activeId, overId).Some? ==>
              var d := ResolveDrop(b, activeId, overId).value;
              && r.writes == [MoveLead(d.lead.id, d.target)]
              && (write.Ok? ==> r.board == b.(activeLeadId := None, leads := Move(b.leads, d.lead.id, d.target)) && !r.reloaded)
              && (write.Failed? ==> r.reloaded)
              && (write.Failed? ==>
                    r.board == Refresh(b.(activeLeadId := None, leads := Move(b.leads, d.lead.id, d.target)), reload)
                               .(error := write.message))
  {
    var r := DragEndAsWritten(b, activeId, overId, write, reload);
    if b.configured && ResolveDrop(b, activeId, overId).Some? && write.Failed? then
      r.(board := r.board.(error := write.message))
    else r
  }

  /** A failed move is rolled back: once the reload succeeds the board
      shows the backend's tables again, not the optimistic move, and the
      failure message stays on screen. */
  lemma FailedDropRollsBack(b: Board, activeId: Id, overId: Option<Id>, message: string,
                            inquiries: seq<Inquiry>, stages: seq<Stage>, leads: seq<Lead>)
    requires b.configured && ResolveDrop(b, activeId, overId).Some?
    ensures var r := DragEnd(b, activeId, overId, Failed(message), Loaded(inquiries, stages, leads));
            && r.board.inquiries == inquiries && r.board.stages == stages && r.board.leads == leads
            && r.board.error == message && r.board.activeLeadId == None && r.board.view == b.view
            && r.reloaded
  {
  }

  /** After a successful drop only the dragged lead changes, and only its
      stage; the other leads and tables are untouched. */
  lemma DropMovesOnlyDraggedLead(b: Board, activeId: Id, overId: Id, i: nat)
    requires b.configured && ResolveDrop(b, activeId, Some(overId)).Some? && i < |b.leads|
    ensures var r := DragEnd(b, activeId, Some(overId), Ok, LoadFailed(""));
            && r.board.inquiries == b.inquiries && r.board.stages == b.stages
            && |r.board.leads| == |b.leads|
            && (b.leads[i].id != activeId ==> r.board.leads[i] == b.leads[i])
            && (b.leads[i].id == activeId ==> r.board.leads[i] == b.leads[i].(stageId := overId))
  {
  }

  /** A successful drop keeps every lead in an existing stage. */
  lemma DropKeepsStagesReferenced(b: Board, activeId: Id, overId: Option<Id>, reload: Reload)
    requires b.configured && StagesReferenced(b.stages, b.leads)
    ensures StagesReferenced(DragEnd(b, activeId, overId, Ok, reload).board.stages,
                             DragEnd(b, activeId, overId, Ok, reload).board.leads)
  {
    var r := DragEnd(b, activeId, overId, Ok, reload);
    if ResolveDrop(b, activeId, overId).Some? {
      var d := ResolveDrop(b, activeId, overId).value;
      var target := d.target;
      assert exists j :: 0 <= j < |b.stages| && b.stages[j].id == target;
      forall i | 0 <= i < |r.board.leads|
        ensures exists j :: 0 <= j < |r.board.stages| && r.board.stages[j].id == r.board.leads[i].stageId
      {
        if b.leads[i].id != d.lead.id {
          assert r.board.leads[i] == b.leads[i];
        }
      }
    }
  }

  /** A lead card's id is never a drop target unless a stage shares it. */
  lemma LeadIdIsNoTarget(b: Board, activeId: Id, lead: Lead, reload: Reload)
    requires b.configured && lead in b.leads
    requires forall j :: 0 <= j < |b.stages| ==> b.stages[j].id != lead.id
    ensures DragEnd(b, activeId, Some(lead.id), Ok, reload) == Unchanged(b.(activeLeadId := None))
  {
  }
}
