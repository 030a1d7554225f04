/** Editing and deleting cached leads and inquiries in
    components/admin/admin-dashboard.tsx. These handlers patch the cache
    locally after a successful write instead of reloading. */
module CrmLeads {
  import opened Optional
  import Text
  import opened Crm
  import CrmStages

  const NamesRequired: string := "First name and last name are required."

  /** `openEditLead`: the edit form opens on the lead's details, a null
      field showing as "". */
  function EditDraft(l: Lead): (d: CrmStages.Draft)
    ensures d.firstName == l.details.firstName && d.lastName == l.details.lastName
    ensures d.email == l.details.email.GetOr("") && d.phone == l.details.phone.GetOr("")
    ensures d.company == l.details.company.GetOr("") && d.notes == l.details.notes.GetOr("")
  {
    CrmStages.Draft(l.details.firstName, l.details.lastName, l.details.email.GetOr(""),
                    l.details.phone.GetOr(""), l.details.company.GetOr(""), l.details.notes.GetOr(""))
  }

  /** `{ ...l, ...payload }` for the lead being edited, every other lead as
      it was. */
  function ReplaceDetails(leads: seq<Lead>, id: Id, details: Details): (r: seq<Lead>)
    ensures |r| == |leads|
    ensures forall i :: 0 <= i < |leads| && leads[i].id != id ==> r[i] == leads[i]
    ensures forall i :: 0 <= i < |leads| && leads[i].id == id ==>
              r[i].id == id && r[i].stageId == leads[i].stageId && r[i].inquiryId == leads[i].inquiryId && r[i].details == details
  {
    seq(|leads|, i requires 0 <= i < |leads| => if leads[i].id == id then leads[i].(details := details) else leads[i])
  }

  /** `onSaveLead` for the lead being edited (`None` when the dialog has
      none) and the form as typed. */
  function SaveLead(b: Board, editing: Option<Lead>, d: CrmStages.Draft, update: Outcome): (r: Step)
    ensures !r.reloaded
    ensures !b.configured ==> r == Unchanged(b.(error := NotConfigured))
    ensures b.configured && editing.None? ==> r == Unchanged(b)
    // missing names: an error and no write
    ensures b.configured && editing.Some? && (Text.AllWhitespace(d.firstName) || Text.AllWhitespace(d.lastName)) ==>
              r == Unchanged(b.(error := NamesRequired))
    ensures b.configured && editing.Some? && !Text.AllWhitespace(d.firstName) && !Text.AllWhitespace(d.lastName) ==>
              && r.writes == [UpdateLead(editing.value.id, CrmStages.FromDraft(d))]
              && (update.Failed? ==> r.board == b.(error := update.message))
              && (update.Ok? ==> r.board == b.(error := "", leads := ReplaceDetails(b.leads, editing.value.id, CrmStages.FromDraft(d))))
  {
    if !b.configured then Unchanged(b.(error := NotConfigured))
    else if editing.None? then Unchanged(b)
    else if Text.Trim(d.firstName) == "" || Text.Trim(d.lastName) == "" then Unchanged(b.(error := NamesRequired))
    else
      var lead := editing.value;
      var details := CrmStages.FromDraft(d);
      var cleared := b.(error := "");
      var writes := [UpdateLead(lead.id, details)];
      match update
      case Failed(message) => Step(cleared.(error := message), writes, false)
      case Ok => Step(cleared.(leads := ReplaceDetails(b.leads, lead.id, details)), writes, false)
  }

  /** A value as a save stores it: trimmed and not blank. */
  predicate Stored(s: string)
  {
    s != "" && s == Text.Trim(s)
  }

  predicate StoredOrNull(v: Option<string>)
  {
    v.Some? ==> Stored(v.value)
  }

  /** Details in the form a save produces. */
  predicate Normalized(d: Details)
  {
    Stored(d.firstName) && Stored(d.lastName)
    && StoredOrNull(d.email) && StoredOrNull(d.phone) && StoredOrNull(d.company) && StoredOrNull(d.notes)
  }

  /** `value.trim() || null` on a field shown as its stored value, or as ""
      for null, gives the field back. */
  lemma BlankOfShown(v: Option<string>)
    requires StoredOrNull(v)
    ensures Blank(v.GetOr("")) == v
  {
    if v.None? {
      assert Text.AllWhitespace("");
    }
  }

  /** Reopening the edit dialog on normalised details and saving without
      typing gives the same details back: a save is idempotent. */
  lemma ReopenAndSaveIsIdentity(l: Lead)
    requires Normalized(l.details)
    ensures CrmStages.FromDraft(EditDraft(l)) == l.details
  {
    var d := EditDraft(l);
    BlankOfShown(l.details.email);
    BlankOfShown(l.details.phone);
    BlankOfShown(l.details.company);
    BlankOfShown(l.details.notes);
    assert Text.Trim(d.firstName) == l.details.firstName;
    assert Text.Trim(d.lastName) == l.details.lastName;
  }

  /** Whatever is typed, a save stores normalised details. */
  lemma SaveNormalizes(d: CrmStages.Draft)
    requires !Text.AllWhitespace(d.firstName) && !Text.AllWhitespace(d.lastName)
    ensures Normalized(CrmStages.FromDraft(d))
  {
    Text.TrimIdempotent(d.firstName);
    Text.TrimIdempotent(d.lastName);
    TrimmedBlank(d.email);
    TrimmedBlank(d.phone);
    TrimmedBlank(d.company);
    TrimmedBlank(d.notes);
  }

  lemma TrimmedBlank(s: string)
    ensures StoredOrNull(Blank(s))
  {
    Text.TrimIdempotent(s);
  }

  /** The inquiries that survive deleting lead `l` locally: neither the one
      it was converted from nor any that points at it. */
  function KeepInquiriesOf(inquiries: seq<Inquiry>, l: Lead): (r: seq<Inquiry>)
    ensures forall x :: x in r <==> x in inquiries && Some(x.id) != l.inquiryId && x.leadId != Some(l.id)
  {
    Filter(inquiries, (i: Inquiry) => Some(i.id) != l.inquiryId && i.leadId != Some(l.id))
  }

  /** The leads other than the one with id `id`. */
  function KeepLeadsBut(leads: seq<Lead>, id: Id): (r: seq<Lead>)
    ensures forall x :: x in r <==> x in leads && x.id != id
  {
    Filter(leads, (l: Lead) => l.id != id)
  }

  /** `onDeleteLead` for the lead being edited. */
  function DeleteLead(b: Board, editing: Option<Lead>, delete: Outcome): (r: Step)
    ensures !r.reloaded
    ensures !b.configured ==> r == Unchanged(b.(error := NotConfigured))
    ensures b.configured && editing.None? ==> r == Unchanged(b)
    ensures b.configured && editing.Some? ==>
              && r.writes == [Crm.DeleteLead(editing.value.id)]
              && (delete.Failed? ==> r.board == b.(error := delete.message))
              && (delete.Ok? ==>
                    r.board == b.(error := "", leads := KeepLeadsBut(b.leads, editing.value.id),
                                  inquiries := KeepInquiriesOf(b.inquiries, editing.value)))
  {
    if !b.configured then Unchanged(b.(error := NotConfigured))
    else if editing.None? then Unchanged(b)
    else
      var lead := editing.value;
      var cleared := b.(error := "");
      var writes := [Crm.DeleteLead(lead.id)];
      match delete
      case Failed(message) => Step(cleared.(error := message), writes, false)
      case Ok => Step(cleared.(leads := KeepLeadsBut(b.leads, lead.id), inquiries := KeepInquiriesOf(b.inquiries, lead)), writes, false)
  }

  /** After a lead is deleted no cached lead has its id and no cached
      inquiry points at it. */
  lemma DeletedLeadLeavesNoTrace(b: Board, l: Lead)
    requires b.configured
    ensures var r := DeleteLead(b, Some(l), Ok).board;
            && (forall i :: 0 <= i < |r.leads| ==> r.leads[i].id != l.id)
            && (forall i :: 0 <= i < |r.inquiries| ==> r.inquiries[i].leadId != Some(l.id))
  {
  }

  /** `onDeleteInquiry` for the inquiry being deleted. The linked lead is
      dropped from the cache only when `lead_id` is set (and non-empty). */
  function DeleteInquiry(b: Board, deleting: Option<Inquiry>, delete: Outcome): (r: Step)
    ensures !r.reloaded
    ensures !b.configured ==> r == Unchanged(b.(error := NotConfigured))
    ensures b.configured && deleting.None? ==> r == Unchanged(b)
    ensures b.configured && deleting.Some? ==>
              && r.writes == [Crm.DeleteInquiry(deleting.value.id)]
              && (delete.Failed? ==> r.board == b.(error := delete.message))
              && (delete.Ok? ==>
                    && r.board == b.(error := "", inquiries := Filter(b.inquiries, (i: Inquiry) => i.id != deleting.value.id),
                                     leads := r.board.leads)
                    && (deleting.value.leadId.Some? && deleting.value.leadId.value != "" ==>
                          r.board.leads == KeepLeadsBut(b.leads, deleting.value.leadId.value))
                    && (deleting.value.leadId.None? || deleting.value.leadId == Some("") ==> r.board.leads == b.leads))
  {
    if !b.configured then Unchanged(b.(error := NotConfigured))
    else if deleting.None? then Unchanged(b)
    else
      var inquiry := deleting.value;
      var cleared := b.(error := "");
      var writes := [Crm.DeleteInquiry(inquiry.id)];
      match delete
      case Failed(message) => Step(cleared.(error := message), writes, false)
      case Ok =>
        var leads := if inquiry.leadId.Some? && inquiry.leadId.value != "" then KeepLeadsBut(b.leads, inquiry.leadId.value) else b.leads;
        Step(cleared.(inquiries := Filter(b.inquiries, (i: Inquiry) => i.id != inquiry.id), leads := leads), writes, false)
  }
}
