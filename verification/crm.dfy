/** The data of the admin dashboard in components/admin/admin-dashboard.tsx:
    the three cached tables, the error banner, and the drag state. Every
    handler is a step function from a board, its inputs and the outcomes
    of the backend calls it makes, to the next board, the writes it sent
    (in order), and whether it reloaded everything. */
module Crm {
  import opened Optional
  import Text

  type Id = string

  datatype Inquiry = Inquiry(
    id: Id, createdAt: string,
    firstName: string, lastName: string, email: string, phone: Option<string>,
    message: string, sourceUrl: Option<string>,
    convertedToLead: bool, leadId: Option<Id>)

  datatype Stage = Stage(id: Id, name: string, position: int)

  /** The editable details of a lead. */
  datatype Details = Details(
    firstName: string, lastName: string,
    email: Option<string>, phone: Option<string>, company: Option<string>, notes: Option<string>)

  datatype Lead = Lead(id: Id, stageId: Id, inquiryId: Option<Id>, details: Details)

  datatype View = DashboardView | InquiriesView | CrmView

  datatype Board = Board(
    configured: bool,
    inquiries: seq<Inquiry>, stages: seq<Stage>, leads: seq<Lead>,
    error: string, activeLeadId: Option<Id>, view: View)

  /** A row sent to the `crm_leads` table. */
  datatype NewLead = NewLead(stageId: Id, inquiryId: Option<Id>, details: Details)

  /** The writes the dashboard sends to the backend. */
  datatype Write =
    | MoveLead(leadId: Id, stageId: Id)
    | UpdateLead(leadId: Id, details: Details)
    | DeleteLead(leadId: Id)
    | InsertLead(row: NewLead)
    | MarkConverted(inquiryId: Id, leadId: Id)
    | DeleteInquiry(inquiryId: Id)
    | InsertStage(name: string, position: int)
    | RenameStage(stageId: Id, name: string)
    | DeleteStage(stageId: Id)

  /** The outcome of one write: success, or the backend's error message. */
  datatype Outcome = Ok | Failed(message: string)

  /** The outcome of reloading all three tables (each already ordered as
      queried), or the first error among them. */
  datatype Reload = Loaded(inquiries: seq<Inquiry>, stages: seq<Stage>, leads: seq<Lead>) | LoadFailed(message: string)

  datatype Step = Step(board: Board, writes: seq<Write>, reloaded: bool)

  const NotConfigured: string := "Supabase is not configured."

  /** `refreshAll`: clear the banner, then replace the three tables, or
      show the first load error and keep the old ones. */
  function Refresh(b: Board, reload: Reload): (r: Board)
    ensures r.configured == b.configured && r.activeLeadId == b.activeLeadId && r.view == b.view
    ensures !b.configured ==> r == b.(error := NotConfigured)
    ensures b.configured && reload.Loaded? ==>
              r.error == "" && r.inquiries == reload.inquiries && r.stages == reload.stages && r.leads == reload.leads
    ensures b.configured && reload.LoadFailed? ==>
              r.error == reload.message && r.inquiries == b.inquiries && r.stages == b.stages && r.leads == b.leads
  {
    if !b.configured then b.(error := NotConfigured)
    else
      var cleared := b.(error := "");
      match reload
      case Loaded(inquiries, stages, leads) => cleared.(inquiries := inquiries, stages := stages, leads := leads)
      case LoadFailed(message) => cleared.(error := message)
  }

  /** The common tail of a handler whose write succeeded or failed: on
      success reload (when the handler does), on failure show the message. */
  function AfterWrite(b: Board, writes: seq<Write>, outcome: Outcome, reload: Reload): (r: Step)
    ensures r.writes == writes
    ensures r.reloaded <==> outcome.Ok?
    ensures outcome.Ok? ==> r.board == Refresh(b, reload)
    ensures outcome.Failed? ==> r.board == b.(error := outcome.message)
  {
    match outcome
    case Ok => Step(Refresh(b, reload), writes, true)
    case Failed(message) => Step(b.(error := message), writes, false)
  }

  /** The idle result: the board as given, nothing written. */
  function Unchanged(b: Board): (r: Step)
    ensures r.board == b && r.writes == [] && !r.reloaded
  {
    Step(b, [], false)
  }

  /** `value.trim() || null`: a form field as the backend stores it. */
  function Blank(s: string): (r: Option<string>)
    ensures r.None? <==> Text.AllWhitespace(s)
    ensures r.Some? ==> r.value == Text.Trim(s)
  {
    var t := Text.Trim(s);
    if t == "" then None else Some(t)
  }

  /** `Array.prototype.filter`: the elements `keep` accepts, in order. */
  function Filter<T>(xs: seq<T>, keep: T -> bool): (r: seq<T>)
    ensures |r| <= |xs|
    ensures forall i :: 0 <= i < |r| ==> r[i] in xs && keep(r[i])
    ensures forall i :: 0 <= i < |xs| && keep(xs[i]) ==> xs[i] in r
  {
    if xs == [] then []
    else (if keep(xs[0]) then [xs[0]] else []) + Filter(xs[1..], keep)
  }

  /** The filter keeps order: it distributes over concatenation. */
  lemma {:induction false} FilterAppend<T>(a: seq<T>, b: seq<T>, keep: T -> bool)
    ensures Filter(a + b, keep) == Filter(a, keep) + Filter(b, keep)
  {
    if a == [] {
      assert a + b == b;
    } else {
      assert (a + b)[1..] == a[1..] + b;
      FilterAppend(a[1..], b, keep);
    }
  }

  /** The filter keeps multiplicity: an accepted element occurs as often as
      before, a rejected one not at all. */
  lemma {:induction false} FilterCount<T>(xs: seq<T>, keep: T -> bool, x: T)
    ensures multiset(Filter(xs, keep))[x] == if keep(x) then multiset(xs)[x] else 0
  {
    if xs != [] {
      var head := if keep(xs[0]) then [xs[0]] else [];
      FilterCount(xs[1..], keep, x);
      assert Filter(xs, keep) == head + Filter(xs[1..], keep);
      assert multiset(Filter(xs, keep)) == multiset(head) + multiset(Filter(xs[1..], keep));
      assert xs == [xs[0]] + xs[1..];
      assert multiset(xs) == multiset([xs[0]]) + multiset(xs[1..]);
    }
  }

  /** When every element is accepted, nothing is removed. */
  lemma {:induction false} FilterKeepsAll<T>(xs: seq<T>, keep: T -> bool)
    requires forall i :: 0 <= i < |xs| ==> keep(xs[i])
    ensures Filter(xs, keep) == xs
  {
    if xs != [] {
      FilterKeepsAll(xs[1..], keep);
    }
  }

  /** Whether every lead sits in a stage that exists. The dashboard never
      checks this; it is an invariant of the backend's foreign key that the
      local operations preserve. */
  predicate StagesReferenced(stages: seq<Stage>, leads: seq<Lead>)
  {
    forall i :: 0 <= i < |leads| ==> exists j :: 0 <= j < |stages| && stages[j].id == leads[i].stageId
  }
}
