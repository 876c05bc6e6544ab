/** The dashboard page (app/page.tsx): its state fields, the two operations that
    update them (`loadDashboard`, `createPatient`) and the specification those
    operations are proved against. The store's replies are already-resolved
    inputs; the store itself, the network and React scheduling are outside. */
module Dashboard {
  import opened Wrappers
  import Text

  /** A row of the `patients` table as the page reads it. */
  datatype Patient = Patient(id: string, name: string, birthDate: Option<string>, createdAt: Option<string>)

  /** A failure reported by the store; its `message` may be missing. */
  datatype StoreError = StoreError(message: Option<string>)

  /** The reply to the patient-list query: an error, or the rows (possibly null). */
  datatype ListReply = ListReply(error: Option<StoreError>, data: Option<seq<Patient>>)

  /** The reply to an exact-count query: an error, or the count (possibly null). */
  datatype CountReply = CountReply(error: Option<StoreError>, count: Option<int>)

  /** The three replies `loadDashboard` joins on before deciding anything. */
  datatype LoadReplies = LoadReplies(list: ListReply, patientCount: CountReply, visitCount: CountReply)

  /** The object handed to the store's insert. */
  datatype Payload = Payload(name: string, birthDate: Option<string>)

  /** Every `useState` field of the page. */
  datatype PageState = PageState(
    patients: seq<Patient>,
    totalPatients: int,
    totalVisits: int,
    loading: bool,
    showNew: bool,
    newName: string,
    newBirth: string,
    error: Option<string>,
    saving: bool)

  /** The row cap of the patient-list query. */
  const ListLimit: nat := 50
  const LoadFailed: string := "Erro ao carregar dados."
  const SaveFailed: string := "Erro ao salvar paciente."
  const NameRequired: string := "Digite o nome do paciente."

  /** The state before the first load: the `useState` initial values. */
  const Initial: PageState := PageState([], 0, 0, true, false, "", "", None, false)

  /** `e?.message ?? fallback` */
  function MessageOr(e: StoreError, fallback: string): string {
    e.message.GetOr(fallback)
  }

  /** The position of the first failed check, in order; `|errors|` when all
      passed. */
  function FirstFailure(errors: seq<Option<StoreError>>): (k: nat)
    ensures k <= |errors|
    ensures forall j :: 0 <= j < k ==> errors[j].None?
    ensures k < |errors| ==> errors[k].Some?
  {
    if errors == [] || errors[0].Some? then 0
    else 1 + FirstFailure(errors[1..])
  }

  /** The replies' errors in the order the page checks them: list, patient
      count, visit count. */
  function ReplyErrors(r: LoadReplies): seq<Option<StoreError>> {
    [r.list.error, r.patientCount.error, r.visitCount.error]
  }

  /** The failures are examined list first, then the patient count, then the
      visit count; the first one found decides the message. */
  lemma LoadFailureInOrder(r: LoadReplies)
    ensures LoadFailure(r) ==
      if r.list.error.Some? then Some(MessageOr(r.list.error.value, LoadFailed))
      else if r.patientCount.error.Some? then Some(MessageOr(r.patientCount.error.value, LoadFailed))
      else if r.visitCount.error.Some? then Some(MessageOr(r.visitCount.error.value, LoadFailed))
      else None
  {
    var errors := ReplyErrors(r);
    assert errors[1..] == [r.patientCount.error, r.visitCount.error];
    assert errors[1..][1..] == [r.visitCount.error];
    assert errors[1..][1..][1..] == [];
    if r.list.error.None? {
      assert FirstFailure(errors) == 1 + FirstFailure(errors[1..]);
      if r.patientCount.error.None? {
        assert FirstFailure(errors[1..]) == 1 + FirstFailure(errors[1..][1..]);
      }
    }
  }

  /** The message a load ends with: none when all three replies succeeded. */
  function LoadFailure(r: LoadReplies): Option<string> {
    var errors := ReplyErrors(r);
    var k := FirstFailure(errors);
    if k < |errors| then Some(MessageOr(errors[k].value, LoadFailed)) else None
  }

  /** The list reply stays within the query's row cap. */
  predicate WithinLimit(r: LoadReplies) {
    |r.list.data.GetOr([])| <= ListLimit
  }

  /** The snapshot holds at most the query's row cap. */
  predicate SnapshotBounded(s: PageState) {
    |s.patients| <= ListLimit
  }

  /** The patient form and its dialog flag are the same in `s` and `t`. */
  predicate FormKept(s: PageState, t: PageState) {
    t.showNew == s.showNew && t.newName == s.newName && t.newBirth == s.newBirth
  }

  /** The snapshot and both counters are the same in `s` and `t`. */
  predicate DashboardKept(s: PageState, t: PageState) {
    t.patients == s.patients && t.totalPatients == s.totalPatients && t.totalVisits == s.totalVisits
  }

  /** `loadDashboard` as a function of the state and the three replies.
      All-or-nothing: snapshot and counters change only when no reply failed,
      and then to the replied values; `loading` ends false; the form is
      untouched. Which failure's message is shown: AfterLoadReportsFirstFailure. */
  function AfterLoad(s: PageState, r: LoadReplies): (t: PageState)
    ensures !t.loading
    ensures t.error.None? <==>
      r.list.error.None? && r.patientCount.error.None? && r.visitCount.error.None?
    ensures t.error.Some? ==> DashboardKept(s, t)
    ensures t.error.None? ==>
      t.patients == r.list.data.GetOr([]) &&
      t.totalPatients == r.patientCount.count.GetOr(0) &&
      t.totalVisits == r.visitCount.count.GetOr(0)
    ensures FormKept(s, t) && t.saving == s.saving
    ensures SnapshotBounded(s) && WithinLimit(r) ==> SnapshotBounded(t)
  {
    var started := s.(loading := true, error := None);
    var ended :=
      if r.list.error.Some? then started.(error := Some(MessageOr(r.list.error.value, LoadFailed)))
      else if r.patientCount.error.Some? then started.(error := Some(MessageOr(r.patientCount.error.value, LoadFailed)))
      else if r.visitCount.error.Some? then started.(error := Some(MessageOr(r.visitCount.error.value, LoadFailed)))
      else started.(patients := r.list.data.GetOr([]),
                    totalPatients := r.patientCount.count.GetOr(0),
                    totalVisits := r.visitCount.count.GetOr(0));
    ended.(loading := false)
  }

  /** The message a load ends with is the first failure's, in the order the
      page checks them, with the fallback text when it carries no message. */
  lemma AfterLoadReportsFirstFailure(s: PageState, r: LoadReplies)
    ensures AfterLoad(s, r).error == LoadFailure(r)
  {
    LoadFailureInOrder(r);
  }

  /** The insert `createPatient` issues for the form's fields, or none when the
      trimmed name is empty. The name is trimmed; the birth date is passed
      through untouched, and only when the field is non-empty. */
  function BuildPayload(newName: string, newBirth: string): (p: Option<Payload>)
    ensures p.None? <==> Text.AllWhitespace(newName)
    ensures p.Some? ==> p.value.name == Text.Trim(newName) && p.value.name != ""
    ensures p.Some? ==> (p.value.birthDate.Some? <==> newBirth != "")
    ensures p.Some? && p.value.birthDate.Some? ==> p.value.birthDate.value == newBirth
  {
    var name := Text.Trim(newName);
    if name == "" then None
    else Some(Payload(name, if newBirth != "" then Some(newBirth) else None))
  }

  /** The state the reload after a successful insert starts from: saving,
      no error, dialog closed and form cleared. */
  function ClearedForm(s: PageState): PageState {
    s.(saving := true, error := None, showNew := false, newName := "", newBirth := "")
  }

  /** `createPatient` as a function of the state, the insert's reply and the
      replies of the reload that follows a successful insert. */
  function AfterCreate(s: PageState, insertReply: Option<StoreError>, reload: LoadReplies): (t: PageState)
    ensures !t.saving
    // blank name: rejected locally, nothing else changes
    ensures BuildPayload(s.newName, s.newBirth).None? ==>
      t.error == Some(NameRequired) && FormKept(s, t) && DashboardKept(s, t) && t.loading == s.loading
    // the store refused the insert: the form is kept for a retry
    ensures BuildPayload(s.newName, s.newBirth).Some? && insertReply.Some? ==>
      t.error == Some(MessageOr(insertReply.value, SaveFailed)) &&
      FormKept(s, t) && DashboardKept(s, t) && t.loading == s.loading
    // the insert succeeded: form cleared and closed, then exactly one reload
    ensures BuildPayload(s.newName, s.newBirth).Some? && insertReply.None? ==>
      !t.showNew && t.newName == "" && t.newBirth == "" && !t.loading &&
      t == AfterLoad(ClearedForm(s), reload).(saving := false)
    ensures SnapshotBounded(s) && WithinLimit(reload) ==> SnapshotBounded(t)
  {
    var started := s.(saving := true, error := None);
    var ended :=
      match BuildPayload(s.newName, s.newBirth)
      case None => started.(error := Some(NameRequired))
      case Some(_) =>
        match insertReply
        case Some(e) => started.(error := Some(MessageOr(e, SaveFailed)))
        case None => AfterLoad(started.(showNew := false, newName := "", newBirth := ""), reload);
    ended.(saving := false)
  }

  /** A blank name only sets the validation message and lowers `saving`. */
  lemma BlankNameOnlySetsMessage(s: PageState, insertReply: Option<StoreError>, reload: LoadReplies)
    requires BuildPayload(s.newName, s.newBirth).None?
    ensures AfterCreate(s, insertReply, reload) == s.(error := Some(NameRequired), saving := false)
  {
  }

  /** A refused insert only sets the store's message and lowers `saving`. */
  lemma RefusedInsertOnlySetsMessage(s: PageState, e: StoreError, reload: LoadReplies)
    requires BuildPayload(s.newName, s.newBirth).Some?
    ensures AfterCreate(s, Some(e), reload) == s.(error := Some(MessageOr(e, SaveFailed)), saving := false)
  {
  }

  /** Loading twice with the same replies ends where loading once does. */
  lemma LoadIdempotent(s: PageState, r: LoadReplies)
    ensures AfterLoad(AfterLoad(s, r), r) == AfterLoad(s, r)
  {
  }

  /** After a refused insert the form is unchanged, so submitting again issues
      the very same insert. */
  lemma RetryResubmitsSamePayload(s: PageState, e: StoreError, reload: LoadReplies)
    requires !Text.AllWhitespace(s.newName)
    ensures BuildPayload(AfterCreate(s, Some(e), reload).newName, AfterCreate(s, Some(e), reload).newBirth)
         == BuildPayload(s.newName, s.newBirth)
  {
  }

  /** The page: one field per `useState` hook. */
  class Page {
    var patients: seq<Patient>
    var totalPatients: int
    var totalVisits: int
    var loading: bool
    var showNew: bool
    var newName: string
    var newBirth: string
    var error: Option<string>
    var saving: bool

    function State(): PageState
      reads this
    {
      PageState(patients, totalPatients, totalVisits, loading, showNew, newName, newBirth, error, saving)
    }

    ghost predicate Valid()
      reads this
    {
      SnapshotBounded(State())
    }

    constructor ()
      ensures Valid() && State() == Initial
    {
      patients, totalPatients, totalVisits := [], 0, 0;
      loading := true;
      showNew, newName, newBirth := false, "", "";
      error := None;
      saving := false;
    }

    /** `loadDashboard()`, given the three replies it joins on. */
    method LoadDashboard(replies: LoadReplies)
      requires Valid() && WithinLimit(replies)
      modifies this
      ensures Valid()
      ensures State() == AfterLoad(old(State()), replies)
    {
      loading := true;
      error := None;
      if replies.list.error.Some? {
        error := Some(MessageOr(replies.list.error.value, LoadFailed));
      } else if replies.patientCount.error.Some? {
        error := Some(MessageOr(replies.patientCount.error.value, LoadFailed));
      } else if replies.visitCount.error.Some? {
        error := Some(MessageOr(replies.visitCount.error.value, LoadFailed));
      } else {
        patients := replies.list.data.GetOr([]);
        totalPatients := replies.patientCount.count.GetOr(0);
        totalVisits := replies.visitCount.count.GetOr(0);
      }
      loading := false;
    }

    /** `createPatient()`, given the insert's reply and the replies of the
        reload that follows a successful insert. Returns the insert it issued
        (none when the name is blank) and whether the reload ran. */
    method CreatePatient(insertReply: Option<StoreError>, reload: LoadReplies)
      returns (inserted: Option<Payload>, reloaded: bool)
      requires Valid() && WithinLimit(reload)
      modifies this
      ensures Valid()
      ensures inserted == BuildPayload(old(newName), old(newBirth))
      ensures reloaded <==> inserted.Some? && insertReply.None?
      ensures State() == AfterCreate(old(State()), insertReply, reload)
    {
      ghost var before := State();
      saving := true;
      error := None;
      reloaded := false;
      inserted := BuildPayload(newName, newBirth);
      if inserted.None? {
        error := Some(NameRequired);
        saving := false;
        BlankNameOnlySetsMessage(before, insertReply, reload);
        return;
      }
      if insertReply.Some? {
        error := Some(MessageOr(insertReply.value, SaveFailed));
        saving := false;
        RefusedInsertOnlySetsMessage(before, insertReply.value, reload);
        return;
      }
      showNew := false;
      newName := "";
      newBirth := "";
      ghost var cleared := State();
      assert cleared == ClearedForm(before);
      LoadDashboard(reload);
      reloaded := true;
      saving := false;
    }
  }
}
