/** The request handlers of src/server.js that change the stored
    collections, as transitions of the three JSON files. Each handler is a
    function from the files before the request (and the request's inputs)
    to the files after it and what it reports; every load's read-repair
    write is part of the transition. */
module Server {
  import opened JsValues
  import opened Inputs
  import opened Storage
  import opened Settings
  import opened Bases
  import opened Forms
  import opened Bot
  import opened Applications

  /** The contents of `base_states.json`, `application_forms.json` and
      `base_member_applications.json`. */
  datatype Store = Store(bases: Stored<RawBase>, forms: Stored<RawForm>, apps: Stored<Application>)

  /** A handler's effect: the files afterwards and the outcome it reports. */
  datatype Step<T> = Step(store: Store, outcome: Result<T>)

  /** `loadBaseStates()` with its write-back. */
  function WithBasesLoaded(st: Store): (r: Store)
    ensures r.forms == st.forms && r.apps == st.apps
    ensures r.bases == Persist(LoadBases(st.bases))
  {
    st.(bases := Persist(LoadBases(st.bases)))
  }

  /** `loadApplicationForms()` with its write-back. */
  function WithFormsLoaded(st: Store, cfg: Config, now: string): (r: Store)
    ensures r.bases == st.bases && r.apps == st.apps
    ensures r.forms == PersistForms(LoadForms(st.forms, cfg, now))
  {
    st.(forms := PersistForms(LoadForms(st.forms, cfg, now)))
  }

  /** `loadApplications()` with its write-back of `[]` for a non-array. */
  function WithAppsLoaded(st: Store): (r: Store)
    ensures r.bases == st.bases && r.forms == st.forms
    ensures r.apps.Array? && r.apps.items == LoadApplications(st.apps)
    ensures LoadApplications(r.apps) == LoadApplications(st.apps)
    ensures st.apps.Array? <==> r == st
  {
    if st.apps.Array? then st else st.(apps := Array([]))
  }

  // ---------------------------------------------------------------------
  // Bases

  /** POST /staff/bases/update: read back, every base is still there, in
      order, with the state submitted for it (normalised). */
  function BasesUpdateHandler(st: Store, body: map<string, Value>): (r: Store)
    ensures r.forms == st.forms && r.apps == st.apps
    ensures r.bases == SaveBases(UpdateBases(LoadBases(st.bases), body))
    ensures var before := LoadBases(st.bases);
      var after := LoadBases(r.bases);
      && |after| == |before|
      && forall i :: 0 <= i < |after| ==>
           after[i].id == before[i].id &&
           after[i].state == NormalizeBaseState(StateField(body, before[i].id))
  {
    UpdateSaveLoadStates(LoadBases(st.bases), body);
    st.(bases := SaveBases(UpdateBases(LoadBases(st.bases), body)))
  }

  /** POST /staff/bases/create: the bases are loaded (and rewritten) before
      the name is checked. */
  function BasesCreateHandler(st: Store, nameField: Option<Value>): (r: Step<()>)
    ensures r.store.forms == st.forms && r.store.apps == st.apps
    ensures r.outcome.Err? <==> Clip(FieldText(nameField), 60) == ""
    ensures r.outcome.Err? ==> r.outcome.refusal == BaseNameRequired
    ensures r.outcome.Err? ==> r.store == WithBasesLoaded(st)
    ensures r.outcome.Ok? ==> r.store.bases == SaveBases(CreateBase(LoadBases(st.bases), nameField).value)
  {
    var loaded := LoadBases(st.bases);
    match CreateBase(loaded, nameField)
    case Err(e) => Step(WithBasesLoaded(st), Err(e))
    case Ok(bases) => Step(st.(bases := SaveBases(bases)), Ok(()))
  }

  /** Creating a base adds exactly one, and if the stored ids were distinct
      they still are after the new file is read back. */
  lemma BasesCreateKeepsIdsDistinct(st: Store, nameField: Option<Value>)
    requires DistinctIds(LoadBases(st.bases))
    requires BasesCreateHandler(st, nameField).outcome.Ok?
    ensures var after := LoadBases(BasesCreateHandler(st, nameField).store.bases);
      && |after| == |LoadBases(st.bases)| + 1
      && DistinctIds(after)
  {
    CreateBaseSaveLoadDistinct(LoadBases(st.bases), nameField);
  }

  // ---------------------------------------------------------------------
  // Forms

  /** POST /staff/application-forms/create: the request is checked before
      anything is loaded, so a refused request leaves every file alone. */
  function FormsCreateHandler(
    st: Store, nameField: Option<Value>, guildField: Option<Value>, roleField: Option<Value>,
    questionsField: Option<Value>, cfg: Config, now: string): (r: Step<()>)
    ensures r.outcome.Err? <==> ValidateFormInput(nameField, guildField, roleField, questionsField).Err?
    ensures r.outcome.Err? ==> r.store == st
    ensures r.outcome.Err? ==> r.outcome.refusal in {FormNameRequired, InvalidGuildId, InvalidRoleId}
    ensures r.outcome.Ok? ==>
      var input := ValidateFormInput(nameField, guildField, roleField, questionsField).value;
      r.store == st.(forms := SaveForms(CreateForm(LoadForms(st.forms, cfg, now), input, now), cfg, now))
  {
    match ValidateFormInput(nameField, guildField, roleField, questionsField)
    case Err(e) => Step(st, Err(e))
    case Ok(input) =>
      var created := CreateForm(LoadForms(st.forms, cfg, now), input, now);
      Step(st.(forms := SaveForms(created, cfg, now)), Ok(()))
  }

  /** Creating a form adds exactly one, and if the stored ids were
      distinct they still are after the new file is read back. */
  lemma FormsCreateKeepsIdsDistinct(
    st: Store, nameField: Option<Value>, guildField: Option<Value>, roleField: Option<Value>,
    questionsField: Option<Value>, cfg: Config, now: string, later: string)
    requires DistinctFormIds(LoadForms(st.forms, cfg, now))
    requires FormsCreateHandler(st, nameField, guildField, roleField, questionsField, cfg, now).outcome.Ok?
    ensures var after := LoadForms(
        FormsCreateHandler(st, nameField, guildField, roleField, questionsField, cfg, now).store.forms, cfg, later);
      && |after| == |LoadForms(st.forms, cfg, now)| + 1
      && DistinctFormIds(after)
  {
    var input := ValidateFormInput(nameField, guildField, roleField, questionsField).value;
    CreateFormSaveLoadDistinct(LoadForms(st.forms, cfg, now), input, cfg, now, later);
  }

  /** On a fresh install the first form is created next to the two
      built-in ones, and the three ids read back are distinct. */
  lemma FirstFormCreatedBesideDefaults(
    st: Store, nameField: Option<Value>, guildField: Option<Value>, roleField: Option<Value>,
    questionsField: Option<Value>, cfg: Config, now: string, later: string)
    requires st.forms.Missing?
    requires FormsCreateHandler(st, nameField, guildField, roleField, questionsField, cfg, now).outcome.Ok?
    ensures var after := LoadForms(
        FormsCreateHandler(st, nameField, guildField, roleField, questionsField, cfg, now).store.forms, cfg, later);
      && |after| == 3
      && after[0].id == "base-member" && after[1].id == "vip"
      && DistinctFormIds(after)
  {
    DefaultFormsValid(cfg, now);
    FormsCreateKeepsIdsDistinct(st, nameField, guildField, roleField, questionsField, cfg, now, later);
    var input := ValidateFormInput(nameField, guildField, roleField, questionsField).value;
    var defaults := DefaultForms(cfg, now);
    var created := CreateForm(defaults, input, now);
    NewFormValid(defaults, input, now);
    AppendValidForm(defaults, created[2]);
    assert created == defaults + [created[2]];
    SaveLoadKeepsFormIds(created, cfg, now, later);
    assert created[0] == defaults[0] && created[1] == defaults[1];
  }

  /** POST /staff/application-forms/:id/update: checked like create, then
      the forms are loaded (and rewritten) and the first match replaced. */
  function FormsUpdateHandler(
    st: Store, id: string, nameField: Option<Value>, guildField: Option<Value>,
    roleField: Option<Value>, questionsField: Option<Value>, cfg: Config, now: string): (r: Step<()>)
    ensures ValidateFormInput(nameField, guildField, roleField, questionsField).Err? ==>
      r == Step(st, Err(ValidateFormInput(nameField, guildField, roleField, questionsField).refusal))
    ensures ValidateFormInput(nameField, guildField, roleField, questionsField).Ok? ==>
      var loaded := LoadForms(st.forms, cfg, now);
      var input := ValidateFormInput(nameField, guildField, roleField, questionsField).value;
      && (r.outcome.Err? <==> id !in FormIds(loaded))
      && (r.outcome.Err? ==> r == Step(WithFormsLoaded(st, cfg, now), Err(FormNotFound)))
      && (r.outcome.Ok? ==> r.store == st.(forms := SaveForms(UpdateForm(loaded, id, input).value, cfg, now)))
  {
    match ValidateFormInput(nameField, guildField, roleField, questionsField)
    case Err(e) => Step(st, Err(e))
    case Ok(input) => FormChange(st, UpdateForm(LoadForms(st.forms, cfg, now), id, input), cfg, now)
  }

  /** Writes the outcome of a form change, or only the load's write-back
      when it was refused. */
  function FormChange(st: Store, change: Result<seq<Form>>, cfg: Config, now: string): (r: Step<()>)
    ensures r.store.bases == st.bases && r.store.apps == st.apps
    ensures r.outcome.Ok? <==> change.Ok?
    ensures change.Err? ==> r == Step(WithFormsLoaded(st, cfg, now), Err(change.refusal))
    ensures change.Ok? ==> r == Step(st.(forms := SaveForms(change.value, cfg, now)), Ok(()))
  {
    match change
    case Err(e) => Step(WithFormsLoaded(st, cfg, now), Err(e))
    case Ok(forms) => Step(st.(forms := SaveForms(forms, cfg, now)), Ok(()))
  }

  /** POST /staff/application-forms/:id/toggle. */
  function FormsToggleHandler(st: Store, id: string, cfg: Config, now: string): (r: Step<()>)
    ensures r.outcome.Err? <==> id !in FormIds(LoadForms(st.forms, cfg, now))
    ensures r.store.bases == st.bases && r.store.apps == st.apps
    ensures r.outcome.Err? ==> r == Step(WithFormsLoaded(st, cfg, now), Err(FormNotFound))
    ensures r.outcome.Ok? ==>
      r.store.forms == SaveForms(ToggleForm(LoadForms(st.forms, cfg, now), id).value, cfg, now)
  {
    FormChange(st, ToggleForm(LoadForms(st.forms, cfg, now), id), cfg, now)
  }

  /** POST /staff/application-forms/:id/delete. */
  function FormsDeleteHandler(st: Store, id: string, cfg: Config, now: string): (r: Step<()>)
    ensures r.outcome.Err? <==> id !in FormIds(LoadForms(st.forms, cfg, now))
    ensures r.store.bases == st.bases && r.store.apps == st.apps
    ensures r.outcome.Err? ==> r == Step(WithFormsLoaded(st, cfg, now), Err(FormNotFound))
    ensures r.outcome.Ok? ==>
      r.store.forms == SaveForms(DeleteForm(LoadForms(st.forms, cfg, now), id).value, cfg, now)
  {
    FormChange(st, DeleteForm(LoadForms(st.forms, cfg, now), id), cfg, now)
  }

  // ---------------------------------------------------------------------
  // Submission

  /** POST /apply: an invalid user id is refused before anything is
      loaded; otherwise the forms are loaded (and rewritten), and the
      applications are loaded and saved only for an accepted submission. */
  function ApplyHandler(
    st: Store, who: Applicant, answersField: Option<Value>,
    cfg: Config, freshId: string, now: string): (r: Step<Application>)
    ensures !IsSnowflake(who.discordUserId) ==> r == Step(st, Err(InvalidUserId))
    ensures r.store.bases == st.bases
    ensures r.outcome.Err? ==> r.store.apps == st.apps
    ensures IsSnowflake(who.discordUserId) ==> r.store.forms == WithFormsLoaded(st, cfg, now).forms
    ensures r.outcome == PublicSubmission(LoadForms(st.forms, cfg, now), who, answersField, cfg, freshId, now)
    ensures r.outcome.Ok? ==>
      r.store.apps == Array(LoadApplications(st.apps) + [r.outcome.value])
  {
    if !IsSnowflake(who.discordUserId) then Step(st, Err(InvalidUserId))
    else
      var loaded := WithFormsLoaded(st, cfg, now);
      match PublicSubmission(LoadForms(st.forms, cfg, now), who, answersField, cfg, freshId, now)
      case Err(e) => Step(loaded, Err(e))
      case Ok(a) => Step(loaded.(apps := Array(LoadApplications(st.apps) + [a])), Ok(a))
  }

  /** An accepted public submission appends one pending web record for an
      active form, with one non-blank answer per question. */
  lemma ApplyAppendsOne(
    st: Store, who: Applicant, answersField: Option<Value>,
    cfg: Config, freshId: string, now: string)
    requires ApplyHandler(st, who, answersField, cfg, freshId, now).outcome.Ok?
    ensures var r := ApplyHandler(st, who, answersField, cfg, freshId, now);
      var after := LoadApplications(r.store.apps);
      var a := after[|after| - 1];
      && |after| == |LoadApplications(st.apps)| + 1
      && after[..|after| - 1] == LoadApplications(st.apps)
      && a.status == Pending && a.source == "web"
      && a.customQuestions.Some? && a.customAnswers.Some?
      && |a.customAnswers.value| == |a.customQuestions.value|
      && forall i :: 0 <= i < |a.customAnswers.value| ==> a.customAnswers.value[i] != ""
  {
    SubmittedAnswersComplete(LoadForms(st.forms, cfg, now), who, answersField, cfg, freshId, now);
    var r := ApplyHandler(st, who, answersField, cfg, freshId, now);
    var after := LoadApplications(r.store.apps);
    assert after[..|after| - 1] == LoadApplications(st.apps);
  }

  /** POST /staff/applications/create. */
  function StaffCreateHandler(
    st: Store, who: Applicant, cfg: Config, freshId: string, now: string): (r: Step<Application>)
    ensures !IsSnowflake(who.discordUserId) ==> r == Step(st, Err(InvalidUserId))
    ensures r.store.bases == st.bases
    ensures r.outcome.Err? ==> r.store.apps == st.apps
    ensures IsSnowflake(who.discordUserId) ==> r.store.forms == WithFormsLoaded(st, cfg, now).forms
    ensures r.outcome == StaffSubmission(LoadForms(st.forms, cfg, now), who, cfg, freshId, now)
    ensures r.outcome.Ok? ==>
      r.store.apps == Array(LoadApplications(st.apps) + [r.outcome.value])
  {
    if !IsSnowflake(who.discordUserId) then Step(st, Err(InvalidUserId))
    else
      var loaded := WithFormsLoaded(st, cfg, now);
      match StaffSubmission(LoadForms(st.forms, cfg, now), who, cfg, freshId, now)
      case Err(e) => Step(loaded, Err(e))
      case Ok(a) => Step(loaded.(apps := Array(LoadApplications(st.apps) + [a])), Ok(a))
  }

  // ---------------------------------------------------------------------
  // Review

  /** The approve handler's record after its refresh from the current form,
      for a pending target at index `i`. */
  function ApproveCandidate(apps: seq<Application>, i: nat, forms: seq<Form>): Application
    requires i < |apps|
  {
    Refresh(apps[i], FindForm(forms, apps[i].formId))
  }

  /** The grant request the approve handler sends, if any: none for an
      unknown or already reviewed id, none when `approveInBot` refuses
      before sending. */
  function ApproveSends(st: Store, id: string, cfg: Config, now: string): (r: Option<GrantRequest>)
    ensures ReviewTarget(LoadApplications(st.apps), id).Err? ==> r.None?
  {
    var apps := LoadApplications(st.apps);
    match ReviewTarget(apps, id)
    case Err(_) => None
    case Ok(i) =>
      var item := ApproveCandidate(apps, i, LoadForms(st.forms, cfg, now));
      match ApproveRequest(SubjectOf(item), cfg)
      case Refused(_) => None
      case Send(req) => Some(req)
  }

  /** POST /staff/applications/:id/approve; `reply` is the bot's answer to
      the grant request, if one is sent. */
  function ApproveHandler(
    st: Store, id: string, cfg: Config, staffUser: string, now: string, reply: Reply): (r: Step<()>)
    ensures r.store.bases == st.bases
    ensures ReviewTarget(LoadApplications(st.apps), id).Ok? ==> r.store.forms == WithFormsLoaded(st, cfg, now).forms
    ensures r.outcome.Err? ==> r.store.apps == WithAppsLoaded(st).apps
    ensures ReviewTarget(LoadApplications(st.apps), id).Err? ==>
      r == Step(WithAppsLoaded(st), Err(ReviewTarget(LoadApplications(st.apps), id).refusal))
    ensures r.outcome.Ok? <==>
      ReviewTarget(LoadApplications(st.apps), id).Ok? && ApproveSends(st, id, cfg, now).Some? && Succeeded(reply)
    ensures r.outcome.Ok? ==>
      var apps := LoadApplications(st.apps);
      var i := ReviewTarget(apps, id).value;
      var item := ApproveCandidate(apps, i, LoadForms(st.forms, cfg, now));
      r.store.apps == Array(apps[i := ApprovedRecord(item, staffUser, now, reply.body)])
  {
    var apps := LoadApplications(st.apps);
    var st1 := WithAppsLoaded(st);
    match ReviewTarget(apps, id)
    case Err(e) => Step(st1, Err(e))
    case Ok(i) =>
      var forms := LoadForms(st1.forms, cfg, now);
      var st2 := WithFormsLoaded(st1, cfg, now);
      var item := ApproveCandidate(apps, i, forms);
      var result := ApproveInBot(SubjectOf(item), cfg, reply);
      match result
      case Failed(error) => Step(st2, Err(GrantFailed(ToStr(error))))
      case Done(body) => Step(st2.(apps := Array(apps[i := ApprovedRecord(item, staffUser, now, body)])), Ok(()))
  }

  /** POST /staff/applications/:id/reject: the rejection is saved before
      the user is notified; the notify result only changes the message. */
  function RejectHandler(
    st: Store, id: string, cfg: Config, staffUser: string, now: string, reply: Reply): (r: Step<BotResult>)
    ensures r.store.bases == st.bases && r.store.forms == st.forms
    ensures ReviewTarget(LoadApplications(st.apps), id).Err? ==>
      r == Step(WithAppsLoaded(st), Err(ReviewTarget(LoadApplications(st.apps), id).refusal))
    ensures r.outcome.Ok? <==> ReviewTarget(LoadApplications(st.apps), id).Ok?
    ensures r.outcome.Ok? ==>
      var apps := LoadApplications(st.apps);
      var i := ReviewTarget(apps, id).value;
      && r.store.apps == Array(apps[i := RejectedRecord(apps[i], staffUser, now)])
      && r.outcome.value == NotifyInBot(cfg, reply)
  {
    var apps := LoadApplications(st.apps);
    var st1 := WithAppsLoaded(st);
    match ReviewTarget(apps, id)
    case Err(e) => Step(st1, Err(e))
    case Ok(i) =>
      var rejected := apps[i := RejectedRecord(apps[i], staffUser, now)];
      Step(st1.(apps := Array(rejected)), Ok(NotifyInBot(cfg, reply)))
  }

  /** The notify request a rejection sends, if any. */
  function RejectSends(st: Store, id: string, cfg: Config, staffUser: string, now: string): (r: Option<NotifyRequest>)
    ensures r.Some? ==> ReviewTarget(LoadApplications(st.apps), id).Ok?
    ensures r.Some? ==> r.value.status == Rejected
  {
    var apps := LoadApplications(st.apps);
    match ReviewTarget(apps, id)
    case Err(_) => None
    case Ok(i) =>
      if cfg.notifyUrl == "" || cfg.secret == "" then None
      else
        var rejected := RejectedRecord(apps[i], staffUser, now);
        Some(NotifyPayload(SubjectOf(rejected), cfg, Rejected, RejectNote))
  }

  const RejectNote: string := "Contact staff if you need more details."

  // ---------------------------------------------------------------------
  // Review properties

  /** A rejection is stored whatever the notify call answers. */
  lemma RejectIndependentOfNotify(st: Store, id: string, cfg: Config, staffUser: string, now: string, r1: Reply, r2: Reply)
    ensures RejectHandler(st, id, cfg, staffUser, now, r1).store == RejectHandler(st, id, cfg, staffUser, now, r2).store
    ensures RejectHandler(st, id, cfg, staffUser, now, r1).outcome.Ok? ==>
      var apps := LoadApplications(RejectHandler(st, id, cfg, staffUser, now, r1).store.apps);
      var i := ReviewTarget(LoadApplications(st.apps), id).value;
      apps[i].status == Rejected && apps[i].reviewedBy == staffUser
  {
  }

  /** A failed grant leaves the record pending, so the approval can be
      retried. */
  lemma FailedApproveCanRetry(st: Store, id: string, cfg: Config, staffUser: string, now: string, reply: Reply)
    requires ReviewTarget(LoadApplications(st.apps), id).Ok?
    requires ApproveHandler(st, id, cfg, staffUser, now, reply).outcome.Err?
    ensures var after := ApproveHandler(st, id, cfg, staffUser, now, reply).store;
      ReviewTarget(LoadApplications(after.apps), id) == ReviewTarget(LoadApplications(st.apps), id)
  {
  }

  /** Once approved, the same id is refused as already reviewed, by either
      handler, and no further grant request is sent. */
  lemma ApprovedIsFinal(
    st: Store, id: string, cfg: Config, staffUser: string, now: string, reply: Reply,
    later: string, reply2: Reply)
    requires ApproveHandler(st, id, cfg, staffUser, now, reply).outcome.Ok?
    ensures var after := ApproveHandler(st, id, cfg, staffUser, now, reply).store;
      && ApproveHandler(after, id, cfg, staffUser, later, reply2).outcome == Err(AlreadyReviewed)
      && ApproveHandler(after, id, cfg, staffUser, later, reply2).store.apps == after.apps
      && ApproveSends(after, id, cfg, later).None?
      && RejectHandler(after, id, cfg, staffUser, later, reply2).outcome == Err(AlreadyReviewed)
  {
    var apps := LoadApplications(st.apps);
    var i := ReviewTarget(apps, id).value;
    var item := ApproveCandidate(apps, i, LoadForms(st.forms, cfg, now));
    var changed := apps[i := ApprovedRecord(item, staffUser, now, reply.body)];
    FindAfterRecordChange(apps, changed, id, i);
  }

  /** Once rejected, the same id is refused as already reviewed and no
      grant request is sent. */
  lemma RejectedIsFinal(
    st: Store, id: string, cfg: Config, staffUser: string, now: string, reply: Reply,
    later: string, reply2: Reply)
    requires RejectHandler(st, id, cfg, staffUser, now, reply).outcome.Ok?
    ensures var after := RejectHandler(st, id, cfg, staffUser, now, reply).store;
      && ApproveHandler(after, id, cfg, staffUser, later, reply2).outcome == Err(AlreadyReviewed)
      && ApproveSends(after, id, cfg, later).None?
      && RejectHandler(after, id, cfg, staffUser, later, reply2).outcome == Err(AlreadyReviewed)
      && RejectHandler(after, id, cfg, staffUser, later, reply2).store == after
  {
    var apps := LoadApplications(st.apps);
    var i := ReviewTarget(apps, id).value;
    var changed := apps[i := RejectedRecord(apps[i], staffUser, now)];
    FindAfterRecordChange(apps, changed, id, i);
  }

  /** The grant goes to the role and guild of the form as it is now, when
      the form still exists and names them. */
  lemma GrantUsesCurrentForm(st: Store, id: string, cfg: Config, now: string, f: Form)
    requires ApproveSends(st, id, cfg, now).Some?
    requires var apps := LoadApplications(st.apps);
      FindForm(LoadForms(st.forms, cfg, now), apps[ReviewTarget(apps, id).value].formId) == Some(f)
    ensures f.roleId != "" ==> ApproveSends(st, id, cfg, now).value.roleId == Some(f.roleId)
    ensures f.guildId != "" ==> ApproveSends(st, id, cfg, now).value.guildId == Trim(f.guildId)
    ensures ApproveSends(st, id, cfg, now).value.formName == f.name
  {
  }
}
