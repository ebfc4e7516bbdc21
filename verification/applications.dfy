/** Application records of src/server.js: `loadApplications`, the public
    and staff submission handlers, and the review steps of the approve and
    reject handlers. */
module Applications {
  import opened JsValues
  import opened Inputs
  import opened Storage
  import opened Settings
  import opened Forms
  import opened Bot

  /** An application record as this program writes it. The server never
      normalises stored applications, so records of any other shape are
      outside the model. */
  datatype Application = Application(
    id: string,
    guildId: Option<string>,
    discordUserId: string,
    discordTag: string,
    minecraftIgn: string,
    reason: string,
    formId: string,
    formName: string,
    targetGuildId: string,
    targetRoleId: string,
    customQuestions: Option<seq<string>>,
    customAnswers: Option<seq<string>>,
    status: string,
    source: string,
    createdAt: string,
    updatedAt: string,
    reviewedBy: string,
    approvedAt: Option<string>,
    rejectedAt: Option<string>,
    approvalResult: Option<ReplyBody>)

  const Pending: string := "PENDING"
  const Approved: string := "APPROVED"
  const Rejected: string := "REJECTED"

  const MaxTag: nat := 64
  const MaxIgn: nat := 32
  const MaxReason: nat := 1000
  const MaxAnswer: nat := 500

  /** `loadApplications()`: the stored array, or nothing when the file
      does not hold an array (the file is then rewritten as `[]`). */
  function LoadApplications(s: Stored<Application>): (r: seq<Application>)
    ensures s.Array? ==> r == s.items
    ensures !s.Array? ==> r == []
  {
    if s.Array? then s.items else []
  }

  /** The fields the bot calls read. */
  function SubjectOf(a: Application): (s: Subject)
    ensures s.id == a.id && s.guildId == a.guildId && s.discordUserId == a.discordUserId
    ensures s.targetGuildId == a.targetGuildId && s.targetRoleId == a.targetRoleId
    ensures s.formName == a.formName
  {
    Subject(a.id, a.guildId, a.discordUserId, a.targetGuildId, a.targetRoleId, a.formName)
  }

  // ---------------------------------------------------------------------
  // Submission

  /** The applicant fields both submission handlers read. */
  datatype Applicant = Applicant(
    formId: string,
    discordUserId: string,
    discordTag: string,
    minecraftIgn: string,
    reason: string)

  function ReadApplicant(
    formField: Option<Value>, userField: Option<Value>, tagField: Option<Value>,
    ignField: Option<Value>, reasonField: Option<Value>): (a: Applicant)
    ensures Trimmed(a.formId) && Trimmed(a.discordUserId)
    ensures |a.discordTag| <= MaxTag && |a.minecraftIgn| <= MaxIgn && |a.reason| <= MaxReason
  {
    Applicant(
      Trim(FieldText(formField)),
      Trim(FieldText(userField)),
      Clip(FieldText(tagField), MaxTag),
      Clip(FieldText(ignField), MaxIgn),
      Clip(FieldText(reasonField), MaxReason))
  }

  /** `!customAnswers[idx] || !String(customAnswers[idx]).trim()`, where an
      index past the end reads `undefined`. */
  predicate AnswerMissing(answers: seq<string>, idx: nat) {
    idx >= |answers| || answers[idx] == "" || Trim(answers[idx]) == ""
  }

  /** The `.some(...)` check of the public submission over `n` questions. */
  predicate SomeAnswerMissing(answers: seq<string>, n: nat) {
    exists idx :: 0 <= idx < n && AnswerMissing(answers, idx)
  }

  /** Since the answers were already compacted by `toStringArray`, the
      per-question check only fails when there are fewer answers than
      questions: a blank answer cannot sit in the middle of the list. */
  lemma MissingIffTooFew(answers: seq<string>, n: nat)
    requires forall i :: 0 <= i < |answers| ==> CleanText(answers[i], MaxAnswer)
    ensures SomeAnswerMissing(answers, n) <==> |answers| < n
  {
    if |answers| < n {
      assert AnswerMissing(answers, |answers|);
    }
  }

  /** `while (xs.length < n) xs.push("")`. */
  function Pad(xs: seq<string>, n: nat): (r: seq<string>)
    ensures |r| == if |xs| < n then n else |xs|
    ensures r[..|xs|] == xs
    ensures forall i :: |xs| <= i < |r| ==> r[i] == ""
    decreases n - |xs|
  {
    if |xs| < n then Pad(xs + [""], n) else xs
  }

  /** `customAnswers.length = n` when longer, then padding to `n`. */
  function FitAnswers(answers: seq<string>, n: nat): (r: seq<string>)
    ensures |r| == n
    ensures n <= |answers| ==> r == answers[..n]
    ensures |answers| < n ==> r[..|answers|] == answers
  {
    Pad(if |answers| > n then answers[..n] else answers, n)
  }

  /** `x || GUILD_ID || null` for the stored guild. */
  function GuildOrNull(formGuild: string, cfg: Config): (g: Option<string>)
    ensures g.Some? ==> g.value != "" && g.value == OrText(formGuild, cfg.guildId)
    ensures g.None? <==> formGuild == "" && cfg.guildId == ""
  {
    var g := OrText(formGuild, cfg.guildId);
    if g == "" then None else Some(g)
  }

  /** The record both submission handlers append, for a chosen form. */
  function NewApplication(
    form: Form, who: Applicant, cfg: Config, freshId: string, now: string,
    questions: Option<seq<string>>, answers: Option<seq<string>>, source: string): (a: Application)
    ensures a.id == freshId && a.status == Pending && a.source == source
    ensures a.formId == form.id && a.formName == form.name
    ensures a.discordUserId == who.discordUserId && a.discordTag == who.discordTag
    ensures a.minecraftIgn == who.minecraftIgn && a.reason == who.reason
    ensures a.createdAt == now && a.updatedAt == now
    ensures a.targetGuildId == OrText(form.guildId, cfg.guildId)
    ensures a.targetRoleId == OrText(form.roleId, cfg.baseMemberRoleId)
    ensures a.guildId == GuildOrNull(form.guildId, cfg)
    ensures a.customQuestions == questions && a.customAnswers == answers
    ensures a.reviewedBy == "" && a.approvedAt.None? && a.rejectedAt.None? && a.approvalResult.None?
  {
    Application(
      freshId, GuildOrNull(form.guildId, cfg), who.discordUserId, who.discordTag,
      who.minecraftIgn, who.reason, form.id, form.name,
      OrText(form.guildId, cfg.guildId), OrText(form.roleId, cfg.baseMemberRoleId),
      questions, answers, Pending, source, now, now, "", None, None, None)
  }

  /** The POST /apply handler's decision: the record to append, or the
      refusal. The user id is checked first, then the form (it must exist
      and be active), then the answers. */
  function PublicSubmission(
    forms: seq<Form>, who: Applicant, answersField: Option<Value>,
    cfg: Config, freshId: string, now: string): (r: Result<Application>)
    ensures r == Err(InvalidUserId) <==> !IsSnowflake(who.discordUserId)
    ensures r == Err(InvalidForm) <==>
      IsSnowflake(who.discordUserId) &&
      (FindForm(forms, who.formId).None? || !FindForm(forms, who.formId).value.active)
    ensures r == Err(IncompleteAnswers) <==>
      && IsSnowflake(who.discordUserId)
      && FindForm(forms, who.formId).Some? && FindForm(forms, who.formId).value.active
      && |ToStringArray(answersField, MaxAnswer)| < |FindForm(forms, who.formId).value.questions|
    ensures r.Err? ==> r.refusal in {InvalidUserId, InvalidForm, IncompleteAnswers}
    ensures r.Ok? ==>
      var form := FindForm(forms, who.formId).value;
      var answers := ToStringArray(answersField, MaxAnswer);
      && form.active
      && r.value == NewApplication(form, who, cfg, freshId, now,
           Some(form.questions), Some(answers[..|form.questions|]), "web")
  {
    var answers := ToStringArray(answersField, MaxAnswer);
    if !IsSnowflake(who.discordUserId) then Err(InvalidUserId)
    else
      var selected := FindForm(forms, who.formId);
      if selected.None? || !selected.value.active then Err(InvalidForm)
      else
        var questions := selected.value.questions;
        var n := |questions|;
        MissingIffTooFew(answers, n);
        if n > 0 && SomeAnswerMissing(answers, n) then Err(IncompleteAnswers)
        else
          var fitted := FitAnswers(answers, n);
          if n > 0 && |fitted| == 0 then Err(IncompleteAnswers)
          else Ok(NewApplication(selected.value, who, cfg, freshId, now,
                 Some(questions), Some(fitted), "web"))
  }

  /** Every stored answer of an accepted public submission is non-blank,
      and there is exactly one per question. */
  lemma SubmittedAnswersComplete(
    forms: seq<Form>, who: Applicant, answersField: Option<Value>,
    cfg: Config, freshId: string, now: string)
    requires PublicSubmission(forms, who, answersField, cfg, freshId, now).Ok?
    ensures var a := PublicSubmission(forms, who, answersField, cfg, freshId, now).value;
      && a.customQuestions.Some? && a.customAnswers.Some?
      && |a.customAnswers.value| == |a.customQuestions.value|
      && forall i :: 0 <= i < |a.customAnswers.value| ==> CleanText(a.customAnswers.value[i], MaxAnswer)
  {
    var answers := ToStringArray(answersField, MaxAnswer);
    var form := FindForm(forms, who.formId).value;
    var a := PublicSubmission(forms, who, answersField, cfg, freshId, now).value;
    assert |form.questions| <= |answers|;
    assert a.customAnswers == Some(answers[..|form.questions|]);
    CleanPrefix(answers, |form.questions|);
  }

  lemma CleanPrefix(xs: seq<string>, n: nat)
    requires n <= |xs|
    requires forall i :: 0 <= i < |xs| ==> CleanText(xs[i], MaxAnswer)
    ensures forall i :: 0 <= i < |xs[..n]| ==> CleanText(xs[..n][i], MaxAnswer)
  {
    forall i | 0 <= i < |xs[..n]|
      ensures CleanText(xs[..n][i], MaxAnswer)
    {
      assert xs[..n][i] == xs[i];
    }
  }

  /** The staff create handler's decision: any known form, active or not;
      no question or answer lists are stored. */
  function StaffSubmission(
    forms: seq<Form>, who: Applicant, cfg: Config, freshId: string, now: string): (r: Result<Application>)
    ensures r == Err(InvalidUserId) <==> !IsSnowflake(who.discordUserId)
    ensures r == Err(InvalidForm) <==>
      IsSnowflake(who.discordUserId) && FindForm(forms, who.formId).None?
    ensures r.Err? ==> r.refusal in {InvalidUserId, InvalidForm}
    ensures r.Ok? ==>
      r.value == NewApplication(FindForm(forms, who.formId).value, who, cfg, freshId, now, None, None, "staff")
  {
    if !IsSnowflake(who.discordUserId) then Err(InvalidUserId)
    else
      var selected := FindForm(forms, who.formId);
      if selected.None? then Err(InvalidForm)
      else Ok(NewApplication(selected.value, who, cfg, freshId, now, None, None, "staff"))
  }

  // ---------------------------------------------------------------------
  // Review

  function AppIds(apps: seq<Application>): set<string> {
    set i | 0 <= i < |apps| :: apps[i].id
  }

  /** `applications.findIndex((a) => a.id === id)`. */
  function FindApplicationIndex(apps: seq<Application>, id: string): (r: Option<nat>)
    ensures r.None? <==> id !in AppIds(apps)
    ensures r.Some? ==> r.value < |apps| && apps[r.value].id == id
    ensures r.Some? ==> forall j :: 0 <= j < r.value ==> apps[j].id != id
  {
    if apps == [] then None
    else if apps[0].id == id then Some(0)
    else
      var rest := FindApplicationIndex(apps[1..], id);
      assert AppIds(apps) == {apps[0].id} + AppIds(apps[1..]) by {
        forall x | x in AppIds(apps) ensures x in {apps[0].id} + AppIds(apps[1..]) {
          var i :| 0 <= i < |apps| && apps[i].id == x;
          if i > 0 { assert apps[1..][i - 1].id == x; }
        }
        forall x | x in AppIds(apps[1..]) ensures x in AppIds(apps) {
          var i :| 0 <= i < |apps[1..]| && apps[1..][i].id == x;
          assert apps[i + 1].id == x;
        }
      }
      if rest.None? then None else Some(rest.value + 1)
  }

  /** The checks both review handlers make first: the first record with
      that id, which must still be pending. */
  function ReviewTarget(apps: seq<Application>, id: string): (r: Result<nat>)
    ensures r == Err(ApplicationNotFound) <==> id !in AppIds(apps)
    ensures r == Err(AlreadyReviewed) <==>
      id in AppIds(apps) && apps[FindApplicationIndex(apps, id).value].status != Pending
    ensures r.Ok? <==>
      id in AppIds(apps) && apps[FindApplicationIndex(apps, id).value].status == Pending
    ensures r.Ok? ==> r.value == FindApplicationIndex(apps, id).value
  {
    var i := FindApplicationIndex(apps, id);
    if i.None? then Err(ApplicationNotFound)
    else if apps[i.value].status != Pending then Err(AlreadyReviewed)
    else Ok(i.value)
  }

  /** The in-place refresh approve applies from the current form: role and
      guild only when the form's values are non-empty, the form name
      always. Without a current form nothing changes. */
  function Refresh(a: Application, current: Option<Form>): (r: Application)
    ensures current.None? ==> r == a
    ensures current.Some? ==> r.formName == current.value.name
    ensures current.Some? && current.value.roleId != "" ==> r.targetRoleId == current.value.roleId
    ensures current.Some? && current.value.roleId == "" ==> r.targetRoleId == a.targetRoleId
    ensures current.Some? && current.value.guildId != "" ==>
      r.targetGuildId == current.value.guildId && r.guildId == Some(current.value.guildId)
    ensures current.Some? && current.value.guildId == "" ==>
      r.targetGuildId == a.targetGuildId && r.guildId == a.guildId
    ensures r == a.(formName := r.formName, targetRoleId := r.targetRoleId,
                    targetGuildId := r.targetGuildId, guildId := r.guildId)
  {
    if current.None? then a
    else
      var f := current.value;
      var a1 := if f.roleId != "" then a.(targetRoleId := f.roleId) else a;
      var a2 := if f.guildId != "" then a1.(targetGuildId := f.guildId, guildId := Some(f.guildId)) else a1;
      a2.(formName := f.name)
  }

  /** The record an approval commits. */
  function ApprovedRecord(a: Application, staffUser: string, now: string, result: Option<ReplyBody>): (r: Application)
    ensures r.status == Approved && r.reviewedBy == staffUser
    ensures r.approvedAt == Some(now) && r.updatedAt == now && r.approvalResult == result
    ensures r == a.(status := r.status, reviewedBy := r.reviewedBy, updatedAt := r.updatedAt,
                    approvedAt := r.approvedAt, approvalResult := r.approvalResult)
  {
    a.(status := Approved, reviewedBy := staffUser, updatedAt := now,
       approvedAt := Some(now), approvalResult := result)
  }

  /** The record a rejection commits. */
  function RejectedRecord(a: Application, staffUser: string, now: string): (r: Application)
    ensures r.status == Rejected && r.reviewedBy == staffUser
    ensures r.rejectedAt == Some(now) && r.updatedAt == now
    ensures r == a.(status := r.status, reviewedBy := r.reviewedBy, updatedAt := r.updatedAt,
                    rejectedAt := r.rejectedAt)
  {
    a.(status := Rejected, reviewedBy := staffUser, updatedAt := now, rejectedAt := Some(now))
  }

  /** Replacing the record at the first match by one with the same id
      keeps it the first match. */
  lemma FindAfterRecordChange(apps: seq<Application>, changed: seq<Application>, id: string, i: nat)
    requires FindApplicationIndex(apps, id) == Some(i)
    requires |changed| == |apps| && changed[i].id == id
    requires forall j :: 0 <= j < |apps| && j != i ==> changed[j] == apps[j]
    ensures FindApplicationIndex(changed, id) == Some(i)
  {
    assert changed[i].id in AppIds(changed);
  }
}
